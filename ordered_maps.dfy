/** The optional-value wrapper used across the model. */
module Wrappers {
  datatype Option<+T> = None | Some(value: T)
}

/**
 * JavaScript's Map: a sequence of entries in insertion order whose keys are
 * distinct. `Set` replaces the value of an existing key in place and appends a
 * new key at the end, which is what `new Map(entries)` does entry by entry.
 */
module OrderedMaps {
  import opened Wrappers

  predicate DistinctKeys<K(==), V>(m: seq<(K, V)>)
  {
    forall i, j :: 0 <= i < j < |m| ==> m[i].0 != m[j].0
  }

  /** Map.prototype.has */
  predicate Has<K(==), V>(m: seq<(K, V)>, k: K)
  {
    m != [] && (m[0].0 == k || Has(m[1..], k))
  }

  /** Map.prototype.get; `None` stands for `undefined`. */
  function Get<K(==), V>(m: seq<(K, V)>, k: K): (r: Option<V>)
    ensures r.Some? <==> Has(m, k)
  {
    if m == [] then None
    else if m[0].0 == k then Some(m[0].1)
    else Get(m[1..], k)
  }

  /** Map.prototype.set */
  function Set<K(==), V>(m: seq<(K, V)>, k: K, v: V): seq<(K, V)>
  {
    if m == [] then [(k, v)]
    else if m[0].0 == k then [(k, v)] + m[1..]
    else [m[0]] + Set(m[1..], k, v)
  }

  /** [...m.values()] */
  function Values<K(==), V>(m: seq<(K, V)>): (vs: seq<V>)
    ensures |vs| == |m|
    ensures forall i :: 0 <= i < |m| ==> vs[i] == m[i].1
  {
    if m == [] then [] else [m[0].1] + Values(m[1..])
  }

  /** new Map(entries) */
  function FromEntries<K(==), V>(es: seq<(K, V)>): seq<(K, V)>
  {
    if es == [] then [] else Set(FromEntries(es[..|es| - 1]), es[|es| - 1].0, es[|es| - 1].1)
  }

  lemma {:induction false} GetIn<K, V>(m: seq<(K, V)>, k: K)
    requires Has(m, k)
    ensures Get(m, k).value in Values(m)
    ensures exists i :: 0 <= i < |m| && m[i] == (k, Get(m, k).value)
  {
    if m[0].0 != k {
      GetIn(m[1..], k);
      var i :| 0 <= i < |m[1..]| && m[1..][i] == (k, Get(m[1..], k).value);
      assert m[i + 1] == m[1..][i];
    }
  }

  lemma {:induction false} SetHas<K, V>(m: seq<(K, V)>, k: K, v: V, k': K)
    ensures Has(Set(m, k, v), k') <==> Has(m, k') || k' == k
    ensures Get(Set(m, k, v), k') == if k' == k then Some(v) else Get(m, k')
  {
    if m != [] && m[0].0 != k {
      SetHas(m[1..], k, v, k');
      assert Set(m, k, v)[1..] == Set(m[1..], k, v);
    } else if m != [] {
      assert Set(m, k, v)[1..] == m[1..];
    }
  }

  lemma {:induction false} SetValues<K, V>(m: seq<(K, V)>, k: K, v: V, x: V)
    requires x in Values(Set(m, k, v))
    ensures x in Values(m) || x == v
  {
    if m != [] && m[0].0 != k {
      var r := Set(m, k, v);
      assert r == [m[0]] + Set(m[1..], k, v);
      assert Values(r) == [m[0].1] + Values(Set(m[1..], k, v));
      if x != m[0].1 {
        SetValues(m[1..], k, v, x);
        assert Values(m) == [m[0].1] + Values(m[1..]);
      }
    } else if m != [] {
      var r := Set(m, k, v);
      assert Values(r) == [v] + Values(m[1..]);
      assert Values(m) == [m[0].1] + Values(m[1..]);
    }
  }

  /** Every value of `new Map(entries)` is the value of some entry. */
  lemma {:induction false} FromEntriesValues<K, V>(es: seq<(K, V)>, x: V)
    requires x in Values(FromEntries(es))
    ensures exists i :: 0 <= i < |es| && es[i].1 == x
  {
    if es != [] {
      var init := es[..|es| - 1];
      SetValues(FromEntries(init), es[|es| - 1].0, es[|es| - 1].1, x);
      if x != es[|es| - 1].1 {
        FromEntriesValues(init, x);
        var i :| 0 <= i < |init| && init[i].1 == x;
        assert es[i] == init[i];
      }
    }
  }

  /** `new Map(entries).get(k)` is the value of the LAST entry with key k. */
  lemma {:induction false} FromEntriesGet<K, V>(es: seq<(K, V)>, k: K, i: nat)
    requires i < |es| && es[i].0 == k
    requires forall j :: i < j < |es| ==> es[j].0 != k
    ensures Get(FromEntries(es), k) == Some(es[i].1)
  {
    var init := es[..|es| - 1];
    SetHas(FromEntries(init), es[|es| - 1].0, es[|es| - 1].1, k);
    if i < |es| - 1 {
      FromEntriesGet(init, k, i);
    }
  }

  /** A key is in `new Map(entries)` exactly when some entry has it. */
  lemma {:induction false} FromEntriesHas<K, V>(es: seq<(K, V)>, k: K)
    ensures Has(FromEntries(es), k) <==> exists i :: 0 <= i < |es| && es[i].0 == k
  {
    if es != [] {
      var init := es[..|es| - 1];
      SetHas(FromEntries(init), es[|es| - 1].0, es[|es| - 1].1, k);
      FromEntriesHas(init, k);
      if exists i :: 0 <= i < |init| && init[i].0 == k {
        var i :| 0 <= i < |init| && init[i].0 == k;
        assert es[i] == init[i];
      }
      if exists i :: 0 <= i < |es| && es[i].0 == k {
        var i :| 0 <= i < |es| && es[i].0 == k;
        if i < |es| - 1 { assert init[i] == es[i]; }
      }
    }
  }

  /** What `new Map(entries).get(k)` returns is the value of an entry with key k. */
  lemma {:induction false} FromEntriesGetIn<K, V>(es: seq<(K, V)>, k: K)
    requires Has(FromEntries(es), k)
    ensures (k, Get(FromEntries(es), k).value) in es
  {
    var init := es[..|es| - 1];
    SetHas(FromEntries(init), es[|es| - 1].0, es[|es| - 1].1, k);
    if k != es[|es| - 1].0 {
      FromEntriesGetIn(init, k);
      var j :| 0 <= j < |init| && init[j] == (k, Get(FromEntries(init), k).value);
      assert es[j] == init[j];
    }
  }

  /** Every entry of `m.set(k, v)` is an entry of `m` or the new one. */
  lemma {:induction false} SetEntries<K, V>(m: seq<(K, V)>, k: K, v: V, e: (K, V))
    requires e in Set(m, k, v)
    ensures e in m || e == (k, v)
  {
    if m != [] && m[0].0 != k {
      assert Set(m, k, v) == [m[0]] + Set(m[1..], k, v);
      if e != m[0] {
        SetEntries(m[1..], k, v, e);
      }
    } else if m != [] {
      assert Set(m, k, v) == [(k, v)] + m[1..];
    }
  }

  /** Every entry of `new Map(entries)` is one of the entries it was built from. */
  lemma {:induction false} FromEntriesEntries<K, V>(es: seq<(K, V)>, e: (K, V))
    requires e in FromEntries(es)
    ensures e in es
  {
    var init := es[..|es| - 1];
    SetEntries(FromEntries(init), es[|es| - 1].0, es[|es| - 1].1, e);
    if e != es[|es| - 1] {
      FromEntriesEntries(init, e);
    }
  }
}
