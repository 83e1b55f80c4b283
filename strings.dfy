/**
 * String helpers shared by the gateway model: the subset of JavaScript's
 * String.prototype that the routing code relies on (toLowerCase, startsWith,
 * endsWith, includes, split on one character, join, global replace of a fixed
 * pattern) and integer-to-decimal conversion for header values.
 *
 * Lower-casing is modelled on ASCII letters only; every other character is
 * left unchanged.
 */
module Strings {

  /** The lower-case form of one character (ASCII A-Z only). */
  function LowerChar(c: char): (r: char)
    ensures 'A' <= c <= 'Z' ==> 'a' <= r <= 'z'
    ensures !('A' <= c <= 'Z') ==> r == c
  {
    if 'A' <= c <= 'Z' then (c as int + 32) as char else c
  }

  /** String.prototype.toLowerCase, character by character. */
  function Lower(s: string): (r: string)
    ensures |r| == |s|
    ensures forall i :: 0 <= i < |s| ==> r[i] == LowerChar(s[i])
  {
    seq(|s|, i requires 0 <= i < |s| => LowerChar(s[i]))
  }

  /** A string without upper-case letters is its own lower-case form. */
  lemma LowerNoUpper(s: string)
    requires forall i :: 0 <= i < |s| ==> !('A' <= s[i] <= 'Z')
    ensures Lower(s) == s
  {
  }

  /**
   * Lower-casing leaves no upper-case letter, and its fixed points are
   * exactly the strings without one.
   */
  lemma LowerFixedPoints(s: string)
    ensures forall i :: 0 <= i < |s| ==> !('A' <= Lower(s)[i] <= 'Z')
    ensures Lower(s) == s <==> forall i :: 0 <= i < |s| ==> !('A' <= s[i] <= 'Z')
  {
    if Lower(s) == s {
      forall i | 0 <= i < |s|
        ensures !('A' <= s[i] <= 'Z')
      {
        assert s[i] == Lower(s)[i];
      }
    }
  }

  lemma LowerIdempotent(s: string)
    ensures Lower(Lower(s)) == Lower(s)
  {
  }

  lemma LowerConcat(a: string, b: string)
    ensures Lower(a + b) == Lower(a) + Lower(b)
  {
  }

  /** A character lower-casing never produces unless it was already there. */
  lemma LowerKeepsAbsent(s: string, c: char)
    requires !('a' <= c <= 'z')
    requires c !in s
    ensures c !in Lower(s)
  {
  }

  predicate StartsWith(s: string, p: string)
  {
    |p| <= |s| && s[..|p|] == p
  }

  predicate EndsWith(s: string, p: string)
  {
    |p| <= |s| && s[|s| - |p|..] == p
  }

  /** String.prototype.includes. */
  predicate Contains(s: string, p: string)
    decreases |s|
  {
    StartsWith(s, p) || (s != [] && Contains(s[1..], p))
  }

  lemma ContainsConcatRight(a: string, b: string, p: string)
    requires Contains(b, p)
    ensures Contains(a + b, p)
    decreases |a|
  {
    if a == [] {
      assert a + b == b;
    } else {
      assert (a + b)[1..] == a[1..] + b;
      ContainsConcatRight(a[1..], b, p);
    }
  }

  /** The position of the first occurrence of a character, if any. */
  function IndexOf(s: string, c: char): (r: int)
    ensures -1 <= r < |s|
    ensures r == -1 <==> c !in s
    ensures r >= 0 ==> s[r] == c && c !in s[..r]
  {
    if s == [] then -1
    else if s[0] == c then 0
    else var k := IndexOf(s[1..], c); if k < 0 then -1 else k + 1
  }

  /** The first occurrence is the position before which the character is absent. */
  lemma IndexOfAt(s: string, c: char, k: nat)
    requires k < |s| && s[k] == c && c !in s[..k]
    ensures IndexOf(s, c) == k
  {
    assert s[k] in s;
    assert forall j :: 0 <= j < k ==> s[..k][j] == s[j];
    var r := IndexOf(s, c);
    assert forall j :: 0 <= j < r ==> s[..r][j] == s[j];
  }

  /** String.prototype.split with a one-character separator, without limit. */
  function Split(s: string, c: char): (parts: seq<string>)
    ensures |parts| >= 1
    ensures forall i :: 0 <= i < |parts| ==> c !in parts[i]
  {
    if s == [] then [""]
    else
      var rest := Split(s[1..], c);
      if s[0] == c then [""] + rest else [[s[0]] + rest[0]] + rest[1..]
  }

  /** Array.prototype.join. */
  function Join(parts: seq<string>, sep: string): string
  {
    if parts == [] then ""
    else if |parts| == 1 then parts[0]
    else parts[0] + sep + Join(parts[1..], sep)
  }

  lemma JoinCons(x: string, xs: seq<string>, sep: string)
    requires xs != []
    ensures Join([x] + xs, sep) == x + sep + Join(xs, sep)
  {
    assert ([x] + xs)[1..] == xs;
  }

  /** Joining the pieces of a split with the separator gives the string back. */
  lemma {:induction false} JoinSplit(s: string, c: char)
    ensures Join(Split(s, c), [c]) == s
    decreases |s|
  {
    if s != [] {
      var rest := Split(s[1..], c);
      JoinSplit(s[1..], c);
      if s[0] == c {
        JoinCons("", rest, [c]);
      } else {
        var first := [s[0]] + rest[0];
        if |rest| == 1 {
        } else {
          JoinCons(first, rest[1..], [c]);
          JoinCons(rest[0], rest[1..], [c]);
          assert rest == [rest[0]] + rest[1..];
        }
      }
    }
  }

  /** Splitting a join of separator-free pieces gives the pieces back. */
  lemma {:induction false} SplitJoin(parts: seq<string>, c: char)
    requires |parts| >= 1
    requires forall i :: 0 <= i < |parts| ==> c !in parts[i]
    ensures Split(Join(parts, [c]), c) == parts
    decreases |parts|, |parts[0]|
  {
    if |parts| == 1 {
      SplitNoSep(parts[0], c);
    } else if parts[0] == "" {
      JoinCons("", parts[1..], [c]);
      SplitJoin(parts[1..], c);
      assert Join(parts, [c]) == [c] + Join(parts[1..], [c]);
      assert (Join(parts, [c]))[1..] == Join(parts[1..], [c]);
      assert parts == [""] + parts[1..];
    } else {
      var x := parts[0];
      var tail := [x[1..]] + parts[1..];
      assert tail[1..] == parts[1..];
      JoinCons(x, parts[1..], [c]);
      JoinCons(x[1..], parts[1..], [c]);
      assert c !in x[1..] by { assert forall k :: 0 <= k < |x[1..]| ==> x[1..][k] == x[k + 1]; }
      assert forall i :: 0 <= i < |tail| ==> c !in tail[i];
      SplitJoin(tail, c);
      var j := Join(parts, [c]);
      assert j == [x[0]] + Join(tail, [c]);
      assert j[1..] == Join(tail, [c]);
      assert j[0] == x[0] && x[0] != c;
      assert x == [x[0]] + x[1..];
      assert parts == [[x[0]] + x[1..]] + parts[1..];
    }
  }

  /** A character absent from every piece and from the separator is absent from the join. */
  lemma {:induction false} JoinAvoids(parts: seq<string>, sep: string, c: char)
    requires c !in sep
    requires forall i :: 0 <= i < |parts| ==> c !in parts[i]
    ensures c !in Join(parts, sep)
  {
    if |parts| > 1 {
      JoinAvoids(parts[1..], sep, c);
      assert c !in parts[0];
    }
  }

  /** Splitting at the first separator: the piece before it, then the split of the rest. */
  lemma SplitFirst(a: string, c: char, b: string)
    requires c !in a
    ensures Split(a + [c] + b, c) == [a] + Split(b, c)
  {
    var bs := Split(b, c);
    JoinSplit(b, c);
    JoinCons(a, bs, [c]);
    SplitJoin([a] + bs, c);
  }

  lemma {:induction false} SplitNoSep(s: string, c: char)
    requires c !in s
    ensures Split(s, c) == [s]
    decreases |s|
  {
    if s != [] {
      assert c !in s[1..];
      SplitNoSep(s[1..], c);
      assert s == [s[0]] + s[1..];
    }
  }

  /**
   * String.prototype.replace with a global pattern that matches the literal
   * `pat`: occurrences are replaced left to right, without overlap.
   */
  function ReplaceAll(s: string, pat: string, rep: string): string
    requires pat != []
    decreases |s|
  {
    if |s| < |pat| then s
    else if StartsWith(s, pat) then rep + ReplaceAll(s[|pat|..], pat, rep)
    else [s[0]] + ReplaceAll(s[1..], pat, rep)
  }

  /** After replacing a one-character pattern, that character is gone. */
  lemma {:induction false} ReplaceAllRemoves(s: string, c: char, rep: string)
    requires c !in rep
    ensures c !in ReplaceAll(s, [c], rep)
    decreases |s|
  {
    if |s| >= 1 {
      ReplaceAllRemoves(s[|[c]|..], c, rep);
      ReplaceAllRemoves(s[1..], c, rep);
    }
  }

  /** Replacing never introduces a character that neither input nor replacement holds. */
  lemma {:induction false} ReplaceAllKeepsAbsent(s: string, pat: string, rep: string, d: char)
    requires pat != []
    requires d !in s && d !in rep
    ensures d !in ReplaceAll(s, pat, rep)
    decreases |s|
  {
    if |s| >= |pat| {
      if StartsWith(s, pat) {
        assert d !in s[|pat|..];
        ReplaceAllKeepsAbsent(s[|pat|..], pat, rep, d);
      } else {
        assert d !in s[1..];
        ReplaceAllKeepsAbsent(s[1..], pat, rep, d);
      }
    }
  }

  lemma StartsWithLonger(a: string, rest: string, pat: string)
    requires |pat| <= |a|
    ensures StartsWith(a + rest, pat) <==> StartsWith(a, pat)
  {
    assert (a + rest)[..|pat|] == a[..|pat|];
  }

  /** A separator character the pattern cannot match is copied through. */
  lemma {:induction false} ReplaceAllAround(a: string, c: char, b: string, pat: string, rep: string)
    requires pat != [] && c !in pat
    ensures ReplaceAll(a + [c] + b, pat, rep) == ReplaceAll(a, pat, rep) + [c] + ReplaceAll(b, pat, rep)
    decreases |a|
  {
    if a == [] {
      ReplaceAllSeparatorFirst(c, b, pat, rep);
      assert a + [c] + b == [c] + b;
    } else if |pat| > |a| {
      AroundShortPrefix(a, c, b, pat, rep);
    } else if StartsWith(a, pat) {
      var s := a + [c] + b;
      StartsWithLonger(a, [c] + b, pat);
      assert s == a + ([c] + b);
      assert s[|pat|..] == a[|pat|..] + [c] + b;
      ReplaceAllAround(a[|pat|..], c, b, pat, rep);
    } else {
      var s := a + [c] + b;
      StartsWithLonger(a, [c] + b, pat);
      assert s == a + ([c] + b);
      assert s[1..] == a[1..] + [c] + b;
      ReplaceAllAround(a[1..], c, b, pat, rep);
    }
  }

  lemma {:induction false} AroundShortPrefix(a: string, c: char, b: string, pat: string, rep: string)
    requires pat != [] && c !in pat
    requires a != [] && |pat| > |a|
    ensures ReplaceAll(a + [c] + b, pat, rep) == a + [c] + ReplaceAll(b, pat, rep)
    decreases |a|
  {
    var s := a + [c] + b;
    if |s| >= |pat| {
      assert s[..|pat|] != pat by {
        assert s[..|pat|][|a|] == c;
        assert pat[|a|] in pat;
      }
      ReplaceAllSkip(s, pat, rep);
      var t := a[1..];
      assert s[1..] == t + [c] + b;
      if t == [] {
        ReplaceAllSeparatorFirst(c, b, pat, rep);
        assert t + [c] + b == [c] + b;
      } else {
        AroundShortPrefix(t, c, b, pat, rep);
      }
      assert a == [a[0]] + t;
    } else {
      ReplaceAllShort(s, pat, rep);
      ReplaceAllShort(b, pat, rep);
    }
  }

  lemma ReplaceAllShort(s: string, pat: string, rep: string)
    requires pat != [] && |s| < |pat|
    ensures ReplaceAll(s, pat, rep) == s
  {
  }

  lemma ReplaceAllSkip(s: string, pat: string, rep: string)
    requires pat != [] && |s| >= |pat| && s[..|pat|] != pat
    ensures ReplaceAll(s, pat, rep) == [s[0]] + ReplaceAll(s[1..], pat, rep)
  {
  }

  lemma ReplaceAllSeparatorFirst(c: char, b: string, pat: string, rep: string)
    requires pat != [] && c !in pat
    ensures ReplaceAll([c] + b, pat, rep) == [c] + ReplaceAll(b, pat, rep)
  {
    var s := [c] + b;
    if |s| >= |pat| {
      assert s[0] == c;
      assert s[..|pat|][0] == c;
      assert s[1..] == b;
    }
  }

  /** A pattern whose first character is absent from the text never matches. */
  lemma {:induction false} ReplaceAllNoMatch(s: string, pat: string, rep: string)
    requires pat != [] && pat[0] !in s
    ensures ReplaceAll(s, pat, rep) == s
    decreases |s|
  {
    if |s| >= |pat| {
      assert s[0] != pat[0];
      assert s[..|pat|][0] == s[0];
      assert pat[0] !in s[1..];
      ReplaceAllNoMatch(s[1..], pat, rep);
      assert s == [s[0]] + s[1..];
    }
  }

  /** A prefix free of the pattern's first character is copied through. */
  lemma {:induction false} ReplaceAllPrefixFree(a: string, x: string, pat: string, rep: string)
    requires pat != [] && pat[0] !in a
    ensures ReplaceAll(a + x, pat, rep) == a + ReplaceAll(x, pat, rep)
    decreases |a|
  {
    if a == [] {
      assert a + x == x;
    } else {
      var s := a + x;
      if |s| < |pat| {
        ReplaceAllShort(s, pat, rep);
        ReplaceAllShort(x, pat, rep);
      } else {
        assert s[..|pat|][0] == a[0] && a[0] != pat[0];
        ReplaceAllSkip(s, pat, rep);
        assert s[1..] == a[1..] + x;
        assert pat[0] !in a[1..];
        ReplaceAllPrefixFree(a[1..], x, pat, rep);
        calc {
          ReplaceAll(s, pat, rep);
          [a[0]] + ReplaceAll(a[1..] + x, pat, rep);
          [a[0]] + (a[1..] + ReplaceAll(x, pat, rep));
          ([a[0]] + a[1..]) + ReplaceAll(x, pat, rep);
          { assert a == [a[0]] + a[1..]; }
          a + ReplaceAll(x, pat, rep);
        }
      }
    }
  }

  /** An occurrence at the very start is replaced. */
  lemma ReplaceAllAtStart(x: string, pat: string, rep: string)
    requires pat != []
    ensures ReplaceAll(pat + x, pat, rep) == rep + ReplaceAll(x, pat, rep)
  {
    assert (pat + x)[..|pat|] == pat;
    assert (pat + x)[|pat|..] == x;
  }

  /** The string with `f` applied to every element. */
  function MapStrings(f: string -> string, xs: seq<string>): (ys: seq<string>)
    ensures |ys| == |xs|
    ensures forall i :: 0 <= i < |xs| ==> ys[i] == f(xs[i])
  {
    seq(|xs|, i requires 0 <= i < |xs| => f(xs[i]))
  }

  /** `xs.filter(Boolean)` on strings: the non-empty ones, in order. */
  function NonEmpty(xs: seq<string>): (ys: seq<string>)
    ensures forall y :: y in ys ==> y != "" && y in xs
    ensures forall x :: x in xs && x != "" ==> x in ys
  {
    if xs == [] then []
    else if xs[0] == "" then NonEmpty(xs[1..])
    else [xs[0]] + NonEmpty(xs[1..])
  }

  /**
   * String.prototype.replace with a string pattern: only the first
   * occurrence is replaced.
   */
  function ReplaceFirst(s: string, pat: string, rep: string): (r: string)
    decreases |s|
  {
    if StartsWith(s, pat) then rep + s[|pat|..]
    else if s == [] then s
    else [s[0]] + ReplaceFirst(s[1..], pat, rep)
  }

  /** The decimal digits of a natural number. */
  function NatToString(n: nat): (r: string)
    ensures |r| >= 1
    ensures forall i :: 0 <= i < |r| ==> '0' <= r[i] <= '9'
    decreases n
  {
    var d := ['0' + (n % 10) as char];
    if n < 10 then d else NatToString(n / 10) + d
  }

  /** Different numbers print differently: the decimal text determines the number. */
  lemma {:induction false} NatToStringInjective(a: nat, b: nat)
    requires NatToString(a) == NatToString(b)
    ensures a == b
    decreases a
  {
    var r := NatToString(a);
    assert r[|r| - 1] == '0' + (a % 10) as char;
    assert r[|r| - 1] == '0' + (b % 10) as char;
    if a >= 10 && b >= 10 {
      assert NatToString(a / 10) == r[..|r| - 1] == NatToString(b / 10);
      NatToStringInjective(a / 10, b / 10);
    }
  }
}
