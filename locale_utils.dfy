/**
 * Choosing a locale for a request: the preferred-locale cookie when it names
 * a known locale, otherwise the Accept-Language negotiation over the
 * candidate locales, otherwise a fallback.
 *
 * `cookie.parse` is the parameter `parse`, and
 * `acceptLanguageParser.pick(list, header, {loose: true})` is the parameter
 * `pick` (`None` standing for its `null`).
 */
module LocaleUtils {
  import opened Wrappers
  import opened Strings
  import opened Constants
  import opened Http
  import opened OrderedMaps

  /** The `locales` option: a Map from lower-case code to code, or a list of codes. */
  datatype Locales = LocaleMap(entries: seq<(string, string)>) | LocaleList(codes: seq<string>)

  /** Each code keyed by its lower-case form. */
  function KeyedByLower(codes: seq<string>): (es: seq<(string, string)>)
    ensures |es| == |codes|
    ensures forall i :: 0 <= i < |codes| ==> es[i] == (Lower(codes[i]), codes[i])
  {
    seq(|codes|, i requires 0 <= i < |codes| => (Lower(codes[i]), codes[i]))
  }

  /** `validLocalesMap`: the Map itself, or `new Map(list.map(l => [l.toLowerCase(), l]))`. */
  function LocaleEntries(l: Locales): seq<(string, string)>
  {
    match l
    case LocaleMap(m) => m
    case LocaleList(codes) => FromEntries(KeyedByLower(codes))
  }

  /** `values.reduce((reduced, v) => Object.assign(reduced, parse(v)), {})` */
  function MergeCookies(values: seq<string>, parse: string -> map<string, string>): map<string, string>
  {
    if values == [] then map[]
    else MergeCookies(values[..|values| - 1], parse) + parse(values[|values| - 1])
  }

  /** `extractCookiesFromHeaders`: the cookies of all Cookie headers. */
  function ExtractCookies(headers: map<string, HeaderValue>, parse: string -> map<string, string>): map<string, string>
  {
    if "cookie" !in headers then map[]
    else match headers["cookie"]
      case Text(v) => if v == "" then map[] else MergeCookies([v], parse)
      case Entries(vs) => MergeCookies(vs, parse)
  }

  /** A cookie is known exactly when some header defines it. */
  lemma {:induction false} MergedCookieNames(values: seq<string>, parse: string -> map<string, string>, name: string)
    ensures name in MergeCookies(values, parse) <==> exists i :: 0 <= i < |values| && name in parse(values[i])
  {
    if values != [] {
      var init := values[..|values| - 1];
      MergedCookieNames(init, parse, name);
      if exists i :: 0 <= i < |init| && name in parse(init[i]) {
        var i :| 0 <= i < |init| && name in parse(init[i]);
        assert values[i] == init[i];
      }
      if exists i :: 0 <= i < |values| && name in parse(values[i]) {
        var i :| 0 <= i < |values| && name in parse(values[i]);
        if i < |values| - 1 { assert init[i] == values[i]; }
      }
    }
  }

  /** A later header overrides an earlier one for the same cookie name. */
  lemma {:induction false} LaterCookieWins(values: seq<string>, parse: string -> map<string, string>, name: string, i: nat)
    requires i < |values| && name in parse(values[i])
    requires forall j :: i < j < |values| ==> name !in parse(values[j])
    ensures name in MergeCookies(values, parse)
    ensures MergeCookies(values, parse)[name] == parse(values[i])[name]
  {
    var init := values[..|values| - 1];
    if i < |values| - 1 {
      assert values[i] == init[i];
      forall j | i < j < |init| ensures name !in parse(init[j]) { assert init[j] == values[j]; }
      LaterCookieWins(init, parse, name, i);
    }
  }

  /**
   * `getAcceptLanguage`: a plain header is used as it is; in the list form
   * the first entry's value, and `null` (`None`) when there is none.
   */
  function AcceptLanguage(headers: map<string, HeaderValue>): (r: Option<string>)
    ensures "accept-language" !in headers ==> r == None
    ensures "accept-language" in headers && headers["accept-language"].Text? ==>
      r == Some(headers["accept-language"].value)
    ensures "accept-language" in headers && headers["accept-language"].Entries? ==>
      r == (if headers["accept-language"].values == [] then None else Some(headers["accept-language"].values[0]))
  {
    if "accept-language" !in headers then None
    else match headers["accept-language"]
      case Text(v) => Some(v)
      case Entries(vs) => if vs == [] then None else Some(vs[0])
  }

  /**
   * The language is read the same whether the header is a plain string or a
   * list whose first entry is that string; an absent header or an empty list
   * gives none.
   */
  lemma AcceptLanguageEitherForm(headers: map<string, HeaderValue>, v: string, rest: seq<string>)
    ensures AcceptLanguage(headers["accept-language" := Entries([v] + rest)]) ==
      AcceptLanguage(headers["accept-language" := Text(v)]) == Some(v)
    ensures AcceptLanguage(headers["accept-language" := Entries([])]) ==
      AcceptLanguage(headers - {"accept-language"}) == None
  {
  }

  /** `getLocale(request, {fallback, locales})` */
  function GetLocale(
    t: Tables, headers: map<string, HeaderValue>, fallback: string, locales: Locales,
    parse: string -> map<string, string>, pick: (seq<string>, string) -> Option<string>): string
  {
    var m := LocaleEntries(locales);
    var cookies := ExtractCookies(headers, parse);
    var name := t.preferredLocaleCookie;
    if name in cookies && cookies[name] != "" && Has(m, Lower(cookies[name])) then
      Get(m, Lower(cookies[name])).value
    else
      var value := AcceptLanguage(headers);
      if value.Some? && value.value != "" then
        var picked := pick(Values(m), value.value);
        if picked.Some? && picked.value != "" then picked.value else fallback
      else fallback
  }

  /** A cookie naming a candidate locale, in any letter case, wins with its mapped spelling. */
  lemma CookieWins(
    t: Tables, headers: map<string, HeaderValue>, fallback: string, locales: Locales,
    parse: string -> map<string, string>, pick: (seq<string>, string) -> Option<string>)
    requires t.preferredLocaleCookie in ExtractCookies(headers, parse)
    requires ExtractCookies(headers, parse)[t.preferredLocaleCookie] != ""
    requires Has(LocaleEntries(locales), Lower(ExtractCookies(headers, parse)[t.preferredLocaleCookie]))
    ensures GetLocale(t, headers, fallback, locales, parse, pick) ==
      Get(LocaleEntries(locales), Lower(ExtractCookies(headers, parse)[t.preferredLocaleCookie])).value
  {
  }

  /** Without a usable cookie the negotiated locale is used, and failing that the fallback. */
  lemma NegotiationOrFallback(
    t: Tables, headers: map<string, HeaderValue>, fallback: string, locales: Locales,
    parse: string -> map<string, string>, pick: (seq<string>, string) -> Option<string>)
    requires t.preferredLocaleCookie !in ExtractCookies(headers, parse)
    ensures AcceptLanguage(headers).None? ==> GetLocale(t, headers, fallback, locales, parse, pick) == fallback
    ensures var v := AcceptLanguage(headers);
      var p := if v.Some? then pick(Values(LocaleEntries(locales)), v.value) else None;
      v.Some? && v.value != "" && p.Some? && p.value != "" ==>
        GetLocale(t, headers, fallback, locales, parse, pick) == p.value
  {
  }

  /**
   * The chosen locale is a value of the candidate Map, or the fallback,
   * provided the picker only ever returns members of the list it is given.
   */
  lemma GetLocaleIsCandidate(
    t: Tables, headers: map<string, HeaderValue>, fallback: string, locales: Locales,
    parse: string -> map<string, string>, pick: (seq<string>, string) -> Option<string>)
    requires forall list, v :: pick(list, v).Some? ==> pick(list, v).value in list
    ensures var r := GetLocale(t, headers, fallback, locales, parse, pick);
      r in Values(LocaleEntries(locales)) || r == fallback
  {
    var m := LocaleEntries(locales);
    var cookies := ExtractCookies(headers, parse);
    var name := t.preferredLocaleCookie;
    if name in cookies && cookies[name] != "" && Has(m, Lower(cookies[name])) {
      GetIn(m, Lower(cookies[name]));
    }
  }

  /** Every value of a Map built from a list of codes is one of those codes. */
  lemma ListValuesAreCodes(codes: seq<string>, x: string)
    requires x in Values(LocaleEntries(LocaleList(codes)))
    ensures x in codes
  {
    FromEntriesValues(KeyedByLower(codes), x);
  }

  /** A key found in a Map built from a list of codes gives a code of the list spelled with that key. */
  lemma ListLookupIsCode(codes: seq<string>, k: string)
    requires Has(LocaleEntries(LocaleList(codes)), k)
    ensures Get(LocaleEntries(LocaleList(codes)), k).value in codes
    ensures Lower(Get(LocaleEntries(LocaleList(codes)), k).value) == k
  {
    var es := KeyedByLower(codes);
    FromEntriesGetIn(es, k);
    var v := Get(FromEntries(es), k).value;
    var i :| 0 <= i < |es| && es[i] == (k, v);
  }

  /** A list of codes is keyed by lower-cased code: each code is found under its lower-case form. */
  lemma ListKeyedByLowerCase(codes: seq<string>, i: nat)
    requires i < |codes|
    requires forall j :: i < j < |codes| ==> Lower(codes[j]) != Lower(codes[i])
    ensures Get(LocaleEntries(LocaleList(codes)), Lower(codes[i])) == Some(codes[i])
  {
    FromEntriesGet(KeyedByLower(codes), Lower(codes[i]), i);
  }

  /** `isValidLocale`; `None` stands for an argument that is not a string. */
  predicate IsValidLocale(t: Tables, locale: Option<string>)
  {
    locale.Some? && Has(t.validLocales, Lower(locale.value))
  }

  /** Validity does not depend on letter case. */
  lemma IsValidLocaleIgnoresCase(t: Tables, s: string)
    ensures IsValidLocale(t, Some(s)) <==> IsValidLocale(t, Some(Lower(s)))
    ensures !IsValidLocale(t, None)
  {
    LowerIdempotent(s);
  }
}
