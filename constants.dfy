/**
 * The configuration tables the gateway reads from modules whose contents are
 * data: the canonical-path table, the moved-pages table, the locale registry
 * and a few numeric and string constants. Their values are not fixed here;
 * every stage takes them as a `Tables` value.
 */
module Constants {

  /**
   * - `canonicals`: normalised path -> canonical path (CANONICALS).
   * - `redirects`: lower-cased moved path -> new path (REDIRECTS).
   * - `validLocales`: the Map from lower-case code to canonical code, in
   *   insertion order (VALID_LOCALES).
   * - `activeLocales`: lower-case codes of the locales that are built (ACTIVE_LOCALES).
   * - `attachmentExt`: the attachment extensions (ANY_ATTACHMENT_EXT), lower case.
   */
  datatype Tables = Tables(
    canonicals: map<string, string>,
    redirects: map<string, string>,
    validLocales: seq<(string, string)>,
    activeLocales: set<string>,
    defaultLocale: string,
    preferredLocaleCookie: string,
    attachmentExt: seq<string>,
    defaultCountry: string,
    cspValue: string,
    thirtyDays: nat)

  /** The text extensions that always count as assets. */
  const TEXT_EXT: seq<string> := ["html", "json", "svg", "txt", "xml"]

  /** The status every redirect uses when its caller names none. */
  const DEFAULT_REDIRECT_STATUS: nat := 302
}
