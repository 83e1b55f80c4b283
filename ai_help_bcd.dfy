/**
 * The browser-compatibility notes the AI-help script writes into a
 * document: the support predicates over one support statement, the label
 * of a version, and the support string of one browser. Values that
 * JavaScript tests for truthiness keep their JSON shapes here: a missing
 * field is `None`, and the empty string is falsy.
 */
module AiHelpBcd {
  import opened Wrappers
  import opened Strings

  /** A version value of the compatibility data: a string, `true`/`false`, or `null`. */
  datatype VersionValue = VString(s: string) | VBool(b: bool) | VNull

  datatype Notes = NoteText(text: string) | NoteList(items: seq<string>)

  datatype Flag = Flag(flagType: string, name: string, valueToSet: Option<string>)

  /** A simple support statement. */
  datatype SupportItem = SupportItem(
    versionAdded: VersionValue,
    versionRemoved: Option<VersionValue>,
    partialImplementation: bool,
    prefix: Option<string>,
    alternativeName: Option<string>,
    flags: Option<seq<Flag>>,
    notes: Option<Notes>,
    releaseDate: Option<string>)

  datatype Release = Release(status: string)

  /** A browser statement: its name, the name of its preview build, and its releases by version. */
  datatype Browser = Browser(name: string, previewName: Option<string>, releases: map<string, Release>)

  predicate Truthy(v: VersionValue)
  {
    (v.VString? && v.s != "") || v == VBool(true)
  }

  predicate TruthyRemoved(v: Option<VersionValue>)
  {
    v.Some? && Truthy(v.value)
  }

  predicate Filled(s: Option<string>)
  {
    s.Some? && s.value != ""
  }

  /** Notes are truthy when they are a non-empty string or any array. */
  predicate HasNotes(n: Option<Notes>)
  {
    n.Some? && (n.value.NoteList? || n.value.text != "")
  }

  predicate HasMajorLimitation(s: SupportItem)
  {
    s.partialImplementation || Filled(s.alternativeName) || s.flags.Some? || Filled(s.prefix) ||
    TruthyRemoved(s.versionRemoved)
  }

  predicate HasLimitation(s: SupportItem)
  {
    HasMajorLimitation(s) || HasNotes(s.notes)
  }

  predicate IsFullySupportedWithoutLimitation(s: SupportItem)
  {
    Truthy(s.versionAdded) && !HasLimitation(s)
  }

  predicate IsNotSupportedAtAll(s: SupportItem)
  {
    !Truthy(s.versionAdded) && !HasLimitation(s)
  }

  /**
   * A statement is never both fully supported and not supported at all;
   * either verdict means it has no limitation, and a statement without
   * limitation gets exactly one of them.
   */
  lemma SupportVerdicts(s: SupportItem)
    ensures !(IsFullySupportedWithoutLimitation(s) && IsNotSupportedAtAll(s))
    ensures IsFullySupportedWithoutLimitation(s) || IsNotSupportedAtAll(s) <==> !HasLimitation(s)
    ensures HasMajorLimitation(s) ==> HasLimitation(s)
  {
  }

  const PREVIEW_STATUSES: seq<string> := ["beta", "nightly", "planned"]

  /** `"preview"`, or a known release of the browser whose status is beta, nightly or planned. */
  predicate VersionIsPreview(version: VersionValue, browser: Browser)
  {
    version == VString("preview") ||
    (version.VString? && version.s in browser.releases && browser.releases[version.s].status in PREVIEW_STATUSES)
  }

  /** Only `"preview"` and the versions of releases not yet stable are previews. */
  lemma PreviewVersions(browser: Browser, v: string)
    requires v in browser.releases && browser.releases[v].status == "retired"
    ensures VersionIsPreview(VString("preview"), browser)
    ensures !VersionIsPreview(VString(v), browser) <==> v != "preview"
    ensures !VersionIsPreview(VBool(true), browser) && !VersionIsPreview(VNull, browser)
  {
    assert "retired" != "beta" && "retired" != "nightly" && "retired" != "planned";
  }

  /** The range marker of the compatibility data, `≤`. */
  const RANGE_MARKER: char := '\U{2264}'

  /** The marker as the source spells it: the three characters the UTF-8 bytes of `≤` make in Windows-1252. */
  const RANGE_MARKER_AS_WRITTEN: string := "\U{00E2}\U{2030}\U{00A4}"

  /** The label of a version as written: `None` stands for an `undefined` preview name. */
  function LabelAsWritten(version: Option<VersionValue>, browser: Browser): Option<string>
  {
    if version.None? || !version.value.VString? then Some("?")
    else
      var v := version.value.s;
      if StartsWith(v, RANGE_MARKER_AS_WRITTEN) then Some(v[1..])
      else if v == "preview" then browser.previewName
      else Some(v)
  }

  /**
   * As written, a range such as `≤37` keeps its marker, because the test is
   * against the three-character spelling; and a version that did begin with
   * that spelling would lose only its first character of three.
   */
  lemma LabelAsWrittenKeepsRange(browser: Browser, v: string)
    ensures LabelAsWritten(Some(VString([RANGE_MARKER] + v)), browser) == Some([RANGE_MARKER] + v)
    ensures LabelAsWritten(Some(VString(RANGE_MARKER_AS_WRITTEN + v)), browser) == Some("\U{2030}\U{00A4}" + v)
  {
    var w := [RANGE_MARKER] + v;
    assert w[0] != RANGE_MARKER_AS_WRITTEN[0];
    assert !StartsWith(w, RANGE_MARKER_AS_WRITTEN);
    assert w != "preview" by {
      assert w[0] != "preview"[0];
    }
    var u := RANGE_MARKER_AS_WRITTEN + v;
    assert u[..3] == RANGE_MARKER_AS_WRITTEN;
    assert u[1..] == "\U{2030}\U{00A4}" + v;
  }

  /**
   * `labelFromString` with the marker `≤`: a non-string is `?`, a range is
   * shown as its exact version, `preview` is the preview build's name, and
   * any other version is shown as it is.
   */
  function Label(version: Option<VersionValue>, browser: Browser): (r: Option<string>)
    ensures version.None? || !version.value.VString? ==> r == Some("?")
    ensures version.Some? && version.value.VString? && version.value.s != [] && version.value.s[0] == RANGE_MARKER ==>
      r == Some(version.value.s[1..])
    ensures version == Some(VString("preview")) ==> r == browser.previewName
    ensures (version.Some? && version.value.VString? && version.value.s != "preview" &&
      (version.value.s == [] || version.value.s[0] != RANGE_MARKER)) ==> r == Some(version.value.s)
  {
    if version.None? || !version.value.VString? then Some("?")
    else
      var v := version.value.s;
      assert "preview"[0] != RANGE_MARKER;
      if StartsWith(v, [RANGE_MARKER]) then Some(v[1..])
      else if v == "preview" then browser.previewName
      else Some(v)
  }

  /** A range `≤v` is labelled `v`. */
  lemma LabelOfRange(browser: Browser, v: string)
    ensures Label(Some(VString([RANGE_MARKER] + v)), browser) == Some(v)
  {
    assert ([RANGE_MARKER] + v)[1..] == v;
  }

  /**
   * A range reads as the exact version it bounds: `≤v` and `v` get the same
   * label, for every version `v` that is neither `preview` nor a range.
   */
  lemma RangeReadsAsExactVersion(browser: Browser, v: string)
    requires v != "preview" && (v == [] || v[0] != RANGE_MARKER)
    ensures Label(Some(VString([RANGE_MARKER] + v)), browser) == Label(Some(VString(v)), browser) == Some(v)
  {
    LabelOfRange(browser, v);
  }

  /**
   * As written, every string version other than `preview` that does not
   * begin with the three-character marker is shown as it is; this includes
   * every range `≤v`.
   */
  lemma LabelAsWrittenShowsVersion(browser: Browser, v: string)
    requires v != "preview" && !StartsWith(v, RANGE_MARKER_AS_WRITTEN)
    ensures LabelAsWritten(Some(VString(v)), browser) == Some(v)
    ensures LabelAsWritten(Some(VString([RANGE_MARKER] + v)), browser) == Some([RANGE_MARKER] + v)
  {
    LabelAsWrittenKeepsRange(browser, v);
  }

  /** `${value}` */
  function VersionText(v: VersionValue): string
  {
    match v
    case VString(s) => s
    case VBool(b) => if b then "true" else "false"
    case VNull => "null"
  }

  /** A label in a template string; an undefined one reads `undefined`. */
  function LabelText(shown: Option<string>): string
  {
    if shown.Some? then shown.value else "undefined"
  }

  function NotesText(n: Notes): string
  {
    match n
    case NoteText(t) => t
    case NoteList(items) => Join(items, ". ")
  }

  /** Some statement of the browser adds the feature back in the version this one removes it in. */
  predicate ReAdded(support: seq<SupportItem>, removed: VersionValue)
  {
    exists k :: 0 <= k < |support| && support[k].versionAdded == removed
  }

  function RemovedNote(item: SupportItem, support: seq<SupportItem>, browser: Browser): string
  {
    if TruthyRemoved(item.versionRemoved) && !ReAdded(support, item.versionRemoved.value)
    then "Removed in " + LabelText(Label(item.versionRemoved, browser)) + " and later"
    else ""
  }

  function SupportNote(item: SupportItem, browser: Browser): string
  {
    if IsFullySupportedWithoutLimitation(item) && !VersionIsPreview(item.versionAdded, browser) then
      "Full support since version " + VersionText(item.versionAdded) +
        (if Filled(item.releaseDate) then " (released " + item.releaseDate.value + ")" else "")
    else if IsNotSupportedAtAll(item) then "No support"
    else ""
  }

  /**
   * The notes of one support statement, in order, without the empty ones
   * (`null` and the empty string are both dropped by `filter(Boolean)`).
   * `flagsNote` is the prose of `FlagsNote`.
   */
  function ItemNotes(
    item: SupportItem, support: seq<SupportItem>, browser: Browser, flagsNote: (SupportItem, Browser) -> string)
    : (notes: seq<string>)
    ensures forall n :: n in notes ==> n != ""
  {
    NonEmpty([
      RemovedNote(item, support, browser),
      if item.partialImplementation then "Partial support" else "",
      if Filled(item.prefix) then "Implemented with the vendor prefix: " + item.prefix.value else "",
      if Filled(item.alternativeName) then "Alternate name: " + item.alternativeName.value else "",
      if item.flags.Some? then flagsNote(item, browser) else "",
      if HasNotes(item.notes) then NotesText(item.notes.value) else "",
      if VersionIsPreview(item.versionAdded, browser) then "Preview browser support" else "",
      SupportNote(item, browser)])
  }

  /** The notes of the statements `items`, each judged against all of `support`. */
  function AllNotes(
    items: seq<SupportItem>, support: seq<SupportItem>, browser: Browser, flagsNote: (SupportItem, Browser) -> string)
    : seq<string>
  {
    if items == [] then [] else ItemNotes(items[0], support, browser, flagsNote) + AllNotes(items[1..], support, browser, flagsNote)
  }

  /** `buildBCDSupportString`: every note of every statement, joined by `. `. */
  function BuildBCDSupportString(browser: Browser, support: seq<SupportItem>, flagsNote: (SupportItem, Browser) -> string): string
  {
    Join(AllNotes(support, support, browser, flagsNote), ". ")
  }

  /** No note of the support string is empty, so it never holds an empty segment. */
  lemma {:induction false} NotesNeverEmpty(
    items: seq<SupportItem>, support: seq<SupportItem>, browser: Browser, flagsNote: (SupportItem, Browser) -> string)
    ensures forall n :: n in AllNotes(items, support, browser, flagsNote) ==> n != ""
  {
    if items != [] {
      NotesNeverEmpty(items[1..], support, browser, flagsNote);
    }
  }

  /** Blank notes before one note leave that note alone. */
  lemma {:induction false} OnlyLastNote(blanks: seq<string>, x: string)
    requires forall i :: 0 <= i < |blanks| ==> blanks[i] == ""
    requires x != ""
    ensures NonEmpty(blanks + [x]) == [x]
  {
    if blanks == [] {
      assert blanks + [x] == [x];
    } else {
      assert (blanks + [x])[1..] == blanks[1..] + [x];
      OnlyLastNote(blanks[1..], x);
    }
  }

  /** A statement without limitation and not a preview has only its support verdict as a note. */
  lemma NoLimitationNoNotes(
    item: SupportItem, support: seq<SupportItem>, browser: Browser, flagsNote: (SupportItem, Browser) -> string)
    requires !HasLimitation(item) && !VersionIsPreview(item.versionAdded, browser)
    ensures ItemNotes(item, support, browser, flagsNote) ==
      NonEmpty(["", "", "", "", "", "", ""] + [SupportNote(item, browser)])
  {
    assert RemovedNote(item, support, browser) == "";
    assert [RemovedNote(item, support, browser), "", "", "", "", "", "", SupportNote(item, browser)] ==
      ["", "", "", "", "", "", ""] + [SupportNote(item, browser)];
  }

  /** A statement without limitation, without a version and not a preview is shown as `No support` alone. */
  lemma NoSupportAlone(item: SupportItem, browser: Browser, flagsNote: (SupportItem, Browser) -> string)
    requires IsNotSupportedAtAll(item) && !VersionIsPreview(item.versionAdded, browser)
    ensures BuildBCDSupportString(browser, [item], flagsNote) == "No support"
  {
    var blanks := ["", "", "", "", "", "", ""];
    NoLimitationNoNotes(item, [item], browser, flagsNote);
    assert ItemNotes(item, [item], browser, flagsNote) == NonEmpty(blanks + ["No support"]);
    OnlyLastNote(blanks, "No support");
    assert AllNotes([item], [item], browser, flagsNote) == ["No support"] + [];
  }

  /**
   * A statement without limitation, added in a stable version `v` and with
   * no release date, is shown as `Full support since version v` alone.
   */
  lemma FullSupportAlone(item: SupportItem, browser: Browser, flagsNote: (SupportItem, Browser) -> string)
    requires IsFullySupportedWithoutLimitation(item) && !VersionIsPreview(item.versionAdded, browser)
    requires !Filled(item.releaseDate)
    ensures BuildBCDSupportString(browser, [item], flagsNote) ==
      "Full support since version " + VersionText(item.versionAdded)
  {
    var full := "Full support since version " + VersionText(item.versionAdded);
    assert full + "" == full;
    var blanks := ["", "", "", "", "", "", ""];
    NoLimitationNoNotes(item, [item], browser, flagsNote);
    assert ItemNotes(item, [item], browser, flagsNote) == NonEmpty(blanks + [full]);
    OnlyLastNote(blanks, full);
    assert AllNotes([item], [item], browser, flagsNote) == [full] + [];
  }

  /**
   * A removal is not mentioned when another statement adds the feature back
   * in that very version, and a preview version never reads as full support.
   */
  lemma RemovalAndPreviewNotes(item: SupportItem, support: seq<SupportItem>, browser: Browser)
    ensures TruthyRemoved(item.versionRemoved) && ReAdded(support, item.versionRemoved.value) ==>
      RemovedNote(item, support, browser) == ""
    ensures VersionIsPreview(item.versionAdded, browser) ==> SupportNote(item, browser) in {"No support", ""}
    ensures SupportNote(item, browser) == "No support" <==> IsNotSupportedAtAll(item)
  {
    if IsNotSupportedAtAll(item) {
      SupportVerdicts(item);
    }
  }
}
