/**
 * The decisions of the AI-help embedding script: which built documents need
 * a full update (their text changed), a formatting update or a missing
 * embedding, which stored documents are deleted, and how the stored
 * documents are paged out of the database. The database, the embedding API,
 * the crawl of the build output and SHA-256 are outside the model: the
 * stored rows and the built documents are values, and the hash is a
 * function parameter.
 */
module AiHelp {
  import opened Wrappers
  import OM = OrderedMaps

  const EMBEDDING_MODEL := "text-embedding-3-small"
  const EMBEDDING_MODEL_NEXT := "text-embedding-3-small"
  const PAGE_SIZE := 1000

  /** A stored document, as `fetchAllExistingDocs` reads it. */
  datatype IndexedDoc = IndexedDoc(
    id: int, mdnUrl: string, title: string, tokenCount: Option<int>,
    hasEmbedding: bool, hasEmbeddingNext: bool, markdownHash: string, textHash: string)

  /** A document of the build output. */
  datatype BuiltDoc = BuiltDoc(mdnUrl: string, title: string, titleShort: string, markdown: string, text: string)

  /** A full update: the document with both hashes. */
  datatype Doc = Doc(
    mdnUrl: string, title: string, titleShort: string, markdown: string, markdownHash: string,
    text: string, textHash: string)

  datatype FormattingUpdate = FormattingUpdate(
    mdnUrl: string, title: string, titleShort: string, markdown: string, markdownHash: string)

  datatype EmbeddingUpdate = EmbeddingUpdate(mdnUrl: string, text: string, hasEmbedding: bool, hasEmbeddingNext: bool)

  /** What one built document contributes. */
  datatype Change =
    | FullUpdate(doc: Doc)
    | Unchanged(formatting: Option<FormattingUpdate>, embedding: Option<EmbeddingUpdate>)

  /** `createHash("sha256").update(s).digest("base64")` */
  type Hash = string -> string

  function Entries(existing: seq<IndexedDoc>): (es: seq<(string, IndexedDoc)>)
    ensures |es| == |existing|
    ensures forall i :: 0 <= i < |existing| ==> es[i] == (existing[i].mdnUrl, existing[i])
  {
    seq(|existing|, i requires 0 <= i < |existing| => (existing[i].mdnUrl, existing[i]))
  }

  /** `existingDocByUrl`: the stored documents keyed by URL; of two with one URL the later wins. */
  function ByUrl(existing: seq<IndexedDoc>): seq<(string, IndexedDoc)>
  {
    OM.FromEntries(Entries(existing))
  }

  /**
   * A URL is indexed exactly when some stored document has it, and it finds
   * the last stored document with that URL.
   */
  lemma StoredDocFoundByUrl(existing: seq<IndexedDoc>, url: string, i: nat)
    requires i < |existing| && existing[i].mdnUrl == url
    requires forall j :: i < j < |existing| ==> existing[j].mdnUrl != url
    ensures OM.Get(ByUrl(existing), url) == Some(existing[i])
    ensures forall u :: OM.Has(ByUrl(existing), u) <==> exists k :: 0 <= k < |existing| && existing[k].mdnUrl == u
  {
    var es := Entries(existing);
    OM.FromEntriesGet(es, url, i);
    forall u
      ensures OM.Has(ByUrl(existing), u) <==> exists k :: 0 <= k < |existing| && existing[k].mdnUrl == u
    {
      OM.FromEntriesHas(es, u);
    }
  }

  /** The text of a built document differs from the stored one, or nothing is stored under its URL. */
  predicate TextChanged(stored: Option<IndexedDoc>, d: BuiltDoc, hash: Hash)
  {
    stored.None? || stored.value.textHash != hash(d.text)
  }

  function FullDoc(d: BuiltDoc, hash: Hash): Doc
  {
    Doc(d.mdnUrl, d.title, d.titleShort, d.markdown, hash(d.markdown), d.text, hash(d.text))
  }

  function Formatting(d: BuiltDoc, hash: Hash): FormattingUpdate
  {
    FormattingUpdate(d.mdnUrl, d.title, d.titleShort, d.markdown, hash(d.markdown))
  }

  /** How the loop of `updateEmbeddings` classifies one built document. */
  function Classify(stored: Option<IndexedDoc>, d: BuiltDoc, updateFormatting: bool, hash: Hash): Change
  {
    var textHash := hash(d.text);
    var markdownHash := hash(d.markdown);
    if stored == None || stored.value.textHash != textHash then
      FullUpdate(Doc(d.mdnUrl, d.title, d.titleShort, d.markdown, markdownHash, d.text, textHash))
    else
      var e := stored.value;
      Unchanged(
        if updateFormatting || e.markdownHash != markdownHash
        then Some(FormattingUpdate(d.mdnUrl, d.title, d.titleShort, d.markdown, markdownHash))
        else None,
        if !e.hasEmbedding || (!e.hasEmbeddingNext) != (EMBEDDING_MODEL_NEXT == "")
        then Some(EmbeddingUpdate(d.mdnUrl, d.text, e.hasEmbedding, e.hasEmbeddingNext))
        else None)
  }

  function ChangeOf(byUrl: seq<(string, IndexedDoc)>, d: BuiltDoc, updateFormatting: bool, hash: Hash): Change
  {
    Classify(OM.Get(byUrl, d.mdnUrl), d, updateFormatting, hash)
  }

  /** The full updates of a run over `docs`, in order. */
  function Updates(byUrl: seq<(string, IndexedDoc)>, docs: seq<BuiltDoc>, updateFormatting: bool, hash: Hash): seq<Doc>
  {
    if docs == [] then []
    else
      var c := ChangeOf(byUrl, docs[|docs| - 1], updateFormatting, hash);
      Updates(byUrl, docs[..|docs| - 1], updateFormatting, hash) + (if c.FullUpdate? then [c.doc] else [])
  }

  /** The formatting updates of a run over `docs`, in order. */
  function FormattingUpdates(
    byUrl: seq<(string, IndexedDoc)>, docs: seq<BuiltDoc>, updateFormatting: bool, hash: Hash): seq<FormattingUpdate>
  {
    if docs == [] then []
    else
      var c := ChangeOf(byUrl, docs[|docs| - 1], updateFormatting, hash);
      FormattingUpdates(byUrl, docs[..|docs| - 1], updateFormatting, hash) +
        (if c.Unchanged? && c.formatting.Some? then [c.formatting.value] else [])
  }

  /** The embedding updates of a run over `docs`, in order. */
  function EmbeddingUpdates(
    byUrl: seq<(string, IndexedDoc)>, docs: seq<BuiltDoc>, updateFormatting: bool, hash: Hash): seq<EmbeddingUpdate>
  {
    if docs == [] then []
    else
      var c := ChangeOf(byUrl, docs[|docs| - 1], updateFormatting, hash);
      EmbeddingUpdates(byUrl, docs[..|docs| - 1], updateFormatting, hash) +
        (if c.Unchanged? && c.embedding.Some? then [c.embedding.value] else [])
  }

  function Urls(docs: seq<BuiltDoc>): set<string>
  {
    set d | d in docs :: d.mdnUrl
  }

  /** `[...existingDocByUrl.entries()].filter(([key]) => !seenUrls.has(key)).map(([, value]) => value)` */
  function Deletions(byUrl: seq<(string, IndexedDoc)>, seen: set<string>): seq<IndexedDoc>
  {
    if byUrl == [] then []
    else (if byUrl[0].0 !in seen then [byUrl[0].1] else []) + Deletions(byUrl[1..], seen)
  }

  /**
   * The loop of `updateEmbeddings` over the built documents, and the
   * deletion set computed after it.
   */
  method DetermineChanges(existing: seq<IndexedDoc>, built: seq<BuiltDoc>, updateFormatting: bool, hash: Hash)
    returns (updates: seq<Doc>, formattingUpdates: seq<FormattingUpdate>, embeddingUpdates: seq<EmbeddingUpdate>,
      seenUrls: set<string>, deletions: seq<IndexedDoc>)
    ensures updates == Updates(ByUrl(existing), built, updateFormatting, hash)
    ensures formattingUpdates == FormattingUpdates(ByUrl(existing), built, updateFormatting, hash)
    ensures embeddingUpdates == EmbeddingUpdates(ByUrl(existing), built, updateFormatting, hash)
    ensures seenUrls == Urls(built)
    ensures deletions == Deletions(ByUrl(existing), Urls(built))
  {
    var existingDocByUrl := ByUrl(existing);
    updates, formattingUpdates, embeddingUpdates, seenUrls := [], [], [], {};
    var i := 0;
    while i < |built|
      invariant 0 <= i <= |built|
      invariant updates == Updates(existingDocByUrl, built[..i], updateFormatting, hash)
      invariant formattingUpdates == FormattingUpdates(existingDocByUrl, built[..i], updateFormatting, hash)
      invariant embeddingUpdates == EmbeddingUpdates(existingDocByUrl, built[..i], updateFormatting, hash)
      invariant seenUrls == Urls(built[..i])
    {
      var d := built[i];
      seenUrls := seenUrls + {d.mdnUrl};
      var existingDoc := OM.Get(existingDocByUrl, d.mdnUrl);
      var textHash := hash(d.text);
      var markdownHash := hash(d.markdown);
      if existingDoc == None || existingDoc.value.textHash != textHash {
        updates := updates + [Doc(d.mdnUrl, d.title, d.titleShort, d.markdown, markdownHash, d.text, textHash)];
      } else {
        if updateFormatting || existingDoc.value.markdownHash != markdownHash {
          formattingUpdates := formattingUpdates + [FormattingUpdate(d.mdnUrl, d.title, d.titleShort, d.markdown, markdownHash)];
        }
        if !existingDoc.value.hasEmbedding || (!existingDoc.value.hasEmbeddingNext) != (EMBEDDING_MODEL_NEXT == "") {
          embeddingUpdates := embeddingUpdates +
            [EmbeddingUpdate(d.mdnUrl, d.text, existingDoc.value.hasEmbedding, existingDoc.value.hasEmbeddingNext)];
        }
      }
      ListsGrow(existingDocByUrl, built[..i], d, updateFormatting, hash);
      assert built[..i + 1] == built[..i] + [d];
      i := i + 1;
    }
    assert built[..|built|] == built;
    deletions := Deletions(existingDocByUrl, seenUrls);
  }

  /** `x` is the full update of the built document `d`. */
  predicate IsFullUpdateOf(byUrl: seq<(string, IndexedDoc)>, d: BuiltDoc, hash: Hash, x: Doc)
  {
    TextChanged(OM.Get(byUrl, d.mdnUrl), d, hash) && x == FullDoc(d, hash)
  }

  /** `x` is the formatting update of `d`: text unchanged, and formatting forced or markdown changed. */
  predicate IsFormattingUpdateOf(byUrl: seq<(string, IndexedDoc)>, d: BuiltDoc, updateFormatting: bool, hash: Hash, x: FormattingUpdate)
  {
    var stored := OM.Get(byUrl, d.mdnUrl);
    !TextChanged(stored, d, hash) && (updateFormatting || stored.value.markdownHash != hash(d.markdown)) &&
    x == Formatting(d, hash)
  }

  /** `x` is the embedding update of `d`: text unchanged, and the current or the next embedding missing. */
  predicate IsEmbeddingUpdateOf(byUrl: seq<(string, IndexedDoc)>, d: BuiltDoc, hash: Hash, x: EmbeddingUpdate)
  {
    var stored := OM.Get(byUrl, d.mdnUrl);
    !TextChanged(stored, d, hash) && (!stored.value.hasEmbedding || !stored.value.hasEmbeddingNext) &&
    x == EmbeddingUpdate(d.mdnUrl, d.text, stored.value.hasEmbedding, stored.value.hasEmbeddingNext)
  }

  /** One more built document extends each list by what it contributes. */
  lemma ListsGrow(byUrl: seq<(string, IndexedDoc)>, docs: seq<BuiltDoc>, d: BuiltDoc, updateFormatting: bool, hash: Hash)
    ensures var c := ChangeOf(byUrl, d, updateFormatting, hash);
      && Updates(byUrl, docs + [d], updateFormatting, hash) ==
        Updates(byUrl, docs, updateFormatting, hash) + (if c.FullUpdate? then [c.doc] else [])
      && FormattingUpdates(byUrl, docs + [d], updateFormatting, hash) ==
        FormattingUpdates(byUrl, docs, updateFormatting, hash) +
          (if c.Unchanged? && c.formatting.Some? then [c.formatting.value] else [])
      && EmbeddingUpdates(byUrl, docs + [d], updateFormatting, hash) ==
        EmbeddingUpdates(byUrl, docs, updateFormatting, hash) +
          (if c.Unchanged? && c.embedding.Some? then [c.embedding.value] else [])
      && Urls(docs + [d]) == Urls(docs) + {d.mdnUrl}
  {
    assert (docs + [d])[..|docs|] == docs;
  }

  /**
   * A document is queued for full update exactly when it is new or its text
   * hash changed, and the update carries the document with both hashes.
   */
  lemma {:induction false} UpdatesAreNewOrChangedDocs(
    byUrl: seq<(string, IndexedDoc)>, docs: seq<BuiltDoc>, updateFormatting: bool, hash: Hash, x: Doc)
    ensures x in Updates(byUrl, docs, updateFormatting, hash) <==>
      exists i :: 0 <= i < |docs| && IsFullUpdateOf(byUrl, docs[i], hash, x)
  {
    if docs != [] {
      var init := docs[..|docs| - 1];
      UpdatesAreNewOrChangedDocs(byUrl, init, updateFormatting, hash, x);
      if exists i :: 0 <= i < |init| && IsFullUpdateOf(byUrl, init[i], hash, x) {
        var i :| 0 <= i < |init| && IsFullUpdateOf(byUrl, init[i], hash, x);
        assert docs[i] == init[i];
      }
      if exists i :: 0 <= i < |docs| && IsFullUpdateOf(byUrl, docs[i], hash, x) {
        var i :| 0 <= i < |docs| && IsFullUpdateOf(byUrl, docs[i], hash, x);
        if i < |init| {
          assert init[i] == docs[i];
        }
      }
    }
  }

  /**
   * A document whose text hash is unchanged gets a formatting update exactly
   * when `updateFormatting` is set or its markdown hash changed; a document
   * whose text changed never gets one.
   */
  lemma {:induction false} FormattingUpdatesAreReformattedDocs(
    byUrl: seq<(string, IndexedDoc)>, docs: seq<BuiltDoc>, updateFormatting: bool, hash: Hash, x: FormattingUpdate)
    ensures x in FormattingUpdates(byUrl, docs, updateFormatting, hash) <==>
      exists i :: 0 <= i < |docs| && IsFormattingUpdateOf(byUrl, docs[i], updateFormatting, hash, x)
  {
    if docs != [] {
      var init := docs[..|docs| - 1];
      FormattingUpdatesAreReformattedDocs(byUrl, init, updateFormatting, hash, x);
      if exists i :: 0 <= i < |init| && IsFormattingUpdateOf(byUrl, init[i], updateFormatting, hash, x) {
        var i :| 0 <= i < |init| && IsFormattingUpdateOf(byUrl, init[i], updateFormatting, hash, x);
        assert docs[i] == init[i];
      }
      if exists i :: 0 <= i < |docs| && IsFormattingUpdateOf(byUrl, docs[i], updateFormatting, hash, x) {
        var i :| 0 <= i < |docs| && IsFormattingUpdateOf(byUrl, docs[i], updateFormatting, hash, x);
        if i < |init| {
          assert init[i] == docs[i];
        }
      }
    }
  }

  /**
   * With a next embedding model configured, a document whose text hash is
   * unchanged gets an embedding update exactly when it lacks the current or
   * the next embedding; the update carries both stored flags. A document
   * whose text changed never gets one.
   */
  lemma {:induction false} EmbeddingUpdatesAreMissingEmbeddings(
    byUrl: seq<(string, IndexedDoc)>, docs: seq<BuiltDoc>, updateFormatting: bool, hash: Hash, x: EmbeddingUpdate)
    ensures x in EmbeddingUpdates(byUrl, docs, updateFormatting, hash) <==>
      exists i :: 0 <= i < |docs| && IsEmbeddingUpdateOf(byUrl, docs[i], hash, x)
  {
    if docs != [] {
      var init := docs[..|docs| - 1];
      EmbeddingUpdatesAreMissingEmbeddings(byUrl, init, updateFormatting, hash, x);
      assert EMBEDDING_MODEL_NEXT != "";
      if exists i :: 0 <= i < |init| && IsEmbeddingUpdateOf(byUrl, init[i], hash, x) {
        var i :| 0 <= i < |init| && IsEmbeddingUpdateOf(byUrl, init[i], hash, x);
        assert docs[i] == init[i];
      }
      if exists i :: 0 <= i < |docs| && IsEmbeddingUpdateOf(byUrl, docs[i], hash, x) {
        var i :| 0 <= i < |docs| && IsEmbeddingUpdateOf(byUrl, docs[i], hash, x);
        if i < |init| {
          assert init[i] == docs[i];
        }
      }
    }
  }

  /** Each built document lands in the full updates or in neither of the other two lists. */
  lemma {:induction false} FullUpdateOnly(
    byUrl: seq<(string, IndexedDoc)>, docs: seq<BuiltDoc>, updateFormatting: bool, hash: Hash)
    ensures |Updates(byUrl, docs, updateFormatting, hash)| + |FormattingUpdates(byUrl, docs, updateFormatting, hash)| <= |docs|
    ensures |Updates(byUrl, docs, updateFormatting, hash)| + |EmbeddingUpdates(byUrl, docs, updateFormatting, hash)| <= |docs|
  {
    if docs != [] {
      FullUpdateOnly(byUrl, docs[..|docs| - 1], updateFormatting, hash);
    }
  }

  /** An entry survives the deletion filter exactly when its key was not seen. */
  lemma {:induction false} DeletionsMember(byUrl: seq<(string, IndexedDoc)>, seen: set<string>, x: IndexedDoc)
    ensures x in Deletions(byUrl, seen) <==> exists i :: 0 <= i < |byUrl| && byUrl[i].0 !in seen && byUrl[i].1 == x
  {
    if byUrl != [] {
      DeletionsMember(byUrl[1..], seen, x);
      if exists i :: 0 <= i < |byUrl[1..]| && byUrl[1..][i].0 !in seen && byUrl[1..][i].1 == x {
        var i :| 0 <= i < |byUrl[1..]| && byUrl[1..][i].0 !in seen && byUrl[1..][i].1 == x;
        assert byUrl[i + 1] == byUrl[1..][i];
      }
      if exists i :: 0 <= i < |byUrl| && byUrl[i].0 !in seen && byUrl[i].1 == x {
        var i :| 0 <= i < |byUrl| && byUrl[i].0 !in seen && byUrl[i].1 == x;
        if i > 0 {
          assert byUrl[1..][i - 1] == byUrl[i];
        }
      }
    }
  }

  /**
   * The deletions are stored documents whose URL was not seen, and every
   * stored URL that was not seen has its stored document among them. When
   * the stored URLs are distinct, the deletions are exactly the stored
   * documents whose URL was not seen.
   */
  lemma DeletionsAreUnseenStoredDocs(existing: seq<IndexedDoc>, seen: set<string>, x: IndexedDoc)
    ensures x in Deletions(ByUrl(existing), seen) ==> x in existing && x.mdnUrl !in seen
    ensures x in existing && x.mdnUrl !in seen ==>
      exists y :: y in Deletions(ByUrl(existing), seen) && y.mdnUrl == x.mdnUrl
    ensures (forall i, j :: 0 <= i < j < |existing| ==> existing[i].mdnUrl != existing[j].mdnUrl) ==>
      (x in Deletions(ByUrl(existing), seen) <==> x in existing && x.mdnUrl !in seen)
  {
    var es := Entries(existing);
    var m := ByUrl(existing);
    DeletionsMember(m, seen, x);
    if x in Deletions(m, seen) {
      var i :| 0 <= i < |m| && m[i].0 !in seen && m[i].1 == x;
      OM.FromEntriesEntries(es, m[i]);
      var j :| 0 <= j < |es| && es[j] == m[i];
      assert existing[j] == x;
    }
    if x in existing && x.mdnUrl !in seen {
      var j :| 0 <= j < |existing| && existing[j] == x;
      assert es[j].0 == x.mdnUrl;
      OM.FromEntriesHas(es, x.mdnUrl);
      OM.GetIn(m, x.mdnUrl);
      var y := OM.Get(m, x.mdnUrl).value;
      var i :| 0 <= i < |m| && m[i] == (x.mdnUrl, y);
      DeletionsMember(m, seen, y);
      OM.FromEntriesEntries(es, m[i]);
      var k :| 0 <= k < |es| && es[k] == m[i];
      assert y.mdnUrl == x.mdnUrl;
      if forall a, b :: 0 <= a < b < |existing| ==> existing[a].mdnUrl != existing[b].mdnUrl {
        OM.FromEntriesGet(es, x.mdnUrl, j);
      }
    }
  }

  /** The rows of the table are in id order, and ids are unique (the primary key). */
  predicate SortedById(rows: seq<IndexedDoc>)
  {
    forall i, j :: 0 <= i < j < |rows| ==> rows[i].id < rows[j].id
  }

  /** The number of leading rows whose id is at most `lastId`. */
  function AtMost(rows: seq<IndexedDoc>, lastId: int): (n: nat)
    ensures n <= |rows|
  {
    if rows == [] || rows[0].id > lastId then 0 else 1 + AtMost(rows[1..], lastId)
  }

  /** In a table in id order, the rows with id above `lastId` are exactly those after `AtMost`. */
  lemma {:induction false} AtMostSplits(rows: seq<IndexedDoc>, lastId: int)
    requires SortedById(rows)
    ensures forall i :: 0 <= i < AtMost(rows, lastId) ==> rows[i].id <= lastId
    ensures forall i :: AtMost(rows, lastId) <= i < |rows| ==> rows[i].id > lastId
  {
    if rows != [] && rows[0].id <= lastId {
      AtMostSplits(rows[1..], lastId);
      forall i | 1 <= i < AtMost(rows, lastId) ensures rows[i].id <= lastId {
        assert rows[i] == rows[1..][i - 1];
      }
      forall i | AtMost(rows, lastId) <= i < |rows| ensures rows[i].id > lastId {
        assert rows[i] == rows[1..][i - 1];
      }
    }
  }

  /** The rows up to and including the k-th are those at most its id. */
  lemma {:induction false} AtMostOfRow(rows: seq<IndexedDoc>, k: nat)
    requires SortedById(rows) && k < |rows|
    ensures AtMost(rows, rows[k].id) == k + 1
  {
    if k == 0 {
      if |rows| > 1 {
        assert rows[1..][0] == rows[1];
      }
    } else {
      assert rows[1..][k - 1] == rows[k];
      AtMostOfRow(rows[1..], k - 1);
    }
  }

  /** `selectDocs(lastId)`: `WHERE id > lastId ORDER BY id ASC LIMIT PAGE_SIZE`. */
  function SelectDocs(rows: seq<IndexedDoc>, lastId: int): (page: seq<IndexedDoc>)
    ensures |page| <= PAGE_SIZE
  {
    var rest := rows[AtMost(rows, lastId)..];
    if |rest| <= PAGE_SIZE then rest else rest[..PAGE_SIZE]
  }

  /**
   * `fetchAllExistingDocs`: pages through the table from id 0, continuing
   * after the last id while a page is full. It reads every row with a
   * positive id, in id order, in one query per full page plus one.
   */
  method FetchAllExistingDocs(rows: seq<IndexedDoc>) returns (allDocs: seq<IndexedDoc>, queries: nat)
    requires SortedById(rows)
    ensures allDocs == rows[AtMost(rows, 0)..]
    ensures queries == |allDocs| / PAGE_SIZE + 1
  {
    var docs := SelectDocs(rows, 0);
    var all := docs;
    var count := 1;
    ghost var start := AtMost(rows, 0);
    ghost var j := start + |docs|;
    FirstPage(rows);
    while |docs| == PAGE_SIZE
      invariant Paged(rows, start, j, docs, all, count)
      decreases |rows| - j + |docs|
    {
      var lastItem := docs[|docs| - 1];
      NextPage(rows, start, j, docs, all, count);
      docs := SelectDocs(rows, lastItem.id);
      all := all + docs;
      j := j + |docs|;
      count := count + 1;
    }
    LastPage(rows, start, j, docs, all, count);
    allDocs, queries := all, count;
  }

  /**
   * The state of the paging loop: `allDocs` holds the rows from `start` up
   * to `j`, the last page `docs` ends with the row before `j`, only a short
   * page reaches the end of the table, and every query but the last
   * returned a full page.
   */
  ghost predicate Paged(rows: seq<IndexedDoc>, start: int, j: int, docs: seq<IndexedDoc>, allDocs: seq<IndexedDoc>, queries: int)
  {
    queries >= 1 && |docs| <= PAGE_SIZE &&
    0 <= start <= j - |docs| && j <= |rows| &&
    (|docs| > 0 ==> docs[|docs| - 1] == rows[j - 1]) &&
    allDocs == rows[start..j] &&
    (|docs| < PAGE_SIZE ==> j == |rows|) &&
    j - start == (queries - 1) * PAGE_SIZE + |docs|
  }

  /** The first query starts the paging at the first row with a positive id. */
  lemma FirstPage(rows: seq<IndexedDoc>)
    ensures var docs := SelectDocs(rows, 0);
      var start := AtMost(rows, 0);
      Paged(rows, start, start + |docs|, docs, docs, 1)
  {
  }

  /** After a full page, the next query continues right after its last row. */
  lemma NextPage(rows: seq<IndexedDoc>, start: int, j: int, docs: seq<IndexedDoc>, allDocs: seq<IndexedDoc>, queries: int)
    requires SortedById(rows)
    requires Paged(rows, start, j, docs, allDocs, queries) && |docs| == PAGE_SIZE
    ensures var next := SelectDocs(rows, docs[|docs| - 1].id);
      j + |next| <= |rows| &&
      Paged(rows, start, j + |next|, next, allDocs + next, queries + 1)
  {
    assert docs[|docs| - 1] == rows[j - 1];
    SelectAfterRow(rows, j - 1);
    ExtendPaged(rows, start, j, docs, allDocs, queries, SelectDocs(rows, rows[j - 1].id));
  }

  /** A page of the rows right after `j` extends the paging state. */
  lemma ExtendPaged(rows: seq<IndexedDoc>, start: int, j: int, docs: seq<IndexedDoc>, allDocs: seq<IndexedDoc>, queries: int, next: seq<IndexedDoc>)
    requires Paged(rows, start, j, docs, allDocs, queries) && |docs| == PAGE_SIZE
    requires j + |next| <= |rows| && next == rows[j..j + |next|] && |next| <= PAGE_SIZE
    requires |next| < PAGE_SIZE ==> j + |next| == |rows|
    ensures Paged(rows, start, j + |next|, next, allDocs + next, queries + 1)
  {
    assert rows[start..j + |next|] == rows[start..j] + next;
  }

  /** A short page ends the paging with every row from the start, one query per full page plus one. */
  lemma LastPage(rows: seq<IndexedDoc>, start: int, j: int, docs: seq<IndexedDoc>, allDocs: seq<IndexedDoc>, queries: int)
    requires Paged(rows, start, j, docs, allDocs, queries) && |docs| != PAGE_SIZE
    ensures allDocs == rows[start..] && queries == |allDocs| / PAGE_SIZE + 1
  {
    assert rows[start..j] == rows[start..];
    PagesOf(queries - 1, |docs|);
  }

  /** The page after the k-th row starts right after it. */
  lemma SelectAfterRow(rows: seq<IndexedDoc>, k: nat)
    requires SortedById(rows) && k < |rows|
    ensures var page := SelectDocs(rows, rows[k].id);
      k + 1 + |page| <= |rows| && page == rows[k + 1..k + 1 + |page|] &&
      (|page| < PAGE_SIZE ==> k + 1 + |page| == |rows|)
  {
    AtMostOfRow(rows, k);
  }

  /** A count of full pages and a partial page. */
  lemma {:induction false} PagesOf(q: nat, r: nat)
    requires r < PAGE_SIZE
    ensures (q * PAGE_SIZE + r) / PAGE_SIZE == q
  {
    if q > 0 {
      PagesOf(q - 1, r);
      assert q * PAGE_SIZE + r == (q - 1) * PAGE_SIZE + r + PAGE_SIZE;
    }
  }

  /** What the pages deliver: every row whose id is positive, and no other. */
  lemma FetchedRows(rows: seq<IndexedDoc>, x: IndexedDoc)
    requires SortedById(rows)
    ensures x in rows[AtMost(rows, 0)..] <==> x in rows && x.id > 0
  {
    AtMostSplits(rows, 0);
    if x in rows && x.id > 0 {
      var i :| 0 <= i < |rows| && rows[i] == x;
      assert rows[AtMost(rows, 0)..][i - AtMost(rows, 0)] == x;
    }
  }
}
