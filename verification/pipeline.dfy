/**
 * The reindex pipeline: crawl a site (or walk a build folder), clear the
 * vectors of every crawled slug, store each page's document and sitemap entry,
 * upsert one vector per chunk of its text, and save the metadata store once.
 * The embedding model and the clock are parameters.
 */
module Pipeline {
  import opened Wrappers
  import opened Text
  import opened Models
  import opened Chunking
  import opened Crawler
  import opened Store
  import opened Vectors
  import opened Ordering

  // ---------------------------------------------------------------- chunk ids

  /** `_chunk_id`: the vector id of chunk `idx` of the page stored under `slug`. */
  function ChunkId(slug: string, idx: int): (id: string)
    ensures StartsWith(id, slug + "::")
  {
    assert (slug + "::chunk::" + IntToString(idx))[..|slug + "::"|] == slug + "::";
    slug + "::chunk::" + IntToString(idx)
  }

  /** Different (slug, index) pairs never share an id: the index is the trailing run of digits, the slug what precedes "::chunk::". */
  lemma ChunkIdInjective(s1: string, i1: nat, s2: string, i2: nat)
    requires ChunkId(s1, i1) == ChunkId(s2, i2)
    ensures s1 == s2 && i1 == i2
  {
    var a, b := IntToString(i1), IntToString(i2);
    IntToStringDecimal(i1);
    IntToStringDecimal(i2);
    var x := ChunkId(s1, i1);
    assert x == s1 + "::chunk::" + a;
    assert x == s2 + "::chunk::" + b;
    assert x[|x| - |a| - 1] == ':' && x[|x| - |b| - 1] == ':';
    assert forall k :: |x| - |a| <= k < |x| ==> x[k] == a[k - (|x| - |a|)];
    assert forall k :: |x| - |b| <= k < |x| ==> x[k] == b[k - (|x| - |b|)];
    assert |a| == |b|;
    assert a == x[|x| - |a|..] == b;
    assert s1 == x[..|x| - |a| - 9] == s2;
  }

  /** The metadata stored with chunk `index` of page `p`. */
  function ChunkMeta(p: Page, index: int): (m: Meta)
    ensures m.Keys == {"slug", "url", "title", "description", "headings", "chunk_index"}
    ensures m["headings"].MStrs? && |m["headings"].items| == Min(10, |p.headings|)
    ensures m["headings"].items == p.headings[..|m["headings"].items|]
    ensures m["chunk_index"] == MInt(index)
  {
    map[
      "slug" := MStr(p.slug),
      "url" := MStr(p.url),
      "title" := MStr(p.title.GetOr("")),
      "description" := MStr(p.description.GetOr("")),
      "headings" := MStrs(Take(p.headings, 10)),
      "chunk_index" := MInt(index)]
  }

  function ChunkIds(slug: string, cs: seq<Chunk>): (ids: seq<string>)
    ensures |ids| == |cs| && forall i :: 0 <= i < |cs| ==> ids[i] == ChunkId(slug, cs[i].index)
  {
    seq(|cs|, i requires 0 <= i < |cs| => ChunkId(slug, cs[i].index))
  }

  function ChunkTexts(cs: seq<Chunk>): (texts: seq<string>)
    ensures |texts| == |cs| && forall i :: 0 <= i < |cs| ==> texts[i] == cs[i].text
  {
    seq(|cs|, i requires 0 <= i < |cs| => cs[i].text)
  }

  function ChunkMetas(p: Page, cs: seq<Chunk>): (metas: seq<Meta>)
    ensures |metas| == |cs| && forall i :: 0 <= i < |cs| ==> metas[i] == ChunkMeta(p, cs[i].index)
  {
    seq(|cs|, i requires 0 <= i < |cs| => ChunkMeta(p, cs[i].index))
  }

  /** The `for c in chunks` loop: one id, one document and one metadata per chunk, in chunk order. */
  method ChunkBatch(p: Page, chunks: seq<Chunk>) returns (ids: seq<string>, docs: seq<string>, metas: seq<Meta>)
    ensures ids == ChunkIds(p.slug, chunks)
    ensures docs == ChunkTexts(chunks)
    ensures metas == ChunkMetas(p, chunks)
  {
    ids, docs, metas := [], [], [];
    ghost var allIds, allDocs, allMetas := ChunkIds(p.slug, chunks), ChunkTexts(chunks), ChunkMetas(p, chunks);
    var i := 0;
    while i < |chunks|
      invariant 0 <= i <= |chunks|
      invariant ids == allIds[..i] && docs == allDocs[..i] && metas == allMetas[..i]
    {
      var c := chunks[i];
      Extend(allIds, i);
      Extend(allDocs, i);
      Extend(allMetas, i);
      ids := ids + [ChunkId(p.slug, c.index)];
      docs := docs + [c.text];
      metas := metas + [ChunkMeta(p, c.index)];
      i := i + 1;
    }
    assert allIds[..i] == allIds && allDocs[..i] == allDocs && allMetas[..i] == allMetas;
  }

  /** The vector ids of one page. */
  function PageIds(p: Page, m: int, o: int): seq<string>
  {
    ChunkIds(p.slug, Chunks(p.bodyText, m, o))
  }

  /** A page's ids are `"{slug}::chunk::0"`, `"{slug}::chunk::1"`, ..., one per chunk, all different and all under the `"{slug}::"` prefix. */
  lemma PageIdsShape(p: Page, m: int, o: int)
    ensures var ids := PageIds(p, m, o);
            && |ids| == |Chunks(p.bodyText, m, o)|
            && (forall k :: 0 <= k < |ids| ==> ids[k] == ChunkId(p.slug, k))
            && (forall k :: 0 <= k < |ids| ==> StartsWith(ids[k], p.slug + "::"))
            && Distinct(ids)
  {
    ChunksNumbered(p.bodyText, m, o);
    var ids := PageIds(p, m, o);
    forall i, j | 0 <= i < j < |ids| ensures ids[i] != ids[j] {
      if ids[i] == ids[j] {
        ChunkIdInjective(p.slug, i, p.slug, j);
      }
    }
  }

  // ---------------------------------------------------------------- what a run writes

  /** The embedding model returns one vector per input text. */
  ghost predicate Aligned(embed: seq<string> -> seq<seq<real>>) {
    forall texts: seq<string> :: |embed(texts)| == |texts|
  }

  function DocOf(p: Page): PageDoc {
    PageDoc(p.slug, p.url, p.title, p.description, p.headings, p.bodyText)
  }

  function EntryOf(p: Page, stamp: string): SitemapEntry {
    SitemapEntry(p.slug, p.url, p.title, p.description, stamp)
  }

  /** The (slug, document) pairs the run stores, in page order. */
  function DocItems(ps: seq<Page>): (items: seq<(string, PageDoc)>)
    ensures |items| == |ps| && forall i :: 0 <= i < |ps| ==> items[i] == (ps[i].slug, DocOf(ps[i]))
  {
    seq(|ps|, i requires 0 <= i < |ps| => (ps[i].slug, DocOf(ps[i])))
  }

  /** The (slug, sitemap entry) pairs the run stores; page i is stamped with the i-th reading of the clock. */
  function EntryItems(ps: seq<Page>, stamp: nat -> string): (items: seq<(string, SitemapEntry)>)
    ensures |items| == |ps| && forall i :: 0 <= i < |ps| ==> items[i] == (ps[i].slug, EntryOf(ps[i], stamp(i)))
  {
    seq(|ps|, i requires 0 <= i < |ps| => (ps[i].slug, EntryOf(ps[i], stamp(i))))
  }

  /** The prefix deletions of the first loop, one per page, in page order. */
  function Deletes(ps: seq<Page>): seq<Op> {
    if ps == [] then [] else Deletes(ps[..|ps| - 1]) + [DeletePrefix(ps[|ps| - 1].slug + "::")]
  }

  /** The upsert of one page: none when it has no chunks. */
  function PageUpserts(p: Page, m: int, o: int): seq<Op>
  {
    if PageIds(p, m, o) == [] then [] else [UpsertIds(PageIds(p, m, o))]
  }

  /** The upserts of the second loop, in page order: one per page that has chunks. */
  function Upserts(ps: seq<Page>, m: int, o: int): seq<Op>
  {
    if ps == [] then [] else Upserts(ps[..|ps| - 1], m, o) + PageUpserts(ps[|ps| - 1], m, o)
  }

  /** The number of chunks of all pages. */
  function TotalChunks(ps: seq<Page>, m: int, o: int): nat
  {
    if ps == [] then 0 else TotalChunks(ps[..|ps| - 1], m, o) + |Chunks(ps[|ps| - 1].bodyText, m, o)|
  }

  /** The ids of a sequence of upserts, in order. */
  function UpsertedIds(ops: seq<Op>): seq<string> {
    if ops == [] then []
    else
      var last := ops[|ops| - 1];
      UpsertedIds(ops[..|ops| - 1]) + (if last.UpsertIds? then last.ids else [])
  }

  /** `id` falls under the `"{slug}::"` prefix of one of the pages. */
  ghost predicate UnderAny(ps: seq<Page>, id: string) {
    exists q :: 0 <= q < |ps| && StartsWith(id, ps[q].slug + "::")
  }

  /** The ids the upserts of the pages write. */
  function WrittenIds(ps: seq<Page>, m: int, o: int): set<string>
  {
    if ps == [] then {}
    else
      var ids := PageIds(ps[|ps| - 1], m, o);
      WrittenIds(ps[..|ps| - 1], m, o) + (set x | x in ids)
  }

  lemma UnderLast(ps: seq<Page>)
    requires ps != []
    ensures forall id :: UnderAny(ps, id) <==> UnderAny(ps[..|ps| - 1], id) || StartsWith(id, ps[|ps| - 1].slug + "::")
  {
    var init := ps[..|ps| - 1];
    forall id | UnderAny(ps, id) && !StartsWith(id, ps[|ps| - 1].slug + "::") ensures UnderAny(init, id) {
      var q :| 0 <= q < |ps| && StartsWith(id, ps[q].slug + "::");
      assert init[q] == ps[q];
    }
    forall id | UnderAny(init, id) ensures UnderAny(ps, id) {
      var q :| 0 <= q < |init| && StartsWith(id, init[q].slug + "::");
      assert ps[q] == init[q];
    }
  }

  /** The records after the first loop: every id under the prefix of a crawled slug is gone, every other record is kept. */
  function Purged(records: map<string, Record>, ps: seq<Page>): (r: map<string, Record>)
    ensures forall id :: id in r <==> id in records && !UnderAny(ps, id)
    ensures forall id :: id in r ==> r[id] == records[id]
  {
    if ps == [] then records
    else
      UnderLast(ps);
      Purge(Purged(records, ps[..|ps| - 1]), ps[|ps| - 1].slug + "::")
  }

  /** The records one page's upsert writes (none when it has no chunks). */
  function PageBatch(p: Page, m: int, o: int, embed: seq<string> -> seq<seq<real>>): (b: map<string, Record>)
    requires Aligned(embed)
    ensures forall id :: id in b <==> id in PageIds(p, m, o)
  {
    var cs := Chunks(p.bodyText, m, o);
    var texts := ChunkTexts(cs);
    PageIdsShape(p, m, o);
    Batch(PageIds(p, m, o), texts, embed(texts), ChunkMetas(p, cs))
  }

  /**
   * The records after the second loop: the chunk ids of every page are
   * added or overwritten, a later page winning over an earlier one; every
   * other record is kept.
   */
  function Indexed(records: map<string, Record>, ps: seq<Page>, m: int, o: int, embed: seq<string> -> seq<seq<real>>): (r: map<string, Record>)
    requires Aligned(embed)
    ensures forall id :: id in r <==> id in records || id in WrittenIds(ps, m, o)
    ensures forall id :: id in records && id !in WrittenIds(ps, m, o) ==> r[id] == records[id]
  {
    if ps == [] then records
    else
      Indexed(records, ps[..|ps| - 1], m, o, embed) + PageBatch(ps[|ps| - 1], m, o, embed)
  }

  // ---------------------------------------------------------------- the run

  /** The result of a run: how many pages were crawled and how many chunk vectors were upserted. */
  datatype Counts = Counts(pages: nat, chunks: nat)

  /** A URL that counts as set: present and not empty. */
  predicate UrlSet(u: Option<string>) { u.Some? && u.value != "" }

  /**
   * `reindex`. Fails before doing anything when neither a URL nor a folder
   * is given. Otherwise the URL, when set, is crawled (the folder is then
   * ignored), else the folder is walked with the default cap of 500 files.
   * All prefix deletions come before the first upsert; every crawled page
   * gets its document and sitemap entry; the store is saved once, at the end.
   */
  method Reindex(targetUrl: Option<string>, targetDir: Option<seq<FsEntry>>,
                 vdb: VectorDB, store: IndexStore, embed: seq<string> -> seq<seq<real>>,
                 maxPages: int, maxDepth: int, chunkChars: int, chunkOverlap: int,
                 site: Site, uriOf: string -> string, stamp: nat -> string)
    returns (r: Result<Counts, string>, ghost crawled: seq<Page>, ghost fetched: seq<Visit>)
    requires vdb.Valid() && Aligned(embed)
    modifies vdb`records, vdb`order, vdb`calls, vdb`ops
    modifies store`pages, store`sitemap, store`pagesFile, store`sitemapFile, store`saves
    ensures vdb.Valid()
    ensures !UrlSet(targetUrl) && targetDir.None? ==> r.Err? && unchanged(vdb) && unchanged(store)
    ensures UrlSet(targetUrl) ==>
              && crawled == PagesOf(site, fetched)
              && |crawled| <= Max(0, maxPages)
              && (0 < maxPages && 0 <= maxDepth ==> fetched != [] && fetched[0] == Visit(StartUrl(targetUrl.value), 0))
    ensures !UrlSet(targetUrl) && targetDir.Some? ==>
              crawled == Take(FolderPages(SortBy(targetDir.value, EntryLe), uriOf, site.parse, site.ops), 500)
    ensures UrlSet(targetUrl) || targetDir.Some? ==>
              && r == Ok(Counts(|crawled|, TotalChunks(crawled, chunkChars, chunkOverlap)))
              && vdb.ops == old(vdb.ops) + Deletes(crawled) + Upserts(crawled, chunkChars, chunkOverlap)
              && vdb.records == Indexed(Purged(old(vdb.records), crawled), crawled, chunkChars, chunkOverlap, embed)
              && store.pages == old(store.pages) + MapOf(DocItems(crawled))
              && store.sitemap == old(store.sitemap) + MapOf(EntryItems(crawled, stamp))
              && store.saves == old(store.saves) + 1
              && store.pagesFile == Present(store.codec.encodePages(store.pages))
              && store.sitemapFile == Present(store.codec.encodeSitemap(store.sitemap))
  {
    if !UrlSet(targetUrl) && targetDir.None? {
      r := Err("Set CONNECTOR_TARGET_URL or CONNECTOR_TARGET_DIR");
      crawled, fetched := [], [];
      return;
    }
    var pages;
    if UrlSet(targetUrl) {
      pages, fetched := CrawlSite(targetUrl.value, maxPages, maxDepth, site);
    } else {
      pages := CrawlBuildFolder(targetDir.value, 500, uriOf, site.parse, site.ops);
      fetched := [];
    }
    crawled := pages;
    DeletePhase(vdb, pages);
    var total := IndexPhase(vdb, store, pages, embed, chunkChars, chunkOverlap, stamp);
    store.Save();
    r := Ok(Counts(|pages|, total));
  }

  /** The first loop: `delete_by_prefix("{slug}::")` for every page, in page order. */
  method DeletePhase(vdb: VectorDB, ps: seq<Page>)
    requires vdb.Valid()
    modifies vdb`records, vdb`order, vdb`calls, vdb`ops
    ensures vdb.Valid()
    ensures vdb.records == Purged(old(vdb.records), ps)
    ensures vdb.ops == old(vdb.ops) + Deletes(ps)
  {
    ghost var records0, ops0 := vdb.records, vdb.ops;
    var i := 0;
    while i < |ps|
      invariant 0 <= i <= |ps| && vdb.Valid()
      invariant vdb.records == Purged(records0, ps[..i])
      invariant vdb.ops == ops0 + Deletes(ps[..i])
    {
      vdb.DeleteByPrefix(ps[i].slug + "::");
      DeleteStep(records0, ops0, ps, i);
      i := i + 1;
    }
    assert ps[..i] == ps;
  }

  lemma DeleteStep(records: map<string, Record>, ops0: seq<Op>, ps: seq<Page>, i: nat)
    requires i < |ps|
    ensures Purged(records, ps[..i + 1]) == Purge(Purged(records, ps[..i]), ps[i].slug + "::")
    ensures ops0 + Deletes(ps[..i]) + [DeletePrefix(ps[i].slug + "::")] == ops0 + Deletes(ps[..i + 1])
  {
    assert ps[..i + 1][..i] == ps[..i];
  }

  /** The first loop deletes the `"{slug}::"` prefix of page i as its i-th operation. */
  lemma {:induction false} DeletesAt(ps: seq<Page>)
    ensures |Deletes(ps)| == |ps| && forall i :: 0 <= i < |ps| ==> Deletes(ps)[i] == DeletePrefix(ps[i].slug + "::")
    decreases |ps|
  {
    if ps != [] {
      var init := ps[..|ps| - 1];
      DeletesAt(init);
      assert forall i :: 0 <= i < |init| ==> init[i] == ps[i];
    }
  }

  /** The second loop: every page stored, its chunks upserted, the chunk count summed. */
  method IndexPhase(vdb: VectorDB, store: IndexStore, ps: seq<Page>, embed: seq<string> -> seq<seq<real>>,
                    m: int, o: int, stamp: nat -> string) returns (total: nat)
    requires vdb.Valid() && Aligned(embed)
    modifies vdb`records, vdb`order, vdb`calls, vdb`ops, store`pages, store`sitemap
    ensures vdb.Valid()
    ensures vdb.records == Indexed(old(vdb.records), ps, m, o, embed)
    ensures vdb.ops == old(vdb.ops) + Upserts(ps, m, o)
    ensures store.pages == old(store.pages) + MapOf(DocItems(ps))
    ensures store.sitemap == old(store.sitemap) + MapOf(EntryItems(ps, stamp))
    ensures total == TotalChunks(ps, m, o)
  {
    ghost var s0 := State(vdb.records, vdb.ops, store.pages, store.sitemap);
    total := 0;
    var i := 0;
    while i < |ps|
      invariant 0 <= i <= |ps| && vdb.Valid()
      invariant Progress(ps, i, m, o, embed, stamp, s0, State(vdb.records, vdb.ops, store.pages, store.sitemap), total)
    {
      ghost var s := State(vdb.records, vdb.ops, store.pages, store.sitemap);
      var n := IndexPage(vdb, store, ps[i], stamp(i), embed, m, o);
      ProgressStep(ps, i, m, o, embed, stamp, s0, s, total, State(vdb.records, vdb.ops, store.pages, store.sitemap), n);
      total := total + n;
      i := i + 1;
    }
    ProgressDone(ps, m, o, embed, stamp, s0, State(vdb.records, vdb.ops, store.pages, store.sitemap), total);
  }

  /** The parts of the two stores the second loop changes. */
  datatype State = State(records: map<string, Record>, ops: seq<Op>, pages: map<string, PageDoc>, sitemap: map<string, SitemapEntry>)

  /** After i pages, the stores hold what the first i pages write over the starting state `s0`. */
  ghost predicate Progress(ps: seq<Page>, i: nat, m: int, o: int, embed: seq<string> -> seq<seq<real>>, stamp: nat -> string,
                           s0: State, s: State, total: nat)
    requires Aligned(embed)
  {
    && i <= |ps|
    && s.records == Indexed(s0.records, ps[..i], m, o, embed)
    && s.ops == s0.ops + Upserts(ps[..i], m, o)
    && s.pages == s0.pages + MapOf(DocItems(ps)[..i])
    && s.sitemap == s0.sitemap + MapOf(EntryItems(ps, stamp)[..i])
    && total == TotalChunks(ps[..i], m, o)
  }

  lemma ProgressStep(ps: seq<Page>, i: nat, m: int, o: int, embed: seq<string> -> seq<seq<real>>, stamp: nat -> string,
                     s0: State, s: State, total: nat, s': State, n: nat)
    requires Aligned(embed) && i < |ps|
    requires Progress(ps, i, m, o, embed, stamp, s0, s, total)
    requires s'.records == s.records + PageBatch(ps[i], m, o, embed)
    requires s'.ops == s.ops + PageUpserts(ps[i], m, o)
    requires s'.pages == s.pages[ps[i].slug := DocOf(ps[i])]
    requires s'.sitemap == s.sitemap[ps[i].slug := EntryOf(ps[i], stamp(i))]
    requires n == |Chunks(ps[i].bodyText, m, o)|
    ensures Progress(ps, i + 1, m, o, embed, stamp, s0, s', total + n)
  {
    IndexedStep(s0.records, ps, i, m, o, embed);
    UpsertsStep(s0.ops, ps, i, m, o);
    MapOfStep(s0.pages, DocItems(ps), i);
    MapOfStep(s0.sitemap, EntryItems(ps, stamp), i);
  }

  lemma ProgressDone(ps: seq<Page>, m: int, o: int, embed: seq<string> -> seq<seq<real>>, stamp: nat -> string,
                     s0: State, s: State, total: nat)
    requires Aligned(embed)
    requires Progress(ps, |ps|, m, o, embed, stamp, s0, s, total)
    ensures s.records == Indexed(s0.records, ps, m, o, embed)
    ensures s.ops == s0.ops + Upserts(ps, m, o)
    ensures s.pages == s0.pages + MapOf(DocItems(ps))
    ensures s.sitemap == s0.sitemap + MapOf(EntryItems(ps, stamp))
    ensures total == TotalChunks(ps, m, o)
  {
    assert ps[..|ps|] == ps;
    assert DocItems(ps)[..|ps|] == DocItems(ps);
    assert EntryItems(ps, stamp)[..|ps|] == EntryItems(ps, stamp);
  }

  lemma IndexedStep(records: map<string, Record>, ps: seq<Page>, i: nat, m: int, o: int, embed: seq<string> -> seq<seq<real>>)
    requires Aligned(embed) && i < |ps|
    ensures Indexed(records, ps[..i + 1], m, o, embed) == Indexed(records, ps[..i], m, o, embed) + PageBatch(ps[i], m, o, embed)
  {
    assert ps[..i + 1][..i] == ps[..i];
  }

  lemma UpsertsStep(ops0: seq<Op>, ps: seq<Page>, i: nat, m: int, o: int)
    requires i < |ps|
    ensures ops0 + Upserts(ps[..i], m, o) + PageUpserts(ps[i], m, o) == ops0 + Upserts(ps[..i + 1], m, o)
    ensures TotalChunks(ps[..i + 1], m, o) == TotalChunks(ps[..i], m, o) + |Chunks(ps[i].bodyText, m, o)|
  {
    assert ps[..i + 1][..i] == ps[..i];
  }

  /** The body of the second loop for one page. */
  method IndexPage(vdb: VectorDB, store: IndexStore, p: Page, stamp: string, embed: seq<string> -> seq<seq<real>>, m: int, o: int)
    returns (n: nat)
    requires vdb.Valid() && Aligned(embed)
    modifies vdb`records, vdb`order, vdb`calls, vdb`ops, store`pages, store`sitemap
    ensures vdb.Valid()
    ensures store.pages == old(store.pages)[p.slug := DocOf(p)]
    ensures store.sitemap == old(store.sitemap)[p.slug := EntryOf(p, stamp)]
    ensures vdb.records == old(vdb.records) + PageBatch(p, m, o, embed)
    ensures vdb.ops == old(vdb.ops) + PageUpserts(p, m, o)
    ensures n == |Chunks(p.bodyText, m, o)|
  {
    var content := p.bodyText;
    var doc := PageDoc(p.slug, p.url, p.title, p.description, p.headings, content);
    var entry := SitemapEntry(p.slug, p.url, p.title, p.description, stamp);
    store.UpsertPage(doc, entry);
    var chunks := ChunkText(content, m, o);
    PageIdsShape(p, m, o);
    if chunks == [] {
      assert PageBatch(p, m, o, embed) == map[];
      return 0;
    }
    var ids, docs, metas := ChunkBatch(p, chunks);
    var embs := embed(docs);
    vdb.Upsert(ids, docs, embs, metas);
    n := |ids|;
  }

  // ---------------------------------------------------------------- properties of a run

  /** There is at most one upsert per page, and none is empty. */
  lemma {:induction false} UpsertsShape(ps: seq<Page>, m: int, o: int)
    ensures |Upserts(ps, m, o)| <= |ps|
    ensures forall u :: 0 <= u < |Upserts(ps, m, o)| ==> Upserts(ps, m, o)[u].UpsertIds? && Upserts(ps, m, o)[u].ids != []
    decreases |ps|
  {
    if ps != [] {
      var init := ps[..|ps| - 1];
      UpsertsShape(init, m, o);
      var front: seq<Op>, tail: seq<Op> := Upserts(init, m, o), PageUpserts(ps[|ps| - 1], m, o);
      assert Upserts(ps, m, o) == front + tail;
      assert forall u :: |front| <= u < |front + tail| ==> (front + tail)[u] == tail[u - |front|];
    }
  }

  /** Every id the upserts write lies under the `"{slug}::"` prefix of a crawled page, which the first loop deleted. */
  lemma {:induction false} UpsertsCovered(ps: seq<Page>, m: int, o: int)
    ensures forall x :: x in UpsertedIds(Upserts(ps, m, o)) ==> UnderAny(ps, x)
    decreases |ps|
  {
    if ps != [] {
      var init := ps[..|ps| - 1];
      var last := ps[|ps| - 1];
      UpsertsCovered(init, m, o);
      UnderLast(ps);
      PageIdsShape(last, m, o);
      UpsertedIdsStep(Upserts(init, m, o), last, m, o);
    }
  }

  lemma UpsertedIdsStep(front: seq<Op>, p: Page, m: int, o: int)
    ensures UpsertedIds(front + PageUpserts(p, m, o)) == UpsertedIds(front) + PageIds(p, m, o)
  {
    if PageIds(p, m, o) == [] {
      assert front + [] == front;
    } else {
      assert (front + PageUpserts(p, m, o))[..|front|] == front;
    }
  }

  /** The reported chunk count is the number of ids upserted. */
  lemma {:induction false} TotalChunksUpserted(ps: seq<Page>, m: int, o: int)
    ensures |UpsertedIds(Upserts(ps, m, o))| == TotalChunks(ps, m, o)
    decreases |ps|
  {
    if ps != [] {
      var init := ps[..|ps| - 1];
      var last := ps[|ps| - 1];
      TotalChunksUpserted(init, m, o);
      PageIdsShape(last, m, o);
      UpsertedIdsStep(Upserts(init, m, o), last, m, o);
    }
  }

  /** Every crawled page has a stored document and sitemap entry, whether or not it has chunks; the last page with a slug wins. */
  lemma PageStored(pages0: map<string, PageDoc>, sitemap0: map<string, SitemapEntry>, ps: seq<Page>, stamp: nat -> string, j: nat)
    requires j < |ps|
    ensures ps[j].slug in pages0 + MapOf(DocItems(ps)) && ps[j].slug in sitemap0 + MapOf(EntryItems(ps, stamp))
    ensures (forall q :: j < q < |ps| ==> ps[q].slug != ps[j].slug) ==>
              && (pages0 + MapOf(DocItems(ps)))[ps[j].slug] == DocOf(ps[j])
              && (sitemap0 + MapOf(EntryItems(ps, stamp)))[ps[j].slug] == EntryOf(ps[j], stamp(j))
  {
    var docs, entries := DocItems(ps), EntryItems(ps, stamp);
    assert docs[j].0 == ps[j].slug && entries[j].0 == ps[j].slug;
    if forall q :: j < q < |ps| ==> ps[q].slug != ps[j].slug {
      MapOfLast(docs, j);
      MapOfLast(entries, j);
    }
  }

  /**
   * After the run, chunk k of a crawled page (the last one with its slug)
   * is stored under `"{slug}::chunk::{k}"` with its text, its embedding and
   * its metadata.
   */
  lemma {:induction false} ChunksIndexed(records: map<string, Record>, ps: seq<Page>, m: int, o: int,
                                         embed: seq<string> -> seq<seq<real>>, j: nat, k: nat)
    requires Aligned(embed)
    requires j < |ps| && forall q :: j < q < |ps| ==> ps[q].slug != ps[j].slug
    requires k < |Chunks(ps[j].bodyText, m, o)|
    ensures var cs := Chunks(ps[j].bodyText, m, o);
            var id := ChunkId(ps[j].slug, k);
            && id in Indexed(records, ps, m, o, embed)
            && Indexed(records, ps, m, o, embed)[id] == Record(cs[k].text, embed(ChunkTexts(cs))[k], ChunkMeta(ps[j], k))
    decreases |ps|
  {
    var init := ps[..|ps| - 1];
    var last := ps[|ps| - 1];
    assert Indexed(records, ps, m, o, embed) == Indexed(records, init, m, o, embed) + PageBatch(last, m, o, embed);
    if j == |ps| - 1 {
      BatchHolds(last, m, o, embed, k);
    } else {
      assert init[j] == ps[j];
      ChunksIndexed(records, init, m, o, embed, j, k);
      OtherSlugIds(last, m, o, ps[j].slug, k);
    }
  }

  /** Chunk k of a page is in its own batch, with its text, embedding and metadata. */
  lemma BatchHolds(p: Page, m: int, o: int, embed: seq<string> -> seq<seq<real>>, k: nat)
    requires Aligned(embed)
    requires k < |Chunks(p.bodyText, m, o)|
    ensures var cs := Chunks(p.bodyText, m, o);
            var id := ChunkId(p.slug, k);
            id in PageBatch(p, m, o, embed) && PageBatch(p, m, o, embed)[id] == Record(cs[k].text, embed(ChunkTexts(cs))[k], ChunkMeta(p, k))
  {
    PageIdsShape(p, m, o);
    ChunksNumbered(p.bodyText, m, o);
  }

  /** A page's batch holds no id of another slug. */
  lemma OtherSlugIds(p: Page, m: int, o: int, slug: string, k: nat)
    requires p.slug != slug
    ensures ChunkId(slug, k) !in PageIds(p, m, o)
  {
    PageIdsShape(p, m, o);
    var ids := PageIds(p, m, o);
    forall i | 0 <= i < |ids| ensures ids[i] != ChunkId(slug, k) {
      if ids[i] == ChunkId(slug, k) {
        ChunkIdInjective(p.slug, i, slug, k);
      }
    }
  }

  /** Every id the run writes is `"{slug}::chunk::{k}"` for a crawled page and one of its chunks. */
  lemma {:induction false} WrittenChunk(ps: seq<Page>, m: int, o: int, id: string)
    requires id in WrittenIds(ps, m, o)
    ensures exists q, k :: 0 <= q < |ps| && 0 <= k < |Chunks(ps[q].bodyText, m, o)| && id == ChunkId(ps[q].slug, k)
    decreases |ps|
  {
    var init := ps[..|ps| - 1];
    var last := ps[|ps| - 1];
    if id in WrittenIds(init, m, o) {
      WrittenChunk(init, m, o, id);
      var q, k :| 0 <= q < |init| && 0 <= k < |Chunks(init[q].bodyText, m, o)| && id == ChunkId(init[q].slug, k);
      assert ps[q] == init[q];
    } else {
      PageIdsShape(last, m, o);
      var k :| 0 <= k < |PageIds(last, m, o)| && PageIds(last, m, o)[k] == id;
      assert id == ChunkId(ps[|ps| - 1].slug, k);
    }
  }

  /** No vector under a crawled slug's prefix survives the run unless the run itself wrote it. */
  lemma NoStaleChunks(records: map<string, Record>, ps: seq<Page>, m: int, o: int, embed: seq<string> -> seq<seq<real>>, id: string)
    requires Aligned(embed)
    requires id in Indexed(Purged(records, ps), ps, m, o, embed) && UnderAny(ps, id)
    ensures exists q, k :: 0 <= q < |ps| && 0 <= k < |Chunks(ps[q].bodyText, m, o)| && id == ChunkId(ps[q].slug, k)
  {
    WrittenChunk(ps, m, o, id);
  }
}
