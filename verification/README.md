# Apotheon site connector and repository tools — a Dafny model

This project models, in Dafny, the deterministic core of a small local-first
tool suite.

The **Apotheon connector** crawls a website (or a build folder), cuts page text
into overlapping chunks, and stores page metadata and chunk vectors. It serves
keyword-boosted semantic search and content recommendations over that index.

The **MCP repository connector** exposes guarded file and git tools over an
allow-list of root directories. The **console** parses the `ollama list` table.
The connector's **bearer-token check** decides whether a request may pass.

Network access, HTML parsing, URL resolution, embeddings, nearest-neighbour
search, JSON files, the filesystem and git processes are not modelled
themselves. They enter as function-typed parameters (oracles) or as input
values. Everything else is modelled as the Python code does it:

- Windows are cut by loops.
- The breadth-first crawl keeps a queue and a seen set.
- The store and the vector collection are classes whose maps the methods update.
- Results are sorted stably and deduplicated.

Each module follows one source file. Shared helpers live in `Wrappers`
(Option, Result), `Text` (Python string operations) and `Ordering` (string
order, and a stable insertion sort playing the part of Python's `sorted`).

## Model

| member | source | states |
|---|---|---|
| Chunking.NonBlankLines | apotheon_connector/app/indexing/chunking.py:14 | no kept line is empty, and there are no more kept lines than input lines |
| Chunking.NonBlankLinesExact | apotheon_connector/app/indexing/chunking.py:14 | every kept line is some input line stripped, and every input line that is not blank after stripping is kept |
| Chunking.NonBlankLinesAppend | apotheon_connector/app/indexing/chunking.py:14 | lines are kept or dropped one at a time, so the kept lines of two runs are those of the first followed by those of the second, in order |
| Chunking.ChunkText | apotheon_connector/app/indexing/chunking.py:13-32 | the result is the window sequence `Chunks` of the cleaned text, for every window size and overlap |
| Chunking.CutWindows | apotheon_connector/app/indexing/chunking.py:18-32 | the `while` loop with its `break` emits exactly the windows from offset 0, numbered from 0; each chunk is the Python slice `clean[start:end]`, so a negative end counts from the end of the text |
| Chunking.ChunksFromStep | apotheon_connector/app/indexing/chunking.py:23-30 | one pass of the loop: the slice from `start` to `min(n, start + max_chars)`, then either the end or the windows from the next start |
| Chunking.IndicesFrom | apotheon_connector/app/indexing/chunking.py:20-27 | chunk k is numbered `idx + k` whatever the window sizes |
| Chunking.ChunksNumbered | apotheon_connector/app/indexing/chunking.py:14-27 | there are no chunks iff the cleaned text is empty, and chunk k has index k, for every window size and overlap |
| Chunking.CorrectionUnused | apotheon_connector/app/indexing/chunking.py:23-30 | when the loop ends (empty text, text within one window, or overlap below max_chars), each next start `max(0, end - overlap)` lies past the current one |
| Chunking.LoopNeverEnds | apotheon_connector/app/indexing/chunking.py:23-30 | otherwise the loop as written is back at offset 0 after every pass, with a window short of the end, so it never stops |
| Chunking.StuckOnAbc | apotheon_connector/app/indexing/chunking.py:13-30 | `chunk_text("abc", 1, 1)`: the clean text is "abc" and the loop as written does not end on it |
| Chunking.ChunksFromUnfold | apotheon_connector/app/indexing/chunking.py:23-30 | for windows of positive size with overlap below it: a full window followed by those `max_chars - overlap` further on, or the last window |
| Chunking.WindowAt | apotheon_connector/app/indexing/chunking.py:22-30 | for positive max_chars above overlap, chunk k starts at `k * (max_chars - overlap)`, is `clean[start:min(n, start+max_chars)]` with index k, and the loop goes on after it iff its window stops short of the end and the next start is before the end |
| Chunking.ChunkWindows | apotheon_connector/app/indexing/chunking.py:14-30 | for positive max_chars above overlap, chunk k is the window at offset `k * (max_chars - overlap)` with index k, and it is the last iff its window reaches the end or the next start would be past it |
| Chunking.ChunkSizes | apotheon_connector/app/indexing/chunking.py:24-25 | for positive max_chars above overlap, every chunk is non-empty and at most `max_chars` long; all but the last are exactly `max_chars` |
| Chunking.ChunkOverlap | apotheon_connector/app/indexing/chunking.py:30 | for 0 <= overlap < max_chars, consecutive chunks share exactly `overlap` characters: the tail of one is the head of the next |
| Chunking.WindowOverlap | apotheon_connector/app/indexing/chunking.py:30 | the same overlap for the chunks emitted from any start offset |
| Chunking.SliceOverlap | apotheon_connector/app/indexing/chunking.py:24-30 | a full window and the window after it repeat exactly `overlap` characters |
| Chunking.StitchFrom | apotheon_connector/app/indexing/chunking.py:23-30 | gluing the chunks from a start offset, each after the first without its repeated prefix, gives back the text from that offset |
| Chunking.StitchChunks | apotheon_connector/app/indexing/chunking.py:14-30 | for 0 <= overlap < max_chars, gluing all chunks back gives the cleaned text: the windows cover it with no gap and nothing extra |
| Chunking.Example2500 | apotheon_connector/app/indexing/chunking.py:23-30 | 2500 characters with 1200/200 give 3 chunks at 0, 1000 and 2000 of lengths 1200, 1200 and 500 |
| Crawler.CollapseDisallowed | apotheon_connector/app/indexing/crawler.py:30 | every maximal run of characters outside `[A-Za-z0-9/_-]` becomes one "-": only slug characters remain, never longer |
| Crawler.CollapseIdentity | apotheon_connector/app/indexing/crawler.py:30 | the substitution changes nothing iff the path has only slug characters |
| Crawler.TrimmedPath | apotheon_connector/app/indexing/crawler.py:27-29 | an empty path becomes "/", one trailing "/" is removed unless that leaves nothing; never empty |
| Crawler.TrimSlug | apotheon_connector/app/indexing/crawler.py:30-31 | stripping "-" then "/" leaves neither end a "/" |
| Crawler.Slugify | apotheon_connector/app/indexing/crawler.py:25-32 | the slug is non-empty, has only slug characters, and neither starts nor ends with "/" |
| Crawler.SlugifyHome | apotheon_connector/app/indexing/crawler.py:27-32 | the path "" and the path "/" both give "home" |
| Crawler.SlugifyClean | apotheon_connector/app/indexing/crawler.py:25-32 | a clean slug under "/" (with or without a trailing "/") comes back unchanged |
| Crawler.TrimSlugClean | apotheon_connector/app/indexing/crawler.py:30-31 | stripping leaves a clean slug behind a leading "/" as it is |
| Crawler.StripIfSet | apotheon_connector/app/indexing/crawler.py:38-50 | title, description and canonical are present iff the parsed value is present and non-empty |
| Crawler.PageOf | apotheon_connector/app/indexing/crawler.py:52-72 | the page's slug is non-empty, its url is the fetched url, and its headings are the non-empty heading texts capped at 100 |
| Crawler.ExtractPage | apotheon_connector/app/indexing/crawler.py:35-72 | builds exactly `PageOf` |
| Crawler.HeadingLoop | apotheon_connector/app/indexing/crawler.py:52-56 | the heading loop keeps exactly the non-empty texts in document order |
| Crawler.StripFragment | apotheon_connector/app/indexing/crawler.py:118 | the result has no "#", is a prefix of the URL, and is either the whole URL or stops at its first "#" |
| Crawler.LinkTarget | apotheon_connector/app/indexing/crawler.py:108-118 | missing, "#", "mailto:" and "tel:" hrefs are ignored; a followed link is http or https on the base origin, with its fragment removed |
| Crawler.Enqueued | apotheon_connector/app/indexing/crawler.py:107-120 | every enqueued visit has depth+1, was not yet seen, and comes from some href of the page |
| Crawler.EnqueuedComplete | apotheon_connector/app/indexing/crawler.py:107-120 | every followed link not yet seen is enqueued |
| Crawler.DiscoverLinks | apotheon_connector/app/indexing/crawler.py:105-122 | the link loop enqueues exactly `Enqueued` |
| Crawler.HtmlAt | apotheon_connector/app/indexing/crawler.py:95-98 | a fetched response counts iff it exists, is ok, and its content type contains "text/html" |
| Crawler.PagesOf | apotheon_connector/app/indexing/crawler.py:95-102 | fetches yield at most one page each, failures none |
| Crawler.StartUrl | apotheon_connector/app/indexing/crawler.py:80 | the start URL ends with "/" |
| Crawler.CrawlPop | apotheon_connector/app/indexing/crawler.py:89-92 | popping the queue keeps the crawl invariant; the popped visit is the start or was discovered on a fetched page |
| Crawler.CrawlFetch | apotheon_connector/app/indexing/crawler.py:91-93 | marking an unseen visit within depth as fetched keeps the invariant |
| Crawler.FetchLogAppend | apotheon_connector/app/indexing/crawler.py:91-93 | the fetch log stays duplicate-free, within depth, and recorded in `seen` |
| Crawler.FetchJustified | apotheon_connector/app/indexing/crawler.py:90-93 | every fetched visit is the start or was discovered by an earlier fetch |
| Crawler.QueueStillJustified | apotheon_connector/app/indexing/crawler.py:90-93 | fetching more keeps the queue justified |
| Crawler.CrawlLinks | apotheon_connector/app/indexing/crawler.py:104-122 | appending a page's discovered links keeps the invariant |
| Crawler.PagesOfStep | apotheon_connector/app/indexing/crawler.py:95-102 | a fetch adds its page iff the response is usable HTML |
| Crawler.CrawlSite | apotheon_connector/app/indexing/crawler.py:75-124 | at most `max_pages` pages; each URL fetched at most once and never beyond `max_depth`; every fetch is the start or a discovered link; pages are those of the usable fetches in order |
| Crawler.Suffix | apotheon_connector/app/indexing/crawler.py:136 | the suffix is empty or one "." followed by no further "." |
| Crawler.StemSuffix | apotheon_connector/app/indexing/crawler.py:146 | a name is its stem followed by its suffix |
| Crawler.FilePage | apotheon_connector/app/indexing/crawler.py:136-149 | an entry gives a page iff it is a readable file with an indexable suffix (any case); Markdown pages get the stem as title, no headings and the path with "/" replaced by "_" as slug |
| Crawler.FolderPages | apotheon_connector/app/indexing/crawler.py:133-149 | at most one page per entry |
| Crawler.EntryLePreorder | apotheon_connector/app/indexing/crawler.py:133 | path order is a total preorder |
| Crawler.FolderListingSorted | apotheon_connector/app/indexing/crawler.py:133 | the listing is visited sorted by path, and is a permutation of the folder |
| Crawler.FolderPagesPrefix | apotheon_connector/app/indexing/crawler.py:133-149 | pages from a prefix of the listing are a prefix of all pages |
| Crawler.FolderPagesStep | apotheon_connector/app/indexing/crawler.py:136-149 | one more entry adds its page, if any |
| Crawler.FolderPagesBudget | apotheon_connector/app/indexing/crawler.py:134-135 | stopping at `max_files` pages yields the first `max_files` pages |
| Crawler.FolderPagesFromEntries | apotheon_connector/app/indexing/crawler.py:136-149 | every page comes from an indexable, readable entry |
| Crawler.CrawlBuildFolder | apotheon_connector/app/indexing/crawler.py:127-151 | the result is the first `max_files` pages of the sorted listing |
| Crawler.CollectPages | apotheon_connector/app/indexing/crawler.py:133-151 | the loop with its `break` keeps the first `max_files` pages |
| Crawler.EntryPage | apotheon_connector/app/indexing/crawler.py:136-149 | one entry's page as `FilePage` says |
| Pipeline.ChunkId | apotheon_connector/app/indexing/pipeline.py:20-21 | every chunk id of a page starts with `"{slug}::"` |
| Pipeline.ChunkIdInjective | apotheon_connector/app/indexing/pipeline.py:20-21 | different (slug, index) pairs give different ids |
| Pipeline.ChunkMeta | apotheon_connector/app/indexing/pipeline.py:83-92 | a chunk's metadata has exactly the six keys, at most the first 10 headings, and the chunk index |
| Pipeline.ChunkIds | apotheon_connector/app/indexing/pipeline.py:80-81 | one id per chunk, in order |
| Pipeline.ChunkTexts | apotheon_connector/app/indexing/pipeline.py:80-82 | one document per chunk: the chunk text |
| Pipeline.ChunkMetas | apotheon_connector/app/indexing/pipeline.py:80-92 | one metadata record per chunk |
| Pipeline.ChunkBatch | apotheon_connector/app/indexing/pipeline.py:77-92 | the loop builds the three aligned lists |
| Pipeline.PageIdsShape | apotheon_connector/app/indexing/pipeline.py:73-81 | a page's ids are `"{slug}::chunk::{k}"` for its k chunks, all under its prefix, with no repeats |
| Pipeline.DocItems | apotheon_connector/app/indexing/pipeline.py:56-71 | one stored document per crawled page, in page order |
| Pipeline.EntryItems | apotheon_connector/app/indexing/pipeline.py:64-71 | one sitemap entry per crawled page, each with its own clock reading |
| Pipeline.UnderLast | apotheon_connector/app/indexing/pipeline.py:49-50 | an id lies under some page's prefix iff it lies under an earlier page's prefix or the last one's |
| Pipeline.Purged | apotheon_connector/app/indexing/pipeline.py:49-50 | the deletions leave exactly the records under no crawled page's prefix, unchanged |
| Pipeline.PageBatch | apotheon_connector/app/indexing/pipeline.py:73-95 | one page's upsert writes exactly the ids of its chunks |
| Pipeline.Indexed | apotheon_connector/app/indexing/pipeline.py:54-96 | the upserts add exactly the written ids and leave every other record unchanged |
| Pipeline.Reindex | apotheon_connector/app/indexing/pipeline.py:24-100 | fails with nothing changed when neither target is set; the URL wins over the folder; all deletions come before the upserts; every page is stored; the counts are the page and chunk totals; the store is saved once, at the end |
| Pipeline.DeletePhase | apotheon_connector/app/indexing/pipeline.py:49-50 | the deletion loop purges every crawled prefix and logs one delete per page |
| Pipeline.DeleteStep | apotheon_connector/app/indexing/pipeline.py:49-50 | purging one more page's prefix is one more delete |
| Pipeline.DeletesAt | apotheon_connector/app/indexing/pipeline.py:49-50 | the i-th delete is the i-th page's `"{slug}::"` prefix |
| Pipeline.IndexPhase | apotheon_connector/app/indexing/pipeline.py:52-96 | the page loop stores every page, upserts every chunk batch and counts the chunks |
| Pipeline.ProgressStep | apotheon_connector/app/indexing/pipeline.py:54-96 | one page more keeps the loop's progress invariant |
| Pipeline.ProgressDone | apotheon_connector/app/indexing/pipeline.py:54-96 | at the end of the loop the state is exactly that of all pages indexed |
| Pipeline.IndexedStep | apotheon_connector/app/indexing/pipeline.py:54-96 | indexing one more page adds its batch |
| Pipeline.UpsertsStep | apotheon_connector/app/indexing/pipeline.py:74-96 | a page adds its upsert (none without chunks) and its chunk count |
| Pipeline.IndexPage | apotheon_connector/app/indexing/pipeline.py:55-96 | one page: its document and entry are stored, its batch upserted, and its chunk count returned |
| Pipeline.UpsertsShape | apotheon_connector/app/indexing/pipeline.py:74-95 | there is at most one upsert per page, and none is empty |
| Pipeline.UpsertsCovered | apotheon_connector/app/indexing/pipeline.py:49-81 | every upserted id lies under a prefix deleted earlier in the run |
| Pipeline.UpsertedIdsStep | apotheon_connector/app/indexing/pipeline.py:95 | the ids upserted for a page are its chunk ids |
| Pipeline.TotalChunksUpserted | apotheon_connector/app/indexing/pipeline.py:96-100 | the reported chunk count is the number of ids upserted |
| Pipeline.PageStored | apotheon_connector/app/indexing/pipeline.py:54-71 | every crawled page has a document and a sitemap entry in the store, even one without chunks; the last page with a slug wins |
| Pipeline.ChunksIndexed | apotheon_connector/app/indexing/pipeline.py:73-95 | every chunk of the last crawled page with a given slug is in the collection with its text, embedding and metadata (an earlier page with the same slug has its chunk ids overwritten) |
| Pipeline.BatchHolds | apotheon_connector/app/indexing/pipeline.py:77-95 | a page's batch holds each chunk's record under its id |
| Pipeline.OtherSlugIds | apotheon_connector/app/indexing/pipeline.py:20-81 | a page never writes an id under another slug |
| Pipeline.WrittenChunk | apotheon_connector/app/indexing/pipeline.py:77-95 | every written id is the id of some chunk of some page |
| Pipeline.NoStaleChunks | apotheon_connector/app/indexing/pipeline.py:49-96 | after the run, every id under a crawled prefix is a chunk of this run: no stale vector survives |
| Store.MapOf | apotheon_connector/app/storage/index_store.py:28-37 | the keys of the map built from a list of pairs are exactly the listed keys |
| Store.MapOfLast | apotheon_connector/app/storage/index_store.py:28-37 | the last pair with a key decides its value |
| Store.SlugLePreorder | apotheon_connector/app/storage/index_store.py:53 | ordering by slug is a total preorder |
| Store.ValuesAt | apotheon_connector/app/storage/index_store.py:53 | the values of the map, one per key, in key order |
| Store.IndexStore.constructor | apotheon_connector/app/storage/index_store.py:14-22 | a new store starts from two empty maps and loads both snapshots |
| Store.IndexStore.Load | apotheon_connector/app/storage/index_store.py:24-39 | each map is left as it is when its file is missing, reset to empty when its snapshot does not parse, and otherwise updated with every stored pair; the two maps are loaded independently |
| Store.IndexStore.Save | apotheon_connector/app/storage/index_store.py:41-43 | both files are rewritten with the encoding of the whole maps: a full snapshot |
| Store.IndexStore.UpsertPage | apotheon_connector/app/storage/index_store.py:45-47 | sets the document under its slug and the entry under its slug and changes no other key |
| Store.IndexStore.GetPage | apotheon_connector/app/storage/index_store.py:49-50 | the stored document for a known slug, none otherwise |
| Store.IndexStore.ListSitemap | apotheon_connector/app/storage/index_store.py:52-53 | exactly the sitemap values, each once, sorted by slug |
| Store.IndexStore.SitemapValues | apotheon_connector/app/storage/index_store.py:53 | the values of the sitemap, once per key |
| Store.EnumeratedValues | apotheon_connector/app/storage/index_store.py:53 | an enumeration of the keys has one key per entry and reaches every value |
| Store.SortByKeeps | apotheon_connector/app/storage/index_store.py:53 | sorting loses no element |
| Store.DistinctCard | apotheon_connector/app/storage/index_store.py:53 | a duplicate-free key list is as long as its set |
| Store.AssignAll | apotheon_connector/app/storage/index_store.py:28-37 | assigning the pairs one by one gives the map updated with all of them |
| Store.MapOfStep | apotheon_connector/app/storage/index_store.py:28-37 | one more assignment is one more map update |
| Store.SnapshotRestores | apotheon_connector/app/storage/index_store.py:24-43 | loading a saved snapshot into an empty map restores the map |
| Store.CorruptSnapshotResets | apotheon_connector/app/storage/index_store.py:30-39 | a snapshot that does not parse resets its map to empty, whatever it held |
| Vectors.Matching | apotheon_connector/app/storage/vectordb.py:49-56 | the matched ids are stored ids that start with the prefix |
| Vectors.MatchingAppend | apotheon_connector/app/storage/vectordb.py:44-57 | matching page by page equals matching everything at once |
| Vectors.MatchingComplete | apotheon_connector/app/storage/vectordb.py:49-56 | every stored id with the prefix is matched |
| Vectors.Flatten | apotheon_connector/app/storage/vectordb.py:49-56 | flattening nested ids loses none of the plain ones |
| Vectors.CollectMatches | apotheon_connector/app/storage/vectordb.py:49-56 | the inner loops collect the prefixed ids of one page, nested lists flattened first |
| Vectors.CollectListed | apotheon_connector/app/storage/vectordb.py:50-53 | the ids of one nested list that start with the prefix, in their order |
| Vectors.AsItems | apotheon_connector/app/storage/vectordb.py:45-46 | a page of plain ids |
| Vectors.Listing | apotheon_connector/app/storage/vectordb.py:45-46 | a page holds the ids at `offset`, `offset+1`, …, at most `limit` of them |
| Vectors.FlattenFlat | apotheon_connector/app/storage/vectordb.py:49-56 | flattening plain ids changes nothing |
| Vectors.ScanCalls | apotheon_connector/app/storage/vectordb.py:42-57 | the scan reads pages of 500 at offsets 0, 500, … and stops at the first offset past the last id |
| Vectors.Purge | apotheon_connector/app/storage/vectordb.py:38-59 | after a prefix delete, exactly the records whose id does not start with the prefix remain, unchanged |
| Vectors.Without | apotheon_connector/app/storage/vectordb.py:59 | the collection order without the deleted ids, duplicate-free when the order is; the same filter gives the ids an upsert adds |
| Vectors.Batch | apotheon_connector/app/storage/vectordb.py:28-36 | an upsert writes one record per position, under its id |
| Vectors.FirstRow | apotheon_connector/app/storage/vectordb.py:73-76 | the first row of a query field, or nothing when the field is missing or empty |
| Vectors.Query | apotheon_connector/app/storage/vectordb.py:61-81 | the results pair the i-th id, distance, document and metadata, as many as the shortest of the four lists |
| Vectors.VectorDB.constructor | apotheon_connector/app/storage/vectordb.py:20-26 | a new collection is empty |
| Vectors.VectorDB.GetPage | apotheon_connector/app/storage/vectordb.py:45-46 | one read of the collection, returning the listing page |
| Vectors.VectorDB.DeleteIds | apotheon_connector/app/storage/vectordb.py:59 | deletes exactly the given ids |
| Vectors.VectorDB.Upsert | apotheon_connector/app/storage/vectordb.py:28-36 | the records are those before, overwritten or extended by the batch |
| Vectors.VectorDB.ScanPrefix | apotheon_connector/app/storage/vectordb.py:41-57 | the paged scan finds exactly the ids with the prefix, with the reads `ScanCalls` lists |
| Vectors.VectorDB.DeleteByPrefix | apotheon_connector/app/storage/vectordb.py:38-59 | no stored id starts with the prefix afterwards; every other record is untouched; delete is called only when something matched |
| Vectors.GetsNext | apotheon_connector/app/storage/vectordb.py:45-57 | one more page read |
| Vectors.ScanDone | apotheon_connector/app/storage/vectordb.py:47-48 | the scan ends on the first empty page with every id read |
| Vectors.ScanStep | apotheon_connector/app/storage/vectordb.py:45-57 | a non-empty page extends the matches and the offset by 500 |
| Vectors.ScanCount | apotheon_connector/app/storage/vectordb.py:42-57 | the number of reads is fixed by the number of ids |
| Vectors.AppendFresh | apotheon_connector/app/storage/vectordb.py:36 | upserting keeps the collection order duplicate-free and in step with the records |
| Vectors.PurgeMatches | apotheon_connector/app/storage/vectordb.py:49-59 | deleting the matched ids is the prefix purge |
| Vectors.PurgeExample | apotheon_connector/app/storage/vectordb.py:38-59 | with a::chunk::0, a::chunk::1 and b::chunk::0 stored, deleting "a::" leaves only b::chunk::0 |
| Search.Window | apotheon_connector/app/main.py:48-50 | the window around a match is at most 60 + 160 characters plus the two markers |
| Search.Snippet | apotheon_connector/app/main.py:40-50 | without a non-blank needle found case-insensitively, the first `max_len` characters; otherwise a bounded window |
| Search.SnippetFound | apotheon_connector/app/main.py:44-50 | when found, the snippet is the window at the first case-insensitive match |
| Search.SnippetShowsMatch | apotheon_connector/app/main.py:44-50 | a found needle of at most 160 characters appears in the snippet |
| Search.WindowShows | apotheon_connector/app/main.py:48-50 | the window at a match contains the match |
| Search.WindowSlice | apotheon_connector/app/main.py:48-50 | the window contains the text from the match on, up to 160 characters |
| Search.SnippetShortText | apotheon_connector/app/main.py:48-50 | a text of at most 60 characters is shown whole |
| Search.WindowWhole | apotheon_connector/app/main.py:48-50 | a window that needs no cut is the whole text, with no marker |
| Search.SnippetMarks | apotheon_connector/app/main.py:48-50 | the snippet starts with "..." iff more than 60 characters precede the match, and ends with "..." iff text remains after 160 characters from it |
| Search.WindowMarks | apotheon_connector/app/main.py:48-50 | the same for the window at any offset |
| Search.WhereOf | apotheon_connector/app/main.py:121-125 | no filters give no `where`; otherwise `where` keeps exactly the scalar-valued filters |
| Search.NResults | apotheon_connector/app/main.py:127 | the neighbour count is the limit clamped to 1..50 |
| Search.MetaText | apotheon_connector/app/main.py:131-133 | a missing key reads as "" and a string value as itself |
| Search.VectorHit | apotheon_connector/app/main.py:130-146 | a neighbour becomes a result with its slug, title, vector score and snippet |
| Search.VectorHits | apotheon_connector/app/main.py:129-146 | one result per neighbour, in order |
| Search.VectorPass | apotheon_connector/app/main.py:129-146 | the loop builds exactly those results |
| Search.QueryWords | apotheon_connector/app/main.py:149 | the query words are lower-case words of the query with at least 3 characters |
| Search.SlugsOf | apotheon_connector/app/main.py:151 | the seen set is the non-empty slugs of the vector results |
| Search.HitCount | apotheon_connector/app/main.py:156 | the hit count is at most the word count: all words when all occur, none when none occurs |
| Search.Threshold | apotheon_connector/app/main.py:157 | the threshold is at least 1 and at most the word count when there are two or more words |
| Search.KeywordScore | apotheon_connector/app/main.py:163 | a boosted entry scores at least 0.15 |
| Search.CountHits | apotheon_connector/app/main.py:156 | the counting loop counts the words found in the hay |
| Search.KeywordPass | apotheon_connector/app/main.py:150-167 | the loop over the sitemap adds exactly the boosts |
| Search.BoostsExact | apotheon_connector/app/main.py:152-167 | a result is added iff it comes from an entry whose slug is unseen and whose hits reach the threshold |
| Search.KeywordHitShape | apotheon_connector/app/main.py:153-165 | an added result's slug was not among the vector results; it has no matched headings and scores at least the threshold's score |
| Search.ScoreGePreorder | apotheon_connector/app/main.py:169 | descending score is a total preorder |
| Search.SearchPages | apotheon_connector/app/main.py:117-170 | the endpoint returns the ranked results |
| Search.RankedSorted | apotheon_connector/app/main.py:169 | results are sorted by score, descending |
| Search.RankedFrom | apotheon_connector/app/main.py:169 | at most `limit` results, drawn from the vector and keyword results |
| Search.RankedTop | apotheon_connector/app/main.py:169 | the results are the best-scored prefix: none left out scores higher |
| Search.SearchEmpty | apotheon_connector/app/main.py:127-169 | for a limit of at least 1, there are no results iff there are no neighbours and no boosted entry (a limit of 0 or below cuts the list whatever was found) |
| Recommend.GoalWords | apotheon_connector/app/main.py:181 | the goal's words kept for the slug are ASCII alphanumeric, so none holds a "-" |
| Recommend.SlugSuggestion | apotheon_connector/app/main.py:181 | the suggested slug is non-empty, at most 60 characters, and made of letters, digits and "-" |
| Recommend.SlugOf | apotheon_connector/app/main.py:181 | the joined words cut to 60, or "new-page" when that is empty |
| Recommend.SlugCharsOf | apotheon_connector/app/main.py:181 | joining alphanumeric words with "-" gives only slug characters |
| Recommend.SlugSplitsIntoWords | apotheon_connector/app/main.py:181 | a slug that was not cut splits on "-" back into the goal's words |
| Recommend.GapPass | apotheon_connector/app/main.py:178-203 | the goal loop emits exactly `GapRecs` |
| Recommend.GapRecsExact | apotheon_connector/app/main.py:178-203 | a `new_page` recommendation is made for a goal iff its search returns no results |
| Recommend.UnansweredMeansNoNeighbours | apotheon_connector/app/main.py:179-180 | a goal without results had no nearest neighbours |
| Recommend.ThinPass | apotheon_connector/app/main.py:206-226 | the sitemap loop emits exactly `ThinRecs` |
| Recommend.ThinRecsExact | apotheon_connector/app/main.py:206-226 | `expand_page` is made for every listed entry whose stored page has fewer than 250 words, and for no other |
| Recommend.Titled | apotheon_connector/app/main.py:230 | at most one title pair per entry |
| Recommend.Considered | apotheon_connector/app/main.py:231-236 | at most the first 40 titled entries take part |
| Recommend.TermsSmallest | apotheon_connector/app/main.py:246 | the listed terms are the smallest six shared terms (all when fewer), ascending |
| Recommend.SortTerms | apotheon_connector/app/main.py:246 | the shared terms in ascending order |
| Recommend.LinkOf | apotheon_connector/app/main.py:239-251 | one link recommendation for a pair |
| Recommend.PairPass | apotheon_connector/app/main.py:236-251 | the inner loop emits the links of item i with every later item |
| Recommend.LinkPass | apotheon_connector/app/main.py:230-251 | the double loop emits exactly `LinkRecs` |
| Recommend.LinkedHasTerms | apotheon_connector/app/main.py:233-240 | a title sharing two terms has terms, so the `continue` skips no linked pair |
| Recommend.LinkRecsExact | apotheon_connector/app/main.py:231-251 | one `internal_linking` recommendation for each pair i<j among the first 40 titled entries sharing at least two words of 5 or more letters |
| Recommend.SeoPass | apotheon_connector/app/main.py:254-270 | the sitemap loop emits exactly `SeoRecs` |
| Recommend.SeoRecsExact | apotheon_connector/app/main.py:254-270 | `seo_metadata` is made for every entry without a description, and for no other |
| Recommend.ConcatIn | apotheon_connector/app/main.py:178-270 | a loop's output holds exactly what its iterations appended |
| Recommend.EachStep | apotheon_connector/app/main.py:178-270 | one iteration of a filtering loop |
| Recommend.EachIn | apotheon_connector/app/main.py:178-270 | a filtering loop's output holds exactly the items kept |
| Recommend.PairRowIn | apotheon_connector/app/main.py:236-251 | the inner loop's output holds exactly the pairs hit |
| Recommend.PairStep | apotheon_connector/app/main.py:236-251 | one iteration of the inner loop |
| Recommend.RowsStep | apotheon_connector/app/main.py:231-251 | one iteration of the outer loop |
| Recommend.PairsIn | apotheon_connector/app/main.py:231-251 | the double loop's output holds exactly the pairs hit |
| Recommend.KeysOf | apotheon_connector/app/main.py:276 | the set of keys of the recommendations |
| Recommend.DedupPass | apotheon_connector/app/main.py:273-280 | the loop with its seen set emits exactly `Dedup` |
| Recommend.DedupKeys | apotheon_connector/app/main.py:273-280 | dedup keeps every key, and no key twice |
| Recommend.DedupFirsts | apotheon_connector/app/main.py:273-280 | a recommendation is kept iff it is the first with its key |
| Recommend.DedupPrefix | apotheon_connector/app/main.py:273-280 | dedup of a prefix is a prefix of dedup: order is kept |
| Recommend.RecommendContent | apotheon_connector/app/main.py:173-282 | the four passes in order, then dedup, then the first 80 |
| Recommend.RecommendationsShape | apotheon_connector/app/main.py:273-282 | at most 80 recommendations, no two with the same (type, slugSuggestion, title) |
| Auth.Authorize | apotheon_connector/app/core/auth.py:14-19 | accepting yields True and refusing is 401 "Unauthorized"; with no token configured every request passes; with one, missing credentials are refused and accepted ones carry the token exactly |
| Auth.AuthorizeExact | apotheon_connector/app/core/auth.py:15-19 | with a token configured, a request passes iff it has credentials, the lower-cased scheme is "bearer", and the value equals the token |
| Auth.SchemeCaseInsensitive | apotheon_connector/app/core/auth.py:17 | schemes equal up to letter case decide alike |
| RepoConfig.StripAll | mcp_repo_connector/mcp_repo_connector/config.py:10 | every field stripped, in order |
| RepoConfig.SemicolonIsColon | mcp_repo_connector/mcp_repo_connector/config.py:10 | ";" and ":" separate roots alike |
| RepoConfig.RootsClean | mcp_repo_connector/mcp_repo_connector/config.py:10-11 | every returned root is non-empty, already stripped, and holds no separator |
| RepoConfig.SeparatorsOnly | mcp_repo_connector/mcp_repo_connector/config.py:10-11 | a text of separators and whitespace gives no roots |
| RepoConfig.EmptyRaw | mcp_repo_connector/mcp_repo_connector/config.py:10-11 | the empty text gives no roots |
| RepoConfig.SplitJoinedRoots | mcp_repo_connector/mcp_repo_connector/config.py:9-11 | clean roots joined by ":" split back into the same roots, in order |
| RepoConfig.KeptRoots | mcp_repo_connector/mcp_repo_connector/config.py:10-11 | clean fields are all kept, in order |
| RepoConfig.JoinedFields | mcp_repo_connector/mcp_repo_connector/config.py:10 | splitting at ":" undoes joining with ":" |
| RepoConfig.Digits | mcp_repo_connector/mcp_repo_connector/config.py:35-37 | a digit run is read iff it is non-empty and all ASCII digits |
| RepoConfig.ParseInt | mcp_repo_connector/mcp_repo_connector/config.py:35-37 | `int` accepts only text that is not blank once its surrounding whitespace (without U+001C to U+001F) is stripped |
| RepoConfig.ParseIntBlank | mcp_repo_connector/mcp_repo_connector/config.py:35-37 | a text made only of whitespace is never an integer |
| RepoConfig.ParseIntAsciiSpace | mcp_repo_connector/mcp_repo_connector/config.py:35-37 | " 5\n" reads as 5 |
| RepoConfig.ParseIntUnicodeSpace | mcp_repo_connector/mcp_repo_connector/config.py:35-37 | a no-break space before "-7" is skipped: it reads as -7 |
| RepoConfig.ParseIntSeparator | mcp_repo_connector/mcp_repo_connector/config.py:35-37 | "\x1c5" is not an integer: U+001C is whitespace to `str.isspace()` but `int` does not skip it |
| RepoConfig.ParseIntToString | mcp_repo_connector/mcp_repo_connector/config.py:35-37 | `int` reads back every written integer |
| RepoConfig.ParseUnsigned | mcp_repo_connector/mcp_repo_connector/config.py:35-37 | a digit run reads as its decimal value |
| RepoConfig.ParseSigned | mcp_repo_connector/mcp_repo_connector/config.py:35-37 | a "-" before a digit run reads as the negated value |
| RepoConfig.FromEnv | mcp_repo_connector/mcp_repo_connector/config.py:26-40 | on success the three caps are the integers read from MCP_MAX_READ_BYTES, MCP_MAX_DIFF_BYTES and MCP_MAX_SEARCH_RESULTS, or from their default texts; on failure the error names one of those variables with the value `int` could not read |
| RepoConfig.FromEnvFails | mcp_repo_connector/mcp_repo_connector/config.py:33-40 | `from_env` fails iff one of the three caps is not an integer; the read-bytes cap is checked first |
| RepoConfig.FromEnvParts | mcp_repo_connector/mcp_repo_connector/config.py:27-40 | the settings hold the roots, the API base and the token read from the environment |
| RepoConfig.FromEnvRoots | mcp_repo_connector/mcp_repo_connector/config.py:27-31 | an unset or empty MCP_ALLOWED_ROOTS gives the resolved working directory as the only root; otherwise every listed root, resolved, in order |
| RepoConfig.FromEnvApiBase | mcp_repo_connector/mcp_repo_connector/config.py:38 | the API base is the configured value without its trailing "/" characters |
| RepoConfig.TrailingSlashesCut | mcp_repo_connector/mcp_repo_connector/config.py:38 | `rstrip("/")` removes exactly the trailing run of "/" |
| RepoConfig.FromEnvToken | mcp_repo_connector/mcp_repo_connector/config.py:39 | the token is CONNECTOR_TOKEN when set, none otherwise |
| RepoConfig.EmptyEnvDefaults | mcp_repo_connector/mcp_repo_connector/config.py:26-40 | an empty environment gives the working directory, 200000, 300000, 50, "http://127.0.0.1:8090" and no token |
| RepoConfig.EmptyEnvCaps | mcp_repo_connector/mcp_repo_connector/config.py:35-37 | the default caps are 200000, 300000 and 50 |
| RepoConfig.EmptyEnvStrings | mcp_repo_connector/mcp_repo_connector/config.py:27-39 | the default root, API base and token |
| RepoConfig.DefaultCaps | mcp_repo_connector/mcp_repo_connector/config.py:35-37 | the default texts read as 200000, 300000 and 50 |
| RepoConfig.DefaultDigits | mcp_repo_connector/mcp_repo_connector/config.py:35-37 | those numbers are written as the default texts |
| Security.ResolvedRoots | mcp_repo_connector/mcp_repo_connector/security.py:18 | every allowed root resolved, in order |
| Security.UnderAny | mcp_repo_connector/mcp_repo_connector/security.py:19-21 | some allowed root contains the path |
| Security.ResolveAndCheck | mcp_repo_connector/mcp_repo_connector/security.py:11-23 | accepted iff the resolved path equals an allowed root or starts with it followed by "/"; acceptance returns the resolved path, rejection raises PathDenied with the resolved path in the message |
| Security.EnsureIsDir | mcp_repo_connector/mcp_repo_connector/security.py:26-28 | passes iff the path exists and is a directory; otherwise "Directory not found" |
| Security.EnsureIsFile | mcp_repo_connector/mcp_repo_connector/security.py:31-33 | passes iff the path exists and is a regular file; otherwise "File not found" |
| Security.CheckedDir | mcp_repo_connector/mcp_repo_connector/security.py:11-28 | the containment check, then the directory check; the first failure is the one raised |
| Security.CheckedFile | mcp_repo_connector/mcp_repo_connector/security.py:11-33 | the containment check, then the file check; the first failure is the one raised |
| Security.WithinComponents | mcp_repo_connector/mcp_repo_connector/security.py:20 | containment holds iff the path is the root or continues it after a "/" |
| Security.SiblingOutside | mcp_repo_connector/mcp_repo_connector/security.py:20 | a sibling sharing a name prefix, such as "/a/bc" under "/a/b", is rejected |
| Security.SlashRoot | mcp_repo_connector/mcp_repo_connector/security.py:20 | under the root "/", only "/" itself and paths starting "//" pass |
| Security.WithinTransitive | mcp_repo_connector/mcp_repo_connector/security.py:20 | a path inside a root that is inside another root is inside that one too |
| Ollama.Lines | dgx_ollama_console/ollama.py:32 | the kept lines are non-empty and start with no whitespace: stripped, blanks dropped |
| Ollama.FirstSizeFrom | dgx_ollama_console/ollama.py:49-50 | the first index from i on where a number is followed by a KB/MB/GB/TB unit (any case), or none when there is none |
| Ollama.RowOf | dgx_ollama_console/ollama.py:45-56 | the row of a line's tokens is the model its loop body builds |
| Ollama.ListModelsCli | dgx_ollama_console/ollama.py:25-58 | the parser returns exactly `ListModels` of the command output |
| Ollama.ParseListing | dgx_ollama_console/ollama.py:32-58 | the parse of an output: one model per data line |
| Ollama.ModelsOfLines | dgx_ollama_console/ollama.py:39-58 | the line loop builds one model per data line |
| Ollama.ScanLine | dgx_ollama_console/ollama.py:41-56 | the inner loop with its `break` builds the model of one line |
| Ollama.RowsStep | dgx_ollama_console/ollama.py:40-56 | one more line adds its model, if it has tokens |
| Ollama.NonBlankHasTokens | dgx_ollama_console/ollama.py:32-43 | a stripped non-blank line has a token, so the `continue` never fires |
| Ollama.RowsLength | dgx_ollama_console/ollama.py:40-56 | one model per line with tokens |
| Ollama.RowAt | dgx_ollama_console/ollama.py:40-56 | the k-th model comes from the k-th line |
| Ollama.OneRowPerLine | dgx_ollama_console/ollama.py:32-56 | every data line yields exactly one model, in order |
| Ollama.ModelsOfOutput | dgx_ollama_console/ollama.py:32-58 | the models are one per data line, in order, each named by its line's first token |
| Ollama.SizeIsFirstPair | dgx_ollama_console/ollama.py:46-54 | size is "<num> <unit>" at the first index i >= 1 where a number precedes a unit; with no such index, size and modified stay None |
| Ollama.ModifiedFollowsUnit | dgx_ollama_console/ollama.py:52-53 | modified is the tokens after the unit joined by single spaces, and None when the unit is the last token |
| Ollama.FailedCommand | dgx_ollama_console/ollama.py:27-30 | a failed command gives no models |
| Ollama.HeaderDropped | dgx_ollama_console/ollama.py:36-37 | the first line is skipped iff, lower-cased, it contains both "name" and "size" |
| Ollama.LooksNumber | dgx_ollama_console/ollama.py:61-66 | `float` rejects a blank text, a lone sign and a lone "." |
| Ollama.IntegersLookLikeNumbers | dgx_ollama_console/ollama.py:61-66 | every written integer is accepted as a number |
| Ollama.DigitsAreFloat | dgx_ollama_console/ollama.py:61-66 | a digit run is a float literal |
| FsWalk.Patterns | mcp_repo_connector/mcp_repo_connector/fs_tools.py:49 | a non-empty glob is the only pattern; otherwise the eleven default patterns |
| FsWalk.Paths | mcp_repo_connector/mcp_repo_connector/fs_tools.py:55 | each found file's path, joined below the walked directory |
| FsWalk.Under | mcp_repo_connector/mcp_repo_connector/fs_tools.py:52-55 | the files of a subdirectory, seen from its parent |
| FsWalk.WalkDir | mcp_repo_connector/mcp_repo_connector/fs_tools.py:52-59 | the walk of a directory finds its matching files, then those of its unpruned subdirectories, in walk order |
| FsWalk.MatchFilesIn | mcp_repo_connector/mcp_repo_connector/fs_tools.py:54-59 | the file loop with the pattern loop and its `break` adds each matching file once |
| FsWalk.IterFilesWalk | mcp_repo_connector/mcp_repo_connector/fs_tools.py:48-60 | `_iter_files` returns exactly `IterFiles` |
| FsWalk.WalkDirStep | mcp_repo_connector/mcp_repo_connector/fs_tools.py:52-59 | one more subdirectory adds its own walk |
| FsWalk.WalkSubsSnoc | mcp_repo_connector/mcp_repo_connector/fs_tools.py:52-53 | the descent into one more kept subdirectory |
| FsWalk.WalkSubsStep | mcp_repo_connector/mcp_repo_connector/fs_tools.py:52-53 | the descent, one subdirectory at a time |
| FsWalk.PathsAppend | mcp_repo_connector/mcp_repo_connector/fs_tools.py:55 | paths of a concatenation are the concatenated paths |
| FsWalk.PathsUnder | mcp_repo_connector/mcp_repo_connector/fs_tools.py:55 | paths under a subdirectory are paths from that subdirectory |
| FsWalk.MatchedFilesSound | mcp_repo_connector/mcp_repo_connector/fs_tools.py:54-59 | every matched file is a file of the directory matching some pattern |
| FsWalk.MatchedFilesComplete | mcp_repo_connector/mcp_repo_connector/fs_tools.py:54-59 | every file matching some pattern is matched |
| FsWalk.WalkSound | mcp_repo_connector/mcp_repo_connector/fs_tools.py:52-59 | every file found exists, is not below node_modules, .git, .next, dist or build, and matches a pattern |
| FsWalk.WalkSubsSound | mcp_repo_connector/mcp_repo_connector/fs_tools.py:52-59 | the same for the files found below the kept subdirectories |
| FsWalk.ReportedBelow | mcp_repo_connector/mcp_repo_connector/fs_tools.py:52-53 | a file reported in an unpruned subdirectory is reported from its parent |
| FsWalk.FilterKeeps | mcp_repo_connector/mcp_repo_connector/fs_tools.py:53 | the pruning keeps every directory not in the pruned set |
| FsWalk.WalkSubsHas | mcp_repo_connector/mcp_repo_connector/fs_tools.py:52-53 | every file found in a kept subdirectory is found from the parent |
| FsWalk.WalkComplete | mcp_repo_connector/mcp_repo_connector/fs_tools.py:52-59 | every file that exists, is not below a pruned directory, and matches a pattern is found |
| FsWalk.WalkExact | mcp_repo_connector/mcp_repo_connector/fs_tools.py:48-60 | a file is found iff it exists, is not below a pruned directory, and matches a pattern |
| FsWalk.DistinctAppend | mcp_repo_connector/mcp_repo_connector/fs_tools.py:58 | joining two disjoint duplicate-free lists keeps them duplicate-free |
| FsWalk.FilterDistinctKeys | mcp_repo_connector/mcp_repo_connector/fs_tools.py:53 | pruning keeps subdirectory names distinct |
| FsWalk.MatchedFilesDistinct | mcp_repo_connector/mcp_repo_connector/fs_tools.py:54-59 | the `break` adds each file of a directory at most once |
| FsWalk.WalkSubsHeads | mcp_repo_connector/mcp_repo_connector/fs_tools.py:52-55 | a file below a subdirectory is reached through that subdirectory |
| FsWalk.UnderDistinct | mcp_repo_connector/mcp_repo_connector/fs_tools.py:55 | distinct files stay distinct below a subdirectory |
| FsWalk.WalkDistinct | mcp_repo_connector/mcp_repo_connector/fs_tools.py:52-59 | the walk reports no file twice |
| FsWalk.WalkSubsDistinct | mcp_repo_connector/mcp_repo_connector/fs_tools.py:52-59 | the descent reports no file twice |
| FsTools.ItemOf | mcp_repo_connector/mcp_repo_connector/fs_tools.py:20-30 | an entry that can be stat'ed is reported with its kind, its size only when it is a file, and its mtime; otherwise it is "unknown" |
| FsTools.ListDir | mcp_repo_connector/mcp_repo_connector/fs_tools.py:12-31 | the guard's failure is raised as is; otherwise the first `max_entries` of the sorted entries, one item each, in order |
| FsTools.EntryLePreorder | mcp_repo_connector/mcp_repo_connector/fs_tools.py:17 | the listing order is a total preorder |
| FsTools.ListingOrder | mcp_repo_connector/mcp_repo_connector/fs_tools.py:17 | sorting keeps every entry, puts non-files before files, and orders each group by lower-cased name |
| FsTools.Read | mcp_repo_connector/mcp_repo_connector/fs_tools.py:39-40 | `f.read(n)` on a file opened "rb": -1 reads everything, a length below -1 raises ValueError, and otherwise the first min(n, size) bytes come back |
| FsTools.ReadFile | mcp_repo_connector/mcp_repo_connector/fs_tools.py:34-45 | fails iff the guard fails or the cap is below -2: the guard's failure is raised as is, and a cap below -2 raises the reader's ValueError; otherwise the capped bytes are decoded; the cap is `max_bytes` when given, else the configured one |
| FsTools.CappedBytesCases | mcp_repo_connector/mcp_repo_connector/fs_tools.py:38-45 | data within the cap is returned whole; longer data becomes its first cap bytes followed by "\n\n[TRUNCATED]\n"; a cap of -1 gives the marker alone, a cap of -2 the file less its last two bytes and the marker, and a lower cap raises ValueError |
| FsTools.MarkerBytesSpell | mcp_repo_connector/mcp_repo_connector/fs_tools.py:43 | the byte marker spells "\n\n[TRUNCATED]\n" |
| FsTools.AllHits | mcp_repo_connector/mcp_repo_connector/fs_tools.py:73-84 | the hits of every file in walk order, each file's in line order |
| FsTools.SearchText | mcp_repo_connector/mcp_repo_connector/fs_tools.py:63-86 | the guard's failure is raised as is; otherwise the first `limit` hits over the walked files; the limit is `max_results` when given, else the configured one |
| FsTools.Scan | mcp_repo_connector/mcp_repo_connector/fs_tools.py:73-84 | the file loop with its two `break`s returns the first `limit` hits and stops as soon as the limit is hit |
| FsTools.ScanLines | mcp_repo_connector/mcp_repo_connector/fs_tools.py:80-84 | the line loop appends this file's hits until the limit is hit |
| FsTools.TakeAppend | mcp_repo_connector/mcp_repo_connector/fs_tools.py:74-84 | cutting a concatenation to n elements |
| FsTools.TakeOfPrefix | mcp_repo_connector/mcp_repo_connector/fs_tools.py:74-84 | once n hits are found, later hits do not change the first n |
| FsTools.LineHitsPrefix | mcp_repo_connector/mcp_repo_connector/fs_tools.py:80-84 | the hits of the first lines are a prefix of the file's hits |
| FsTools.AllHitsPrefix | mcp_repo_connector/mcp_repo_connector/fs_tools.py:73-84 | the hits of the first files are a prefix of all hits |
| FsTools.LineHitsGenuine | mcp_repo_connector/mcp_repo_connector/fs_tools.py:80-82 | every hit names a line, counted from 1, that contains the query case-insensitively, and shows it cut to 400 characters |
| FsTools.AllHitsGenuine | mcp_repo_connector/mcp_repo_connector/fs_tools.py:73-82 | every hit comes from a walked, readable file and a matching line |
| FsTools.LineHitsComplete | mcp_repo_connector/mcp_repo_connector/fs_tools.py:80-82 | every matching line is a hit |
| FsTools.AllHitsComplete | mcp_repo_connector/mcp_repo_connector/fs_tools.py:73-82 | every matching line of every readable walked file is a hit |
| GitTools.FailureMessage | mcp_repo_connector/mcp_repo_connector/git_tools.py:13-16 | the message names the command and ends with the stripped stderr, or the stripped stdout when stderr is blank |
| GitTools.RunGit | mcp_repo_connector/mcp_repo_connector/git_tools.py:11-17 | the output of a zero exit; a non-zero exit raises a RuntimeError with that message |
| GitTools.GuardedGit | mcp_repo_connector/mcp_repo_connector/git_tools.py:20-23 | a failing guard is raised before git runs; otherwise git runs in the resolved root |
| GitTools.GitStatus | mcp_repo_connector/mcp_repo_connector/git_tools.py:20-23 | the status of an allowed directory, or the guard's or git's failure |
| GitTools.LogArgs | mcp_repo_connector/mcp_repo_connector/git_tools.py:46 | "log", then "-n" glued to the count, which reads back as the count, then "--oneline" and "--decorate" |
| GitTools.GitLog | mcp_repo_connector/mcp_repo_connector/git_tools.py:43-46 | the log of an allowed directory, or the guard's or git's failure |
| GitTools.DiffArgs | mcp_repo_connector/mcp_repo_connector/git_tools.py:30-34 | the arguments built by appending are `DiffArgsOf` |
| GitTools.DiffArgsOf | mcp_repo_connector/mcp_repo_connector/git_tools.py:30-34 | "diff" first, "--staged" only when staged, then "--" and the path when a non-empty path is given |
| GitTools.DiffArgsRoundTrip | mcp_repo_connector/mcp_repo_connector/git_tools.py:30-34 | the arguments determine the options: reading them back gives the staged flag and the path |
| GitTools.Utf8Width | mcp_repo_connector/mcp_repo_connector/git_tools.py:38 | each character takes 1 to 4 bytes in UTF-8 |
| GitTools.Utf8Len | mcp_repo_connector/mcp_repo_connector/git_tools.py:38 | the encoded length lies between the character count and four times it |
| GitTools.Utf8Prefix | mcp_repo_connector/mcp_repo_connector/git_tools.py:38-39 | the longest prefix whose encoding fits the cap |
| GitTools.DiffCutAsWritten | mcp_repo_connector/mcp_repo_connector/git_tools.py:37-40 | as written: output whose UTF-8 length is within the cap is returned whole; otherwise its first `cap` characters (for a negative cap, all but the last `-cap`) and the marker |
| GitTools.DiffCut | mcp_repo_connector/mcp_repo_connector/git_tools.py:37-40 | the corrected cut: output within the cap is returned whole; for a cap >= 0, longer output keeps the longest prefix within the cap bytes, then the marker; a negative cap keeps the slice as written |
| GitTools.GitDiff | mcp_repo_connector/mcp_repo_connector/git_tools.py:26-40 | the guard's or git's failure, or the diff output cut at the cap by the corrected byte cut (see Findings), which equals the cut as written on ASCII output and on every negative cap; the cap is `max_bytes` when given, else the configured one |
| GitTools.AsciiCutsAgree | mcp_repo_connector/mcp_repo_connector/git_tools.py:37-40 | on ASCII output the corrected cut equals the cut as written, for every cap, negative ones included |
| GitTools.NegativeCapSlices | mcp_repo_connector/mcp_repo_connector/git_tools.py:37-40 | "abc" with a cap of -1 becomes "ab" and the marker, in both cuts |
| GitTools.AsciiLen | mcp_repo_connector/mcp_repo_connector/git_tools.py:38 | ASCII text takes one byte per character |
| GitTools.AsciiPrefix | mcp_repo_connector/mcp_repo_connector/git_tools.py:39 | on ASCII text the longest fitting prefix is the first cap characters |
| GitTools.CutAsWrittenOverCap | mcp_repo_connector/mcp_repo_connector/git_tools.py:37-40 | "éé" (4 bytes) with a cap of 2 keeps both characters and adds the marker as written; corrected, it keeps "é" |
| GitTools.GrepCut | mcp_repo_connector/mcp_repo_connector/git_tools.py:53-56 | at most `max_results` lines are kept whole; more lines become the first `max_results` and a "[TRUNCATED]" line, with Python's slicing for negative values |
| GitTools.GitGrep | mcp_repo_connector/mcp_repo_connector/git_tools.py:49-56 | the guard's or git's failure, or the cut lines joined by "\n" |
| GitTools.GrepOutputLines | mcp_repo_connector/mcp_repo_connector/git_tools.py:53-56 | a cut grep result splits back into its kept lines and the marker line |

## Left out

- HTML parsing is an oracle. A parsed document yields the title, description, canonical link, heading texts, body text and hrefs. BeautifulSoup itself is not modelled.
- URL handling is three abstract functions: `urljoin`, and the scheme and network location of `urlparse`. The path used by the slug is an input.
- The network is not modelled. HTTP fetches are a function from URL to an optional response; an exception is a missing response. Embeddings are a length-preserving function. This leaves out an embedder that raises in the middle of a run: every prefix deletion has already happened by then, the remaining pages are not upserted, and the store is not saved. The nearest-neighbour query of the vector store is a function from query, count and filter to results.
- The vector score `1/(1+distance)` is an abstract function on `real`. Keyword scores are the exact reals `0.15 + 0.05·hits`. Floating-point rounding is not modelled.
- The clock is a parameter. The i-th page of a run gets the i-th timestamp.
- JSON files are a codec parameter. The store's `_load` and `save` see a file as missing, or present with its text; the codec decodes to pairs or fails. Decoding that fails halfway is modelled as failing outright, which is what the reset to an empty map produces.
- The filesystem is an input. Path resolution (`expanduser`, `resolve`), the kind of a path, directory listings, `stat`, file bytes, text reads, UTF-8 decoding with replacement and the directory tree are all given. The walk order within a directory comes from the tree. Symbolic links are not followed, as `os.walk` does by default. A failed `open` in `read_file` is not modelled; a failed text read in `search_text` skips the file.
- `fnmatch` is an abstract predicate on a name and a pattern.
- git and `ollama list` are processes given by their result: return code, stdout and stderr for git, and the output or a failure for ollama.
- Text.Lower and Text.Upper map ASCII letters only. Python maps every Unicode letter.
- Recommend.GoalWords: the word test is ASCII `isalnum`. Python's `str.isalnum` also accepts non-ASCII letters and digits, so a goal such as "Café Menü" gives "café-menü" in the source but "new-page" here.
- Recommend.SlugSuggestion: built from `GoalWords`, so its slug keeps only ASCII letters and digits; a word with a non-ASCII letter is dropped where the source keeps it.
- Ollama.LooksNumber follows the grammar of Python's `float` with ASCII digits. It does not accept non-ASCII digits. Surrounding whitespace is that of `int` and `float`: every `str.isspace()` character except U+001C to U+001F.
- RepoConfig.ParseInt reads an optional sign and ASCII digits between whitespace, where whitespace is every `str.isspace()` character except U+001C to U+001F, as `int` skips it. It does not accept underscore grouping or non-ASCII digits. The ValueError text of a bad value is not modelled; the failure names the variable and its value.
- Crawler.CrawlSite: the contract says every fetch is justified, none repeats a URL or exceeds the depth, and the pages are those of the usable fetches. It does not say that every page reachable within the bounds is fetched. `Page.last_fetched_at` is not modelled; it is never set in the crawl.
- Crawler.CrawlBuildFolder: the folder listing is given as entries with relative paths and contents. `rglob`, `as_uri` and reading are inputs.
- Store.IndexStore.ListSitemap: the order among entries with equal slugs is left open. Python keeps dictionary insertion order there. Keys of the sitemap map are distinct, but the stored entries' own slugs need not be.
- Chunking.CutWindows: where the loop as written never ends (an overlap of at least `max_chars` on a cleaned text longer than `max_chars`), the model moves the start on by one character so that it ends; see Findings. On every input where the source ends, the two agree.
- Pipeline.Reindex: the raw collection calls (`get`, `delete`, `upsert`) of a run are not specified. The sequence of prefix deletions and id upserts is. The ValueError message is not modelled. The pipeline needs the ids of one upsert to be distinct, which chunk ids are; duplicate slugs among crawled pages are allowed, and the last one wins in the store.
- Vectors.VectorDB.Upsert: requires aligned lists with distinct ids. Chroma rejects other batches, and the wrapper has no error path of its own.
- Search.MetaText: an integer value reads as its decimal digits (0 as ""). Other kinds of values read as "". Python's `str` of arbitrary objects is not modelled.
- The `audience` and `constraints` fields of a recommendation request are not used by the source and are not modelled.
- The gap pass of `recommend_content` calls `search_pages` internally. The model passes that search in as a function built from the same search definition (`GoalSearch`).
- FsWalk.WalkDistinct: distinctness is stated for the component lists of found files, not for the joined path strings. It assumes the names in a directory do not repeat, as a filesystem guarantees.
- GitTools.GitDiff: returns the corrected cut `DiffCut`, not `out[:cap]` as written. The two differ only on output with non-ASCII characters whose UTF-8 length is over a cap >= 0 (see Findings); `AsciiCutsAgree` and `DiffCut`'s own contract show they agree everywhere else, negative caps included.
- Ollama.ParseListing: the number test is a parameter. `ListModelsCli` instantiates it with `LooksNumber`. The line loop and the token loop are separate methods (`ModelsOfLines`, `ScanLine`).
- `ollama_is_healthy` and `generate` (HTTP calls), process supervision, the network helpers, the web apps and routes, the MCP server registration, the website client and the environment loading of the Apotheon connector are not part of this model.

## Findings

| source | as written | input that shows it | evidently intended | confidence | as-written member | corrected member |
|---|---|---|---|---|---|---|
| apotheon_connector/app/indexing/chunking.py:23-30 | the next start is `max(0, end - overlap)`; with `overlap >= max_chars` it is 0 again after the first window, so on a cleaned text longer than `max_chars` the loop never ends (the settings are read from the environment unchecked) | `chunk_text("abc", 1, 1)`, or CONNECTOR_CHUNK_CHARS=200 with CONNECTOR_CHUNK_OVERLAP=200 on any page with more than 200 characters | each window starts after the one before it, so the loop ends on every text | not executed | Chunking.LoopNeverEnds, Chunking.StuckOnAbc | Chunking.CutWindows |
| mcp_repo_connector/mcp_repo_connector/git_tools.py:37-40 | the test compares the UTF-8 byte length with the cap, but the cut keeps the first `cap` characters, so the result can exceed the cap and be marked truncated with nothing removed | the output "éé" (4 bytes) with a cap of 2 comes back as "éé" followed by the marker | for a cap >= 0, keep at most `cap` bytes of the output (the longest prefix that fits), then the marker; a negative cap keeps Python's slice as written | not executed | GitTools.DiffCutAsWritten, GitTools.CutAsWrittenOverCap | GitTools.DiffCut |
