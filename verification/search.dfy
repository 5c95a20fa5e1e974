/**
 * The `/search` endpoint: nearest-neighbour hits turned into results with a
 * snippet around the query, a keyword pass over the sitemap that adds pages
 * the vector search missed, and the final ranking by score, cut to the limit.
 * The embedding of the query and the collection's nearest-neighbour search
 * are one function parameter; the vector score `1/(1+distance)` is another.
 */
module Search {
  import opened Wrappers
  import opened Text
  import opened Models
  import opened Vectors
  import opened Ordering

  // ---------------------------------------------------------------- snippets

  /** The default `max_len` of `_snippet`. */
  const SnippetLen := 220

  /** What `_snippet` looks for: the query lower-cased and trimmed. */
  function Needle(query: string): string { Strip(Lower(query)) }

  /** `_snippet` finds its needle in the text, ignoring case. */
  predicate Found(text: string, query: string) {
    Needle(query) != [] && Contains(Lower(text), Needle(query))
  }

  /**
   * The window shown around a match at `idx`: from 60 characters before it
   * to 160 after its start, marked with "..." on each side that was cut.
   */
  function Window(text: string, idx: nat): (r: string)
    requires idx <= |text|
    ensures |r| <= 226
  {
    var start := Max(0, idx - 60);
    var end := Min(|text|, idx + 160);
    (if start > 0 then "..." else "") + text[start..end] + (if end < |text| then "..." else "")
  }

  /** `_snippet`: the window around the first match; the first `maxLen` characters when the query is blank or does not occur. */
  function Snippet(text: string, query: string, maxLen: int): (r: string)
    ensures !Found(text, query) ==> r == PrefixTo(text, maxLen)
    ensures Found(text, query) ==> |r| <= 226
  {
    var q := Needle(query);
    if q == [] then PrefixTo(text, maxLen)
    else
      var idx := Find(Lower(text), q);
      if idx == -1 then PrefixTo(text, maxLen) else Window(text, idx)
  }

  /** Where the snippet of a found query comes from. */
  lemma SnippetFound(text: string, query: string, maxLen: int) returns (idx: nat)
    requires Found(text, query)
    ensures idx == Find(Lower(text), Needle(query))
    ensures OccursAt(Lower(text), Needle(query), idx) && idx + |Needle(query)| <= |text|
    ensures Snippet(text, query, maxLen) == Window(text, idx)
  {
    idx := Find(Lower(text), Needle(query));
  }

  /** A match no longer than the 160 characters after its start is shown whole in the snippet. */
  lemma SnippetShowsMatch(text: string, query: string, maxLen: int)
    requires Found(text, query) && |Needle(query)| <= 160
    ensures Contains(Lower(Snippet(text, query, maxLen)), Needle(query))
  {
    var q := Needle(query);
    var idx := SnippetFound(text, query, maxLen);
    WindowShows(text, q, idx);
  }

  lemma WindowShows(text: string, q: string, idx: nat)
    requires OccursAt(Lower(text), q, idx) && |q| <= 160
    ensures Contains(Lower(Window(text, idx)), q)
  {
    var r := Window(text, idx);
    var at := WindowSlice(text, idx, |q|);
    LowerSlice(r, at, at + |q|);
    LowerSlice(text, idx, idx + |q|);
    assert OccursAt(Lower(r), q, at);
  }

  /** The window holds the `n <= 160` characters from `idx` on. */
  lemma WindowSlice(text: string, idx: nat, n: nat) returns (at: nat)
    requires idx + n <= |text| && n <= 160
    ensures at + n <= |Window(text, idx)| && Window(text, idx)[at..at + n] == text[idx..idx + n]
  {
    var start := Max(0, idx - 60);
    var end := Min(|text|, idx + 160);
    var pre: string := if start > 0 then "..." else "";
    var post: string := if end < |text| then "..." else "";
    var mid := text[start..end];
    assert start <= idx && idx + n <= end;
    at := |pre| + idx - start;
    assert Window(text, idx) == pre + mid + post;
    MiddleSlice(pre, mid, post, idx - start, idx - start + n);
    SliceOfSlice(text, start, end, idx - start, idx - start + n);
  }

  lemma SliceOfSlice(s: string, lo: nat, hi: nat, i: nat, j: nat)
    requires lo <= hi <= |s| && i <= j <= hi - lo
    ensures s[lo..hi][i..j] == s[lo + i..lo + j]
  {
    assert forall k :: 0 <= k < j - i ==> s[lo..hi][i..j][k] == s[lo + i + k];
  }

  lemma MiddleSlice(a: string, b: string, c: string, i: nat, j: nat)
    requires i <= j <= |b|
    ensures (a + b + c)[|a| + i..|a| + j] == b[i..j]
  {
  }

  /** Lower-casing commutes with slicing. */
  lemma LowerSlice(s: string, i: nat, j: nat)
    requires i <= j <= |s|
    ensures Lower(s)[i..j] == Lower(s[i..j])
  {
  }

  /** A text of at most 60 characters that contains the query is shown whole, without marks. */
  lemma SnippetShortText(text: string, query: string, maxLen: int)
    requires Found(text, query) && |text| <= 60
    ensures Snippet(text, query, maxLen) == text
  {
    var idx := SnippetFound(text, query, maxLen);
    WindowWhole(text, idx);
  }

  lemma WindowWhole(text: string, idx: nat)
    requires idx <= 60 && idx <= |text| <= idx + 160
    ensures Window(text, idx) == text
  {
    assert text[0..|text|] == text;
  }

  /**
   * The snippet starts with "..." when the match lies more than 60 characters
   * in and with the start of the text otherwise; it ends with "..." when more
   * than 160 characters follow the match's start and with the end of the
   * text otherwise.
   */
  lemma SnippetMarks(text: string, query: string, maxLen: int) returns (idx: nat)
    requires Found(text, query)
    ensures idx == Find(Lower(text), Needle(query)) && idx <= |text|
    ensures var r := Snippet(text, query, maxLen);
            && (idx > 60 ==> StartsWith(r, "..."))
            && (idx <= 60 ==> StartsWith(r, text[..Min(|text|, idx + 160)]))
            && (idx + 160 < |text| ==> EndsWith(r, "..."))
            && (idx + 160 >= |text| ==> EndsWith(r, text[Max(0, idx - 60)..]))
  {
    idx := SnippetFound(text, query, maxLen);
    WindowMarks(text, idx);
  }

  lemma WindowMarks(text: string, idx: nat)
    requires idx <= |text|
    ensures var r := Window(text, idx);
            && (idx > 60 ==> StartsWith(r, "..."))
            && (idx <= 60 ==> StartsWith(r, text[..Min(|text|, idx + 160)]))
            && (idx + 160 < |text| ==> EndsWith(r, "..."))
            && (idx + 160 >= |text| ==> EndsWith(r, text[Max(0, idx - 60)..]))
  {
  }

  // ---------------------------------------------------------------- the request

  /** A value of the request's `filters`; `FOther` is null, a list or an object. */
  datatype FilterValue = FStr(s: string) | FInt(i: int) | FFloat(f: real) | FBool(b: bool) | FOther

  predicate Scalar(v: FilterValue) { !v.FOther? }

  /** The `where` clause: the scalar-valued filters, or none when there are no filters at all. */
  function WhereOf(filters: Option<map<string, FilterValue>>): (w: Option<map<string, FilterValue>>)
    ensures filters.None? || filters.value == map[] ==> w.None?
    ensures filters.Some? && filters.value != map[] ==>
              && w.Some?
              && (forall k :: k in w.value <==> k in filters.value && Scalar(filters.value[k]))
              && (forall k :: k in w.value ==> w.value[k] == filters.value[k])
  {
    if filters.None? || filters.value == map[] then None
    else Some(map k | k in filters.value && Scalar(filters.value[k]) :: filters.value[k])
  }

  /** How many neighbours are asked for: the limit clamped to 1..50. */
  function NResults(limit: int): (n: int)
    ensures 1 <= n <= 50
    ensures 1 <= limit <= 50 ==> n == limit
    ensures limit < 1 ==> n == 1
    ensures limit > 50 ==> n == 50
  {
    Max(1, Min(limit, 50))
  }

  // ---------------------------------------------------------------- results

  /** One result of the endpoint. */
  datatype Hit = Hit(
    slug: string,
    url: Option<string>,
    title: Option<string>,
    score: real,
    snippet: string,
    matchedHeadings: seq<string>)

  /** `str(meta.get(key) or "")` for a string or integer value. */
  function MetaText(meta: Meta, key: string): (r: string)
    ensures key in meta && meta[key].MStr? ==> r == meta[key].s
    ensures key !in meta ==> r == ""
  {
    if key !in meta then ""
    else
      match meta[key]
      case MStr(s) => s
      case MInt(i) => if i == 0 then "" else IntToString(i)
      case MStrs(_) => ""
  }

  /** `meta.get("url")` when it is a string. */
  function MetaUrl(meta: Meta): Option<string> {
    if "url" in meta && meta["url"].MStr? then Some(meta["url"].s) else None
  }

  /** `meta.get("headings") or []`, kept only when it is a list. */
  function MetaHeadings(meta: Meta): seq<string> {
    if "headings" in meta && meta["headings"].MStrs? then meta["headings"].items else []
  }

  /** The result a nearest neighbour becomes. */
  function VectorHit(r: SearchResult, query: string, vscore: real -> real): (h: Hit)
    ensures h.slug == MetaText(r.metadata, "slug") && h.title == Some(MetaText(r.metadata, "title"))
    ensures h.score == vscore(r.distance)
    ensures h.snippet == Snippet(r.document, query, SnippetLen)
  {
    Hit(MetaText(r.metadata, "slug"), MetaUrl(r.metadata), Some(MetaText(r.metadata, "title")),
        vscore(r.distance), Snippet(r.document, query, SnippetLen), MetaHeadings(r.metadata))
  }

  function VectorHits(results: seq<SearchResult>, query: string, vscore: real -> real): (hs: seq<Hit>)
    ensures |hs| == |results| && forall i :: 0 <= i < |results| ==> hs[i] == VectorHit(results[i], query, vscore)
  {
    seq(|results|, i requires 0 <= i < |results| => VectorHit(results[i], query, vscore))
  }

  /** The `for r in results` loop: one result per neighbour, in the collection's order. */
  method VectorPass(results: seq<SearchResult>, query: string, vscore: real -> real) returns (out: seq<Hit>)
    ensures out == VectorHits(results, query, vscore)
  {
    out := [];
    var i := 0;
    while i < |results|
      invariant 0 <= i <= |results| && |out| == i
      invariant forall k :: 0 <= k < i ==> out[k] == VectorHit(results[k], query, vscore)
    {
      out := out + [VectorHit(results[i], query, vscore)];
      i := i + 1;
    }
  }

  // ---------------------------------------------------------------- keyword pass

  predicate IsQueryWord(w: string) { |w| >= 3 }

  /** The words of the lower-cased query with at least three characters, in order. */
  function QueryWords(query: string): (ws: seq<string>)
    ensures forall k :: 0 <= k < |ws| ==> |ws[k]| >= 3 && ws[k] in SplitWords(Lower(query))
  {
    Filter(SplitWords(Lower(query)), IsQueryWord)
  }

  /** The non-empty slugs among the results so far. */
  function SlugsOf(hits: seq<Hit>): (seen: set<string>)
    ensures forall x :: x in seen <==> x != "" && exists i :: 0 <= i < |hits| && hits[i].slug == x
  {
    set i | 0 <= i < |hits| && hits[i].slug != "" :: hits[i].slug
  }

  /** `" ".join([title or "", description or ""]).lower()`. */
  function Hay(e: SitemapEntry): string {
    Lower(e.title.GetOr("") + " " + e.description.GetOr(""))
  }

  /** How many of the words occur in the hay. */
  function HitCount(words: seq<string>, hay: string): (n: nat)
    ensures n <= |words|
    ensures (forall k :: 0 <= k < |words| ==> Contains(hay, words[k])) ==> n == |words|
    ensures (forall k :: 0 <= k < |words| ==> !Contains(hay, words[k])) ==> n == 0
  {
    if words == [] then 0
    else
      var init := words[..|words| - 1];
      assert forall k :: 0 <= k < |init| ==> init[k] == words[k];
      HitCount(init, hay) + (if Contains(hay, words[|words| - 1]) then 1 else 0)
  }

  /** The number of hits an entry needs: half the words, at least one. */
  function Threshold(words: seq<string>): (t: nat)
    ensures 1 <= t && (|words| >= 2 ==> t <= |words|)
  {
    Max(1, |words| / 2)
  }

  /** The score of a keyword hit: 0.15 plus 0.05 per word found. */
  function KeywordScore(hits: nat): (s: real)
    ensures s >= 0.15
  {
    (15 + 5 * hits) as real / 100.0
  }

  /** The entry is not among the vector results and enough of the words occur in its title and description. */
  predicate Boosted(e: SitemapEntry, seen: set<string>, words: seq<string>) {
    e.slug !in seen && HitCount(words, Hay(e)) >= Threshold(words)
  }

  /** The result a boosted entry becomes. */
  function KeywordHit(e: SitemapEntry, words: seq<string>): Hit {
    Hit(e.slug, Some(e.url), e.title, KeywordScore(HitCount(words, Hay(e))), e.description.GetOr(""), [])
  }

  /** The results the keyword pass adds, in listing order. */
  function Boosts(listing: seq<SitemapEntry>, seen: set<string>, words: seq<string>): seq<Hit> {
    if listing == [] then []
    else
      var e := listing[|listing| - 1];
      Boosts(listing[..|listing| - 1], seen, words) + (if Boosted(e, seen, words) then [KeywordHit(e, words)] else [])
  }

  /** `sum(1 for w in q_words if w in hay)`. */
  method CountHits(words: seq<string>, hay: string) returns (hit: nat)
    ensures hit == HitCount(words, hay)
  {
    hit := 0;
    var i := 0;
    while i < |words|
      invariant 0 <= i <= |words|
      invariant hit == HitCount(words[..i], hay)
    {
      assert words[..i + 1][..i] == words[..i];
      if Find(hay, words[i]) != -1 {
        hit := hit + 1;
      }
      i := i + 1;
    }
    assert words[..i] == words;
  }

  /** The `for e in store.list_sitemap()` loop of the keyword pass. */
  method KeywordPass(listing: seq<SitemapEntry>, seen: set<string>, words: seq<string>) returns (boosts: seq<Hit>)
    ensures boosts == Boosts(listing, seen, words)
  {
    boosts := [];
    var i := 0;
    while i < |listing|
      invariant 0 <= i <= |listing|
      invariant boosts == Boosts(listing[..i], seen, words)
    {
      var e := listing[i];
      assert listing[..i + 1][..i] == listing[..i];
      if e.slug !in seen {
        var hit := CountHits(words, Hay(e));
        if hit >= Max(1, |words| / 2) {
          boosts := boosts + [Hit(e.slug, Some(e.url), e.title, KeywordScore(hit), e.description.GetOr(""), [])];
        }
      }
      i := i + 1;
    }
    assert listing[..i] == listing;
  }

  /** A result is a keyword hit exactly when it stems from a boosted entry of the listing. */
  lemma {:induction false} BoostsExact(listing: seq<SitemapEntry>, seen: set<string>, words: seq<string>, h: Hit)
    ensures h in Boosts(listing, seen, words) <==>
              exists i :: 0 <= i < |listing| && Boosted(listing[i], seen, words) && h == KeywordHit(listing[i], words)
    decreases |listing|
  {
    if listing != [] {
      var init := listing[..|listing| - 1];
      BoostsExact(init, seen, words, h);
      assert forall i :: 0 <= i < |init| ==> init[i] == listing[i];
      if h in Boosts(listing, seen, words) && h !in Boosts(init, seen, words) {
        assert h == KeywordHit(listing[|listing| - 1], words);
      }
    }
  }

  /** Every keyword hit scores at least 0.15 + 0.05 times the threshold, has no headings and a slug the vector results lack. */
  lemma KeywordHitShape(listing: seq<SitemapEntry>, seen: set<string>, words: seq<string>, h: Hit)
    requires h in Boosts(listing, seen, words)
    ensures h.slug !in seen && h.matchedHeadings == []
    ensures h.score >= KeywordScore(Threshold(words))
  {
    BoostsExact(listing, seen, words, h);
  }

  // ---------------------------------------------------------------- ranking

  /** `sorted(..., key=score, reverse=True)` compares by this key order. */
  predicate ScoreGe(a: Hit, b: Hit) { a.score >= b.score }

  lemma ScoreGePreorder()
    ensures IsTotalPreorder(ScoreGe)
  {
  }

  /**
   * The results of the endpoint for the neighbours' results `vhits` and
   * the sitemap `listing`: the keyword hits appended when the query has
   * words, all of them ranked by score (ties in their order), cut to `limit`.
   */
  function Ranked(vhits: seq<Hit>, listing: seq<SitemapEntry>, query: string, limit: int): seq<Hit> {
    var words := QueryWords(query);
    var boosts := if words == [] then [] else Boosts(listing, SlugsOf(vhits), words);
    PrefixTo(SortBy(vhits + boosts, ScoreGe), limit)
  }

  /** What `search_pages` answers. */
  function SearchResults(
    query: string, limit: int, filters: Option<map<string, FilterValue>>,
    nearest: (string, int, Option<map<string, FilterValue>>) -> seq<SearchResult>,
    vscore: real -> real, listing: seq<SitemapEntry>): seq<Hit>
  {
    Ranked(VectorHits(nearest(query, NResults(limit), WhereOf(filters)), query, vscore), listing, query, limit)
  }

  /**
   * `search_pages`. `nearest(query, n, where)` is what the collection
   * answers for the embedding of the query; `listing` is the store's
   * `list_sitemap()`.
   */
  method SearchPages(
    query: string, limit: int, filters: Option<map<string, FilterValue>>,
    nearest: (string, int, Option<map<string, FilterValue>>) -> seq<SearchResult>,
    vscore: real -> real, listing: seq<SitemapEntry>)
    returns (out: seq<Hit>)
    ensures out == SearchResults(query, limit, filters, nearest, vscore, listing)
  {
    var results := nearest(query, NResults(limit), WhereOf(filters));
    var vhits := VectorPass(results, query, vscore);
    var words := QueryWords(query);
    var boosts := [];
    if words != [] {
      boosts := KeywordPass(listing, SlugsOf(vhits), words);
    }
    out := PrefixTo(SortBy(vhits + boosts, ScoreGe), limit);
    assert out == Ranked(vhits, listing, query, limit);
  }

  /** The results come best score first. */
  lemma RankedSorted(vhits: seq<Hit>, listing: seq<SitemapEntry>, query: string, limit: int)
    ensures SortedBy(Ranked(vhits, listing, query, limit), ScoreGe)
  {
    var words := QueryWords(query);
    var boosts := if words == [] then [] else Boosts(listing, SlugsOf(vhits), words);
    var sorted := SortBy(vhits + boosts, ScoreGe);
    ScoreGePreorder();
    SortBySorted(vhits + boosts, ScoreGe);
    SortedPrefix(sorted, |Ranked(vhits, listing, query, limit)|, ScoreGe);
  }

  lemma SortedPrefix<T>(s: seq<T>, k: nat, le: (T, T) -> bool)
    requires k <= |s| && SortedBy(s, le)
    ensures SortedBy(s[..k], le)
  {
  }

  /**
   * At most `limit` results when it is not negative, each of them a vector
   * result or a keyword hit, none of them twice; and no keyword hit when
   * the query has no word of three characters.
   */
  lemma RankedFrom(vhits: seq<Hit>, listing: seq<SitemapEntry>, query: string, limit: int)
    ensures var r := Ranked(vhits, listing, query, limit);
            && (limit >= 0 ==> |r| <= limit)
            && (QueryWords(query) == [] ==> multiset(r) <= multiset(vhits))
            && multiset(r) <= multiset(vhits + Boosts(listing, SlugsOf(vhits), QueryWords(query)))
  {
    var words := QueryWords(query);
    var boosts := if words == [] then [] else Boosts(listing, SlugsOf(vhits), words);
    var sorted := SortBy(vhits + boosts, ScoreGe);
    var r := Ranked(vhits, listing, query, limit);
    PrefixSub(sorted, |r|);
    assert multiset(sorted) == multiset(vhits) + multiset(boosts);
  }

  lemma PrefixSub<T>(s: seq<T>, k: nat)
    requires k <= |s|
    ensures multiset(s[..k]) <= multiset(s)
  {
    assert s == s[..k] + s[k..];
  }

  /** Results with the best scores are the ones kept: every dropped result scores at most as well as every kept one. */
  lemma RankedTop(vhits: seq<Hit>, listing: seq<SitemapEntry>, query: string, limit: int)
    ensures var words := QueryWords(query);
            var all := vhits + (if words == [] then [] else Boosts(listing, SlugsOf(vhits), words));
            var r := Ranked(vhits, listing, query, limit);
            var sorted := SortBy(all, ScoreGe);
            r == sorted[..|r|] && forall i, j :: 0 <= i < |r| <= j < |sorted| ==> r[i].score >= sorted[j].score
  {
    var words := QueryWords(query);
    var all := vhits + (if words == [] then [] else Boosts(listing, SlugsOf(vhits), words));
    ScoreGePreorder();
    SortBySorted(all, ScoreGe);
  }

  /**
   * A search with a positive limit comes back empty exactly when the
   * collection returns no neighbour and no sitemap entry earns a keyword hit.
   */
  lemma SearchEmpty(
    query: string, limit: int, filters: Option<map<string, FilterValue>>,
    nearest: (string, int, Option<map<string, FilterValue>>) -> seq<SearchResult>,
    vscore: real -> real, listing: seq<SitemapEntry>)
    requires limit >= 1
    ensures SearchResults(query, limit, filters, nearest, vscore, listing) == [] <==>
              && nearest(query, NResults(limit), WhereOf(filters)) == []
              && (QueryWords(query) == [] || Boosts(listing, {}, QueryWords(query)) == [])
  {
    var vhits := VectorHits(nearest(query, NResults(limit), WhereOf(filters)), query, vscore);
    var words := QueryWords(query);
    var boosts := if words == [] then [] else Boosts(listing, SlugsOf(vhits), words);
    var sorted := SortBy(vhits + boosts, ScoreGe);
    assert |sorted| == |vhits + boosts| by {
      assert |multiset(sorted)| == |multiset(vhits + boosts)|;
    }
    if vhits == [] {
      assert SlugsOf(vhits) == {};
    }
  }
}
