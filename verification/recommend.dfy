/**
 * The `/recommend` endpoint: four heuristics over the goals and the store
 * (goals the search cannot answer, thin pages, pages whose titles share
 * terms, pages without a description), then the recommendations without
 * repeated (type, slug suggestion, title), at most 80 of them. The store is
 * read through its sitemap listing and its page map.
 */
module Recommend {
  import opened Wrappers
  import opened Text
  import opened Models
  import opened Vectors
  import opened Ordering
  import opened Search

  datatype Kind = NewPage | ExpandPage | InternalLinking | SeoMetadata

  /** The `proposedMeta` object: empty, or the three suggested texts. */
  datatype Proposal = NoProposal | Proposal(metaTitle: string, metaDescription: string, excerpt: string)

  datatype Rec = Rec(
    kind: Kind,
    title: string,
    slugSuggestion: string,
    rationale: string,
    outline: seq<string>,
    suggestedKeywords: seq<string>,
    proposedMeta: Proposal)

  /** What two recommendations must differ in to both be kept. */
  function KeyOf(r: Rec): (Kind, string, string) { (r.kind, r.slugSuggestion, r.title) }

  /** Python `s or default` for an optional string: the default when it is absent or empty. */
  function Or(s: Option<string>, default: string): string {
    if s.Some? && s.value != "" then s.value else default
  }

  // ---------------------------------------------------------------- 1) goals without matches

  const GapRationale := "No strong matches found in the current local index for this goal/topic."
  const GapOutline := [
    "Problem statement / why it matters",
    "Core explanation",
    "Implementation / how it works",
    "Examples / use cases",
    "FAQ",
    "CTA / next steps"]

  /** Python `w.isalnum()`, counting ASCII letters and digits only. */
  predicate IsAlnumWord(w: string) { w != [] && All(w, IsAsciiAlnum) }

  predicate SlugChar(c: char) { IsAsciiAlnum(c) || c == '-' }

  /** The alphanumeric words of the lower-cased goal. */
  function GoalWords(goal: string): (ws: seq<string>)
    ensures forall k :: 0 <= k < |ws| ==> IsAlnumWord(ws[k]) && '-' !in ws[k]
  {
    Filter(SplitWords(Lower(goal)), IsAlnumWord)
  }

  /** The slug suggested for a goal: its alphanumeric words joined by "-", cut to 60, or "new-page". */
  function SlugSuggestion(goal: string): (slug: string)
    ensures slug != [] && |slug| <= 60 && All(slug, SlugChar)
  {
    SlugOf(GoalWords(goal))
  }

  function SlugOf(ws: seq<string>): (slug: string)
    requires forall k :: 0 <= k < |ws| ==> IsAlnumWord(ws[k])
    ensures slug != [] && |slug| <= 60 && All(slug, SlugChar)
  {
    var joined := Join("-", ws);
    SlugCharsOf(ws);
    var cut := Take(joined, 60);
    assert All(cut, SlugChar) by {
      forall i | 0 <= i < |cut| ensures SlugChar(cut[i]) { assert cut[i] == joined[i]; }
    }
    if cut == [] then "new-page" else cut
  }

  /** Alphanumeric words joined by "-" are made of slug characters. */
  lemma SlugCharsOf(ws: seq<string>)
    requires forall k :: 0 <= k < |ws| ==> IsAlnumWord(ws[k])
    ensures All(Join("-", ws), SlugChar)
  {
    forall k | 0 <= k < |ws| ensures All(ws[k], SlugChar) {
      assert All(ws[k], IsAsciiAlnum);
    }
    JoinAll("-", ws, SlugChar);
  }

  /** A slug that was not cut splits back on "-" into the goal's alphanumeric words. */
  lemma SlugSplitsIntoWords(goal: string)
    requires GoalWords(goal) != [] && |Join("-", GoalWords(goal))| <= 60
    ensures SplitOn(SlugSuggestion(goal), '-') == GoalWords(goal)
  {
    var ws := GoalWords(goal);
    assert Join("-", ws) != [] by { JoinHead(ws); }
    assert SlugSuggestion(goal) == Join("-", ws);
    JoinSplitOn(ws, '-');
  }

  lemma JoinHead(ws: seq<string>)
    requires ws != [] && ws[0] != []
    ensures Join("-", ws) != []
  {
  }

  /** The recommendation for a goal the search does not answer. */
  function NewPageRec(goal: string): Rec {
    Rec(NewPage, goal, SlugSuggestion(goal), GapRationale, GapOutline, [goal],
        Proposal(Take(goal, 60), Take("Overview and guidance for " + goal + ".", 155), Take("A practical guide to " + goal + ".", 160)))
  }

  /** The search the gap pass makes for a goal: `search_pages(SearchReq(query=goal, limit=3))`. */
  function GoalSearch(
    nearest: (string, int, Option<map<string, FilterValue>>) -> seq<SearchResult>,
    vscore: real -> real, listing: seq<SitemapEntry>): string -> seq<Hit>
  {
    goal => SearchResults(goal, 3, None, nearest, vscore, listing)
  }

  /** The goal's search comes back empty. */
  function Unanswered(search: string -> seq<Hit>): string -> bool {
    (goal: string) => search(goal) == []
  }

  function GapRecs(goals: seq<string>, search: string -> seq<Hit>): seq<Rec> {
    Each(goals, Unanswered(search), NewPageRec)
  }

  /** The `for goal in req.goals` loop; `search` is the search endpoint, called with a limit of 3. */
  method GapPass(goals: seq<string>, search: string -> seq<Hit>) returns (recs: seq<Rec>)
    ensures recs == GapRecs(goals, search)
  {
    recs := [];
    var i := 0;
    while i < |goals|
      invariant 0 <= i <= |goals|
      invariant recs == Concat(0, i, EachRow(goals, Unanswered(search), NewPageRec))
    {
      EachStep(goals, Unanswered(search), NewPageRec, recs, i);
      var goal := goals[i];
      var sr := search(goal);
      if |sr| < 1 {
        var slug := SlugSuggestion(goal);
        recs := recs + [Rec(NewPage, goal, slug, GapRationale, GapOutline, [goal],
                            Proposal(Take(goal, 60), Take("Overview and guidance for " + goal + ".", 155), Take("A practical guide to " + goal + ".", 160)))];
      }
      i := i + 1;
    }
  }

  /** A new page is recommended exactly for the goals whose search comes back empty. */
  lemma GapRecsExact(goals: seq<string>, search: string -> seq<Hit>, r: Rec)
    ensures r in GapRecs(goals, search) <==>
              exists i :: 0 <= i < |goals| && search(goals[i]) == [] && r == NewPageRec(goals[i])
  {
    EachIn(goals, Unanswered(search), NewPageRec, r);
  }

  /** A goal goes unanswered only when the collection has no neighbour at all for it. */
  lemma UnansweredMeansNoNeighbours(
    goal: string, nearest: (string, int, Option<map<string, FilterValue>>) -> seq<SearchResult>,
    vscore: real -> real, listing: seq<SitemapEntry>)
    requires GoalSearch(nearest, vscore, listing)(goal) == []
    ensures nearest(goal, 3, None) == []
  {
    SearchEmpty(goal, 3, None, nearest, vscore, listing);
  }

  // ---------------------------------------------------------------- 2) thin pages

  const ThinRationale := "Page appears thin (low word count) relative to typical pillar/solution pages."
  const ThinOutline := [
    "Add concrete examples",
    "Add implementation details",
    "Add FAQs",
    "Add internal links to related pages"]

  /** Fewer than 250 whitespace-separated words. */
  predicate IsThin(doc: PageDoc) { |SplitWords(doc.content)| < 250 }

  /** The listed entry has a stored page, and that page is thin. */
  function ThinIn(pages: map<string, PageDoc>): SitemapEntry -> bool {
    (e: SitemapEntry) => e.slug in pages && IsThin(pages[e.slug])
  }

  /** The expansion recommended for a listed entry, titled by its stored page if that has a title. */
  function ExpandRec(pages: map<string, PageDoc>, e: SitemapEntry): Rec {
    var title := if e.slug in pages then pages[e.slug].title else None;
    Rec(ExpandPage, Or(title, e.slug), e.slug, ThinRationale, ThinOutline, [], NoProposal)
  }

  function ExpandFor(pages: map<string, PageDoc>): SitemapEntry -> Rec {
    (e: SitemapEntry) => ExpandRec(pages, e)
  }

  function ThinRecs(listing: seq<SitemapEntry>, pages: map<string, PageDoc>): seq<Rec> {
    Each(listing, ThinIn(pages), ExpandFor(pages))
  }

  /** The thin-page loop over `list_sitemap()`, reading each page with `get_page`. */
  method ThinPass(listing: seq<SitemapEntry>, pages: map<string, PageDoc>) returns (recs: seq<Rec>)
    ensures recs == ThinRecs(listing, pages)
  {
    recs := [];
    var i := 0;
    while i < |listing|
      invariant 0 <= i <= |listing|
      invariant recs == Concat(0, i, EachRow(listing, ThinIn(pages), ExpandFor(pages)))
    {
      EachStep(listing, ThinIn(pages), ExpandFor(pages), recs, i);
      var e := listing[i];
      var doc := if e.slug in pages then Some(pages[e.slug]) else None;
      if doc.Some? {
        var words := SplitWords(doc.value.content);
        if |words| < 250 {
          recs := recs + [Rec(ExpandPage, Or(doc.value.title, e.slug), e.slug, ThinRationale, ThinOutline, [], NoProposal)];
        }
      }
      i := i + 1;
    }
  }

  /** An expansion is recommended exactly for the listed entries whose stored page is thin. */
  lemma ThinRecsExact(listing: seq<SitemapEntry>, pages: map<string, PageDoc>, r: Rec)
    ensures r in ThinRecs(listing, pages) <==>
              exists i :: 0 <= i < |listing| && listing[i].slug in pages && IsThin(pages[listing[i].slug])
                          && r == ExpandRec(pages, listing[i])
  {
    EachIn(listing, ThinIn(pages), ExpandFor(pages), r);
  }

  // ---------------------------------------------------------------- 3) internal links

  predicate IsTitled(e: SitemapEntry) { e.title.Some? && e.title.value != "" }

  /** `titles`: (slug, lower-cased title) of every entry with a title, in listing order. */
  function Titled(listing: seq<SitemapEntry>): (ts: seq<(string, string)>)
    ensures |ts| <= |listing|
  {
    if listing == [] then []
    else
      var e := listing[|listing| - 1];
      Titled(listing[..|listing| - 1]) + (if IsTitled(e) then [(e.slug, Lower(e.title.value))] else [])
  }

  /** The words of a title with at least five characters. */
  function Tokens(t: string): set<string> {
    set w | w in SplitWords(t) && |w| >= 5
  }

  /** How many titles take part: the first 40. */
  function Considered(titles: seq<(string, string)>): (n: nat)
    ensures n <= |titles| && n <= 40
  {
    Min(|titles|, 40)
  }

  /** The terms a rationale lists: the six first in `str` order. */
  ghost function Terms(shared: set<string>): seq<string> {
    Take(SortedSet(shared), 6)
  }

  /** The terms listed are six of the shared ones (all of them if fewer), ascending, and none left out precedes one listed. */
  lemma TermsSmallest(shared: set<string>)
    ensures var ts := Terms(shared);
            && |ts| == Min(6, |shared|) && Ascending(ts)
            && (forall t :: t in ts ==> t in shared)
            && (forall x, t :: x in shared && x !in ts && t in ts ==> StrLt(t, x))
  {
    var all := SortedSet(shared);
    var ts := Terms(shared);
    forall x, t | x in shared && x !in ts && t in ts ensures StrLt(t, x) {
      var i :| 0 <= i < |all| && all[i] == x;
      var j :| 0 <= j < |ts| && ts[j] == t;
      assert all[j] == t;
    }
  }

  function LinkTitle(a: string, b: string): string { "Link " + a + " \U{2194} " + b }

  /** The two titles share at least two terms. */
  predicate Linked(a: (string, string), b: (string, string)) {
    |Tokens(a.1) * Tokens(b.1)| >= 2
  }

  /** The title has a term at all (`if not toks_a: continue`). */
  predicate HasTerms(a: (string, string)) { Tokens(a.1) != {} }

  /** The recommendation to link the page of `a` to the page of `b`. */
  ghost function LinkRec(a: (string, string), b: (string, string)): Rec {
    var shared := Tokens(a.1) * Tokens(b.1);
    Rec(InternalLinking, LinkTitle(a.0, b.0), a.0,
        "Pages share topical terms: " + Join(", ", Terms(shared)), [], [], NoProposal)
  }

  /** The link recommendations among the first 40 titled entries. */
  ghost function LinkRecs(titles: seq<(string, string)>): seq<Rec> {
    Pairs(titles, Considered(titles), HasTerms, Linked, LinkRec)
  }

  /** `sorted(list(inter))`: the set listed in the order it yields its elements, then sorted. */
  method SortTerms(inter: set<string>) returns (terms: seq<string>)
    ensures terms == SortedSet(inter)
  {
    var rest := inter;
    var xs: seq<string> := [];
    while rest != {}
      invariant rest <= inter
      invariant forall x :: x in inter ==> (x in rest <==> x !in xs)
      invariant forall x :: x in xs ==> x in inter
      invariant forall i, j :: 0 <= i < j < |xs| ==> xs[i] != xs[j]
      decreases |rest|
    {
      var x :| x in rest;
      xs := xs + [x];
      rest := rest - {x};
    }
    terms := SortBy(xs, StrLe);
    SortedDistinctAscending(xs);
    forall x ensures x in terms <==> x in inter {
      assert x in terms <==> x in multiset(xs);
    }
    AscendingUnique(terms, SortedSet(inter));
  }

  /** The recommendation appended for two titles sharing the terms `inter`. */
  method LinkOf(a: (string, string), b: (string, string), inter: set<string>) returns (r: Rec)
    requires inter == Tokens(a.1) * Tokens(b.1)
    ensures r == LinkRec(a, b)
  {
    var terms := SortTerms(inter);
    r := Rec(InternalLinking, LinkTitle(a.0, b.0), a.0, "Pages share topical terms: " + Join(", ", Take(terms, 6)), [], [], NoProposal);
  }

  /** The inner loop over `j`: title `i` against each later considered title. */
  method PairPass(titles: seq<(string, string)>, i: nat, n: nat) returns (recs: seq<Rec>)
    requires i < n == Considered(titles)
    ensures recs == Concat(i + 1, n, PairRow(titles, n, i, Linked, LinkRec))
  {
    var toksA := Tokens(titles[i].1);
    recs := [];
    var j := i + 1;
    while j < n
      invariant i + 1 <= j <= n
      invariant recs == Concat(i + 1, j, PairRow(titles, n, i, Linked, LinkRec))
    {
      PairStep(titles, n, i, Linked, LinkRec, recs, j);
      var toksB := Tokens(titles[j].1);
      var inter := toksA * toksB;
      if |inter| >= 2 {
        var r := LinkOf(titles[i], titles[j], inter);
        recs := recs + [r];
      }
      j := j + 1;
    }
  }

  /** The outer loop over the first 40 titles. */
  method LinkPass(titles: seq<(string, string)>) returns (recs: seq<Rec>)
    ensures recs == LinkRecs(titles)
  {
    var n := Considered(titles);
    recs := [];
    var i := 0;
    while i < n
      invariant 0 <= i <= n
      invariant recs == Concat(0, i, PairRows(titles, n, HasTerms, Linked, LinkRec))
    {
      var toksA := Tokens(titles[i].1);
      RowsStep(titles, n, HasTerms, Linked, LinkRec, recs, i);
      if toksA != {} {
        var pairs := PairPass(titles, i, n);
        recs := recs + pairs;
      }
      i := i + 1;
    }
  }

  /** Two titles that share two terms each have a term. */
  lemma LinkedHasTerms()
    ensures forall a, b :: Linked(a, b) ==> HasTerms(a)
  {
    forall a, b | Linked(a, b) ensures HasTerms(a) {
    }
  }

  /**
   * An internal link is recommended exactly for the pairs i < j of the first
   * 40 titled entries whose titles share at least two terms of five or more
   * characters.
   */
  lemma LinkRecsExact(titles: seq<(string, string)>, r: Rec)
    ensures r in LinkRecs(titles) <==>
              exists i, j :: 0 <= i < j < Considered(titles) && Linked(titles[i], titles[j]) && r == LinkRec(titles[i], titles[j])
  {
    LinkedHasTerms();
    PairsIn(titles, Considered(titles), HasTerms, Linked, LinkRec, r);
  }

  // ---------------------------------------------------------------- 4) missing descriptions

  const SeoRationale := "Missing meta description. Add one to improve snippet quality and CTR."

  predicate LacksDescription(e: SitemapEntry) { e.description.None? || e.description.value == "" }

  /** The metadata proposed for an entry, from its title or else its slug. */
  function SeoRec(e: SitemapEntry): Rec {
    var t := Or(e.title, e.slug);
    Rec(SeoMetadata, t, e.slug, SeoRationale, [], [], Proposal(Take(t, 60), Take("Learn about " + t + ".", 155), ""))
  }

  function SeoRecs(listing: seq<SitemapEntry>): seq<Rec> {
    Each(listing, LacksDescription, SeoRec)
  }

  /** The loop over `list_sitemap()` for entries without a description. */
  method SeoPass(listing: seq<SitemapEntry>) returns (recs: seq<Rec>)
    ensures recs == SeoRecs(listing)
  {
    recs := [];
    var i := 0;
    while i < |listing|
      invariant 0 <= i <= |listing|
      invariant recs == Concat(0, i, EachRow(listing, LacksDescription, SeoRec))
    {
      EachStep(listing, LacksDescription, SeoRec, recs, i);
      var e := listing[i];
      if e.description.None? || e.description.value == "" {
        var t := Or(e.title, e.slug);
        recs := recs + [Rec(SeoMetadata, t, e.slug, SeoRationale, [], [], Proposal(Take(t, 60), Take("Learn about " + t + ".", 155), ""))];
      }
      i := i + 1;
    }
  }

  /** Metadata is suggested exactly for the listed entries without a description. */
  lemma SeoRecsExact(listing: seq<SitemapEntry>, r: Rec)
    ensures r in SeoRecs(listing) <==> exists i :: 0 <= i < |listing| && LacksDescription(listing[i]) && r == SeoRec(listing[i])
  {
    EachIn(listing, LacksDescription, SeoRec, r);
  }

  // ---------------------------------------------------------------- concatenation

  /** `row(lo) + row(lo + 1) + ... + row(hi - 1)`: what a loop over `lo..hi` appends. */
  function Concat<T>(lo: int, hi: int, row: int -> seq<T>): seq<T>
    decreases hi - lo
  {
    if hi <= lo then [] else Concat(lo, hi - 1, row) + row(hi - 1)
  }

  lemma {:induction false} ConcatIn<T>(lo: int, hi: int, row: int -> seq<T>, x: T)
    ensures x in Concat(lo, hi, row) <==> exists k :: lo <= k < hi && x in row(k)
    decreases hi - lo
  {
    if hi > lo {
      ConcatIn(lo, hi - 1, row, x);
    }
  }

  /** What item `k` of `xs` contributes: `make` of it if it is one to `keep`. */
  function EachRow<X, T>(xs: seq<X>, keep: X -> bool, make: X -> T): int -> seq<T> {
    k => if 0 <= k < |xs| && keep(xs[k]) then [make(xs[k])] else []
  }

  /** The loop over `xs` appending `make(x)` for each `x` to keep. */
  function Each<X, T>(xs: seq<X>, keep: X -> bool, make: X -> T): seq<T> {
    Concat(0, |xs|, EachRow(xs, keep, make))
  }

  /** One step of the loop: item `i` appends `make(xs[i])` exactly when it is kept. */
  lemma EachStep<X, T>(xs: seq<X>, keep: X -> bool, make: X -> T, recs: seq<T>, i: int)
    requires 0 <= i < |xs|
    requires recs == Concat(0, i, EachRow(xs, keep, make))
    ensures keep(xs[i]) ==> recs + [make(xs[i])] == Concat(0, i + 1, EachRow(xs, keep, make))
    ensures !keep(xs[i]) ==> recs == Concat(0, i + 1, EachRow(xs, keep, make))
  {
  }

  lemma EachIn<X, T>(xs: seq<X>, keep: X -> bool, make: X -> T, x: T)
    ensures x in Each(xs, keep, make) <==> exists i :: 0 <= i < |xs| && keep(xs[i]) && x == make(xs[i])
  {
    var row := EachRow(xs, keep, make);
    ConcatIn(0, |xs|, row, x);
    if x in Each(xs, keep, make) {
      var i :| 0 <= i < |xs| && x in row(i);
      assert keep(xs[i]) && x == make(xs[i]);
    }
    if exists i :: 0 <= i < |xs| && keep(xs[i]) && x == make(xs[i]) {
      var i :| 0 <= i < |xs| && keep(xs[i]) && x == make(xs[i]);
      assert x in row(i);
    }
  }

  /** What item `i` of `xs` contributes with each later item `j`: `make` of the two if they `hit`. */
  function PairRow<X, T>(xs: seq<X>, n: int, i: int, hit: (X, X) -> bool, make: (X, X) -> T): int -> seq<T> {
    j => if 0 <= i < j < n <= |xs| && hit(xs[i], xs[j]) then [make(xs[i], xs[j])] else []
  }

  /** What item `i` contributes with all later items below `n`; nothing if it is not `live`. */
  function PairRows<X, T>(xs: seq<X>, n: int, live: X -> bool, hit: (X, X) -> bool, make: (X, X) -> T): int -> seq<T> {
    i => if 0 <= i < n <= |xs| && live(xs[i]) then Concat(i + 1, n, PairRow(xs, n, i, hit, make)) else []
  }

  /** The double loop over the pairs i < j < n of `xs`. */
  function Pairs<X, T>(xs: seq<X>, n: int, live: X -> bool, hit: (X, X) -> bool, make: (X, X) -> T): seq<T> {
    Concat(0, n, PairRows(xs, n, live, hit, make))
  }

  lemma PairRowIn<X, T>(xs: seq<X>, n: int, i: int, hit: (X, X) -> bool, make: (X, X) -> T, x: T)
    requires 0 <= i < n <= |xs|
    ensures x in Concat(i + 1, n, PairRow(xs, n, i, hit, make)) <==>
              exists j :: i < j < n && hit(xs[i], xs[j]) && x == make(xs[i], xs[j])
  {
    var row := PairRow(xs, n, i, hit, make);
    ConcatIn(i + 1, n, row, x);
    if x in Concat(i + 1, n, row) {
      var j :| i + 1 <= j < n && x in row(j);
      assert hit(xs[i], xs[j]) && x == make(xs[i], xs[j]);
    }
    if exists j :: i < j < n && hit(xs[i], xs[j]) && x == make(xs[i], xs[j]) {
      var j :| i < j < n && hit(xs[i], xs[j]) && x == make(xs[i], xs[j]);
      assert x in row(j);
    }
  }

  /** One step of the inner loop: pair (i, j) appends `make` of the two exactly when they `hit`. */
  lemma PairStep<X, T>(xs: seq<X>, n: int, i: int, hit: (X, X) -> bool, make: (X, X) -> T, recs: seq<T>, j: int)
    requires 0 <= i < j < n <= |xs|
    requires recs == Concat(i + 1, j, PairRow(xs, n, i, hit, make))
    ensures hit(xs[i], xs[j]) ==> recs + [make(xs[i], xs[j])] == Concat(i + 1, j + 1, PairRow(xs, n, i, hit, make))
    ensures !hit(xs[i], xs[j]) ==> recs == Concat(i + 1, j + 1, PairRow(xs, n, i, hit, make))
  {
  }

  /** One step of the outer loop: item `i` appends its row exactly when it is `live`. */
  lemma RowsStep<X, T>(xs: seq<X>, n: int, live: X -> bool, hit: (X, X) -> bool, make: (X, X) -> T, recs: seq<T>, i: int)
    requires 0 <= i < n <= |xs|
    requires recs == Concat(0, i, PairRows(xs, n, live, hit, make))
    ensures live(xs[i]) ==> recs + Concat(i + 1, n, PairRow(xs, n, i, hit, make)) == Concat(0, i + 1, PairRows(xs, n, live, hit, make))
    ensures !live(xs[i]) ==> recs == Concat(0, i + 1, PairRows(xs, n, live, hit, make))
  {
  }

  lemma PairsIn<X, T>(xs: seq<X>, n: int, live: X -> bool, hit: (X, X) -> bool, make: (X, X) -> T, x: T)
    requires n <= |xs|
    requires forall a, b :: hit(a, b) ==> live(a)
    ensures x in Pairs(xs, n, live, hit, make) <==>
              exists i, j :: 0 <= i < j < n && hit(xs[i], xs[j]) && x == make(xs[i], xs[j])
  {
    ConcatIn(0, n, PairRows(xs, n, live, hit, make), x);
    if x in Pairs(xs, n, live, hit, make) {
      PairsInFound(xs, n, live, hit, make, x);
    }
    if exists i, j :: 0 <= i < j < n && hit(xs[i], xs[j]) && x == make(xs[i], xs[j]) {
      var i, j :| 0 <= i < j < n && hit(xs[i], xs[j]) && x == make(xs[i], xs[j]);
      assert live(xs[i]);
      PairsInMade(xs, n, live, hit, make, i, j);
    }
  }

  lemma PairsInMade<X, T>(xs: seq<X>, n: int, live: X -> bool, hit: (X, X) -> bool, make: (X, X) -> T, i: int, j: int)
    requires 0 <= i < j < n <= |xs| && live(xs[i]) && hit(xs[i], xs[j])
    ensures make(xs[i], xs[j]) in PairRows(xs, n, live, hit, make)(i)
  {
    PairRowIn(xs, n, i, hit, make, make(xs[i], xs[j]));
  }

  lemma PairsInFound<X, T>(xs: seq<X>, n: int, live: X -> bool, hit: (X, X) -> bool, make: (X, X) -> T, x: T)
    requires exists i :: 0 <= i < n && x in PairRows(xs, n, live, hit, make)(i)
    ensures exists i, j :: 0 <= i < j < n && hit(xs[i], xs[j]) && x == make(xs[i], xs[j])
  {
    var i :| 0 <= i < n && x in PairRows(xs, n, live, hit, make)(i);
    assert n <= |xs| && live(xs[i]) && x in Concat(i + 1, n, PairRow(xs, n, i, hit, make));
    PairRowIn(xs, n, i, hit, make, x);
    var j :| i < j < n && hit(xs[i], xs[j]) && x == make(xs[i], xs[j]);
  }

  // ---------------------------------------------------------------- de-duplication

  function KeysOf(recs: seq<Rec>): (ks: set<(Kind, string, string)>)
    ensures forall k :: k in ks <==> exists i :: 0 <= i < |recs| && KeyOf(recs[i]) == k
  {
    set i | 0 <= i < |recs| :: KeyOf(recs[i])
  }

  /** The recommendations without those whose key an earlier one has. */
  function Dedup(recs: seq<Rec>): seq<Rec> {
    if recs == [] then []
    else
      var init := recs[..|recs| - 1];
      var last := recs[|recs| - 1];
      Dedup(init) + (if KeyOf(last) in KeysOf(init) then [] else [last])
  }

  /** The `for r in recs` loop with its `seen` set and `uniq` list. */
  method DedupPass(recs: seq<Rec>) returns (uniq: seq<Rec>)
    ensures uniq == Dedup(recs)
  {
    var seen: set<(Kind, string, string)> := {};
    uniq := [];
    var i := 0;
    while i < |recs|
      invariant 0 <= i <= |recs|
      invariant seen == KeysOf(recs[..i])
      invariant uniq == Dedup(recs[..i])
    {
      var r := recs[i];
      var k := (r.kind, r.slugSuggestion, r.title);
      assert recs[..i + 1][..i] == recs[..i];
      assert KeysOf(recs[..i + 1]) == KeysOf(recs[..i]) + {k};
      if k !in seen {
        seen := seen + {k};
        uniq := uniq + [r];
      }
      i := i + 1;
    }
    assert recs[..i] == recs;
  }

  lemma KeysOfSnoc(recs: seq<Rec>, r: Rec)
    ensures KeysOf(recs + [r]) == KeysOf(recs) + {KeyOf(r)}
  {
    var all := recs + [r];
    forall k | k in KeysOf(all) ensures k in KeysOf(recs) + {KeyOf(r)} {
      var i :| 0 <= i < |all| && KeyOf(all[i]) == k;
      if i < |recs| { assert all[i] == recs[i]; }
    }
    forall k | k in KeysOf(recs) ensures k in KeysOf(all) {
      var i :| 0 <= i < |recs| && KeyOf(recs[i]) == k;
      assert all[i] == recs[i];
    }
    assert all[|recs|] == r;
  }

  /** No two kept recommendations share a key, and every key of the input is kept. */
  lemma {:induction false} DedupKeys(recs: seq<Rec>)
    ensures KeysOf(Dedup(recs)) == KeysOf(recs)
    ensures forall i, j :: 0 <= i < j < |Dedup(recs)| ==> KeyOf(Dedup(recs)[i]) != KeyOf(Dedup(recs)[j])
    decreases |recs|
  {
    if recs != [] {
      var init := recs[..|recs| - 1];
      var last := recs[|recs| - 1];
      DedupKeys(init);
      assert recs == init + [last];
      KeysOfSnoc(init, last);
      var d := Dedup(init);
      if KeyOf(last) !in KeysOf(init) {
        assert Dedup(recs) == d + [last];
        KeysOfSnoc(d, last);
        forall i, j | 0 <= i < j < |d + [last]| ensures KeyOf((d + [last])[i]) != KeyOf((d + [last])[j]) {
          assert (d + [last])[i] == d[i];
          if j == |d| {
            assert KeyOf(d[i]) in KeysOf(d);
          } else {
            assert (d + [last])[j] == d[j];
          }
        }
      } else {
        assert Dedup(recs) == d;
      }
    }
  }

  /** What is kept is exactly the first recommendation of each key. */
  lemma {:induction false} DedupFirsts(recs: seq<Rec>, r: Rec)
    ensures r in Dedup(recs) <==> exists i :: 0 <= i < |recs| && recs[i] == r && KeyOf(r) !in KeysOf(recs[..i])
    decreases |recs|
  {
    if recs != [] {
      var init := recs[..|recs| - 1];
      DedupFirsts(init, r);
      forall i | 0 <= i < |init| ensures init[i] == recs[i] && init[..i] == recs[..i] { }
      assert recs[..|recs| - 1] == init;
    }
  }

  /** Later recommendations never change what was kept from earlier ones: the kept ones stay in input order. */
  lemma {:induction false} DedupPrefix(a: seq<Rec>, b: seq<Rec>)
    ensures Dedup(a) <= Dedup(a + b)
    decreases |b|
  {
    if b == [] {
      assert a + b == a;
    } else {
      var b' := b[..|b| - 1];
      DedupPrefix(a, b');
      var ab := a + b;
      assert ab[..|ab| - 1] == a + b';
      assert Dedup(ab) == Dedup(a + b') + (if KeyOf(ab[|ab| - 1]) in KeysOf(a + b') then [] else [ab[|ab| - 1]]);
    }
  }

  // ---------------------------------------------------------------- the endpoint

  /** What `recommend_content` answers. */
  ghost function Recommendations(
    goals: seq<string>, nearest: (string, int, Option<map<string, FilterValue>>) -> seq<SearchResult>,
    vscore: real -> real, listing: seq<SitemapEntry>, pages: map<string, PageDoc>): seq<Rec>
  {
    var recs := GapRecs(goals, GoalSearch(nearest, vscore, listing)) + ThinRecs(listing, pages) + LinkRecs(Titled(listing)) + SeoRecs(listing);
    Take(Dedup(recs), 80)
  }

  /**
   * `recommend_content`. `nearest` answers the searches made for the goals,
   * `listing` is the store's `list_sitemap()` and `pages` its page map.
   */
  method RecommendContent(
    goals: seq<string>, nearest: (string, int, Option<map<string, FilterValue>>) -> seq<SearchResult>,
    vscore: real -> real, listing: seq<SitemapEntry>, pages: map<string, PageDoc>)
    returns (out: seq<Rec>)
    ensures out == Recommendations(goals, nearest, vscore, listing, pages)
  {
    var gaps := GapPass(goals, GoalSearch(nearest, vscore, listing));
    var thin := ThinPass(listing, pages);
    var links := LinkPass(Titled(listing));
    var seo := SeoPass(listing);
    var uniq := DedupPass(gaps + thin + links + seo);
    out := Take(uniq, 80);
  }

  /** At most 80 recommendations, no two with the same (type, slug suggestion, title). */
  lemma RecommendationsShape(
    goals: seq<string>, nearest: (string, int, Option<map<string, FilterValue>>) -> seq<SearchResult>,
    vscore: real -> real, listing: seq<SitemapEntry>, pages: map<string, PageDoc>)
    ensures var out := Recommendations(goals, nearest, vscore, listing, pages);
            && |out| <= 80
            && forall i, j :: 0 <= i < j < |out| ==> KeyOf(out[i]) != KeyOf(out[j])
  {
    var recs := GapRecs(goals, GoalSearch(nearest, vscore, listing)) + ThinRecs(listing, pages) + LinkRecs(Titled(listing)) + SeoRecs(listing);
    DedupKeys(recs);
  }
}
