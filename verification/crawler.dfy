/**
 * The crawler: the slug a page is stored under, the page record built from a
 * parsed HTML document, the breadth-first crawl of a site and the walk of a
 * build-output folder. HTML parsing, HTTP requests and URL joining and
 * splitting are parameters of the model.
 */
module Crawler {
  import opened Wrappers
  import opened Text
  import opened Ordering

  /** A crawled page. */
  datatype Page = Page(
    slug: string,
    url: string,
    title: Option<string>,
    description: Option<string>,
    canonicalUrl: Option<string>,
    headings: seq<string>,
    bodyText: string)

  /**
   * What the HTML parser yields for a document: the `<title>` string, the
   * content of the description `<meta>`, the href of the canonical `<link>`,
   * the texts of the h1/h2/h3 elements in document order, the visible text,
   * and the href attribute of every `<a>` in document order.
   */
  datatype ParsedDoc = ParsedDoc(
    title: Option<string>,
    description: Option<string>,
    canonical: Option<string>,
    headingTexts: seq<string>,
    bodyText: string,
    hrefs: seq<Option<string>>)

  /** `urljoin` and the fields of `urlparse` the crawler reads. */
  datatype UrlOps = UrlOps(
    join: (string, string) -> string,
    scheme: string -> string,
    netloc: string -> string,
    path: string -> string)

  // ---------------------------------------------------------------- slugs

  /** The characters `[a-zA-Z0-9/_-]` a slug is made of. */
  predicate SlugChar(c: char) { IsAsciiAlnum(c) || c == '/' || c == '_' || c == '-' }
  predicate NotSlugChar(c: char) { !SlugChar(c) }
  predicate IsDash(c: char) { c == '-' }
  predicate IsSlash(c: char) { c == '/' }

  /** `re.sub(r"[^a-zA-Z0-9/_-]+", "-", s)`: every maximal run of other characters becomes one "-". */
  function CollapseDisallowed(s: string): (r: string)
    ensures All(r, SlugChar)
    ensures |r| <= |s|
    decreases |s|
  {
    if s == [] then []
    else if SlugChar(s[0]) then [s[0]] + CollapseDisallowed(s[1..])
    else
      var n := LeadingRun(s, NotSlugChar);
      "-" + CollapseDisallowed(s[n..])
  }

  /** The URL path with one trailing "/" removed; the empty path and "/" both give "/". */
  function TrimmedPath(path: string): (r: string)
    ensures r != []
  {
    var p := if path == [] then "/" else path;
    if EndsWith(p, "/") then (if |p| == 1 then "/" else p[..|p| - 1]) else p
  }

  /** `_slugify`, given the path component of the URL. */
  function Slugify(path: string): (slug: string)
    ensures slug != [] && All(slug, SlugChar)
    ensures slug[0] != '/' && slug[|slug| - 1] != '/'
  {
    var s := TrimSlug(CollapseDisallowed(TrimmedPath(path)));
    HomeIsSlug();
    if s == [] then "home" else s
  }

  lemma HomeIsSlug()
    ensures All("home", SlugChar) && "home"[0] != '/' && "home"[3] != '/'
  {
    assert forall i :: 0 <= i < 4 ==> IsAsciiAlnum("home"[i]);
  }

  /** `.strip("-")` then `.strip("/")`. */
  function TrimSlug(c: string): (s: string)
    requires All(c, SlugChar)
    ensures All(s, SlugChar)
    ensures s == [] || (!IsSlash(s[0]) && !IsSlash(s[|s| - 1]))
  {
    var d := Trim(c, IsDash);
    TrimKeeps(c, IsDash, SlugChar);
    TrimKeeps(d, IsSlash, SlugChar);
    Trim(d, IsSlash)
  }

  /** The substitution leaves a string alone exactly when it has only slug characters. */
  lemma {:induction false} CollapseIdentity(s: string)
    ensures CollapseDisallowed(s) == s <==> All(s, SlugChar)
    decreases |s|
  {
    if s != [] {
      if SlugChar(s[0]) {
        CollapseIdentity(s[1..]);
        assert All(s, SlugChar) <==> All(s[1..], SlugChar) by {
          if All(s[1..], SlugChar) {
            forall i | 0 <= i < |s| ensures SlugChar(s[i]) { if i > 0 { assert s[i] == s[1..][i - 1]; } }
          }
        }
        assert s == [s[0]] + s[1..];
      } else {
        assert !All(s, SlugChar);
      }
    }
  }

  /** The root path, with or without its "/", is "home". */
  lemma SlugifyHome()
    ensures Slugify("") == "home" && Slugify("/") == "home"
  {
    assert CollapseDisallowed("/") == "/";
    assert Trim("/", IsDash) == "/" by { TrimUnpadded("/", IsDash); }
    assert All("/", IsSlash);
  }

  /**
   * A path that is "/" followed by a clean slug (slug characters only, not
   * starting or ending with "-" or "/"), with or without a trailing "/",
   * slugifies to that slug.
   */
  lemma SlugifyClean(slug: string)
    requires slug != [] && All(slug, SlugChar)
    requires !IsDash(slug[0]) && !IsSlash(slug[0])
    requires !IsDash(slug[|slug| - 1]) && !IsSlash(slug[|slug| - 1])
    ensures Slugify("/" + slug) == slug && Slugify("/" + slug + "/") == slug
  {
    var p := "/" + slug;
    assert TrimmedPath(p + "/") == p by {
      assert EndsWith(p + "/", "/") && (p + "/")[..|p + "/"| - 1] == p;
    }
    assert TrimmedPath(p) == p by {
      assert p[|p| - 1] == slug[|slug| - 1];
    }
    assert CollapseDisallowed(p) == p by {
      assert All(p, SlugChar) by {
        forall i | 0 <= i < |p| ensures SlugChar(p[i]) { if i > 0 { assert p[i] == slug[i - 1]; } }
      }
      CollapseIdentity(p);
    }
    TrimSlugClean(slug);
  }

  lemma TrimSlugClean(slug: string)
    requires slug != [] && All(slug, SlugChar)
    requires !IsDash(slug[0]) && !IsSlash(slug[0])
    requires !IsDash(slug[|slug| - 1]) && !IsSlash(slug[|slug| - 1])
    ensures All("/" + slug, SlugChar) && TrimSlug("/" + slug) == slug
  {
    var p := "/" + slug;
    assert All(p, SlugChar) by {
      forall i | 0 <= i < |p| ensures SlugChar(p[i]) { if i > 0 { assert p[i] == slug[i - 1]; } }
    }
    assert p[|p| - 1] == slug[|slug| - 1];
    TrimUnpadded(p, IsDash);
    assert LeadingRun(p, IsSlash) == 1 by {
      assert p[1..] == slug;
      assert LeadingRun(slug, IsSlash) == 0;
    }
    assert TrimLeft(p, IsSlash) == slug;
    assert TrailingRun(slug, IsSlash) == 0;
  }

  // ---------------------------------------------------------------- pages

  predicate NonEmptyText(t: string) { t != [] }

  /** At most this many headings are kept per page. */
  const MaxHeadings := 100

  /** A title, description or canonical value: stripped when present and non-empty, absent otherwise. */
  function StripIfSet(o: Option<string>): (r: Option<string>)
    ensures r.Some? <==> o.Some? && o.value != []
  {
    if o.Some? && o.value != [] then Some(Strip(o.value)) else None
  }

  /** `_extract_page` as a value: the page record of a parsed document fetched from `url`. */
  function PageOf(url: string, doc: ParsedDoc, ops: UrlOps): (p: Page)
    ensures p.slug != [] && p.url == url
    ensures |p.headings| <= MaxHeadings
    ensures forall k :: 0 <= k < |p.headings| ==> p.headings[k] != [] && p.headings[k] in doc.headingTexts
    ensures |p.headings| == Min(MaxHeadings, |Filter(doc.headingTexts, NonEmptyText)|)
  {
    Page(Slugify(ops.path(url)), url, StripIfSet(doc.title), StripIfSet(doc.description),
         StripIfSet(doc.canonical), Take(Filter(doc.headingTexts, NonEmptyText), MaxHeadings), doc.bodyText)
  }

  /** `_extract_page`: the heading loop keeps the non-empty heading texts in order; the first 100 are stored. */
  method ExtractPage(url: string, doc: ParsedDoc, ops: UrlOps) returns (page: Page)
    ensures page == PageOf(url, doc, ops)
  {
    var headings := HeadingLoop(doc.headingTexts);
    page := Page(Slugify(ops.path(url)), url, StripIfSet(doc.title), StripIfSet(doc.description),
                 StripIfSet(doc.canonical), Take(headings, MaxHeadings), doc.bodyText);
  }

  /** The heading loop of `_extract_page`: the non-empty texts, in document order. */
  method HeadingLoop(texts: seq<string>) returns (headings: seq<string>)
    ensures headings == Filter(texts, NonEmptyText)
  {
    headings := [];
    var i := 0;
    while i < |texts|
      invariant 0 <= i <= |texts|
      invariant headings == Filter(texts[..i], NonEmptyText)
    {
      var t := texts[i];
      assert texts[..i + 1][..i] == texts[..i];
      if t != [] {
        headings := headings + [t];
      }
      i := i + 1;
    }
    assert texts[..i] == texts;
  }

  // ---------------------------------------------------------------- links

  predicate NotHash(c: char) { c != '#' }

  /** `u.split("#", 1)[0]`: the URL without its fragment. */
  function StripFragment(u: string): (r: string)
    ensures '#' !in r && StartsWith(u, r)
    ensures r == u || u[|r|] == '#'
  {
    var n := LeadingRun(u, NotHash);
    assert forall i :: 0 <= i < n ==> u[..n][i] == u[i];
    u[..n]
  }

  /** An href the link loop skips before joining it. */
  predicate Ignored(href: string) {
    href == [] || StartsWith(href, "#") || StartsWith(href, "mailto:") || StartsWith(href, "tel:")
  }

  /** The URL an href leads the crawler to, if it is followed at all. */
  function LinkTarget(url: string, href: Option<string>, origin: string, ops: UrlOps): (r: Option<string>)
    ensures href.None? || Ignored(href.value) ==> r.None?
    ensures r.Some? ==>
              var next := ops.join(url, href.value);
              && (ops.scheme(next) == "http" || ops.scheme(next) == "https")
              && ops.netloc(next) == origin
              && '#' !in r.value && StartsWith(next, r.value)
  {
    if href.None? || Ignored(href.value) then None
    else
      var next := ops.join(url, href.value);
      var scheme := ops.scheme(next);
      if scheme != "http" && scheme != "https" then None
      else if ops.netloc(next) != origin then None
      else Some(StripFragment(next))
  }

  datatype Visit = Visit(url: string, depth: int)

  /** What the link loop appends to the queue for a page at `depth`: each followed link not yet seen, in document order. */
  function Enqueued(url: string, depth: int, hrefs: seq<Option<string>>, origin: string, ops: UrlOps, seen: set<string>): (r: seq<Visit>)
    ensures forall k :: 0 <= k < |r| ==>
              && r[k].depth == depth + 1 && r[k].url !in seen
              && exists j :: 0 <= j < |hrefs| && LinkTarget(url, hrefs[j], origin, ops) == Some(r[k].url)
    decreases |hrefs|
  {
    if hrefs == [] then []
    else
      var init := hrefs[..|hrefs| - 1];
      var last := hrefs[|hrefs| - 1];
      var front := Enqueued(url, depth, init, origin, ops, seen);
      assert forall k :: 0 <= k < |front| ==> exists j :: 0 <= j < |hrefs| && LinkTarget(url, hrefs[j], origin, ops) == Some(front[k].url) by {
        forall k | 0 <= k < |front|
          ensures exists j :: 0 <= j < |hrefs| && LinkTarget(url, hrefs[j], origin, ops) == Some(front[k].url)
        {
          var j :| 0 <= j < |init| && LinkTarget(url, init[j], origin, ops) == Some(front[k].url);
          assert hrefs[j] == init[j];
        }
      }
      var t := LinkTarget(url, last, origin, ops);
      front + (if t.Some? && t.value !in seen then [Visit(t.value, depth + 1)] else [])
  }

  /** Conversely, every followed link that has not been seen is enqueued at depth + 1. */
  lemma {:induction false} EnqueuedComplete(url: string, depth: int, hrefs: seq<Option<string>>, origin: string, ops: UrlOps, seen: set<string>, j: nat)
    requires j < |hrefs|
    requires LinkTarget(url, hrefs[j], origin, ops).Some?
    requires LinkTarget(url, hrefs[j], origin, ops).value !in seen
    ensures Visit(LinkTarget(url, hrefs[j], origin, ops).value, depth + 1) in Enqueued(url, depth, hrefs, origin, ops, seen)
    decreases |hrefs|
  {
    var init := hrefs[..|hrefs| - 1];
    if j < |init| {
      assert init[j] == hrefs[j];
      EnqueuedComplete(url, depth, init, origin, ops, seen, j);
    }
  }

  /** The link loop of `crawl_site` for one page. */
  method DiscoverLinks(url: string, depth: int, hrefs: seq<Option<string>>, origin: string, ops: UrlOps, seen: set<string>)
    returns (found: seq<Visit>)
    ensures found == Enqueued(url, depth, hrefs, origin, ops, seen)
  {
    found := [];
    var i := 0;
    while i < |hrefs|
      invariant 0 <= i <= |hrefs|
      invariant found == Enqueued(url, depth, hrefs[..i], origin, ops, seen)
    {
      assert hrefs[..i + 1][..i] == hrefs[..i];
      var href := hrefs[i];
      if href.Some? && !Ignored(href.value) {
        var next := ops.join(url, href.value);
        var p := ops.scheme(next);
        if (p == "http" || p == "https") && ops.netloc(next) == origin {
          var clean := StripFragment(next);
          if clean !in seen {
            found := found + [Visit(clean, depth + 1)];
          }
        }
      }
      i := i + 1;
    }
    assert hrefs[..i] == hrefs;
  }

  // ---------------------------------------------------------------- the crawl

  /** An HTTP response: whether it is ok, its content type header, its body. */
  datatype Response = Response(ok: bool, contentType: Option<string>, text: string)

  /**
   * The web as the crawler sees it: `fetch` is None where the request raised,
   * `parse` is the HTML parser, `ops` the URL functions.
   */
  datatype Site = Site(fetch: string -> Option<Response>, parse: string -> ParsedDoc, ops: UrlOps)

  /** The parsed document at `url`, when the request succeeds with an ok `text/html` response. */
  function HtmlAt(site: Site, url: string): (r: Option<ParsedDoc>)
    ensures r.Some? <==> site.fetch(url).Some? && site.fetch(url).value.ok
                         && Contains(site.fetch(url).value.contentType.GetOr(""), "text/html")
  {
    match site.fetch(url)
    case None => None
    case Some(resp) =>
      if resp.ok && Contains(resp.contentType.GetOr(""), "text/html") then Some(site.parse(resp.text)) else None
  }

  /** The pages the crawl records for the URLs it fetched, in fetch order: one per HTML response. */
  function PagesOf(site: Site, fetched: seq<Visit>): (pages: seq<Page>)
    ensures |pages| <= |fetched|
  {
    if fetched == [] then []
    else
      var v := fetched[|fetched| - 1];
      var doc := HtmlAt(site, v.url);
      PagesOf(site, fetched[..|fetched| - 1]) + (if doc.Some? then [PageOf(v.url, doc.value, site.ops)] else [])
  }

  /** `to` is a link found on the HTML page fetched for `from`, one level deeper. */
  ghost predicate Discovered(site: Site, origin: string, from: Visit, to: Visit) {
    var doc := HtmlAt(site, from.url);
    && doc.Some?
    && to.depth == from.depth + 1
    && exists j :: 0 <= j < |doc.value.hrefs| && LinkTarget(from.url, doc.value.hrefs[j], origin, site.ops) == Some(to.url)
  }

  /** The URL the crawl starts from: the base URL with trailing "/" characters replaced by one. */
  function StartUrl(baseUrl: string): (r: string)
    ensures EndsWith(r, "/")
  {
    TrimRight(baseUrl, IsSlash) + "/"
  }

  /** Every fetch is the start URL at depth 0 or a link found on an earlier fetched page. */
  ghost predicate Justified(site: Site, origin: string, start: string, fetched: seq<Visit>) {
    forall i :: 0 <= i < |fetched| ==>
      fetched[i] == Visit(start, 0) || exists j :: 0 <= j < i && Discovered(site, origin, fetched[j], fetched[i])
  }

  /** Queued visits are the start URL at depth 0 or links found on pages already fetched. */
  ghost predicate QueueJustified(site: Site, origin: string, start: string, fetched: seq<Visit>, q: seq<Visit>) {
    forall k :: 0 <= k < |q| ==>
      && 0 <= q[k].depth
      && (q[k] == Visit(start, 0) || exists j :: 0 <= j < |fetched| && Discovered(site, origin, fetched[j], q[k]))
  }

  predicate DistinctUrls(fetched: seq<Visit>) {
    forall i, j :: 0 <= i < j < |fetched| ==> fetched[i].url != fetched[j].url
  }

  /** What the crawl loop keeps true of its seen set, its fetch log and its queue. */
  ghost predicate CrawlState(site: Site, origin: string, start: string, maxDepth: int,
                             seen: set<string>, fetched: seq<Visit>, q: seq<Visit>) {
    && FetchLog(start, maxDepth, seen, fetched)
    && Justified(site, origin, start, fetched)
    && QueueJustified(site, origin, start, fetched, q)
  }

  /** The fetch log starts at the start URL, is recorded in the seen set, has no URL twice and no depth beyond `maxDepth`. */
  predicate FetchLog(start: string, maxDepth: int, seen: set<string>, fetched: seq<Visit>) {
    && (forall i :: 0 <= i < |fetched| ==> fetched[i].url in seen)
    && (fetched == [] ==> seen == {})
    && (fetched != [] ==> fetched[0] == Visit(start, 0))
    && DistinctUrls(fetched)
    && (forall i :: 0 <= i < |fetched| ==> 0 <= fetched[i].depth <= maxDepth)
  }

  /** Taking the head of the queue: it is justified, and the rest of the queue still is. */
  lemma CrawlPop(site: Site, origin: string, start: string, maxDepth: int, seen: set<string>, fetched: seq<Visit>, q: seq<Visit>)
    requires q != [] && CrawlState(site, origin, start, maxDepth, seen, fetched, q)
    ensures CrawlState(site, origin, start, maxDepth, seen, fetched, q[1..])
    ensures 0 <= q[0].depth
    ensures q[0] == Visit(start, 0) || exists j :: 0 <= j < |fetched| && Discovered(site, origin, fetched[j], q[0])
  {
    assert forall k :: 0 <= k < |q[1..]| ==> q[1..][k] == q[k + 1];
  }

  /** Recording the fetch of a justified, unseen, shallow enough URL. */
  lemma CrawlFetch(site: Site, origin: string, start: string, maxDepth: int, seen: set<string>, fetched: seq<Visit>, q: seq<Visit>, v: Visit)
    requires CrawlState(site, origin, start, maxDepth, seen, fetched, q)
    requires v.url !in seen && 0 <= v.depth <= maxDepth
    requires v == Visit(start, 0) || exists j :: 0 <= j < |fetched| && Discovered(site, origin, fetched[j], v)
    requires fetched == [] ==> v == Visit(start, 0)
    ensures CrawlState(site, origin, start, maxDepth, seen + {v.url}, fetched + [v], q)
  {
    QueueStillJustified(site, origin, start, fetched, q, v);
    FetchJustified(site, origin, start, fetched, v);
    FetchLogAppend(start, maxDepth, seen, fetched, v);
  }

  lemma QueueStillJustified(site: Site, origin: string, start: string, fetched: seq<Visit>, q: seq<Visit>, v: Visit)
    requires QueueJustified(site, origin, start, fetched, q)
    ensures QueueJustified(site, origin, start, fetched + [v], q)
  {
    var after := fetched + [v];
    forall k | 0 <= k < |q| && q[k] != Visit(start, 0)
      ensures exists j :: 0 <= j < |after| && Discovered(site, origin, after[j], q[k])
    {
      var j :| 0 <= j < |fetched| && Discovered(site, origin, fetched[j], q[k]);
      assert after[j] == fetched[j];
    }
  }

  lemma FetchJustified(site: Site, origin: string, start: string, fetched: seq<Visit>, v: Visit)
    requires Justified(site, origin, start, fetched)
    requires v == Visit(start, 0) || exists j :: 0 <= j < |fetched| && Discovered(site, origin, fetched[j], v)
    ensures Justified(site, origin, start, fetched + [v])
  {
    var after := fetched + [v];
    forall i | 0 <= i < |after| && after[i] != Visit(start, 0)
      ensures exists j :: 0 <= j < i && Discovered(site, origin, after[j], after[i])
    {
      if i < |fetched| {
        var j :| 0 <= j < i && Discovered(site, origin, fetched[j], fetched[i]);
        assert after[j] == fetched[j];
      } else {
        var j :| 0 <= j < |fetched| && Discovered(site, origin, fetched[j], v);
        assert after[j] == fetched[j];
      }
    }
  }

  lemma FetchLogAppend(start: string, maxDepth: int, seen: set<string>, fetched: seq<Visit>, v: Visit)
    requires FetchLog(start, maxDepth, seen, fetched)
    requires v.url !in seen && 0 <= v.depth <= maxDepth
    requires fetched == [] ==> v == Visit(start, 0)
    ensures FetchLog(start, maxDepth, seen + {v.url}, fetched + [v])
  {
    var after := fetched + [v];
    forall i | 0 <= i < |after| ensures after[i].url in seen + {v.url} && 0 <= after[i].depth <= maxDepth {
      if i < |fetched| { assert after[i] == fetched[i]; }
    }
    forall i, j | 0 <= i < j < |after| ensures after[i].url != after[j].url {
      if j < |fetched| { assert after[i] == fetched[i] && after[j] == fetched[j]; }
      else { assert after[i] == fetched[i]; }
    }
    assert after[0] == if fetched == [] then v else fetched[0];
  }

  /** The links the last fetched HTML page adds to the queue are justified by it. */
  lemma CrawlLinks(site: Site, origin: string, start: string, maxDepth: int, seen: set<string>, fetched: seq<Visit>, q: seq<Visit>, doc: ParsedDoc)
    requires CrawlState(site, origin, start, maxDepth, seen, fetched, q)
    requires fetched != [] && HtmlAt(site, fetched[|fetched| - 1].url) == Some(doc)
    ensures var v := fetched[|fetched| - 1];
            CrawlState(site, origin, start, maxDepth, seen, fetched, q + Enqueued(v.url, v.depth, doc.hrefs, origin, site.ops, seen))
  {
    var v := fetched[|fetched| - 1];
    var found := Enqueued(v.url, v.depth, doc.hrefs, origin, site.ops, seen);
    forall k | 0 <= k < |found| ensures Discovered(site, origin, v, found[k]) {
      var j :| 0 <= j < |doc.hrefs| && LinkTarget(v.url, doc.hrefs[j], origin, site.ops) == Some(found[k].url);
    }
    var q' := q + found;
    forall k | 0 <= k < |q'|
      ensures 0 <= q'[k].depth
      ensures q'[k] == Visit(start, 0) || exists j :: 0 <= j < |fetched| && Discovered(site, origin, fetched[j], q'[k])
    {
      if k >= |q| {
        assert q'[k] == found[k - |q|];
        assert Discovered(site, origin, fetched[|fetched| - 1], q'[k]);
      }
    }
  }

  lemma PagesOfStep(site: Site, fetched: seq<Visit>, v: Visit)
    ensures var doc := HtmlAt(site, v.url);
            PagesOf(site, fetched + [v]) == PagesOf(site, fetched) + (if doc.Some? then [PageOf(v.url, doc.value, site.ops)] else [])
  {
    assert (fetched + [v])[..|fetched|] == fetched;
  }

  /**
   * `crawl_site`: breadth-first from the start URL. `fetched` is the log of
   * the URLs requested, with their depths. At most `maxPages` pages are
   * returned, one per HTML response among the fetches, in fetch order; no URL
   * is fetched twice, none deeper than `maxDepth`, and every URL but the
   * start one was found as a link on an earlier HTML page, one level up.
   */
  method CrawlSite(baseUrl: string, maxPages: int, maxDepth: int, site: Site)
    returns (pages: seq<Page>, ghost fetched: seq<Visit>)
    ensures |pages| <= Max(0, maxPages)
    ensures pages == PagesOf(site, fetched)
    ensures DistinctUrls(fetched)
    ensures forall i :: 0 <= i < |fetched| ==> 0 <= fetched[i].depth <= maxDepth
    ensures Justified(site, site.ops.netloc(StartUrl(baseUrl)), StartUrl(baseUrl), fetched)
    ensures 0 < maxPages && 0 <= maxDepth ==> fetched != [] && fetched[0] == Visit(StartUrl(baseUrl), 0)
  {
    var start := StartUrl(baseUrl);
    var origin := site.ops.netloc(start);
    var seen: set<string> := {};
    var q := [Visit(start, 0)];
    pages := [];
    fetched := [];
    while q != [] && |pages| < maxPages
      invariant |pages| <= Max(0, maxPages)
      invariant pages == PagesOf(site, fetched)
      invariant CrawlState(site, origin, start, maxDepth, seen, fetched, q)
      invariant fetched == [] && 0 <= maxDepth ==> q == [Visit(start, 0)]
      decreases Max(0, maxPages) - |pages|, |q|
    {
      CrawlPop(site, origin, start, maxDepth, seen, fetched, q);
      var v := q[0];
      q := q[1..];
      if v.url in seen || v.depth > maxDepth {
        continue;
      }
      CrawlFetch(site, origin, start, maxDepth, seen, fetched, q, v);
      PagesOfStep(site, fetched, v);
      seen := seen + {v.url};
      fetched := fetched + [v];
      var resp := site.fetch(v.url);
      if resp.None? {
        continue;
      }
      var r := resp.value;
      if !r.ok || !Contains(r.contentType.GetOr(""), "text/html") {
        continue;
      }
      var doc := site.parse(r.text);
      var page := ExtractPage(v.url, doc, site.ops);
      pages := pages + [page];
      var found := DiscoverLinks(v.url, v.depth, doc.hrefs, origin, site.ops, seen);
      CrawlLinks(site, origin, start, maxDepth, seen, fetched, q, doc);
      q := q + found;
    }
  }

  // ---------------------------------------------------------------- build folders

  /**
   * An entry of the recursive listing of the build folder: its path relative
   * to the folder ("/"-separated), whether it is a regular file, and its text
   * (None when reading it fails).
   */
  datatype FsEntry = FsEntry(rel: string, isFile: bool, content: Option<string>)

  /** The last component of a relative path (`Path.name`). */
  function Name(rel: string): string {
    var parts := SplitOn(rel, '/');
    parts[|parts| - 1]
  }

  /** `Path.suffix`: from the last "." on, unless that dot starts or ends the name. */
  function Suffix(name: string): (r: string)
    ensures r == [] || (r[0] == '.' && '.' !in r[1..])
  {
    var i := LastIndexOf(name, '.');
    if 0 < i < |name| - 1 then name[i..] else ""
  }

  /** `Path.stem`: the name without its suffix. */
  function Stem(name: string): string {
    var i := LastIndexOf(name, '.');
    if 0 < i < |name| - 1 then name[..i] else name
  }

  /** A name is its stem followed by its suffix. */
  lemma StemSuffix(name: string)
    ensures Stem(name) + Suffix(name) == name
  {
    var i := LastIndexOf(name, '.');
    if 0 < i < |name| - 1 { assert name[..i] + name[i..] == name; }
  }

  predicate Indexable(e: FsEntry) {
    e.isFile && Lower(Suffix(Name(e.rel))) in {".html", ".htm", ".md", ".markdown"}
  }

  predicate IsMarkdown(e: FsEntry) {
    Lower(Suffix(Name(e.rel))) in {".md", ".markdown"}
  }

  /** The page one folder entry contributes, if any. */
  function FilePage(e: FsEntry, uriOf: string -> string, parse: string -> ParsedDoc, ops: UrlOps): (r: Option<Page>)
    ensures r.Some? <==> Indexable(e) && e.content.Some?
    ensures r.Some? ==> r.value.url == uriOf(e.rel) && r.value.bodyText == (if IsMarkdown(e) then e.content.value else parse(e.content.value).bodyText)
    ensures r.Some? && IsMarkdown(e) ==>
              && r.value.title == Some(Stem(Name(e.rel)))
              && r.value.headings == []
              && r.value.slug == ReplaceChar(e.rel, '/', '_')
              && r.value.description.None? && r.value.canonicalUrl.None?
  {
    if !Indexable(e) || e.content.None? then None
    else if IsMarkdown(e) then
      Some(Page(ReplaceChar(e.rel, '/', '_'), uriOf(e.rel), Some(Stem(Name(e.rel))), None, None, [], e.content.value))
    else Some(PageOf(uriOf(e.rel), parse(e.content.value), ops))
  }

  /** The pages of all indexable, readable entries, in listing order. */
  function FolderPages(es: seq<FsEntry>, uriOf: string -> string, parse: string -> ParsedDoc, ops: UrlOps): (pages: seq<Page>)
    ensures |pages| <= |es|
  {
    if es == [] then []
    else
      var p := FilePage(es[|es| - 1], uriOf, parse, ops);
      FolderPages(es[..|es| - 1], uriOf, parse, ops) + (if p.Some? then [p.value] else [])
  }

  /** The order `sorted(root.rglob("*"))` lists entries in. */
  predicate EntryLe(a: FsEntry, b: FsEntry) { PathLe(a.rel, b.rel) }

  lemma EntryLePreorder()
    ensures IsTotalPreorder(EntryLe)
  {
    forall a: FsEntry, b: FsEntry ensures EntryLe(a, b) || EntryLe(b, a) {
      PartsLeTotal(SplitOn(a.rel, '/'), SplitOn(b.rel, '/'));
    }
    forall a: FsEntry, b: FsEntry, c: FsEntry | EntryLe(a, b) && EntryLe(b, c) ensures EntryLe(a, c) {
      PartsLeTrans(SplitOn(a.rel, '/'), SplitOn(b.rel, '/'), SplitOn(c.rel, '/'));
    }
  }

  /** The pages of a listing's prefix are a prefix of the listing's pages. */
  lemma {:induction false} FolderPagesPrefix(es: seq<FsEntry>, i: nat, uriOf: string -> string, parse: string -> ParsedDoc, ops: UrlOps)
    requires i <= |es|
    ensures var pre := FolderPages(es[..i], uriOf, parse, ops);
            |pre| <= |FolderPages(es, uriOf, parse, ops)| && FolderPages(es, uriOf, parse, ops)[..|pre|] == pre
    decreases |es|
  {
    if i < |es| {
      var init := es[..|es| - 1];
      FolderPagesPrefix(init, i, uriOf, parse, ops);
      assert init[..i] == es[..i];
    } else {
      assert es[..i] == es;
    }
  }

  lemma FolderPagesStep(es: seq<FsEntry>, i: nat, uriOf: string -> string, parse: string -> ParsedDoc, ops: UrlOps)
    requires i < |es|
    ensures var p := FilePage(es[i], uriOf, parse, ops);
            FolderPages(es[..i + 1], uriOf, parse, ops) == FolderPages(es[..i], uriOf, parse, ops) + (if p.Some? then [p.value] else [])
  {
    assert es[..i + 1][..i] == es[..i];
  }

  /**
   * `crawl_build_folder`: the entries in sorted path order, the indexable
   * ones (.html, .htm, .md, .markdown in any case, regular files, readable)
   * turned into pages, stopping once `maxFiles` pages are collected.
   */
  method CrawlBuildFolder(entries: seq<FsEntry>, maxFiles: int, uriOf: string -> string, parse: string -> ParsedDoc, ops: UrlOps)
    returns (pages: seq<Page>)
    ensures pages == Take(FolderPages(SortBy(entries, EntryLe), uriOf, parse, ops), Max(0, maxFiles))
  {
    var listing := SortBy(entries, EntryLe);
    pages := CollectPages(listing, maxFiles, uriOf, parse, ops);
  }

  /** The loop of `crawl_build_folder` over the sorted listing. */
  method CollectPages(listing: seq<FsEntry>, maxFiles: int, uriOf: string -> string, parse: string -> ParsedDoc, ops: UrlOps)
    returns (pages: seq<Page>)
    ensures pages == Take(FolderPages(listing, uriOf, parse, ops), Max(0, maxFiles))
  {
    var budget := Max(0, maxFiles);
    pages := [];
    var i := 0;
    while i < |listing|
      invariant 0 <= i <= |listing|
      invariant pages == FolderPages(listing[..i], uriOf, parse, ops)
      invariant |pages| <= budget
    {
      if |pages| >= maxFiles {
        break;
      }
      var p := EntryPage(listing[i], uriOf, parse, ops);
      FolderPagesStep(listing, i, uriOf, parse, ops);
      if p.Some? {
        pages := pages + [p.value];
      }
      i := i + 1;
    }
    FolderPagesBudget(listing, i, budget, uriOf, parse, ops);
  }

  /** The loop stops at the end of the listing or once the budget is spent: either way it has the first `budget` pages. */
  lemma FolderPagesBudget(es: seq<FsEntry>, i: nat, budget: nat, uriOf: string -> string, parse: string -> ParsedDoc, ops: UrlOps)
    requires i <= |es|
    requires |FolderPages(es[..i], uriOf, parse, ops)| <= budget
    requires i == |es| || |FolderPages(es[..i], uriOf, parse, ops)| == budget
    ensures FolderPages(es[..i], uriOf, parse, ops) == Take(FolderPages(es, uriOf, parse, ops), budget)
  {
    FolderPagesPrefix(es, i, uriOf, parse, ops);
    if i == |es| {
      assert es[..i] == es;
    }
  }

  /** The body of the folder loop for one entry: skip it, or read it as markdown or as HTML. */
  method EntryPage(e: FsEntry, uriOf: string -> string, parse: string -> ParsedDoc, ops: UrlOps) returns (p: Option<Page>)
    ensures p == FilePage(e, uriOf, parse, ops)
  {
    if !Indexable(e) || e.content.None? {
      return None;
    }
    var txt := e.content.value;
    var url := uriOf(e.rel);
    if IsMarkdown(e) {
      p := Some(Page(ReplaceChar(e.rel, '/', '_'), url, Some(Stem(Name(e.rel))), None, None, [], txt));
    } else {
      var page := ExtractPage(url, parse(txt), ops);
      p := Some(page);
    }
  }

  /** The folder walk visits entries in sorted path order. */
  lemma FolderListingSorted(entries: seq<FsEntry>)
    ensures SortedBy(SortBy(entries, EntryLe), EntryLe)
    ensures multiset(SortBy(entries, EntryLe)) == multiset(entries)
  {
    EntryLePreorder();
    SortBySorted(entries, EntryLe);
  }

  /** Every folder page comes from an indexable, readable entry of the listing. */
  lemma {:induction false} FolderPagesFromEntries(es: seq<FsEntry>, uriOf: string -> string, parse: string -> ParsedDoc, ops: UrlOps, k: nat)
    requires k < |FolderPages(es, uriOf, parse, ops)|
    ensures exists i :: 0 <= i < |es| && Indexable(es[i]) && es[i].content.Some?
                        && FilePage(es[i], uriOf, parse, ops) == Some(FolderPages(es, uriOf, parse, ops)[k])
    decreases |es|
  {
    var init := es[..|es| - 1];
    var front := FolderPages(init, uriOf, parse, ops);
    if k < |front| {
      FolderPagesFromEntries(init, uriOf, parse, ops, k);
      var i :| 0 <= i < |init| && Indexable(init[i]) && init[i].content.Some?
               && FilePage(init[i], uriOf, parse, ops) == Some(front[k]);
      assert es[i] == init[i];
    } else {
      assert FilePage(es[|es| - 1], uriOf, parse, ops).Some?;
    }
  }
}
