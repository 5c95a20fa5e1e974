/**
 * The metadata store: two maps keyed by slug (page documents and sitemap
 * entries), each loaded from and saved to a JSON snapshot file. The files are
 * fields of the store and JSON encoding is a parameter.
 */
module Store {
  import opened Wrappers
  import opened Models
  import opened Ordering

  /** A snapshot file: absent, or present with its text. */
  datatype File = Missing | Present(text: string)

  /**
   * The JSON snapshots. A decoder yields None where `json.loads` or building
   * a record from one of the objects raises, and the (slug, record) items in
   * file order otherwise.
   */
  datatype Codec = Codec(
    encodePages: map<string, PageDoc> -> string,
    decodePages: string -> Option<seq<(string, PageDoc)>>,
    encodeSitemap: map<string, SitemapEntry> -> string,
    decodeSitemap: string -> Option<seq<(string, SitemapEntry)>>)

  /** The map the items build when assigned one after another: a later item wins over an earlier one with the same key. */
  function MapOf<V>(items: seq<(string, V)>): (m: map<string, V>)
    ensures forall k :: k in m <==> exists i :: 0 <= i < |items| && items[i].0 == k
  {
    if items == [] then map[]
    else
      var init := items[..|items| - 1];
      var last := items[|items| - 1];
      var m := MapOf(init);
      assert forall i :: 0 <= i < |init| ==> init[i] == items[i];
      m[last.0 := last.1]
  }

  /** The value of a key is the one of its last item. */
  lemma {:induction false} MapOfLast<V>(items: seq<(string, V)>, j: nat)
    requires j < |items|
    requires forall i :: j < i < |items| ==> items[i].0 != items[j].0
    ensures items[j].0 in MapOf(items) && MapOf(items)[items[j].0] == items[j].1
    decreases |items|
  {
    var init := items[..|items| - 1];
    if j < |init| {
      assert forall i :: j < i < |init| ==> init[i] == items[i];
      MapOfLast(init, j);
      assert init[j] == items[j];
    }
  }

  /**
   * What loading a snapshot file does to the map it fills: nothing when the
   * file is missing; the file's items assigned over the current contents when
   * it parses; an empty map when it does not, whatever had been there.
   */
  function LoadInto<V>(current: map<string, V>, file: File, decode: string -> Option<seq<(string, V)>>): map<string, V> {
    match file
    case Missing => current
    case Present(text) =>
      match decode(text)
      case None => map[]
      case Some(items) => current + MapOf(items)
  }

  /** The codec reads back exactly the map it wrote. */
  ghost predicate RoundTrips<V(!new)>(encode: map<string, V> -> string, decode: string -> Option<seq<(string, V)>>) {
    forall m: map<string, V> :: decode(encode(m)).Some? && MapOf(decode(encode(m)).value) == m
  }

  /** Sorting key of `list_sitemap`: the slug, in `str` order. */
  predicate SlugLe(a: SitemapEntry, b: SitemapEntry) { StrLe(a.slug, b.slug) }

  lemma SlugLePreorder()
    ensures IsTotalPreorder(SlugLe)
  {
    forall a: SitemapEntry, b: SitemapEntry ensures SlugLe(a, b) || SlugLe(b, a) {
      StrLeTotal(a.slug, b.slug);
    }
    forall a: SitemapEntry, b: SitemapEntry, c: SitemapEntry | SlugLe(a, b) && SlugLe(b, c) ensures SlugLe(a, c) {
      StrLeTrans(a.slug, b.slug, c.slug);
    }
  }

  /** The values a key enumeration of `m` lists, in that order. */
  function ValuesAt<V>(keys: seq<string>, m: map<string, V>): (vs: seq<V>)
    requires forall i :: 0 <= i < |keys| ==> keys[i] in m
    ensures |vs| == |keys| && forall i :: 0 <= i < |keys| ==> vs[i] == m[keys[i]]
  {
    seq(|keys|, i requires 0 <= i < |keys| => m[keys[i]])
  }

  /** `keys` lists every key of `m` exactly once. */
  ghost predicate Enumerates<V>(keys: seq<string>, m: map<string, V>) {
    && (forall i, j :: 0 <= i < j < |keys| ==> keys[i] != keys[j])
    && (forall k :: k in m <==> k in keys)
  }

  class IndexStore {
    var pages: map<string, PageDoc>
    var sitemap: map<string, SitemapEntry>
    var pagesFile: File
    var sitemapFile: File
    const codec: Codec
    /** How many times the store has been saved. */
    ghost var saves: nat

    /** A store over the two snapshot files, filled from them. */
    constructor (pagesFile: File, sitemapFile: File, codec: Codec)
      ensures this.pagesFile == pagesFile && this.sitemapFile == sitemapFile && this.codec == codec
      ensures pages == LoadInto(map[], pagesFile, codec.decodePages)
      ensures sitemap == LoadInto(map[], sitemapFile, codec.decodeSitemap)
      ensures saves == 0
    {
      this.pagesFile := pagesFile;
      this.sitemapFile := sitemapFile;
      this.codec := codec;
      pages := map[];
      sitemap := map[];
      saves := 0;
      new;
      Load();
    }

    /** `_load`: each map is filled from its own file, or reset to empty when the file does not parse. */
    method Load()
      modifies this`pages, this`sitemap
      ensures pages == LoadInto(old(pages), pagesFile, codec.decodePages)
      ensures sitemap == LoadInto(old(sitemap), sitemapFile, codec.decodeSitemap)
    {
      if pagesFile.Present? {
        var raw := codec.decodePages(pagesFile.text);
        if raw.None? {
          pages := map[];
        } else {
          pages := AssignAll(pages, raw.value);
        }
      }
      if sitemapFile.Present? {
        var raw := codec.decodeSitemap(sitemapFile.text);
        if raw.None? {
          sitemap := map[];
        } else {
          sitemap := AssignAll(sitemap, raw.value);
        }
      }
    }

    /** `save`: both files are rewritten with the whole of their maps. */
    method Save()
      modifies this`pagesFile, this`sitemapFile, this`saves
      ensures pagesFile == Present(codec.encodePages(pages))
      ensures sitemapFile == Present(codec.encodeSitemap(sitemap))
      ensures saves == old(saves) + 1
    {
      pagesFile := Present(codec.encodePages(pages));
      sitemapFile := Present(codec.encodeSitemap(sitemap));
      saves := saves + 1;
    }

    /** `upsert_page`: the document and the entry are stored under their own slugs; no other slug changes. */
    method UpsertPage(doc: PageDoc, entry: SitemapEntry)
      modifies this`pages, this`sitemap
      ensures pages == old(pages)[doc.slug := doc]
      ensures sitemap == old(sitemap)[entry.slug := entry]
    {
      pages := pages[doc.slug := doc];
      sitemap := sitemap[entry.slug := entry];
    }

    /** `get_page`: the stored document of a known slug, None for an unknown one. */
    function GetPage(slug: string): (r: Option<PageDoc>)
      reads this
      ensures r.Some? <==> slug in pages
      ensures r.Some? ==> r.value == pages[slug]
    {
      if slug in pages then Some(pages[slug]) else None
    }

    /**
     * `list_sitemap`: every sitemap value once, sorted by slug. `keys` is the
     * order in which the map yields its values; `sorted` keeps that order
     * among equal slugs.
     */
    method ListSitemap() returns (r: seq<SitemapEntry>, ghost keys: seq<string>)
      ensures Enumerates(keys, sitemap)
      ensures r == SortBy(ValuesAt(keys, sitemap), SlugLe)
      ensures SortedBy(r, SlugLe) && |r| == |sitemap|
      ensures forall k :: k in sitemap ==> sitemap[k] in r
    {
      var values;
      values, keys := SitemapValues();
      r := SortBy(values, SlugLe);
      SlugLePreorder();
      SortBySorted(values, SlugLe);
      EnumeratedValues(keys, sitemap);
      SortByKeeps(values, SlugLe);
    }

    /** `sitemap.values()`: every value once, in the order `keys` of the map's own enumeration. */
    method SitemapValues() returns (values: seq<SitemapEntry>, ghost keys: seq<string>)
      ensures Enumerates(keys, sitemap)
      ensures values == ValuesAt(keys, sitemap)
    {
      var rest := sitemap.Keys;
      values := [];
      keys := [];
      while rest != {}
        invariant rest <= sitemap.Keys
        invariant forall k :: k in sitemap ==> (k in rest <==> k !in keys)
        invariant forall i, j :: 0 <= i < j < |keys| ==> keys[i] != keys[j]
        invariant forall i :: 0 <= i < |keys| ==> keys[i] in sitemap
        invariant values == ValuesAt(keys, sitemap)
        decreases |rest|
      {
        var k :| k in rest;
        keys := keys + [k];
        values := values + [sitemap[k]];
        rest := rest - {k};
      }
    }
  }

  /** An enumeration of the keys lists as many values as the map has keys, and every one of them. */
  lemma EnumeratedValues<V>(keys: seq<string>, m: map<string, V>)
    requires Enumerates(keys, m)
    ensures |keys| == |m|
    ensures forall k :: k in m ==> m[k] in ValuesAt(keys, m)
  {
    assert m.Keys == set i | 0 <= i < |keys| :: keys[i];
    DistinctCard(keys);
    var vs := ValuesAt(keys, m);
    forall k | k in m ensures m[k] in vs {
      var i :| 0 <= i < |keys| && keys[i] == k;
      assert vs[i] == m[k];
    }
  }

  /** Sorting loses no element. */
  lemma SortByKeeps<T>(s: seq<T>, le: (T, T) -> bool)
    ensures forall x :: x in s ==> x in SortBy(s, le)
  {
    forall x | x in s ensures x in SortBy(s, le) {
      assert x in multiset(s);
    }
  }

  /** A list without repetitions has as many elements as its set. */
  lemma {:induction false} DistinctCard(keys: seq<string>)
    requires forall i, j :: 0 <= i < j < |keys| ==> keys[i] != keys[j]
    ensures |set i | 0 <= i < |keys| :: keys[i]| == |keys|
    decreases |keys|
  {
    if keys != [] {
      var init := keys[..|keys| - 1];
      DistinctCard(init);
      var s := set i | 0 <= i < |init| :: init[i];
      assert (set i | 0 <= i < |keys| :: keys[i]) == s + {keys[|keys| - 1]} by {
        forall x | x in s ensures x in set i | 0 <= i < |keys| :: keys[i] {
          var i :| 0 <= i < |init| && init[i] == x;
          assert keys[i] == x;
        }
      }
      assert keys[|keys| - 1] !in s;
    }
  }

  /** The `for slug, obj in items` loop of `_load`. */
  method AssignAll<V>(m: map<string, V>, items: seq<(string, V)>) returns (r: map<string, V>)
    ensures r == m + MapOf(items)
  {
    r := m;
    var i := 0;
    while i < |items|
      invariant 0 <= i <= |items|
      invariant r == m + MapOf(items[..i])
    {
      MapOfStep(m, items, i);
      r := r[items[i].0 := items[i].1];
      i := i + 1;
    }
    assert items[..i] == items;
  }

  lemma MapOfStep<V>(m: map<string, V>, items: seq<(string, V)>, i: nat)
    requires i < |items|
    ensures m + MapOf(items[..i + 1]) == (m + MapOf(items[..i]))[items[i].0 := items[i].1]
  {
    assert items[..i + 1][..i] == items[..i];
    assert MapOf(items[..i + 1]) == MapOf(items[..i])[items[i].0 := items[i].1];
  }

  /** Saving and then loading into an empty store gives back the saved map, when the codec round-trips. */
  lemma SnapshotRestores<V(!new)>(m: map<string, V>, encode: map<string, V> -> string, decode: string -> Option<seq<(string, V)>>)
    requires RoundTrips(encode, decode)
    ensures LoadInto(map[], Present(encode(m)), decode) == m
  {
    assert map[] + MapOf(decode(encode(m)).value) == MapOf(decode(encode(m)).value);
  }

  /** A snapshot that does not parse empties the map, whatever it held. */
  lemma CorruptSnapshotResets<V>(current: map<string, V>, text: string, decode: string -> Option<seq<(string, V)>>)
    requires decode(text).None?
    ensures LoadInto(current, Present(text), decode) == map[]
  {
  }
}
