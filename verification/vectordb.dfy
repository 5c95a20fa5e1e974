/**
 * The vector store wrapper over one collection: records keyed by id, kept in
 * the collection's listing order (the order `get` pages through). The
 * nearest-neighbour search itself is not modelled: `Query` takes the raw
 * response of the collection.
 */
module Vectors {
  import opened Wrappers
  import opened Text

  /** A metadata value as the pipeline writes them: a string, a list of strings or an integer. */
  datatype MetaValue = MStr(s: string) | MStrs(items: seq<string>) | MInt(i: int)

  type Meta = map<string, MetaValue>

  datatype Record = Record(document: string, embedding: seq<real>, metadata: Meta)

  datatype SearchResult = SearchResult(id: string, distance: real, document: string, metadata: Meta)

  /** An element of the `ids` list `get` returns: an id, or a nested list of ids. */
  datatype IdItem = Flat(id: string) | Nested(ids: seq<string>)

  /** The calls the wrapper makes on the collection. */
  datatype Call = GetCall(limit: int, offset: int) | DeleteCall(ids: seq<string>) | UpsertCall(ids: seq<string>)

  /** The wrapper's own operations, in the order they were asked for. */
  datatype Op = DeletePrefix(prefix: string) | UpsertIds(ids: seq<string>)


  // ---------------------------------------------------------------- ids

  /** The ids that start with `prefix`, in order. */
  function Matching(ids: seq<string>, prefix: string): (r: seq<string>)
    ensures |r| <= |ids|
    ensures forall k :: 0 <= k < |r| ==> StartsWith(r[k], prefix) && r[k] in ids
  {
    if ids == [] then []
    else
      var init := ids[..|ids| - 1];
      var last := ids[|ids| - 1];
      assert forall x :: x in init ==> x in ids;
      Matching(init, prefix) + (if StartsWith(last, prefix) then [last] else [])
  }

  lemma {:induction false} MatchingAppend(a: seq<string>, b: seq<string>, prefix: string)
    ensures Matching(a + b, prefix) == Matching(a, prefix) + Matching(b, prefix)
    decreases |b|
  {
    if b == [] {
      assert a + b == a;
    } else {
      var b' := b[..|b| - 1];
      MatchingAppend(a, b', prefix);
      assert (a + b)[..|a + b| - 1] == a + b';
      assert (a + b)[|a + b| - 1] == b[|b| - 1];
    }
  }

  /** Every id with the prefix is matched. */
  lemma {:induction false} MatchingComplete(ids: seq<string>, prefix: string, x: string)
    requires x in ids && StartsWith(x, prefix)
    ensures x in Matching(ids, prefix)
    decreases |ids|
  {
    var init := ids[..|ids| - 1];
    if x != ids[|ids| - 1] {
      var i :| 0 <= i < |ids| && ids[i] == x;
      assert init[i] == x;
      MatchingComplete(init, prefix, x);
    }
  }

  /** The ids listed by a `get` response, nested lists spliced in place. */
  function Flatten(items: seq<IdItem>): (r: seq<string>)
    ensures |items| <= |r| || exists k :: 0 <= k < |items| && items[k].Nested?
  {
    if items == [] then []
    else
      var last := items[|items| - 1];
      Flatten(items[..|items| - 1]) + (if last.Flat? then [last.id] else last.ids)
  }

  /** The ids of one `get` page that start with `prefix`, collected as the scan loop does it. */
  method CollectMatches(got: seq<IdItem>, prefix: string) returns (found: seq<string>)
    ensures found == Matching(Flatten(got), prefix)
  {
    found := [];
    var i := 0;
    while i < |got|
      invariant 0 <= i <= |got|
      invariant found == Matching(Flatten(got[..i]), prefix)
    {
      assert got[..i + 1][..i] == got[..i];
      var item := got[i];
      match item {
      case Nested(xs) =>
        var more := CollectListed(xs, prefix);
        found := found + more;
        MatchingAppend(Flatten(got[..i]), xs, prefix);
      case Flat(id) =>
        MatchingAppend(Flatten(got[..i]), [id], prefix);
        assert Matching([id], prefix) == Matching([], prefix) + (if StartsWith(id, prefix) then [id] else []);
        if StartsWith(id, prefix) {
          found := found + [id];
        }
      }
      i := i + 1;
    }
    assert got[..i] == got;
  }

  /** The ids of one nested list that start with `prefix`, in order. */
  method CollectListed(xs: seq<string>, prefix: string) returns (found: seq<string>)
    ensures found == Matching(xs, prefix)
  {
    found := [];
    var j := 0;
    while j < |xs|
      invariant 0 <= j <= |xs|
      invariant found == Matching(xs[..j], prefix)
    {
      assert xs[..j + 1][..j] == xs[..j];
      if StartsWith(xs[j], prefix) {
        found := found + [xs[j]];
      }
      j := j + 1;
    }
    assert xs[..j] == xs;
  }

  /** A `get` response that lists `ids` one by one. */
  function AsItems(ids: seq<string>): (r: seq<IdItem>)
    ensures |r| == |ids| && forall i :: 0 <= i < |r| ==> r[i] == Flat(ids[i])
  {
    if ids == [] then [] else AsItems(ids[..|ids| - 1]) + [Flat(ids[|ids| - 1])]
  }

  /** The response of `get(limit=limit, offset=offset)` on a collection listed in `order`. */
  function Listing(order: seq<string>, limit: nat, offset: nat): (r: seq<IdItem>)
    ensures |r| == Min(limit, |order| - Min(offset, |order|))
    ensures forall i :: 0 <= i < |r| ==> r[i] == Flat(order[offset + i])
  {
    var lo := Min(offset, |order|);
    AsItems(order[lo..Min(lo + limit, |order|)])
  }

  /** The ids of a flat listing are the listing itself. */
  lemma {:induction false} FlattenFlat(ids: seq<string>)
    ensures Flatten(AsItems(ids)) == ids
    decreases |ids|
  {
    if ids != [] {
      var init := ids[..|ids| - 1];
      FlattenFlat(init);
      assert AsItems(ids)[..|ids| - 1] == AsItems(init);
    }
  }

  /** The `get` calls of a full scan of `n` records, 500 per page: offsets 0, 500, ... up to the first page that comes back empty. */
  function ScanCalls(n: nat): (calls: seq<Call>)
    ensures |calls| >= 1 && calls[|calls| - 1] == GetCall(500, 500 * (|calls| - 1))
    ensures 500 * (|calls| - 1) >= n && (|calls| == 1 || 500 * (|calls| - 2) < n)
  {
    seq((n + 499) / 500 + 1, j => GetCall(500, 500 * j))
  }

  predicate Distinct(ids: seq<string>) {
    forall i, j :: 0 <= i < j < |ids| ==> ids[i] != ids[j]
  }

  /** The records without those whose id starts with `prefix`. */
  function Purge(records: map<string, Record>, prefix: string): (r: map<string, Record>)
    ensures forall id :: id in r <==> id in records && !StartsWith(id, prefix)
    ensures forall id :: id in r ==> r[id] == records[id]
  {
    map id | id in records && !StartsWith(id, prefix) :: records[id]
  }

  /**
   * The ids of `order` not in `gone`, in order: the listing after a delete,
   * and the ids an upsert adds (those not stored yet).
   */
  function Without(order: seq<string>, gone: set<string>): (r: seq<string>)
    ensures forall x :: x in r <==> x in order && x !in gone
    ensures Distinct(order) ==> Distinct(r)
  {
    if order == [] then []
    else
      var init := order[..|order| - 1];
      var last := order[|order| - 1];
      assert forall x :: x in init ==> x in order;
      assert Distinct(order) ==> Distinct(init) && last !in init;
      Without(init, gone) + (if last !in gone then [last] else [])
  }

  /** The records an upsert writes, one per position. */
  function Batch(ids: seq<string>, documents: seq<string>, embeddings: seq<seq<real>>, metadatas: seq<Meta>): (m: map<string, Record>)
    requires |ids| == |documents| == |embeddings| == |metadatas|
    requires Distinct(ids)
    ensures forall id :: id in m <==> id in ids
    ensures forall i :: 0 <= i < |ids| ==> m[ids[i]] == Record(documents[i], embeddings[i], metadatas[i])
  {
    map i | 0 <= i < |ids| :: ids[i] := Record(documents[i], embeddings[i], metadatas[i])
  }

  /** The id list of a response field: `(field or [[]])[0]`. */
  function FirstRow<T>(field: Option<seq<seq<T>>>): (r: seq<T>)
    ensures field.Some? && field.value != [] ==> r == field.value[0]
    ensures field.None? || field.value == [] ==> r == []
  {
    if field.None? || field.value == [] then [] else field.value[0]
  }

  /** A raw response of the collection's nearest-neighbour query: one row per query embedding. */
  datatype QueryResponse = QueryResponse(
    ids: Option<seq<seq<string>>>,
    documents: Option<seq<seq<string>>>,
    metadatas: Option<seq<seq<Option<Meta>>>>,
    distances: Option<seq<seq<real>>>)

  /**
   * `query`: the first row of each of the four fields, zipped up to the
   * shortest; a missing metadata becomes the empty map.
   */
  method Query(resp: QueryResponse) returns (out: seq<SearchResult>)
    ensures var ids, docs, metas, dists := FirstRow(resp.ids), FirstRow(resp.documents), FirstRow(resp.metadatas), FirstRow(resp.distances);
            && |out| == Min(Min(|ids|, |docs|), Min(|metas|, |dists|))
            && forall i :: 0 <= i < |out| ==>
                 out[i] == SearchResult(ids[i], dists[i], docs[i], metas[i].GetOr(map[]))
  {
    var docs := FirstRow(resp.documents);
    var metas := FirstRow(resp.metadatas);
    var dists := FirstRow(resp.distances);
    var ids := FirstRow(resp.ids);
    var n := Min(Min(|ids|, |docs|), Min(|metas|, |dists|));
    out := [];
    var i := 0;
    while i < n
      invariant 0 <= i <= n && |out| == i
      invariant forall k :: 0 <= k < i ==> out[k] == SearchResult(ids[k], dists[k], docs[k], metas[k].GetOr(map[]))
    {
      out := out + [SearchResult(ids[i], dists[i], docs[i], metas[i].GetOr(map[]))];
      i := i + 1;
    }
  }

  // ---------------------------------------------------------------- the collection

  class VectorDB {
    var records: map<string, Record>
    /** The collection's listing order. */
    var order: seq<string>
    /** The calls made on the collection. */
    ghost var calls: seq<Call>
    /** The operations asked of the wrapper. */
    ghost var ops: seq<Op>

    ghost predicate Valid()
      reads this
    {
      && Distinct(order)
      && (forall id :: id in records <==> id in order)
    }

    constructor ()
      ensures Valid() && records == map[] && order == [] && calls == [] && ops == []
    {
      records := map[];
      order := [];
      calls := [];
      ops := [];
    }

    /** The collection's `get(limit=limit, offset=offset)`: the ids of that slice of the listing. */
    method GetPage(limit: nat, offset: nat) returns (got: seq<IdItem>)
      modifies this`calls
      ensures calls == old(calls) + [GetCall(limit, offset)]
      ensures got == Listing(order, limit, offset)
    {
      var lo := Min(offset, |order|);
      got := AsItems(order[lo..Min(lo + limit, |order|)]);
      calls := calls + [GetCall(limit, offset)];
    }

    /** The collection's `delete(ids=ids)`. */
    method DeleteIds(ids: seq<string>)
      requires Valid()
      modifies this`records, this`order, this`calls
      ensures Valid()
      ensures records == map id | id in old(records) && id !in ids :: old(records)[id]
      ensures order == Without(old(order), set x | x in ids)
      ensures calls == old(calls) + [DeleteCall(ids)]
    {
      records := map id | id in records && id !in ids :: records[id];
      order := Without(order, set x | x in ids);
      calls := calls + [DeleteCall(ids)];
    }

    /**
     * `upsert`: one record per position; an id already stored is
     * overwritten, a new one is added.
     */
    method Upsert(ids: seq<string>, documents: seq<string>, embeddings: seq<seq<real>>, metadatas: seq<Meta>)
      requires Valid()
      requires |ids| == |documents| == |embeddings| == |metadatas|
      requires Distinct(ids)
      modifies this`records, this`order, this`calls, this`ops
      ensures Valid()
      ensures records == old(records) + Batch(ids, documents, embeddings, metadatas)
      ensures calls == old(calls) + [UpsertCall(ids)]
      ensures ops == old(ops) + [UpsertIds(ids)]
    {
      var added := Without(ids, records.Keys);
      var batch := Batch(ids, documents, embeddings, metadatas);
      AppendFresh(order, records, ids, batch);
      order := order + added;
      records := records + batch;
      calls := calls + [UpsertCall(ids)];
      ops := ops + [UpsertIds(ids)];
    }

    /**
     * The scan loop of `delete_by_prefix`: pages through the listing 500 ids
     * at a time until a page comes back empty, collecting the ids that start
     * with `prefix`.
     */
    method ScanPrefix(prefix: string) returns (ids: seq<string>)
      modifies this`calls
      ensures ids == Matching(order, prefix)
      ensures calls == old(calls) + ScanCalls(|order|)
    {
      ids := [];
      var offset: nat := 0;
      ghost var k: nat := 0;
      ghost var calls0 := calls;
      while true
        invariant Scanned(order, prefix, ids, offset, k)
        invariant calls == calls0 + Gets(k)
        decreases |order| + 500 - offset
      {
        var got := GetPage(500, offset);
        GetsNext(calls0, k);
        if got == [] {
          ScanDone(order, prefix, ids, offset, k, got);
          break;
        }
        var found := CollectMatches(got, prefix);
        ScanStep(order, prefix, ids, offset, k, got, found);
        ids := ids + found;
        offset := offset + 500;
        k := k + 1;
      }
    }

    /**
     * `delete_by_prefix`: scans the listing for the ids with the prefix and
     * deletes them in one call if there are any. Every other record is kept.
     */
    method DeleteByPrefix(prefix: string)
      requires Valid()
      modifies this`records, this`order, this`calls, this`ops
      ensures Valid()
      ensures records == Purge(old(records), prefix)
      ensures var matched := Matching(old(order), prefix);
              calls == old(calls) + ScanCalls(|old(order)|) + (if matched != [] then [DeleteCall(matched)] else [])
      ensures ops == old(ops) + [DeletePrefix(prefix)]
    {
      var ids := ScanPrefix(prefix);
      PurgeMatches(records, order, prefix);
      if ids != [] {
        DeleteIds(ids);
      } else {
        assert records == map id | id in records && id !in ids :: records[id];
      }
      ops := ops + [DeletePrefix(prefix)];
    }
  }

  /** The first `k` calls of the scan. */
  function Gets(k: nat): seq<Call> {
    seq(k, j => GetCall(500, 500 * j))
  }

  lemma GetsNext(calls0: seq<Call>, k: nat)
    ensures calls0 + Gets(k) + [GetCall(500, 500 * k)] == calls0 + Gets(k + 1)
  {
  }

  /** The scan has read the pages at 0, 500, ..., `offset - 500`, and `ids` are their matches. */
  ghost predicate Scanned(order: seq<string>, prefix: string, ids: seq<string>, offset: nat, k: nat) {
    && offset == 500 * k
    && (k == 0 || 500 * (k - 1) < |order|)
    && ids == Matching(order[..Min(offset, |order|)], prefix)
  }

  /** The scan stops after the page at `500 * k` comes back empty: that is `ScanCalls`, and every id was read. */
  lemma ScanDone(order: seq<string>, prefix: string, ids: seq<string>, offset: nat, k: nat, got: seq<IdItem>)
    requires Scanned(order, prefix, ids, offset, k)
    requires got == Listing(order, 500, offset) && got == []
    ensures ScanCalls(|order|) == Gets(k + 1)
    ensures ids == Matching(order, prefix)
  {
    ScanCount(|order|, k);
    assert order[..Min(offset, |order|)] == order;
  }

  /** One page of the scan: the matches of the page at `offset` extend the matches so far. */
  lemma ScanStep(order: seq<string>, prefix: string, ids: seq<string>, offset: nat, k: nat, got: seq<IdItem>, found: seq<string>)
    requires Scanned(order, prefix, ids, offset, k)
    requires got == Listing(order, 500, offset) && got != []
    requires found == Matching(Flatten(got), prefix)
    ensures Scanned(order, prefix, ids + found, offset + 500, k + 1)
  {
    assert offset < |order|;
    var hi := Min(offset + 500, |order|);
    var page := order[offset..hi];
    assert got == AsItems(page);
    FlattenFlat(page);
    PrefixSplit(order, offset, hi);
    MatchingAppend(order[..offset], page, prefix);
    assert ids + found == Matching(order[..hi], prefix);
  }

  lemma ScanCount(n: nat, k: nat)
    requires 500 * k >= n && (k == 0 || 500 * (k - 1) < n)
    ensures ScanCalls(n) == Gets(k + 1)
  {
    assert (n + 499) / 500 == k;
  }

  lemma PrefixSplit<T>(s: seq<T>, lo: nat, hi: nat)
    requires lo <= hi <= |s|
    ensures s[..hi] == s[..lo] + s[lo..hi]
  {
  }

  /** Appending the new ids of an upsert keeps the listing and the records in step. */
  lemma AppendFresh(order: seq<string>, records: map<string, Record>, ids: seq<string>, batch: map<string, Record>)
    requires Distinct(order) && (forall id :: id in records <==> id in order)
    requires Distinct(ids) && (forall id :: id in batch <==> id in ids)
    ensures var o := order + Without(ids, records.Keys);
            Distinct(o) && forall id :: id in records + batch <==> id in o
  {
    var added := Without(ids, records.Keys);
    var o := order + added;
    forall i, j | 0 <= i < j < |o| ensures o[i] != o[j] {
      if j >= |order| && i < |order| {
        assert o[j] in added;
        assert o[i] in order;
      } else if i >= |order| {
        assert o[i] == added[i - |order|] && o[j] == added[j - |order|];
      }
    }
  }

  /** Deleting the matched ids of a listing of `records` is purging the prefix. */
  lemma PurgeMatches(records: map<string, Record>, order: seq<string>, prefix: string)
    requires forall id :: id in records <==> id in order
    ensures (map id | id in records && id !in Matching(order, prefix) :: records[id]) == Purge(records, prefix)
  {
    forall id | id in records ensures id in Matching(order, prefix) <==> StartsWith(id, prefix) {
      if StartsWith(id, prefix) { MatchingComplete(order, prefix, id); }
    }
  }

  /** After `a::chunk::0`, `a::chunk::1` and `b::chunk::0` are stored, deleting the prefix `a::` leaves only `b::chunk::0`. */
  lemma PurgeExample(r0: Record, r1: Record, r2: Record)
    ensures Purge(map["a::chunk::0" := r0, "a::chunk::1" := r1, "b::chunk::0" := r2], "a::") == map["b::chunk::0" := r2]
  {
    var m := map["a::chunk::0" := r0, "a::chunk::1" := r1, "b::chunk::0" := r2];
    assert StartsWith("a::chunk::0", "a::") && StartsWith("a::chunk::1", "a::");
    assert !StartsWith("b::chunk::0", "a::") by { assert "b::chunk::0"[..3][0] == 'b'; }
    assert Purge(m, "a::").Keys == {"b::chunk::0"};
  }
}
