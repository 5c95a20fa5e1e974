/**
 * The repository file tools: a bounded directory listing with directories
 * first, a capped file read, and a bounded case-insensitive text search over
 * the files the walk finds. The file system is a value of type `Disk`; the
 * UTF-8 decoding with replacement characters is one of its parameters.
 */
module FsTools {
  import opened Wrappers
  import opened Text
  import opened Ordering
  import opened Security
  import opened RepoConfig
  import opened FsWalk

  newtype byte = x: int | 0 <= x < 256

  /** What `stat` reports: the size in bytes and the modification time, already cut to whole seconds. */
  datatype Stat = Stat(size: int, mtime: int)

  /** A directory entry as `iterdir` yields it; `stat` is absent when the call raises. */
  datatype Entry = Entry(name: string, path: string, isDir: bool, isFile: bool, stat: Option<Stat>)

  /** An item of the listing: with its kind, size and time, or of unknown kind when `stat` failed. */
  datatype Item =
    | Stated(name: string, path: string, kind: string, size: Option<int>, mtime: int)
    | Unknown(name: string, path: string)

  /** A search hit: the file, the 1-based line number and the line cut to 400 characters. */
  datatype Hit = Hit(file: string, line: int, text: string)

  /**
   * The file system the tools see: path resolution, what a path names,
   * the entries of a directory, the bytes of a file, the tree `os.walk`
   * traverses from a directory, the text of a file (absent when reading
   * raises) and the lenient UTF-8 decoding.
   */
  datatype Disk = Disk(
    resolve: string -> string,
    kind: string -> Option<FileKind>,
    entries: string -> seq<Entry>,
    content: string -> seq<byte>,
    tree: string -> Tree,
    readText: string -> Option<string>,
    decode: seq<byte> -> string)

  // ---------------------------------------------------------------- list_dir

  /** The sort key `(is_file, lower-case name)`: directories and other non-files first, then by name. */
  predicate EntryLe(a: Entry, b: Entry) {
    || (!a.isFile && b.isFile)
    || (a.isFile == b.isFile && StrLe(Lower(a.name), Lower(b.name)))
  }

  /** The item reported for one entry. */
  function ItemOf(e: Entry): (item: Item)
    ensures item.name == e.name && item.path == e.path
    ensures item.Unknown? <==> e.stat.None?
    ensures item.Stated? ==> item.kind == (if e.isDir then "dir" else "file")
                             && (item.size.Some? <==> e.isFile)
                             && (e.isFile ==> item.size == Some(e.stat.value.size))
                             && item.mtime == e.stat.value.mtime
  {
    match e.stat
    case None => Unknown(e.name, e.path)
    case Some(st) => Stated(e.name, e.path, if e.isDir then "dir" else "file", if e.isFile then Some(st.size) else None, st.mtime)
  }

  /** The number of entries `list_dir` keeps: the loop stops at index `maxEntries`. */
  function Bound(limit: int): nat { if limit > 0 then limit else 0 }

  /**
   * `list_dir`: after the guard, the entries sorted by `EntryLe`, the first
   * `maxEntries` of them, each reported by `ItemOf`.
   */
  method ListDir(settings: Settings, path: string, maxEntries: int, disk: Disk) returns (r: Result<seq<Item>, Raised>)
    ensures r.Err? <==> CheckedDir(path, settings.allowedRoots, disk.resolve, disk.kind).Err?
    ensures r.Err? ==> r.error == CheckedDir(path, settings.allowedRoots, disk.resolve, disk.kind).error
    ensures r.Ok? ==>
              var sorted := SortBy(disk.entries(disk.resolve(path)), EntryLe);
              && |r.value| == Min(Bound(maxEntries), |sorted|)
              && forall k :: 0 <= k < |r.value| ==> r.value[k] == ItemOf(sorted[k])
  {
    var checked := CheckedDir(path, settings.allowedRoots, disk.resolve, disk.kind);
    if checked.Err? {
      return Err(checked.error);
    }
    var rp := checked.value;
    var sorted := SortBy(disk.entries(rp), EntryLe);
    var out: seq<Item> := [];
    for i := 0 to |sorted|
      invariant i <= Bound(maxEntries) && |out| == i
      invariant forall k :: 0 <= k < |out| ==> out[k] == ItemOf(sorted[k])
    {
      if i >= maxEntries {
        break;
      }
      out := out + [ItemOf(sorted[i])];
    }
    return Ok(out);
  }

  // ---------------------------------------------------------------- read_file

  /** The marker's bytes: the marker is ASCII. */
  const MarkerBytes: seq<byte> := [10, 10, 91, 84, 82, 85, 78, 67, 65, 84, 69, 68, 93, 10]

  /** What a buffered binary reader raises for a length below -1. */
  const BadReadLength := "read length must be non-negative or -1"

  /**
   * `f.read(n)` on a file opened with mode "rb": -1 reads to the end, a
   * length below -1 raises ValueError, and otherwise at most `n` bytes are read.
   */
  function Read(content: seq<byte>, n: int): (r: Result<seq<byte>, Raised>)
    ensures r.Err? <==> n < -1
    ensures r.Err? ==> r.error == ValueError(BadReadLength)
    ensures n == -1 ==> r == Ok(content)
    ensures n >= 0 ==> r.Ok? && |r.value| == Min(n, |content|) && r.value == content[..|r.value|]
  {
    if n < -1 then Err(ValueError(BadReadLength))
    else if n == -1 then Ok(content)
    else Ok(content[..Min(n, |content|)])
  }

  /**
   * The bytes `read_file` decodes: at most `cap + 1` bytes are read, and when
   * more than `cap` arrived they are cut to `data[:cap]` and the marker added.
   */
  function CappedBytes(content: seq<byte>, cap: int): Result<seq<byte>, Raised> {
    match Read(content, cap + 1)
    case Err(e) => Err(e)
    case Ok(data) => Ok(if |data| > cap then PrefixTo(data, cap) + MarkerBytes else data)
  }

  /** `read_file`: the guard, then the capped bytes decoded. */
  function ReadFile(settings: Settings, path: string, maxBytes: Option<int>, disk: Disk): (r: Result<string, Raised>)
    ensures var guard := CheckedFile(path, settings.allowedRoots, disk.resolve, disk.kind);
            var cap := maxBytes.GetOr(settings.maxReadBytes);
            && (r.Err? <==> guard.Err? || cap < -2)
            && (guard.Err? ==> r == Err(guard.error))
            && (guard.Ok? && cap < -2 ==> r == Err(ValueError(BadReadLength)))
            && (r.Ok? ==> CappedBytes(disk.content(disk.resolve(path)), cap).Ok?
                          && r.value == disk.decode(CappedBytes(disk.content(disk.resolve(path)), cap).value))
  {
    match CheckedFile(path, settings.allowedRoots, disk.resolve, disk.kind)
    case Err(e) => Err(e)
    case Ok(rp) =>
      var cap := if maxBytes.Some? then maxBytes.value else settings.maxReadBytes;
      match CappedBytes(disk.content(rp), cap)
      case Err(e) => Err(e)
      case Ok(data) => Ok(disk.decode(data))
  }

  // ---------------------------------------------------------------- search_text

  /** The hits among the lines of one file, numbered from 1. */
  function LineHits(file: string, lines: seq<string>, q: string): seq<Hit> {
    if lines == [] then []
    else
      var line := lines[|lines| - 1];
      LineHits(file, lines[..|lines| - 1], q)
      + (if Contains(Lower(line), q) then [Hit(file, |lines|, Take(line, 400))] else [])
  }

  /** The hits of one file; a file whose text cannot be read has none. */
  function FileHits(file: string, text: Option<string>, q: string): seq<Hit> {
    if text.None? then [] else LineHits(file, SplitLines(text.value), q)
  }

  /** The hits of all the files, file by file, each file's in line order. */
  function AllHits(files: seq<string>, readText: string -> Option<string>, q: string): seq<Hit> {
    if files == [] then []
    else
      var file := files[|files| - 1];
      AllHits(files[..|files| - 1], readText, q) + FileHits(file, readText(file), q)
  }

  /**
   * `search_text`: the guard, then the walk, then the scan of the files
   * found, which stops at `limit` hits.
   */
  method SearchText(settings: Settings, query: string, path: string, glob: Option<string>, maxResults: Option<int>,
                    disk: Disk, fnmatch: (string, string) -> bool)
    returns (r: Result<seq<Hit>, Raised>)
    ensures r.Err? <==> CheckedDir(path, settings.allowedRoots, disk.resolve, disk.kind).Err?
    ensures r.Err? ==> r.error == CheckedDir(path, settings.allowedRoots, disk.resolve, disk.kind).error
    ensures r.Ok? ==>
              var rp := disk.resolve(path);
              var files := IterFiles(rp, disk.tree(rp), glob, fnmatch);
              r.value == Take(AllHits(files, disk.readText, Lower(query)), Bound(maxResults.GetOr(settings.maxSearchResults)))
  {
    var checked := CheckedDir(path, settings.allowedRoots, disk.resolve, disk.kind);
    if checked.Err? {
      return Err(checked.error);
    }
    var rp := checked.value;
    var limit := if maxResults.Some? then maxResults.value else settings.maxSearchResults;
    var files := IterFilesWalk(rp, disk.tree(rp), glob, fnmatch);
    var q := Lower(query);
    var results := Scan(files, disk.readText, q, limit);
    return Ok(results);
  }

  /** The loop of `search_text` over the files. */
  method Scan(files: seq<string>, readText: string -> Option<string>, q: string, limit: int) returns (results: seq<Hit>)
    ensures results == Take(AllHits(files, readText, q), Bound(limit))
  {
    results := [];
    for i := 0 to |files|
      invariant results == Take(AllHits(files[..i], readText, q), Bound(limit))
    {
      if |results| >= limit {
        AllHitsPrefix(files, readText, q, i);
        TakeOfPrefix(AllHits(files[..i], readText, q), AllHits(files, readText, q), Bound(limit));
        return;
      }
      var fp := files[i];
      assert files[..i + 1][..i] == files[..i];
      var text := readText(fp);
      if text.None? {
        continue;
      }
      results := ScanLines(fp, SplitLines(text.value), q, limit, results, AllHits(files[..i], readText, q));
    }
    assert files[..|files|] == files;
  }

  /** The inner loop of `search_text` over the lines of one file, numbered from 1. */
  method ScanLines(fp: string, lines: seq<string>, q: string, limit: int, before: seq<Hit>, ghost base: seq<Hit>)
    returns (results: seq<Hit>)
    requires before == Take(base, Bound(limit)) && |before| < limit
    ensures results == Take(base + LineHits(fp, lines, q), Bound(limit))
  {
    results := before;
    for j := 0 to |lines|
      invariant results == Take(base + LineHits(fp, lines[..j], q), Bound(limit))
      invariant |results| < limit
    {
      var line := lines[j];
      assert lines[..j + 1][..j] == lines[..j];
      ghost var hit: seq<Hit> := if Contains(Lower(line), q) then [Hit(fp, j + 1, Take(line, 400))] else [];
      TakeAppend(base + LineHits(fp, lines[..j], q), hit, Bound(limit));
      assert base + LineHits(fp, lines[..j + 1], q) == (base + LineHits(fp, lines[..j], q)) + hit;
      if Contains(Lower(line), q) {
        results := results + [Hit(fp, j + 1, Take(line, 400))];
        if |results| >= limit {
          LineHitsPrefix(fp, lines, q, j + 1);
          TakeOfPrefix(base + LineHits(fp, lines[..j + 1], q), base + LineHits(fp, lines, q), Bound(limit));
          return;
        }
      }
    }
    assert lines[..|lines|] == lines;
  }

  // ---------------------------------------------------------------- search lemmas

  /** `s[:n]` of a concatenation. */
  lemma TakeAppend<T>(a: seq<T>, b: seq<T>, n: nat)
    ensures Take(a + b, n) == if |a| >= n then Take(a, n) else a + Take(b, n - |a|)
  {
    if |a| < n {
      assert (a + b)[..Min(n, |a + b|)] == a + b[..Min(n - |a|, |b|)];
    }
  }

  predicate IsPrefix<T(==)>(a: seq<T>, b: seq<T>) { |a| <= |b| && b[..|a|] == a }

  /** Cutting a longer sequence to `n` gives what cutting its prefix gives, once the prefix has `n` elements. */
  lemma TakeOfPrefix<T>(a: seq<T>, b: seq<T>, n: nat)
    requires IsPrefix(a, b) && |Take(a, n)| >= n
    ensures Take(b, n) == Take(a, n)
  {
    assert b[..n] == b[..|a|][..n];
  }

  /** The hits of the first lines come first. */
  lemma {:induction false} LineHitsPrefix(file: string, lines: seq<string>, q: string, j: nat)
    requires j <= |lines|
    ensures IsPrefix(LineHits(file, lines[..j], q), LineHits(file, lines, q))
    decreases |lines|
  {
    if j < |lines| {
      var init := lines[..|lines| - 1];
      LineHitsPrefix(file, init, q, j);
      assert init[..j] == lines[..j];
    } else {
      assert lines[..j] == lines;
    }
  }

  /** The hits of the first files come first. */
  lemma {:induction false} AllHitsPrefix(files: seq<string>, readText: string -> Option<string>, q: string, i: nat)
    requires i <= |files|
    ensures IsPrefix(AllHits(files[..i], readText, q), AllHits(files, readText, q))
    decreases |files|
  {
    if i < |files| {
      var init := files[..|files| - 1];
      AllHitsPrefix(init, readText, q, i);
      assert init[..i] == files[..i];
    } else {
      assert files[..i] == files;
    }
  }

  /** A hit names a readable file of the list, a line of it by its 1-based number, and that line cut to 400 characters, and the line contains the lower-cased query. */
  predicate Genuine(h: Hit, files: seq<string>, readText: string -> Option<string>, q: string) {
    && h.file in files
    && readText(h.file).Some?
    && var lines := SplitLines(readText(h.file).value);
       && 1 <= h.line <= |lines|
       && Contains(Lower(lines[h.line - 1]), q)
       && h.text == Take(lines[h.line - 1], 400)
  }

  lemma {:induction false} LineHitsGenuine(file: string, lines: seq<string>, q: string, h: Hit)
    requires h in LineHits(file, lines, q)
    ensures h.file == file && 1 <= h.line <= |lines|
    ensures Contains(Lower(lines[h.line - 1]), q) && h.text == Take(lines[h.line - 1], 400)
    decreases |lines|
  {
    var init := lines[..|lines| - 1];
    if h in LineHits(file, init, q) {
      LineHitsGenuine(file, init, q, h);
      assert init[h.line - 1] == lines[h.line - 1];
    }
  }

  /** Every hit is genuine. */
  lemma {:induction false} AllHitsGenuine(files: seq<string>, readText: string -> Option<string>, q: string, h: Hit)
    requires h in AllHits(files, readText, q)
    ensures Genuine(h, files, readText, q)
    decreases |files|
  {
    var init, file := files[..|files| - 1], files[|files| - 1];
    if h in AllHits(init, readText, q) {
      AllHitsGenuine(init, readText, q, h);
      var i :| 0 <= i < |init| && init[i] == h.file;
      assert files[i] == h.file;
    } else {
      LineHitsGenuine(file, SplitLines(readText(file).value), q, h);
    }
  }

  lemma {:induction false} LineHitsComplete(file: string, lines: seq<string>, q: string, n: nat)
    requires 1 <= n <= |lines| && Contains(Lower(lines[n - 1]), q)
    ensures Hit(file, n, Take(lines[n - 1], 400)) in LineHits(file, lines, q)
    decreases |lines|
  {
    if n < |lines| {
      var init := lines[..|lines| - 1];
      assert init[n - 1] == lines[n - 1];
      LineHitsComplete(file, init, q, n);
    }
  }

  /** Every line of a readable file of the list that contains the query is a hit. */
  lemma {:induction false} AllHitsComplete(files: seq<string>, readText: string -> Option<string>, q: string, i: nat, n: nat)
    requires i < |files| && readText(files[i]).Some?
    requires var lines := SplitLines(readText(files[i]).value);
             1 <= n <= |lines| && Contains(Lower(lines[n - 1]), q)
    ensures var lines := SplitLines(readText(files[i]).value);
            Hit(files[i], n, Take(lines[n - 1], 400)) in AllHits(files, readText, q)
    decreases |files|
  {
    var init := files[..|files| - 1];
    if i < |init| {
      assert init[i] == files[i];
      AllHitsComplete(init, readText, q, i, n);
    } else {
      LineHitsComplete(files[i], SplitLines(readText(files[i]).value), q, n);
    }
  }

  // ---------------------------------------------------------------- read and list lemmas

  /**
   * What `read_file` decodes, case by case: the whole file when it fits in a
   * non-negative cap; its first `cap` bytes and the marker when it does not;
   * the marker alone for a cap of -1, since `read(0)` returns nothing; for a
   * cap of -2, `read(-1)` reads to the end and `data[:-2]` drops the last two
   * bytes before the marker; below that, `read` raises ValueError.
   */
  lemma CappedBytesCases(content: seq<byte>, cap: int)
    ensures 0 <= cap && |content| <= cap ==> CappedBytes(content, cap) == Ok(content)
    ensures 0 <= cap < |content| ==> CappedBytes(content, cap) == Ok(content[..cap] + MarkerBytes)
    ensures cap == -1 ==> CappedBytes(content, cap) == Ok(MarkerBytes)
    ensures cap == -2 ==> CappedBytes(content, cap) == Ok(content[..Max(0, |content| - 2)] + MarkerBytes)
    ensures cap < -2 ==> CappedBytes(content, cap) == Err(ValueError(BadReadLength))
  {
    if 0 <= cap < |content| {
      assert content[..cap + 1][..cap] == content[..cap];
    } else if 0 <= cap {
      assert Read(content, cap + 1) == Ok(content[..|content|]);
      assert content[..|content|] == content;
    } else if cap == -1 {
      var none: seq<byte> := [];
      assert Read(content, 0) == Ok(none);
      assert PrefixTo(none, -1) == none;
      assert none + MarkerBytes == MarkerBytes;
      assert CappedBytes(content, cap) == Ok(PrefixTo(none, -1) + MarkerBytes);
    }
  }

  /** The marker's bytes spell the marker. */
  lemma MarkerBytesSpell()
    ensures |MarkerBytes| == |TruncationMarker|
    ensures forall i :: 0 <= i < |MarkerBytes| ==> MarkerBytes[i] as int == TruncationMarker[i] as int
  {
  }

  /** The listing key is a total preorder, so `sorted` orders every pair of entries. */
  lemma EntryLePreorder()
    ensures IsTotalPreorder(EntryLe)
  {
    forall a: Entry, b: Entry ensures EntryLe(a, b) || EntryLe(b, a) {
      StrLeTotal(Lower(a.name), Lower(b.name));
    }
    forall a: Entry, b: Entry, c: Entry | EntryLe(a, b) && EntryLe(b, c) ensures EntryLe(a, c) {
      if a.isFile == b.isFile && b.isFile == c.isFile {
        StrLeTrans(Lower(a.name), Lower(b.name), Lower(c.name));
      }
    }
  }

  /**
   * The listing order: the sorted entries are those of the directory, and
   * every non-file comes before every file, with names in lower-case order
   * inside each group.
   */
  lemma ListingOrder(entries: seq<Entry>)
    ensures multiset(SortBy(entries, EntryLe)) == multiset(entries)
    ensures var sorted := SortBy(entries, EntryLe);
            forall i, j :: 0 <= i < j < |sorted| ==>
              && (sorted[i].isFile ==> sorted[j].isFile)
              && (sorted[i].isFile == sorted[j].isFile ==> StrLe(Lower(sorted[i].name), Lower(sorted[j].name)))
  {
    EntryLePreorder();
    SortBySorted(entries, EntryLe);
  }
}
