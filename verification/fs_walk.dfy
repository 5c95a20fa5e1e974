/**
 * The file walk behind the repository text search: `os.walk` over a
 * directory tree, pruning the dependency and build directories, and keeping
 * the files whose name matches one of the patterns. The tree on disk is a
 * value; `fnmatch` is a parameter.
 */
module FsWalk {
  import opened Wrappers
  import opened Text

  /** A directory: its file names and its subdirectories, in listing order. */
  datatype Tree = Tree(files: seq<string>, subdirs: seq<Sub>)

  /** A named subdirectory. */
  datatype Sub = Sub(name: string, tree: Tree)

  /** The directory names the walk never enters. */
  const Pruned: set<string> := {"node_modules", ".git", ".next", "dist", "build"}

  /** The patterns used when no glob is given. */
  const DefaultPatterns: seq<string> :=
    ["*.js", "*.ts", "*.jsx", "*.tsx", "*.css", "*.scss", "*.html", "*.md", "*.json", "*.yml", "*.yaml"]

  /** `[glob] if glob else [...]`: an empty glob counts as none. */
  function Patterns(glob: Option<string>): (ps: seq<string>)
    ensures glob.Some? && glob.value != "" ==> ps == [glob.value]
    ensures glob.None? || glob.value == "" ==> ps == DefaultPatterns
  {
    if glob.Some? && glob.value != "" then [glob.value] else DefaultPatterns
  }

  /** `Path(dir) / name`: one separator between the two. */
  function Child(dir: string, name: string): string {
    if dir != [] && dir[|dir| - 1] == '/' then dir + name else dir + "/" + name
  }

  /** The path reached from `dir` by descending through the components of `c`. */
  function PathOf(dir: string, c: seq<string>): string
    decreases |c|
  {
    if c == [] then dir else PathOf(Child(dir, c[0]), c[1..])
  }

  /** The paths of several component lists. */
  function Paths(dir: string, cs: seq<seq<string>>): (ps: seq<string>)
    ensures |ps| == |cs| && forall k :: 0 <= k < |cs| ==> ps[k] == PathOf(dir, cs[k])
  {
    seq(|cs|, k requires 0 <= k < |cs| => PathOf(dir, cs[k]))
  }

  /** The component lists `cs`, each below the directory `name`. */
  function Under(name: string, cs: seq<seq<string>>): (r: seq<seq<string>>)
    ensures |r| == |cs| && forall k :: 0 <= k < |cs| ==> r[k] == [name] + cs[k]
  {
    seq(|cs|, k requires 0 <= k < |cs| => [name] + cs[k])
  }

  /** Some pattern matches the file name. */
  predicate AnyMatch(fn: string, patterns: seq<string>, fnmatch: (string, string) -> bool) {
    exists p :: 0 <= p < |patterns| && fnmatch(fn, patterns[p])
  }

  predicate NotPruned(s: Sub) { s.name !in Pruned }

  // ---------------------------------------------------------------- the walk

  /** The files of one directory that match, each once, as one-component lists. */
  function MatchedFiles(files: seq<string>, patterns: seq<string>, fnmatch: (string, string) -> bool): seq<seq<string>>
  {
    if files == [] then []
    else
      var fn := files[|files| - 1];
      MatchedFiles(files[..|files| - 1], patterns, fnmatch) + (if AnyMatch(fn, patterns, fnmatch) then [[fn]] else [])
  }

  /**
   * What the walk of `t` finds, relative to `t`: the directory's own matching
   * files, then the walks of the subdirectories it keeps, in order.
   */
  function Walk(t: Tree, patterns: seq<string>, fnmatch: (string, string) -> bool): seq<seq<string>>
    decreases t, 1
  {
    MatchedFiles(t.files, patterns, fnmatch) + WalkSubs(t, Filter(t.subdirs, NotPruned), patterns, fnmatch)
  }

  /** The walks of the subdirectories `subs` of `parent`, one after another. */
  function WalkSubs(ghost parent: Tree, subs: seq<Sub>, patterns: seq<string>, fnmatch: (string, string) -> bool): seq<seq<string>>
    requires forall k :: 0 <= k < |subs| ==> subs[k] in parent.subdirs
    decreases parent, 0, |subs|
  {
    if subs == [] then []
    else
      var last := subs[|subs| - 1];
      assert last in parent.subdirs;
      WalkSubs(parent, subs[..|subs| - 1], patterns, fnmatch) + Under(last.name, Walk(last.tree, patterns, fnmatch))
  }

  /** `_iter_files`: the paths of the matching files under `root`. */
  function IterFiles(root: string, t: Tree, glob: Option<string>, fnmatch: (string, string) -> bool): seq<string> {
    Paths(root, Walk(t, Patterns(glob), fnmatch))
  }

  /**
   * The walk from the directory `dir` with tree `t`: its matching files,
   * then the descent into the subdirectories left after pruning, as
   * `os.walk` yields them.
   */
  method WalkDir(dir: string, t: Tree, patterns: seq<string>, fnmatch: (string, string) -> bool) returns (found: seq<string>)
    ensures found == Paths(dir, Walk(t, patterns, fnmatch))
    decreases t
  {
    found := MatchFilesIn(dir, t.files, patterns, fnmatch);
    ghost var own := MatchedFiles(t.files, patterns, fnmatch);
    var kept := Filter(t.subdirs, NotPruned);
    for k := 0 to |kept|
      invariant found == Paths(dir, own + WalkSubs(t, kept[..k], patterns, fnmatch))
    {
      var below := WalkDir(Child(dir, kept[k].name), kept[k].tree, patterns, fnmatch);
      WalkDirStep(dir, t, own, kept, k, patterns, fnmatch);
      found := found + below;
    }
    assert kept[..|kept|] == kept;
  }

  /** The loop over one directory's file names, with the inner loop over the patterns. */
  method MatchFilesIn(dir: string, files: seq<string>, patterns: seq<string>, fnmatch: (string, string) -> bool)
    returns (found: seq<string>)
    ensures found == Paths(dir, MatchedFiles(files, patterns, fnmatch))
  {
    found := [];
    for i := 0 to |files|
      invariant found == Paths(dir, MatchedFiles(files[..i], patterns, fnmatch))
    {
      var fn := files[i];
      assert files[..i + 1][..i] == files[..i];
      ghost var before := found;
      var p := 0;
      while p < |patterns|
        invariant 0 <= p <= |patterns|
        invariant found == before
        invariant forall q :: 0 <= q < p ==> !fnmatch(fn, patterns[q])
      {
        if fnmatch(fn, patterns[p]) {
          found := found + [Child(dir, fn)];
          break;
        }
        p := p + 1;
      }
      ghost var step: seq<seq<string>> := if AnyMatch(fn, patterns, fnmatch) then [[fn]] else [];
      assert PathOf(dir, [fn]) == Child(dir, fn) by { assert [fn][1..] == []; }
      assert found == before + Paths(dir, step);
      PathsAppend(dir, MatchedFiles(files[..i], patterns, fnmatch), step);
    }
    assert files[..|files|] == files;
  }

  /** The walk method from the root, with the patterns `glob` selects. */
  method IterFilesWalk(root: string, t: Tree, glob: Option<string>, fnmatch: (string, string) -> bool) returns (found: seq<string>)
    ensures found == IterFiles(root, t, glob, fnmatch)
  {
    found := WalkDir(root, t, Patterns(glob), fnmatch);
  }

  /** The step of the loop over the kept subdirectories: the next one adds its own walk's paths. */
  lemma WalkDirStep(dir: string, t: Tree, own: seq<seq<string>>, kept: seq<Sub>, k: nat,
                    patterns: seq<string>, fnmatch: (string, string) -> bool)
    requires k < |kept| && forall j :: 0 <= j < |kept| ==> kept[j] in t.subdirs
    ensures Paths(dir, own + WalkSubs(t, kept[..k + 1], patterns, fnmatch))
         == Paths(dir, own + WalkSubs(t, kept[..k], patterns, fnmatch))
            + Paths(Child(dir, kept[k].name), Walk(kept[k].tree, patterns, fnmatch))
  {
    var a := WalkSubs(t, kept[..k], patterns, fnmatch);
    var u := Under(kept[k].name, Walk(kept[k].tree, patterns, fnmatch));
    WalkSubsSnoc(t, kept, k, patterns, fnmatch);
    assert own + WalkSubs(t, kept[..k + 1], patterns, fnmatch) == (own + a) + u;
    PathsAppend(dir, own + a, u);
    PathsUnder(dir, kept[k].name, Walk(kept[k].tree, patterns, fnmatch));
  }

  /** `WalkSubsStep` on a prefix of a list of subdirectories. */
  lemma WalkSubsSnoc(t: Tree, kept: seq<Sub>, k: nat, patterns: seq<string>, fnmatch: (string, string) -> bool)
    requires k < |kept| && forall j :: 0 <= j < |kept| ==> kept[j] in t.subdirs
    ensures WalkSubs(t, kept[..k + 1], patterns, fnmatch)
         == WalkSubs(t, kept[..k], patterns, fnmatch) + Under(kept[k].name, Walk(kept[k].tree, patterns, fnmatch))
  {
    WalkSubsStep(t, kept[..k + 1], patterns, fnmatch);
    assert kept[..k + 1][..k] == kept[..k];
  }

  /** One more subdirectory adds its walk, below its name. */
  lemma WalkSubsStep(parent: Tree, subs: seq<Sub>, patterns: seq<string>, fnmatch: (string, string) -> bool)
    requires subs != [] && forall k :: 0 <= k < |subs| ==> subs[k] in parent.subdirs
    ensures WalkSubs(parent, subs, patterns, fnmatch)
         == WalkSubs(parent, subs[..|subs| - 1], patterns, fnmatch)
            + Under(subs[|subs| - 1].name, Walk(subs[|subs| - 1].tree, patterns, fnmatch))
  {
  }

  // ---------------------------------------------------------------- paths

  lemma PathsAppend(dir: string, a: seq<seq<string>>, b: seq<seq<string>>)
    ensures Paths(dir, a + b) == Paths(dir, a) + Paths(dir, b)
  {
    assert forall k :: 0 <= k < |b| ==> (a + b)[|a| + k] == b[k];
  }

  /** Descending through `name` first is starting from the child directory. */
  lemma PathsUnder(dir: string, name: string, cs: seq<seq<string>>)
    ensures Paths(dir, Under(name, cs)) == Paths(Child(dir, name), cs)
  {
    forall k | 0 <= k < |cs| ensures PathOf(dir, [name] + cs[k]) == PathOf(Child(dir, name), cs[k]) {
      assert ([name] + cs[k])[1..] == cs[k];
    }
  }

  // ---------------------------------------------------------------- what the walk finds

  /** `c` names a file of `t`: directory names down to the file's own name. */
  predicate FileAt(t: Tree, c: seq<string>)
    decreases |c|
  {
    || (|c| == 1 && c[0] in t.files)
    || (|c| > 1 && exists s :: s in t.subdirs && s.name == c[0] && FileAt(s.tree, c[1..]))
  }

  /** No directory on the way to the file is one the walk prunes. */
  predicate Unpruned(c: seq<string>) {
    forall k :: 0 <= k < |c| - 1 ==> c[k] !in Pruned
  }

  /** A file the walk is meant to report: it exists, it is reached without entering a pruned directory, and its name matches. */
  predicate Reported(t: Tree, c: seq<string>, patterns: seq<string>, fnmatch: (string, string) -> bool) {
    && c != []
    && FileAt(t, c)
    && Unpruned(c)
    && AnyMatch(c[|c| - 1], patterns, fnmatch)
  }

  lemma {:induction false} MatchedFilesSound(files: seq<string>, patterns: seq<string>, fnmatch: (string, string) -> bool, c: seq<string>)
    requires c in MatchedFiles(files, patterns, fnmatch)
    ensures |c| == 1 && c[0] in files && AnyMatch(c[0], patterns, fnmatch)
    decreases |files|
  {
    var init := files[..|files| - 1];
    if c in MatchedFiles(init, patterns, fnmatch) {
      MatchedFilesSound(init, patterns, fnmatch, c);
      assert c[0] in init;
    }
  }

  lemma {:induction false} MatchedFilesComplete(files: seq<string>, patterns: seq<string>, fnmatch: (string, string) -> bool, fn: string)
    requires fn in files && AnyMatch(fn, patterns, fnmatch)
    ensures [fn] in MatchedFiles(files, patterns, fnmatch)
    decreases |files|
  {
    var init := files[..|files| - 1];
    if fn != files[|files| - 1] {
      assert fn in init by {
        var j :| 0 <= j < |files| && files[j] == fn;
        assert init[j] == fn;
      }
      MatchedFilesComplete(init, patterns, fnmatch, fn);
    }
  }

  /** Everything the walk finds is a file it is meant to report. */
  lemma {:induction false} WalkSound(t: Tree, patterns: seq<string>, fnmatch: (string, string) -> bool, c: seq<string>)
    requires c in Walk(t, patterns, fnmatch)
    ensures Reported(t, c, patterns, fnmatch)
    decreases t, 1
  {
    var kept := Filter(t.subdirs, NotPruned);
    if c in MatchedFiles(t.files, patterns, fnmatch) {
      MatchedFilesSound(t.files, patterns, fnmatch, c);
    } else {
      WalkSubsSound(t, kept, patterns, fnmatch, c);
    }
  }

  lemma {:induction false} WalkSubsSound(parent: Tree, subs: seq<Sub>, patterns: seq<string>, fnmatch: (string, string) -> bool, c: seq<string>)
    requires forall k :: 0 <= k < |subs| ==> subs[k] in parent.subdirs && NotPruned(subs[k])
    requires c in WalkSubs(parent, subs, patterns, fnmatch)
    ensures Reported(parent, c, patterns, fnmatch)
    decreases parent, 0, |subs|
  {
    var init, last := subs[..|subs| - 1], subs[|subs| - 1];
    WalkSubsStep(parent, subs, patterns, fnmatch);
    if c in WalkSubs(parent, init, patterns, fnmatch) {
      WalkSubsSound(parent, init, patterns, fnmatch, c);
    } else {
      var w := Walk(last.tree, patterns, fnmatch);
      var j :| 0 <= j < |w| && Under(last.name, w)[j] == c;
      WalkSound(last.tree, patterns, fnmatch, w[j]);
      ReportedBelow(parent, last, patterns, fnmatch, w[j]);
    }
  }

  /** A reported file of a kept subdirectory is a reported file of its parent. */
  lemma ReportedBelow(parent: Tree, sub: Sub, patterns: seq<string>, fnmatch: (string, string) -> bool, rest: seq<string>)
    requires sub in parent.subdirs && NotPruned(sub) && Reported(sub.tree, rest, patterns, fnmatch)
    ensures Reported(parent, [sub.name] + rest, patterns, fnmatch)
  {
    var c := [sub.name] + rest;
    assert c[1..] == rest;
    assert FileAt(parent, c);
    assert Unpruned(c) by {
      forall k | 0 <= k < |c| - 1 ensures c[k] !in Pruned {
        if k > 0 { assert c[k] == rest[k - 1]; }
      }
    }
  }

  /** `Filter` keeps every element that passes. */
  lemma {:induction false} FilterKeeps<T>(s: seq<T>, p: T -> bool, x: T)
    requires x in s && p(x)
    ensures x in Filter(s, p)
    decreases |s|
  {
    if x != s[|s| - 1] {
      var j :| 0 <= j < |s| && s[j] == x;
      assert s[..|s| - 1][j] == x;
      FilterKeeps(s[..|s| - 1], p, x);
    }
  }

  /** A file found below a listed subdirectory is found by the walk of the list. */
  lemma {:induction false} WalkSubsHas(parent: Tree, subs: seq<Sub>, j: nat, patterns: seq<string>, fnmatch: (string, string) -> bool, rest: seq<string>)
    requires forall k :: 0 <= k < |subs| ==> subs[k] in parent.subdirs
    requires j < |subs| && rest in Walk(subs[j].tree, patterns, fnmatch)
    ensures [subs[j].name] + rest in WalkSubs(parent, subs, patterns, fnmatch)
    decreases |subs|
  {
    var init, last := subs[..|subs| - 1], subs[|subs| - 1];
    WalkSubsStep(parent, subs, patterns, fnmatch);
    if j < |init| {
      assert init[j] == subs[j];
      WalkSubsHas(parent, init, j, patterns, fnmatch, rest);
    } else {
      var w := Walk(last.tree, patterns, fnmatch);
      var i :| 0 <= i < |w| && w[i] == rest;
      assert Under(last.name, w)[i] == [last.name] + rest;
    }
  }

  /** Every file the walk is meant to report is found. */
  lemma {:induction false} WalkComplete(t: Tree, patterns: seq<string>, fnmatch: (string, string) -> bool, c: seq<string>)
    requires Reported(t, c, patterns, fnmatch)
    ensures c in Walk(t, patterns, fnmatch)
    decreases |c|
  {
    if |c| == 1 {
      MatchedFilesComplete(t.files, patterns, fnmatch, c[0]);
      assert c == [c[0]];
    } else {
      var rest := c[1..];
      assert c == [c[0]] + rest;
      var s :| s in t.subdirs && s.name == c[0] && FileAt(s.tree, rest);
      assert Unpruned(rest) by {
        forall k | 0 <= k < |rest| - 1 ensures rest[k] !in Pruned { assert rest[k] == c[k + 1]; }
      }
      assert rest[|rest| - 1] == c[|c| - 1];
      WalkComplete(s.tree, patterns, fnmatch, rest);
      var kept := Filter(t.subdirs, NotPruned);
      FilterKeeps(t.subdirs, NotPruned, s);
      var j :| 0 <= j < |kept| && kept[j] == s;
      WalkSubsHas(t, kept, j, patterns, fnmatch, rest);
    }
  }

  /** The walk finds exactly the files it is meant to report. */
  lemma WalkExact(t: Tree, patterns: seq<string>, fnmatch: (string, string) -> bool, c: seq<string>)
    ensures c in Walk(t, patterns, fnmatch) <==> Reported(t, c, patterns, fnmatch)
  {
    if c in Walk(t, patterns, fnmatch) {
      WalkSound(t, patterns, fnmatch, c);
    }
    if Reported(t, c, patterns, fnmatch) {
      WalkComplete(t, patterns, fnmatch, c);
    }
  }

  // ---------------------------------------------------------------- each file once

  /** No value occurs twice. */
  predicate Distinct<T(==)>(s: seq<T>) {
    forall i, j :: 0 <= i < j < |s| ==> s[i] != s[j]
  }

  function NameOf(s: Sub): string { s.name }

  /** No two elements share a key. */
  predicate DistinctKeys<T, K(==)>(s: seq<T>, key: T -> K) {
    forall i, j :: 0 <= i < j < |s| ==> key(s[i]) != key(s[j])
  }

  /** Within every directory of the tree, file names and subdirectory names do not repeat. */
  predicate WellNamed(t: Tree)
    decreases t
  {
    && Distinct(t.files)
    && DistinctKeys(t.subdirs, NameOf)
    && forall s :: s in t.subdirs ==> WellNamed(s.tree)
  }

  lemma DistinctAppend<T>(a: seq<T>, b: seq<T>)
    requires Distinct(a) && Distinct(b) && forall x :: x in a ==> x !in b
    ensures Distinct(a + b)
  {
    forall i, j | 0 <= i < j < |a + b| ensures (a + b)[i] != (a + b)[j] {
      if i < |a| && j >= |a| {
        assert (a + b)[i] in a && (a + b)[j] == b[j - |a|];
      }
    }
  }

  lemma {:induction false} FilterDistinctKeys<T, K>(s: seq<T>, p: T -> bool, key: T -> K)
    requires DistinctKeys(s, key)
    ensures DistinctKeys(Filter(s, p), key)
    decreases |s|
  {
    if s != [] {
      var init, last := s[..|s| - 1], s[|s| - 1];
      FilterDistinctKeys(init, p, key);
      var r := Filter(init, p);
      forall k | 0 <= k < |r| ensures key(r[k]) != key(last) {
        var i :| 0 <= i < |init| && init[i] == r[k];
        assert s[i] == r[k];
      }
    }
  }

  lemma {:induction false} MatchedFilesDistinct(files: seq<string>, patterns: seq<string>, fnmatch: (string, string) -> bool)
    requires Distinct(files)
    ensures Distinct(MatchedFiles(files, patterns, fnmatch))
    decreases |files|
  {
    if files != [] {
      var init, fn := files[..|files| - 1], files[|files| - 1];
      MatchedFilesDistinct(init, patterns, fnmatch);
      forall c | c in MatchedFiles(init, patterns, fnmatch) ensures c != [fn] {
        MatchedFilesSound(init, patterns, fnmatch, c);
        var i :| 0 <= i < |init| && init[i] == c[0];
        assert files[i] == c[0];
      }
      DistinctAppend(MatchedFiles(init, patterns, fnmatch), if AnyMatch(fn, patterns, fnmatch) then [[fn]] else []);
    }
  }

  /** What the walk of a list of subdirectories finds starts with one of their names and goes one level down. */
  lemma {:induction false} WalkSubsHeads(parent: Tree, subs: seq<Sub>, patterns: seq<string>, fnmatch: (string, string) -> bool, c: seq<string>)
    requires forall k :: 0 <= k < |subs| ==> subs[k] in parent.subdirs
    requires c in WalkSubs(parent, subs, patterns, fnmatch)
    ensures |c| >= 2 && exists k :: 0 <= k < |subs| && c[0] == subs[k].name
    decreases |subs|
  {
    var init, last := subs[..|subs| - 1], subs[|subs| - 1];
    WalkSubsStep(parent, subs, patterns, fnmatch);
    if c in WalkSubs(parent, init, patterns, fnmatch) {
      WalkSubsHeads(parent, init, patterns, fnmatch, c);
      var k :| 0 <= k < |init| && c[0] == init[k].name;
      assert subs[k] == init[k];
    } else {
      var w := Walk(last.tree, patterns, fnmatch);
      var j :| 0 <= j < |w| && Under(last.name, w)[j] == c;
      WalkSound(last.tree, patterns, fnmatch, w[j]);
      assert c[0] == subs[|subs| - 1].name;
    }
  }

  /** Prefixing one name keeps component lists apart. */
  lemma UnderDistinct(name: string, cs: seq<seq<string>>)
    requires Distinct(cs)
    ensures Distinct(Under(name, cs))
  {
    forall i, j | 0 <= i < j < |cs| ensures Under(name, cs)[i] != Under(name, cs)[j] {
      assert Under(name, cs)[i][1..] == cs[i];
      assert Under(name, cs)[j][1..] == cs[j];
    }
  }

  /** In a tree with unique names per directory, the walk reports each file once. */
  lemma {:induction false} WalkDistinct(t: Tree, patterns: seq<string>, fnmatch: (string, string) -> bool)
    requires WellNamed(t)
    ensures Distinct(Walk(t, patterns, fnmatch))
    decreases t, 1
  {
    var kept := Filter(t.subdirs, NotPruned);
    MatchedFilesDistinct(t.files, patterns, fnmatch);
    FilterDistinctKeys(t.subdirs, NotPruned, NameOf);
    WalkSubsDistinct(t, kept, patterns, fnmatch);
    forall c | c in MatchedFiles(t.files, patterns, fnmatch) ensures c !in WalkSubs(t, kept, patterns, fnmatch) {
      MatchedFilesSound(t.files, patterns, fnmatch, c);
      if c in WalkSubs(t, kept, patterns, fnmatch) {
        WalkSubsHeads(t, kept, patterns, fnmatch, c);
      }
    }
    DistinctAppend(MatchedFiles(t.files, patterns, fnmatch), WalkSubs(t, kept, patterns, fnmatch));
  }

  lemma {:induction false} WalkSubsDistinct(parent: Tree, subs: seq<Sub>, patterns: seq<string>, fnmatch: (string, string) -> bool)
    requires WellNamed(parent)
    requires forall k :: 0 <= k < |subs| ==> subs[k] in parent.subdirs
    requires DistinctKeys(subs, NameOf)
    ensures Distinct(WalkSubs(parent, subs, patterns, fnmatch))
    decreases parent, 0, |subs|
  {
    if subs != [] {
      var init, last := subs[..|subs| - 1], subs[|subs| - 1];
      WalkSubsStep(parent, subs, patterns, fnmatch);
      WalkSubsDistinct(parent, init, patterns, fnmatch);
      var w := Walk(last.tree, patterns, fnmatch);
      WalkDistinct(last.tree, patterns, fnmatch);
      UnderDistinct(last.name, w);
      forall c | c in WalkSubs(parent, init, patterns, fnmatch) ensures c !in Under(last.name, w) {
        WalkSubsHeads(parent, init, patterns, fnmatch, c);
        var k :| 0 <= k < |init| && c[0] == init[k].name;
        assert NameOf(subs[k]) != NameOf(subs[|subs| - 1]);
      }
      DistinctAppend(WalkSubs(parent, init, patterns, fnmatch), Under(last.name, w));
    }
  }
}
