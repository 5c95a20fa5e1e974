/**
 * The repository git tools: each checks that the root is an allowed
 * directory, runs one git command there, and returns its output, cut short
 * for diffs and greps. Running git is a parameter: it maps the root and the
 * arguments to the finished process.
 */
module GitTools {
  import opened Wrappers
  import opened Text
  import opened Security
  import opened RepoConfig

  /** A finished git process. */
  datatype Proc = Proc(returncode: int, stdout: string, stderr: string)

  /** What the tools need of the host: path resolution, what a path names, and git. */
  datatype Host = Host(
    resolve: string -> string,
    kind: string -> Option<FileKind>,
    git: (string, seq<string>) -> Proc)

  // ---------------------------------------------------------------- _run_git

  /** The failure message: the command, then the trimmed error output, or the trimmed output when that is empty. */
  function FailureMessage(args: seq<string>, p: Proc): (m: string)
    ensures StartsWith(m, "git " + Join(" ", args) + " failed: ")
    ensures Strip(p.stderr) != "" ==> EndsWith(m, Strip(p.stderr))
    ensures Strip(p.stderr) == "" ==> EndsWith(m, Strip(p.stdout))
  {
    var stderr := Strip(p.stderr);
    var stdout := Strip(p.stdout);
    var prefix := "git " + Join(" ", args) + " failed: ";
    var detail := if stderr != "" then stderr else stdout;
    assert (prefix + detail)[..|prefix|] == prefix;
    assert (prefix + detail)[|prefix + detail| - |detail|..] == detail;
    prefix + detail
  }

  /** `_run_git`: the output of a successful run; a non-zero exit raises. */
  function RunGit(root: string, args: seq<string>, git: (string, seq<string>) -> Proc): (r: Result<string, Raised>)
    ensures r.Ok? <==> git(root, args).returncode == 0
    ensures r.Ok? ==> r.value == git(root, args).stdout
    ensures r.Err? ==> r.error == RuntimeError(FailureMessage(args, git(root, args)))
  {
    var p := git(root, args);
    if p.returncode != 0 then Err(RuntimeError(FailureMessage(args, p))) else Ok(p.stdout)
  }

  /** The directory guard, then one git command in the resolved root. */
  function GuardedGit(settings: Settings, root: string, args: seq<string>, host: Host): (r: Result<string, Raised>)
    ensures CheckedDir(root, settings.allowedRoots, host.resolve, host.kind).Err? ==>
              r == CheckedDir(root, settings.allowedRoots, host.resolve, host.kind)
    ensures CheckedDir(root, settings.allowedRoots, host.resolve, host.kind).Ok? ==>
              r == RunGit(host.resolve(root), args, host.git)
  {
    match CheckedDir(root, settings.allowedRoots, host.resolve, host.kind)
    case Err(e) => Err(e)
    case Ok(rp) => RunGit(rp, args, host.git)
  }

  // ---------------------------------------------------------------- git_status and git_log

  const StatusArgs: seq<string> := ["status", "--porcelain=v1", "--branch"]

  /** `git_status`. */
  function GitStatus(settings: Settings, root: string, host: Host): (r: Result<string, Raised>)
    ensures r.Ok? <==> CheckedDir(root, settings.allowedRoots, host.resolve, host.kind).Ok?
                       && host.git(host.resolve(root), StatusArgs).returncode == 0
    ensures r.Ok? ==> r.value == host.git(host.resolve(root), StatusArgs).stdout
    ensures r.Err? && CheckedDir(root, settings.allowedRoots, host.resolve, host.kind).Ok? ==>
              r.error == RuntimeError(FailureMessage(StatusArgs, host.git(host.resolve(root), StatusArgs)))
  {
    GuardedGit(settings, root, StatusArgs, host)
  }

  /** The arguments of `git_log`: the count glued to "-n". */
  function LogArgs(maxCount: int): (args: seq<string>)
    ensures |args| == 4 && args[0] == "log" && args[2] == "--oneline" && args[3] == "--decorate"
    ensures |args[1]| >= 3 && args[1][..2] == "-n" && ParseInt(args[1][2..]) == Some(maxCount)
  {
    var count := IntToString(maxCount);
    ParseIntToString(maxCount);
    assert ("-n" + count)[2..] == count;
    ["log", "-n" + count, "--oneline", "--decorate"]
  }

  /** `git_log`. */
  function GitLog(settings: Settings, root: string, maxCount: int, host: Host): (r: Result<string, Raised>)
    ensures r.Ok? <==> CheckedDir(root, settings.allowedRoots, host.resolve, host.kind).Ok?
                       && host.git(host.resolve(root), LogArgs(maxCount)).returncode == 0
    ensures r.Ok? ==> r.value == host.git(host.resolve(root), LogArgs(maxCount)).stdout
    ensures r.Err? && CheckedDir(root, settings.allowedRoots, host.resolve, host.kind).Ok? ==>
              r.error == RuntimeError(FailureMessage(LogArgs(maxCount), host.git(host.resolve(root), LogArgs(maxCount))))
  {
    GuardedGit(settings, root, LogArgs(maxCount), host)
  }

  // ---------------------------------------------------------------- git_diff

  /** A path argument counts when it is present and not empty. */
  function PathArg(path: Option<string>): Option<string> {
    if path.Some? && path.value != "" then path else None
  }

  /** The arguments of `git_diff`, appended one after another. */
  method DiffArgs(staged: bool, path: Option<string>) returns (args: seq<string>)
    ensures args == DiffArgsOf(staged, path)
  {
    args := ["diff"];
    if staged {
      args := args + ["--staged"];
    }
    if path.Some? && path.value != "" {
      args := args + ["--", path.value];
    }
  }

  /** "diff", then "--staged" when staged, then "--" and the path when a path is given. */
  function DiffArgsOf(staged: bool, path: Option<string>): (args: seq<string>)
    ensures args != [] && args[0] == "diff"
    ensures |args| == 1 + (if staged then 1 else 0) + (if PathArg(path).Some? then 2 else 0)
  {
    ["diff"] + (if staged then ["--staged"] else []) + (if PathArg(path).Some? then ["--", path.value] else [])
  }

  /** Reads the options back from the arguments. */
  function ParseDiffArgs(args: seq<string>): (bool, Option<string>) {
    var staged := |args| >= 2 && args[1] == "--staged";
    var rest := if staged then args[2..] else if args != [] then args[1..] else [];
    (staged, if |rest| == 2 && rest[0] == "--" then Some(rest[1]) else None)
  }

  /** The arguments say exactly which options were given: parsing them back recovers the options. */
  lemma DiffArgsRoundTrip(staged: bool, path: Option<string>)
    ensures ParseDiffArgs(DiffArgsOf(staged, path)) == (staged, PathArg(path))
  {
  }

  /** UTF-8 encoding width of one character. */
  function Utf8Width(c: char): (w: nat)
    ensures 1 <= w <= 4
  {
    if c as int < 0x80 then 1 else if c as int < 0x800 then 2 else if c as int < 0x10000 then 3 else 4
  }

  /** `len(s.encode("utf-8"))`. */
  function Utf8Len(s: string): (n: nat)
    ensures |s| <= n <= 4 * |s|
  {
    if s == [] then 0 else Utf8Width(s[0]) + Utf8Len(s[1..])
  }

  /** The longest prefix of `s` whose encoding fits in `cap` bytes. */
  function Utf8Prefix(s: string, cap: int): (p: string)
    ensures IsPrefixOf(p, s)
    ensures Utf8Len(p) <= Max(0, cap)
    ensures |p| < |s| ==> Utf8Len(p) + Utf8Width(s[|p|]) > cap
  {
    if s == [] || Utf8Width(s[0]) > cap then []
    else
      var rest := Utf8Prefix(s[1..], cap - Utf8Width(s[0]));
      assert s == [s[0]] + s[1..];
      [s[0]] + rest
  }

  predicate IsPrefixOf(p: string, s: string) { |p| <= |s| && s[..|p|] == p }

  /**
   * The cut of `git_diff` as written: the test counts the bytes of the
   * output, but the cut keeps `cap` characters (Python's `out[:cap]`, which
   * drops the last `-cap` characters when `cap` is negative).
   */
  function DiffCutAsWritten(out: string, cap: int): (r: string)
    ensures Utf8Len(out) <= cap ==> r == out
    ensures 0 <= cap < Utf8Len(out) ==> r == out[..Min(cap, |out|)] + TruncationMarker
    ensures cap < 0 ==> r == out[..Max(0, |out| + cap)] + TruncationMarker
  {
    if Utf8Len(out) > cap then PrefixTo(out, cap) + TruncationMarker else out
  }

  /**
   * The cut of `git_diff` with the byte count the cap means: the longest
   * prefix within `cap` bytes. A negative cap keeps Python's slice, as
   * written.
   */
  function DiffCut(out: string, cap: int): (r: string)
    ensures Utf8Len(out) <= cap ==> r == out
    ensures 0 <= cap < Utf8Len(out) ==>
              && |r| >= |TruncationMarker|
              && r[|r| - |TruncationMarker|..] == TruncationMarker
              && var kept := r[..|r| - |TruncationMarker|];
              && IsPrefixOf(kept, out)
              && Utf8Len(kept) <= cap
              && (|kept| < |out| ==> Utf8Len(kept) + Utf8Width(out[|kept|]) > cap)
    ensures cap < 0 ==> r == DiffCutAsWritten(out, cap)
  {
    if Utf8Len(out) > cap then
      var kept := if cap < 0 then PrefixTo(out, cap) else Utf8Prefix(out, cap);
      var r := kept + TruncationMarker;
      assert r[..|kept|] == kept;
      assert r[|kept|..] == TruncationMarker;
      r
    else out
  }

  /** `git_diff`: the guard, the arguments, git, and the cut at the cap. */
  method GitDiff(settings: Settings, root: string, staged: bool, path: Option<string>, maxBytes: Option<int>, host: Host)
    returns (r: Result<string, Raised>)
    ensures r.Err? <==> GuardedGit(settings, root, DiffArgsOf(staged, path), host).Err?
    ensures r.Err? ==> r == GuardedGit(settings, root, DiffArgsOf(staged, path), host)
    ensures r.Ok? ==> r.value == DiffCut(GuardedGit(settings, root, DiffArgsOf(staged, path), host).value,
                                          maxBytes.GetOr(settings.maxDiffBytes))
  {
    var checked := CheckedDir(root, settings.allowedRoots, host.resolve, host.kind);
    if checked.Err? {
      return Err(checked.error);
    }
    var args := DiffArgs(staged, path);
    var out := RunGit(checked.value, args, host.git);
    if out.Err? {
      return Err(out.error);
    }
    var cap := if maxBytes.Some? then maxBytes.value else settings.maxDiffBytes;
    return Ok(DiffCut(out.value, cap));
  }

  /** The two cuts agree on ASCII output, one byte per character, whatever the cap. */
  lemma {:induction false} AsciiCutsAgree(out: string, cap: int)
    requires forall i :: 0 <= i < |out| ==> out[i] as int < 0x80
    ensures DiffCut(out, cap) == DiffCutAsWritten(out, cap)
  {
    AsciiLen(out);
    if 0 <= cap < |out| {
      AsciiPrefix(out, cap);
    }
  }

  lemma {:induction false} AsciiLen(s: string)
    requires forall i :: 0 <= i < |s| ==> s[i] as int < 0x80
    ensures Utf8Len(s) == |s|
    decreases |s|
  {
    if s != [] {
      AsciiLen(s[1..]);
    }
  }

  lemma {:induction false} AsciiPrefix(s: string, cap: nat)
    requires forall i :: 0 <= i < |s| ==> s[i] as int < 0x80
    ensures Utf8Prefix(s, cap) == s[..Min(cap, |s|)]
    decreases |s|
  {
    if s != [] && cap > 0 {
      var tail := s[1..];
      assert forall i :: 0 <= i < |tail| ==> tail[i] as int < 0x80 by {
        forall i | 0 <= i < |tail| ensures tail[i] as int < 0x80 { assert tail[i] == s[i + 1]; }
      }
      AsciiPrefix(tail, cap - 1);
      AsciiPrefixStep(s, cap);
    }
  }

  /** One more one-byte character: both prefixes grow by it. */
  lemma AsciiPrefixStep(s: string, cap: nat)
    requires s != [] && cap > 0 && s[0] as int < 0x80
    requires Utf8Prefix(s[1..], cap - 1) == s[1..][..Min(cap - 1, |s| - 1)]
    ensures Utf8Prefix(s, cap) == s[..Min(cap, |s|)]
  {
    PrefixCons(s, cap);
    Utf8PrefixCons(s, cap);
  }

  /** A prefix of positive length starts with the first element. */
  lemma PrefixCons<T>(s: seq<T>, n: nat)
    requires s != [] && n > 0
    ensures s[..Min(n, |s|)] == [s[0]] + s[1..][..Min(n - 1, |s| - 1)]
  {
  }

  /** The fitting prefix of a text whose first character is one byte wide and fits. */
  lemma Utf8PrefixCons(s: string, cap: nat)
    requires s != [] && cap > 0 && s[0] as int < 0x80
    ensures Utf8Prefix(s, cap) == [s[0]] + Utf8Prefix(s[1..], cap - 1)
  {
  }

  /**
   * The cut as written can keep more bytes than the cap and can mark an
   * output as truncated while keeping all of it: "éé" is 4 bytes, over a
   * cap of 2, yet its first 2 characters are the whole text.
   */
  lemma CutAsWrittenOverCap()
    ensures Utf8Len("éé") == 4
    ensures DiffCutAsWritten("éé", 2) == "éé" + TruncationMarker
    ensures DiffCut("éé", 2) == "é" + TruncationMarker
  {
    assert Utf8Len("é") == 2;
    assert "éé"[1..] == "é";
    assert Utf8Prefix("é", 0) == [];
    assert Utf8Prefix("éé", 2) == "é";
  }

  /** A negative cap drops characters from the end, as written: "abc" with a cap of -1 keeps "ab". */
  lemma NegativeCapSlices()
    ensures DiffCutAsWritten("abc", -1) == "ab" + TruncationMarker
    ensures DiffCut("abc", -1) == "ab" + TruncationMarker
  {
  }

  // ---------------------------------------------------------------- git_grep

  const TruncatedLine := "[TRUNCATED]"

  /** The line cut of `git_grep`: more than `maxResults` lines become the first ones and a marker line. */
  function GrepCut(lines: seq<string>, maxResults: int): (r: seq<string>)
    ensures |lines| <= maxResults ==> r == lines
    ensures 0 <= maxResults < |lines| ==> r == lines[..maxResults] + [TruncatedLine]
    ensures maxResults < 0 ==> r == lines[..Max(0, |lines| + maxResults)] + [TruncatedLine]
    ensures maxResults >= 0 ==> |r| <= maxResults + 1
  {
    if |lines| > maxResults then PrefixTo(lines, maxResults) + [TruncatedLine] else lines
  }

  /** `git_grep`: the guard, git, and the lines of the output cut and joined by "\n". */
  function GitGrep(settings: Settings, root: string, pattern: string, maxResults: int, host: Host): (r: Result<string, Raised>)
    ensures r.Err? <==> GuardedGit(settings, root, GrepArgs(pattern), host).Err?
    ensures r.Err? ==> r == GuardedGit(settings, root, GrepArgs(pattern), host)
    ensures r.Ok? ==> r.value == Join("\n", GrepCut(SplitLines(GuardedGit(settings, root, GrepArgs(pattern), host).value), maxResults))
  {
    match GuardedGit(settings, root, GrepArgs(pattern), host)
    case Err(e) => Err(e)
    case Ok(out) => Ok(Join("\n", GrepCut(SplitLines(out), maxResults)))
  }

  function GrepArgs(pattern: string): seq<string> { ["grep", "-n", "--no-color", pattern] }

  /**
   * A cut grep result splits back into its kept lines and the marker line:
   * the caller sees at most `maxResults` matches and then "[TRUNCATED]".
   */
  lemma GrepOutputLines(out: string, maxResults: int)
    requires maxResults < |SplitLines(out)|
    ensures var kept := GrepCut(SplitLines(out), maxResults);
            SplitLines(Join("\n", kept)) == kept
  {
    var lines := SplitLines(out);
    CutHasNoBreaks(lines, maxResults);
    JoinSplitLines(GrepCut(lines, maxResults));
  }

  /** Cutting lines without line breaks, and adding the marker line, adds no line break. */
  lemma CutHasNoBreaks(lines: seq<string>, maxResults: int)
    requires forall k :: 0 <= k < |lines| ==> All(lines[k], NotLineBreak)
    ensures var kept := GrepCut(lines, maxResults);
            forall k :: 0 <= k < |kept| ==> All(kept[k], NotLineBreak)
  {
    if |lines| > maxResults {
      var head := PrefixTo(lines, maxResults);
      var kept := head + [TruncatedLine];
      assert All(TruncatedLine, NotLineBreak);
      forall k | 0 <= k < |kept|
        ensures All(kept[k], NotLineBreak)
      {
        if k < |head| {
          assert kept[k] == lines[k];
        }
      }
    }
  }
}
