/**
 * The repository tools' path guard: a requested path is resolved and must
 * lie inside one of the allowed roots, and the tools then check that it
 * names a directory or a regular file. Path resolution (`expanduser`,
 * `resolve`) and the file-system queries are parameters of the model.
 */
module Security {
  import opened Wrappers
  import opened Text

  /** The exceptions the repository tools raise, with their messages. */
  datatype Raised =
    | PathDenied(message: string)
    | FileNotFound(message: string)
    | RuntimeError(message: string)
    | ValueError(message: string)

  /** What a path names on disk, when it exists. */
  datatype FileKind = RegularFile | Directory | OtherKind

  /**
   * The containment test for one root: the path is the root itself, or its
   * text continues the root's text with a "/".
   */
  predicate Within(rp: string, root: string) {
    rp == root || StartsWith(rp, root + "/")
  }

  /** `[r.resolve() for r in allowed_roots]`. */
  function ResolvedRoots(roots: seq<string>, resolve: string -> string): (r: seq<string>)
    ensures |r| == |roots| && forall i :: 0 <= i < |roots| ==> r[i] == resolve(roots[i])
  {
    seq(|roots|, i requires 0 <= i < |roots| => resolve(roots[i]))
  }

  /** The loop over the resolved roots: does any of them contain `rp`? */
  predicate UnderAny(rp: string, roots: seq<string>)
    ensures UnderAny(rp, roots) <==> exists i :: 0 <= i < |roots| && Within(rp, roots[i])
  {
    if roots == [] then false
    else
      assert forall i :: 1 <= i < |roots| ==> roots[i] == roots[1..][i - 1];
      Within(rp, roots[0]) || UnderAny(rp, roots[1..])
  }

  /**
   * `resolve_and_check`: the resolved path when some resolved allowed root
   * contains it, `PathDenied` naming the resolved path otherwise.
   */
  function ResolveAndCheck(path: string, allowedRoots: seq<string>, resolve: string -> string): (r: Result<string, Raised>)
    ensures r.Ok? <==> exists i :: 0 <= i < |allowedRoots| && Within(resolve(path), resolve(allowedRoots[i]))
    ensures r.Ok? ==> r.value == resolve(path)
    ensures r.Err? ==> r.error == PathDenied("Path is outside allowed roots: " + resolve(path))
  {
    var rp := resolve(path);
    var roots := ResolvedRoots(allowedRoots, resolve);
    assert forall i :: 0 <= i < |allowedRoots| ==> roots[i] == resolve(allowedRoots[i]);
    if UnderAny(rp, roots) then Ok(rp) else Err(PathDenied("Path is outside allowed roots: " + rp))
  }

  /** `ensure_is_dir`: the path must exist and be a directory. */
  function EnsureIsDir(p: string, kind: string -> Option<FileKind>): (r: Result<(), Raised>)
    ensures r.Ok? <==> kind(p) == Some(Directory)
    ensures r.Err? ==> r.error == FileNotFound("Directory not found: " + p)
  {
    if kind(p).None? || kind(p).value != Directory then Err(FileNotFound("Directory not found: " + p)) else Ok(())
  }

  /** `ensure_is_file`: the path must exist and be a regular file. */
  function EnsureIsFile(p: string, kind: string -> Option<FileKind>): (r: Result<(), Raised>)
    ensures r.Ok? <==> kind(p) == Some(RegularFile)
    ensures r.Err? ==> r.error == FileNotFound("File not found: " + p)
  {
    if kind(p).None? || kind(p).value != RegularFile then Err(FileNotFound("File not found: " + p)) else Ok(())
  }

  /** `resolve_and_check` followed by `ensure_is_dir`, the guard of the tools that take a directory. */
  function CheckedDir(path: string, allowedRoots: seq<string>, resolve: string -> string, kind: string -> Option<FileKind>)
    : (r: Result<string, Raised>)
    ensures r.Ok? <==> ResolveAndCheck(path, allowedRoots, resolve).Ok? && kind(resolve(path)) == Some(Directory)
    ensures r.Ok? ==> r.value == resolve(path)
    ensures ResolveAndCheck(path, allowedRoots, resolve).Err? ==> r == ResolveAndCheck(path, allowedRoots, resolve)
    ensures ResolveAndCheck(path, allowedRoots, resolve).Ok? && r.Err? ==> r.error == FileNotFound("Directory not found: " + resolve(path))
  {
    match ResolveAndCheck(path, allowedRoots, resolve)
    case Err(e) => Err(e)
    case Ok(rp) =>
      match EnsureIsDir(rp, kind)
      case Err(e) => Err(e)
      case Ok(_) => Ok(rp)
  }

  /** `resolve_and_check` followed by `ensure_is_file`, the guard of `read_file`. */
  function CheckedFile(path: string, allowedRoots: seq<string>, resolve: string -> string, kind: string -> Option<FileKind>)
    : (r: Result<string, Raised>)
    ensures r.Ok? <==> ResolveAndCheck(path, allowedRoots, resolve).Ok? && kind(resolve(path)) == Some(RegularFile)
    ensures r.Ok? ==> r.value == resolve(path)
    ensures ResolveAndCheck(path, allowedRoots, resolve).Err? ==> r == ResolveAndCheck(path, allowedRoots, resolve)
    ensures ResolveAndCheck(path, allowedRoots, resolve).Ok? && r.Err? ==> r.error == FileNotFound("File not found: " + resolve(path))
  {
    match ResolveAndCheck(path, allowedRoots, resolve)
    case Err(e) => Err(e)
    case Ok(rp) =>
      match EnsureIsFile(rp, kind)
      case Err(e) => Err(e)
      case Ok(_) => Ok(rp)
  }

  /** The suffix the tools append to output they cut short. */
  const TruncationMarker := "\n\n[TRUNCATED]\n"

  // ---------------------------------------------------------------- properties

  /**
   * Containment is by whole path components: the root's text is followed,
   * in the path, by the end of the path or by a "/".
   */
  lemma WithinComponents(rp: string, root: string)
    ensures Within(rp, root)
        <==> rp == root || (|rp| > |root| && rp[..|root|] == root && rp[|root|] == '/')
  {
    if |rp| > |root| && rp[..|root|] == root && rp[|root|] == '/' {
      assert rp[..|root| + 1] == rp[..|root|] + [rp[|root|]];
    }
    if StartsWith(rp, root + "/") {
      assert rp[..|root|] == (root + "/")[..|root|];
      assert rp[|root|] == (root + "/")[|root|];
    }
  }

  /** A sibling that only shares a name prefix with the root, such as "/a/bc" for "/a/b", is outside it. */
  lemma SiblingOutside(rp: string, root: string)
    requires StartsWith(rp, root) && rp != root && rp[|root|] != '/'
    ensures !Within(rp, root)
  {
    WithinComponents(rp, root);
  }

  /** With "/" as a root the required prefix becomes "//": only "/" itself and paths starting "//" pass, so no resolved path below "/" does. */
  lemma SlashRoot(rp: string)
    ensures Within(rp, "/") <==> rp == "/" || StartsWith(rp, "//")
  {
    assert "/" + "/" == "//";
  }

  /** A path inside a root that itself lies inside another root lies inside that other root. */
  lemma WithinTransitive(rp: string, root: string, top: string)
    requires Within(rp, root) && Within(root, top)
    ensures Within(rp, top)
  {
    WithinComponents(rp, root);
    WithinComponents(root, top);
    WithinComponents(rp, top);
    if rp != root && root != top {
      assert rp[..|top|] == rp[..|root|][..|top|];
      assert rp[|top|] == rp[..|root|][|top|];
    }
  }
}
