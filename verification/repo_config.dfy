/**
 * The settings of the repository tools, read from the environment: the
 * allowed roots, the byte and result caps with their defaults, and the
 * website connector's base URL and token. The environment is a map, the
 * working directory and path resolution are parameters.
 */
module RepoConfig {
  import opened Wrappers
  import opened Text

  /** The tools' settings; `allowedRoots` holds resolved paths. */
  datatype Settings = Settings(
    allowedRoots: seq<string>,
    maxReadBytes: int,
    maxDiffBytes: int,
    maxSearchResults: int,
    connectorApiBase: string,
    connectorBearerToken: Option<string>)

  /** The environment variable whose value could not be read as an integer. */
  datatype ConfigError = BadInt(variable: string, value: string)

  const DefaultApiBase := "http://127.0.0.1:8090"

  // ---------------------------------------------------------------- roots

  predicate IsRootSep(c: char) { c == ':' || c == ';' }
  predicate NotRootSep(c: char) { !IsRootSep(c) }
  predicate NotSemicolon(c: char) { c != ';' }
  predicate NonEmpty(s: string) { s != [] }

  /** `[p.strip() for p in parts]`. */
  function StripAll(parts: seq<string>): (r: seq<string>)
    ensures |r| == |parts| && forall k :: 0 <= k < |parts| ==> r[k] == Strip(parts[k])
  {
    seq(|parts|, k requires 0 <= k < |parts| => Strip(parts[k]))
  }

  /** `raw.replace(";", ":").split(":")`. */
  function Fields(raw: string): seq<string> {
    SplitOn(ReplaceChar(raw, ';', ':'), ':')
  }

  /**
   * `_split_roots`: ";" is read as ":", the text is split at ":", every field
   * is stripped and the empty ones are dropped.
   */
  function SplitRoots(raw: string): seq<string> {
    Filter(StripAll(Fields(raw)), NonEmpty)
  }

  /** A value each of whose characters is a separator or whitespace. */
  predicate SepOrSpace(c: char) { IsRootSep(c) || IsSpace(c) }
  predicate ColonOrSpace(c: char) { c == ':' || IsSpace(c) }

  // ---------------------------------------------------------------- integers

  predicate IsSign(c: char) { c == '+' || c == '-' }

  /** A run of ASCII decimal digits, as a number. */
  function Digits(d: string): (r: Option<nat>)
    ensures r.Some? <==> d != [] && All(d, IsDigit)
  {
    if d != [] && All(d, IsDigit) then Some(DecimalValue(d)) else None
  }

  /**
   * Python `int(s)` in base 10: surrounding whitespace is ignored (not the
   * separators U+001C to U+001F), one sign is allowed, then one or more
   * decimal digits.
   */
  function ParseInt(s: string): (r: Option<int>)
    ensures r.Some? ==> Trim(s, IsNumberSpace) != []
  {
    var t := Trim(s, IsNumberSpace);
    if t != [] && IsSign(t[0]) then
      match Digits(t[1..])
      case None => None
      case Some(n) => var v: int := n; Some(if t[0] == '-' then -v else v)
    else
      match Digits(t)
      case None => None
      case Some(n) => Some(n)
  }

  /** `int(os.environ.get(name, default))`. */
  function IntSetting(env: map<string, string>, name: string, default: string): (r: Result<int, ConfigError>)
    ensures r.Ok? <==> ParseInt(Get(env, name, default)).Some?
    ensures r.Ok? ==> ParseInt(Get(env, name, default)) == Some(r.value)
    ensures r.Err? ==> r.error == BadInt(name, Get(env, name, default))
  {
    var v := Get(env, name, default);
    match ParseInt(v)
    case Some(n) => Ok(n)
    case None => Err(BadInt(name, v))
  }

  /** `os.environ.get(name, default)`. */
  function Get(env: map<string, string>, name: string, default: string): string {
    if name in env then env[name] else default
  }

  predicate IsSlash(c: char) { c == '/' }

  /** The working directory when MCP_ALLOWED_ROOTS is unset or empty, else every listed root, resolved. */
  function AllowedRoots(env: map<string, string>, cwd: string, resolve: string -> string): seq<string> {
    var raw := Get(env, "MCP_ALLOWED_ROOTS", "");
    if raw == "" then [resolve(cwd)]
    else
      var parts := SplitRoots(raw);
      seq(|parts|, k requires 0 <= k < |parts| => resolve(parts[k]))
  }

  /** `os.environ.get("CONNECTOR_API_BASE", default).rstrip("/")`. */
  function ApiBase(env: map<string, string>): string {
    TrimRight(Get(env, "CONNECTOR_API_BASE", DefaultApiBase), IsSlash)
  }

  /** `os.environ.get("CONNECTOR_TOKEN")`. */
  function Token(env: map<string, string>): Option<string> {
    if "CONNECTOR_TOKEN" in env then Some(env["CONNECTOR_TOKEN"]) else None
  }

  /** `Settings.from_env`; the three caps are read in order and the first unreadable one fails. */
  function FromEnv(env: map<string, string>, cwd: string, resolve: string -> string): (r: Result<Settings, ConfigError>)
    ensures r.Ok? ==>
              && IntSetting(env, "MCP_MAX_READ_BYTES", "200000") == Ok(r.value.maxReadBytes)
              && IntSetting(env, "MCP_MAX_DIFF_BYTES", "300000") == Ok(r.value.maxDiffBytes)
              && IntSetting(env, "MCP_MAX_SEARCH_RESULTS", "50") == Ok(r.value.maxSearchResults)
    ensures r.Err? ==>
              || IntSetting(env, "MCP_MAX_READ_BYTES", "200000") == Err(r.error)
              || IntSetting(env, "MCP_MAX_DIFF_BYTES", "300000") == Err(r.error)
              || IntSetting(env, "MCP_MAX_SEARCH_RESULTS", "50") == Err(r.error)
  {
    match IntSetting(env, "MCP_MAX_READ_BYTES", "200000")
    case Err(e) => Err(e)
    case Ok(readBytes) =>
      match IntSetting(env, "MCP_MAX_DIFF_BYTES", "300000")
      case Err(e) => Err(e)
      case Ok(diffBytes) =>
        match IntSetting(env, "MCP_MAX_SEARCH_RESULTS", "50")
        case Err(e) => Err(e)
        case Ok(searchResults) =>
          Ok(Settings(AllowedRoots(env, cwd, resolve), readBytes, diffBytes, searchResults, ApiBase(env), Token(env)))
  }

  // ---------------------------------------------------------------- properties

  /** ";" and ":" are interchangeable separators. */
  lemma SemicolonIsColon(raw: string)
    ensures SplitRoots(raw) == SplitRoots(ReplaceChar(raw, ';', ':'))
  {
    var once := ReplaceChar(raw, ';', ':');
    assert ReplaceChar(once, ';', ':') == once;
  }

  /** Every root is non-empty, has no whitespace at either end and holds no separator. */
  lemma RootsClean(raw: string)
    ensures forall k :: 0 <= k < |SplitRoots(raw)| ==>
              var r := SplitRoots(raw)[k]; r != [] && Strip(r) == r && All(r, NotRootSep)
  {
    var replaced := ReplaceChar(raw, ';', ':');
    var parts := Fields(raw);
    assert All(replaced, NotSemicolon);
    SplitOnAll(replaced, ':', NotSemicolon);
    var stripped := StripAll(parts);
    forall k | 0 <= k < |stripped| ensures Strip(stripped[k]) == stripped[k] && All(stripped[k], NotRootSep) {
      assert ':' !in parts[k];
      assert All(parts[k], NotRootSep);
      TrimKeeps(parts[k], IsSpace, NotRootSep);
      StripUnpadded(stripped[k]);
    }
  }

  /** A value made only of separators and whitespace names no root at all. */
  lemma SeparatorsOnly(raw: string)
    requires All(raw, SepOrSpace)
    ensures SplitRoots(raw) == []
  {
    var replaced := ReplaceChar(raw, ';', ':');
    assert All(replaced, ColonOrSpace);
    var parts := Fields(raw);
    SplitOnAll(replaced, ':', ColonOrSpace);
    var stripped := StripAll(parts);
    forall k | 0 <= k < |stripped| ensures !NonEmpty(stripped[k]) {
      assert ':' !in parts[k];
      assert All(parts[k], IsSpace);
    }
    FilterNone(stripped, NonEmpty);
  }

  /** Joining clean roots with ":" and splitting the result gives the roots back. */
  lemma SplitJoinedRoots(roots: seq<string>)
    requires forall k :: 0 <= k < |roots| ==> roots[k] != [] && Strip(roots[k]) == roots[k] && All(roots[k], NotRootSep)
    ensures SplitRoots(Join(":", roots)) == roots
  {
    if roots == [] {
      EmptyRaw();
    } else {
      JoinedFields(roots);
      KeptRoots(roots);
    }
  }

  /** An empty value names no root. */
  lemma EmptyRaw()
    ensures SplitRoots("") == []
  {
    assert Fields("") == [""];
    assert StripAll([""]) == [""];
    assert Filter([""], NonEmpty) == [];
  }

  /** Clean roots survive the stripping and the filtering. */
  lemma KeptRoots(roots: seq<string>)
    requires forall k :: 0 <= k < |roots| ==> roots[k] != [] && Strip(roots[k]) == roots[k]
    ensures Filter(StripAll(roots), NonEmpty) == roots
  {
    assert StripAll(roots) == roots;
    assert forall k :: 0 <= k < |roots| ==> NonEmpty(roots[k]);
  }

  /** The fields of roots joined with ":" are the roots. */
  lemma JoinedFields(roots: seq<string>)
    requires roots != [] && forall k :: 0 <= k < |roots| ==> All(roots[k], NotRootSep)
    ensures Fields(Join(":", roots)) == roots
  {
    var raw := Join(":", roots);
    JoinAll(":", roots, NotSemicolon);
    assert ReplaceChar(raw, ';', ':') == raw;
    forall k | 0 <= k < |roots| ensures ':' !in roots[k] {
      assert All(roots[k], NotRootSep);
    }
    JoinSplitOn(roots, ':');
  }

  /** `str(n)` reads back as `n` with `int()`. */
  lemma ParseIntToString(n: int)
    ensures ParseInt(IntToString(n)) == Some(n)
  {
    var m: nat := if n < 0 then -n else n;
    var d := IntToString(m);
    IntToStringDecimal(m);
    if n < 0 {
      assert IntToString(n) == "-" + d;
      ParseSigned(d);
    } else {
      ParseUnsigned(d);
    }
  }

  /** A run of decimal digits reads as its value. */
  lemma ParseUnsigned(d: string)
    requires d != [] && All(d, IsDigit)
    ensures ParseInt(d) == Some(DecimalValue(d))
  {
    NumberUnpadded(d);
  }

  /** A minus sign before a run of decimal digits reads as the negated value. */
  lemma ParseSigned(d: string)
    requires d != [] && All(d, IsDigit)
    ensures ParseInt("-" + d) == Some(-(DecimalValue(d) as int))
  {
    var s := "-" + d;
    ConsParts('-', d);
    SignedUnpadded(d);
    ParseNegative(s, d);
  }

  /** Blank text, whatever its whitespace, is not an integer. */
  lemma ParseIntBlank(s: string)
    requires All(s, IsSpace)
    ensures ParseInt(s) == None
  {
    TrimKeeps(s, IsNumberSpace, IsSpace);
  }

  /** `int` skips ASCII whitespace around the number. */
  lemma ParseIntAsciiSpace()
    ensures ParseInt(" 5\n") == Some(5)
  {
    assert LeadingRun(" 5\n", IsNumberSpace) == 1;
    assert TrimLeft(" 5\n", IsNumberSpace) == "5\n";
    assert TrailingRun("5\n", IsNumberSpace) == 1;
    assert Trim(" 5\n", IsNumberSpace) == "5";
    assert Digits("5") == Some(5);
  }

  /** `int` skips non-ASCII whitespace too: a no-break space before "-7". */
  lemma ParseIntUnicodeSpace()
    ensures ParseInt("\U{A0}-7") == Some(-7)
  {
    assert LeadingRun("\U{A0}-7", IsNumberSpace) == 1;
    assert TrimLeft("\U{A0}-7", IsNumberSpace) == "-7";
    NumberUnpadded("-7");
    assert Trim("\U{A0}-7", IsNumberSpace) == "-7";
    assert Digits("7") == Some(7);
  }

  /** The separator U+001C is whitespace to `str.isspace()` but not to `int`. */
  lemma ParseIntSeparator()
    ensures ParseInt("\U{1C}5") == None
  {
    TrimUnpadded("\U{1C}5", IsNumberSpace);
  }

  /** An unpadded minus sign followed by digits reads as the negated digits. */
  lemma ParseNegative(s: string, d: string)
    requires Trim(s, IsNumberSpace) == s && s != [] && s[0] == '-' && s[1..] == d && d != [] && All(d, IsDigit)
    ensures ParseInt(s) == Some(-(DecimalValue(d) as int))
  {
    assert Digits(s[1..]) == Some(DecimalValue(d));
  }


  /** Reading fails exactly when one of the three caps is not an integer, and names the first such variable. */
  lemma FromEnvFails(env: map<string, string>, cwd: string, resolve: string -> string)
    ensures FromEnv(env, cwd, resolve).Err?
        <==> (|| ParseInt(Get(env, "MCP_MAX_READ_BYTES", "200000")).None?
              || ParseInt(Get(env, "MCP_MAX_DIFF_BYTES", "300000")).None?
              || ParseInt(Get(env, "MCP_MAX_SEARCH_RESULTS", "50")).None?)
    ensures ParseInt(Get(env, "MCP_MAX_READ_BYTES", "200000")).None?
        ==> FromEnv(env, cwd, resolve) == Err(BadInt("MCP_MAX_READ_BYTES", Get(env, "MCP_MAX_READ_BYTES", "200000")))
  {
  }

  /** A configuration that was read holds the roots, base and token read from the environment. */
  lemma FromEnvParts(env: map<string, string>, cwd: string, resolve: string -> string)
    requires FromEnv(env, cwd, resolve).Ok?
    ensures var st := FromEnv(env, cwd, resolve).value;
            && st.allowedRoots == AllowedRoots(env, cwd, resolve)
            && st.connectorApiBase == ApiBase(env)
            && st.connectorBearerToken == Token(env)
  {
  }

  /**
   * The allowed roots of a read configuration: the working directory alone
   * when MCP_ALLOWED_ROOTS is unset or empty, else the listed roots, resolved,
   * in their order.
   */
  lemma FromEnvRoots(env: map<string, string>, cwd: string, resolve: string -> string)
    requires FromEnv(env, cwd, resolve).Ok?
    ensures var roots := FromEnv(env, cwd, resolve).value.allowedRoots;
            && ("MCP_ALLOWED_ROOTS" !in env || env["MCP_ALLOWED_ROOTS"] == "" ==> roots == [resolve(cwd)])
            && ("MCP_ALLOWED_ROOTS" in env && env["MCP_ALLOWED_ROOTS"] != "" ==>
                  var listed := SplitRoots(env["MCP_ALLOWED_ROOTS"]);
                  |roots| == |listed| && forall k :: 0 <= k < |listed| ==> roots[k] == resolve(listed[k]))
  {
    FromEnvParts(env, cwd, resolve);
  }

  /**
   * The API base is the configured value (or the default) without its
   * trailing slashes: what is cut is slashes only, and what is kept does not
   * end with one.
   */
  lemma FromEnvApiBase(env: map<string, string>, cwd: string, resolve: string -> string)
    requires FromEnv(env, cwd, resolve).Ok?
    ensures var base := FromEnv(env, cwd, resolve).value.connectorApiBase;
            var raw := Get(env, "CONNECTOR_API_BASE", DefaultApiBase);
            && |base| <= |raw|
            && raw == base + raw[|base|..]
            && All(raw[|base|..], IsSlash)
            && (base == [] || base[|base| - 1] != '/')
  {
    FromEnvParts(env, cwd, resolve);
    var raw := Get(env, "CONNECTOR_API_BASE", DefaultApiBase);
    assert FromEnv(env, cwd, resolve).value.connectorApiBase == TrimRight(raw, IsSlash);
    TrailingSlashesCut(raw);
  }

  /** `rstrip("/")` cuts a run of slashes and nothing else. */
  lemma TrailingSlashesCut(raw: string)
    ensures var base := TrimRight(raw, IsSlash);
            && raw == base + raw[|base|..]
            && All(raw[|base|..], IsSlash)
            && (base == [] || base[|base| - 1] != '/')
  {
    var base := TrimRight(raw, IsSlash);
    assert raw == base + raw[|base|..];
  }

  /** The token is taken as it is when set, and is absent otherwise. */
  lemma FromEnvToken(env: map<string, string>, cwd: string, resolve: string -> string)
    requires FromEnv(env, cwd, resolve).Ok?
    ensures FromEnv(env, cwd, resolve).value.connectorBearerToken
         == if "CONNECTOR_TOKEN" in env then Some(env["CONNECTOR_TOKEN"]) else None
  {
    FromEnvParts(env, cwd, resolve);
  }

  /** The defaults of an empty environment. */
  lemma EmptyEnvDefaults(cwd: string, resolve: string -> string)
    ensures FromEnv(map[], cwd, resolve)
         == Ok(Settings([resolve(cwd)], 200000, 300000, 50, DefaultApiBase, None))
  {
    EmptyEnvCaps();
    EmptyEnvStrings(cwd, resolve);
  }

  lemma EmptyEnvCaps()
    ensures IntSetting(map[], "MCP_MAX_READ_BYTES", "200000") == Ok(200000)
    ensures IntSetting(map[], "MCP_MAX_DIFF_BYTES", "300000") == Ok(300000)
    ensures IntSetting(map[], "MCP_MAX_SEARCH_RESULTS", "50") == Ok(50)
  {
    DefaultCaps();
  }

  lemma EmptyEnvStrings(cwd: string, resolve: string -> string)
    ensures ApiBase(map[]) == DefaultApiBase
    ensures AllowedRoots(map[], cwd, resolve) == [resolve(cwd)]
    ensures Token(map[]) == None
  {
    assert TrailingRun(DefaultApiBase, IsSlash) == 0;
  }

  /** The default caps read as 200000, 300000 and 50. */
  lemma DefaultCaps()
    ensures ParseInt("200000") == Some(200000) && ParseInt("300000") == Some(300000) && ParseInt("50") == Some(50)
  {
    DefaultDigits();
    ParseIntToString(200000);
    ParseIntToString(300000);
    ParseIntToString(50);
  }

  lemma DefaultDigits()
    ensures IntToString(200000) == "200000" && IntToString(300000) == "300000" && IntToString(50) == "50"
  {
    assert IntToString(5) == "5";
    assert IntToString(50) == "50";
    assert IntToString(2) == "2" && IntToString(3) == "3";
    assert IntToString(20) == "20" && IntToString(30) == "30";
    assert IntToString(200) == "200" && IntToString(300) == "300";
    assert IntToString(2000) == "2000" && IntToString(3000) == "3000";
    assert IntToString(20000) == "20000" && IntToString(30000) == "30000";
  }

  // ---------------------------------------------------------------- helpers

  /** The fields of `split(sep)` only hold characters of the input. */
  lemma {:induction false} SplitOnAll(s: string, sep: char, p: char -> bool)
    requires All(s, p)
    ensures forall k :: 0 <= k < |SplitOn(s, sep)| ==> All(SplitOn(s, sep)[k], p)
    decreases |s|
  {
    var n := IndexOf(s, sep);
    if n < |s| {
      SplitOnStep(s, sep);
      var head, tail := s[..n], s[n + 1..];
      assert All(tail, p) by { forall i | 0 <= i < |tail| ensures p(tail[i]) { assert tail[i] == s[n + 1 + i]; } }
      SplitOnAll(tail, sep, p);
      assert All(head, p) by { forall i | 0 <= i < |head| ensures p(head[i]) { assert head[i] == s[i]; } }
    } else {
      assert SplitOn(s, sep) == [s];
    }
  }
}
