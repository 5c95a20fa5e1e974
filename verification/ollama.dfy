/**
 * The console's reader of the `ollama list` table: every non-blank line
 * after an optional header names one model, and the first "<number> <unit>"
 * pair of tokens on the line is its size, followed by the modification time.
 * Running the command is left out: its output is the input, absent when the
 * command failed.
 */
module Ollama {
  import opened Wrappers
  import opened Text

  /** A listed model. */
  datatype OllamaModel = OllamaModel(name: string, size: Option<string>, modified: Option<string>)

  // ---------------------------------------------------------------- numbers

  predicate IsSign(c: char) { c == '+' || c == '-' }

  predicate DigitOrUnderscore(c: char) { IsDigit(c) || c == '_' }

  /** Digits, with single underscores allowed between two digits. */
  predicate IsDigitPart(s: string) {
    && s != []
    && IsDigit(s[0]) && IsDigit(s[|s| - 1])
    && All(s, DigitOrUnderscore)
    && forall i :: 0 <= i < |s| - 1 ==> !(s[i] == '_' && s[i + 1] == '_')
  }

  /** `digitpart`, `digitpart "."`, `"." digitpart` or `digitpart "." digitpart`. */
  predicate IsDecimal(s: string) {
    var d := IndexOf(s, '.');
    if d == |s| then IsDigitPart(s)
    else
      var whole, fraction := s[..d], s[d + 1..];
      (whole == [] && IsDigitPart(fraction)) || (IsDigitPart(whole) && (fraction == [] || IsDigitPart(fraction)))
  }

  /** The exponent after "e" or "E": an optional sign and a digit part. */
  predicate IsExponent(x: string) {
    IsDigitPart(x) || (x != [] && IsSign(x[0]) && IsDigitPart(x[1..]))
  }

  /** A decimal number with an optional exponent. */
  predicate IsFloatNumber(u: string) {
    var e := IndexOf(Lower(u), 'e');
    if e == |u| then IsDecimal(u) else IsDecimal(u[..e]) && IsExponent(u[e + 1..])
  }

  /** The named values `float` accepts, in any letter case. */
  predicate IsSpecial(u: string) {
    var l := Lower(u);
    l == "inf" || l == "infinity" || l == "nan"
  }

  /**
   * `_looks_number`: whether Python's `float(s)` accepts `s` — surrounding
   * whitespace (`IsNumberSpace`), one optional sign, then a decimal number with an optional
   * exponent, or "inf", "infinity" or "nan".
   */
  predicate LooksNumber(s: string)
    ensures var t := Trim(s, IsNumberSpace); LooksNumber(s) ==> t != [] && t != "+" && t != "-" && t != "."
  {
    var t := Trim(s, IsNumberSpace);
    var u := if t != [] && IsSign(t[0]) then t[1..] else t;
    IsFloatNumber(u) || IsSpecial(u)
  }

  // ---------------------------------------------------------------- lines

  predicate NonEmpty(s: string) { s != [] }

  /** `[ln.strip() for ln in out.splitlines() if ln.strip()]`. */
  function Lines(out: string): (lines: seq<string>)
    ensures forall k :: 0 <= k < |lines| ==> lines[k] != [] && !IsSpace(lines[k][0])
  {
    var stripped := seq(|SplitLines(out)|, k requires 0 <= k < |SplitLines(out)| => Strip(SplitLines(out)[k]));
    Filter(stripped, NonEmpty)
  }

  /** The header line names the "name" and "size" columns. */
  predicate IsHeader(line: string) {
    Contains(Lower(line), "name") && Contains(Lower(line), "size")
  }

  /** The lines that describe models: all of them, or all but the first when it is the header. */
  function DataLines(out: string): seq<string> {
    var lines := Lines(out);
    if lines != [] && IsHeader(lines[0]) then lines[1..] else lines
  }

  // ---------------------------------------------------------------- sizes

  const Units: set<string> := {"KB", "MB", "GB", "TB"}

  /**
   * Token `i` is a number and token `i + 1`, in upper case, a unit. The
   * number test is a parameter: the parser uses `LooksNumber`.
   */
  predicate IsSizeAt(parts: seq<string>, i: int, isNumber: string -> bool) {
    1 <= i && i + 1 < |parts| && isNumber(parts[i]) && Upper(parts[i + 1]) in Units
  }

  /** The first index from `i` on where a size starts. */
  function FirstSizeFrom(parts: seq<string>, i: nat, isNumber: string -> bool): (r: Option<nat>)
    requires i >= 1
    ensures r.Some? ==> i <= r.value && IsSizeAt(parts, r.value, isNumber)
                        && forall j :: i <= j < r.value ==> !IsSizeAt(parts, j, isNumber)
    ensures r.None? ==> forall j :: i <= j ==> !IsSizeAt(parts, j, isNumber)
    decreases |parts| - i
  {
    if i + 1 >= |parts| then None
    else if IsSizeAt(parts, i, isNumber) then Some(i)
    else FirstSizeFrom(parts, i + 1, isNumber)
  }

  /** The model a line's tokens describe. */
  function ModelFrom(parts: seq<string>, isNumber: string -> bool): OllamaModel
    requires parts != []
  {
    match FirstSizeFrom(parts, 1, isNumber)
    case None => OllamaModel(parts[0], None, None)
    case Some(i) =>
      OllamaModel(parts[0], Some(parts[i] + " " + parts[i + 1]),
                  if i + 2 < |parts| then Some(Join(" ", parts[i + 2..])) else None)
  }

  /** The rows of the lines that hold a token, in order; a line without tokens is skipped. */
  function Rows<T>(lines: seq<string>, row: seq<string> --> T): seq<T>
    requires forall p :: p != [] ==> row.requires(p)
  {
    if lines == [] then []
    else
      var parts := SplitWords(lines[|lines| - 1]);
      Rows(lines[..|lines| - 1], row) + (if parts == [] then [] else [row(parts)])
  }

  /** The model of one data line, as a function of the line's tokens. */
  function RowOf(isNumber: string -> bool): (row: seq<string> --> OllamaModel)
    ensures forall parts :: parts != [] ==> row.requires(parts) && row(parts) == ModelFrom(parts, isNumber)
  {
    (parts: seq<string>) requires parts != [] => ModelFrom(parts, isNumber)
  }

  /** `list_models_cli` on the command's output, or on its failure. */
  function ListModels(out: Option<string>): seq<OllamaModel> {
    if out.None? then [] else Rows(DataLines(out.value), RowOf(LooksNumber))
  }

  // ---------------------------------------------------------------- the parser

  /** `list_models_cli`: the loop over the data lines, sizes found with `LooksNumber`. */
  method ListModelsCli(out: Option<string>) returns (models: seq<OllamaModel>)
    ensures models == ListModels(out)
  {
    if out.None? {
      return [];
    }
    models := ParseListing(out.value, LooksNumber);
  }

  /**
   * The loop of `list_models_cli` over the lines of the output, with the
   * inner scan for the size; the number test is a parameter.
   */
  method ParseListing(out: string, isNumber: string -> bool) returns (models: seq<OllamaModel>)
    ensures models == Rows(DataLines(out), RowOf(isNumber))
  {
    var lines := Lines(out);
    if lines == [] {
      return [];
    }
    var header := Lower(lines[0]);
    var dataLines := if Contains(header, "name") && Contains(header, "size") then lines[1..] else lines;
    assert dataLines == DataLines(out);
    models := ModelsOfLines(dataLines, isNumber);
  }

  /** The loop over the data lines: a line with no token is skipped. */
  method ModelsOfLines(dataLines: seq<string>, isNumber: string -> bool) returns (models: seq<OllamaModel>)
    ensures models == Rows(dataLines, RowOf(isNumber))
  {
    models := [];
    for k := 0 to |dataLines|
      invariant models == Rows(dataLines[..k], RowOf(isNumber))
    {
      assert dataLines[..k + 1][..k] == dataLines[..k];
      RowsStep(dataLines[..k + 1], RowOf(isNumber));
      var parts := SplitWords(dataLines[k]);
      if parts == [] {
        continue;
      }
      var model := ScanLine(parts, isNumber);
      models := models + [model];
    }
    assert dataLines[..|dataLines|] == dataLines;
  }

  /** The body of the loop for one line: the name, then the scan for the first size. */
  method ScanLine(parts: seq<string>, isNumber: string -> bool) returns (model: OllamaModel)
    requires parts != []
    ensures model == ModelFrom(parts, isNumber)
  {
    var name := parts[0];
    var size: Option<string> := None;
    var modified: Option<string> := None;
    var i := 1;
    while i < |parts| - 1
      invariant 1 <= i
      invariant size.None? ==> modified.None? && FirstSizeFrom(parts, i, isNumber) == FirstSizeFrom(parts, 1, isNumber)
      invariant size.Some? ==> OllamaModel(name, size, modified) == ModelFrom(parts, isNumber)
      decreases |parts| - i, if size.None? then 1 else 0
    {
      if isNumber(parts[i]) && Upper(parts[i + 1]) in Units {
        assert FirstSizeFrom(parts, i, isNumber) == Some(i);
        size := Some(parts[i] + " " + parts[i + 1]);
        if i + 2 < |parts| {
          modified := Some(Join(" ", parts[i + 2..]));
        }
        break;
      }
      i := i + 1;
    }
    model := OllamaModel(name, size, modified);
  }

  // ---------------------------------------------------------------- properties

  /** One more line adds its row, when it holds a token. */
  lemma RowsStep<T>(lines: seq<string>, row: seq<string> --> T)
    requires lines != [] && forall p :: p != [] ==> row.requires(p)
    ensures var parts := SplitWords(lines[|lines| - 1]);
            Rows(lines, row) == Rows(lines[..|lines| - 1], row) + (if parts == [] then [] else [row(parts)])
  {
  }

  /** A non-blank line with no leading whitespace has at least one token. */
  lemma NonBlankHasTokens(line: string)
    requires line != [] && !IsSpace(line[0])
    ensures SplitWords(line) != []
  {
    assert TrimLeft(line, IsSpace) == line;
  }

  /** Lines that all hold a token yield one row each. */
  lemma {:induction false} RowsLength<T>(lines: seq<string>, row: seq<string> --> T)
    requires forall p :: p != [] ==> row.requires(p)
    requires forall k :: 0 <= k < |lines| ==> SplitWords(lines[k]) != []
    ensures |Rows(lines, row)| == |lines|
    decreases |lines|
  {
    if lines != [] {
      RowsLength(lines[..|lines| - 1], row);
    }
  }

  /** The row of line `k`, when every line holds a token. */
  lemma {:induction false} RowAt<T>(lines: seq<string>, row: seq<string> --> T, k: nat)
    requires forall p :: p != [] ==> row.requires(p)
    requires forall j :: 0 <= j < |lines| ==> SplitWords(lines[j]) != []
    requires k < |lines|
    ensures |Rows(lines, row)| == |lines| && Rows(lines, row)[k] == row(SplitWords(lines[k]))
    decreases |lines|
  {
    var init := lines[..|lines| - 1];
    var parts := SplitWords(lines[|lines| - 1]);
    assert parts != [];
    RowsLength(init, row);
    RowsStep(lines, row);
    assert Rows(lines, row) == Rows(init, row) + [row(parts)];
    if k < |init| {
      assert forall j :: 0 <= j < |init| ==> SplitWords(init[j]) != [] by {
        forall j | 0 <= j < |init| ensures SplitWords(init[j]) != [] { assert init[j] == lines[j]; }
      }
      RowAt(init, row, k);
      assert lines[k] == init[k];
      assert Rows(lines, row)[k] == Rows(init, row)[k];
    } else {
      assert k == |init|;
      assert Rows(lines, row)[k] == row(parts);
    }
  }

  /** Every non-blank line yields exactly one row, in order, made from the line's tokens. */
  lemma OneRowPerLine<T>(lines: seq<string>, row: seq<string> --> T)
    requires forall p :: p != [] ==> row.requires(p)
    requires forall k :: 0 <= k < |lines| ==> lines[k] != [] && !IsSpace(lines[k][0])
    ensures |Rows(lines, row)| == |lines|
    ensures forall k :: 0 <= k < |lines| ==> SplitWords(lines[k]) != [] && Rows(lines, row)[k] == row(SplitWords(lines[k]))
  {
    forall k | 0 <= k < |lines| ensures SplitWords(lines[k]) != [] {
      NonBlankHasTokens(lines[k]);
    }
    RowsLength(lines, row);
    forall k | 0 <= k < |lines| ensures Rows(lines, row)[k] == row(SplitWords(lines[k])) {
      RowAt(lines, row, k);
    }
  }

  /** Every data line of the output yields one model, in order, named by the line's first token. */
  lemma ModelsOfOutput(out: string)
    ensures |ListModels(Some(out))| == |DataLines(out)|
    ensures forall k :: 0 <= k < |DataLines(out)| ==>
              var parts := SplitWords(DataLines(out)[k]);
              parts != [] && ListModels(Some(out))[k] == ModelFrom(parts, LooksNumber)
              && ListModels(Some(out))[k].name == parts[0]
  {
    var lines := Lines(out);
    assert forall k :: 0 <= k < |DataLines(out)| ==> DataLines(out)[k] != [] && !IsSpace(DataLines(out)[k][0]);
    OneRowPerLine(DataLines(out), RowOf(LooksNumber));
  }

  /**
   * The size is the first "<number> <unit>" pair at a token index of at
   * least 1, with the unit as written; without such a pair the size and
   * the modification time are absent.
   */
  lemma SizeIsFirstPair(parts: seq<string>, isNumber: string -> bool)
    requires parts != []
    ensures ModelFrom(parts, isNumber).size.None? <==> forall i :: !IsSizeAt(parts, i, isNumber)
    ensures ModelFrom(parts, isNumber).size.None? ==> ModelFrom(parts, isNumber).modified.None?
    ensures forall i :: IsSizeAt(parts, i, isNumber) && (forall j :: j < i ==> !IsSizeAt(parts, j, isNumber))
              ==> ModelFrom(parts, isNumber).size == Some(parts[i] + " " + parts[i + 1])
  {
    var r := FirstSizeFrom(parts, 1, isNumber);
    if r.Some? {
      forall i | IsSizeAt(parts, i, isNumber) && (forall j :: j < i ==> !IsSizeAt(parts, j, isNumber))
        ensures ModelFrom(parts, isNumber).size == Some(parts[i] + " " + parts[i + 1])
      {
        assert !(i < r.value) && !(r.value < i);
      }
    }
  }

  /**
   * The modification time is the tokens after the unit, joined by single
   * spaces; it is absent exactly when the unit is the last token.
   */
  lemma ModifiedFollowsUnit(parts: seq<string>, isNumber: string -> bool)
    requires parts != [] && FirstSizeFrom(parts, 1, isNumber).Some?
    ensures var i := FirstSizeFrom(parts, 1, isNumber).value;
            && (ModelFrom(parts, isNumber).modified.None? <==> i + 2 == |parts|)
            && (i + 2 < |parts| ==> ModelFrom(parts, isNumber).modified == Some(Join(" ", parts[i + 2..])))
  {
  }

  /** A failed command lists no models. */
  lemma FailedCommand()
    ensures ListModels(None) == []
  {
  }

  /** The header is dropped only when it names both columns. */
  lemma HeaderDropped(out: string)
    requires Lines(out) != []
    ensures DataLines(out) == if IsHeader(Lines(out)[0]) then Lines(out)[1..] else Lines(out)
  {
  }

  /** Every decimal integer as `str` writes it looks like a number. */
  lemma IntegersLookLikeNumbers(n: int)
    ensures LooksNumber(IntToString(n))
  {
    var m: nat := if n < 0 then -n else n;
    var d := IntToString(m);
    IntToStringDecimal(m);
    DigitsAreFloat(d);
    if n < 0 {
      assert IntToString(n) == "-" + d;
      ConsParts('-', d);
      SignedUnpadded(d);
      SignedNumber("-" + d, d);
    } else {
      NumberUnpadded(d);
      UnsignedNumber(d);
    }
  }

  /** An unpadded unsigned float literal looks like a number. */
  lemma UnsignedNumber(s: string)
    requires Trim(s, IsNumberSpace) == s && s != [] && !IsSign(s[0]) && IsFloatNumber(s)
    ensures LooksNumber(s)
  {
  }

  /** An unpadded sign before a float literal looks like a number. */
  lemma SignedNumber(s: string, u: string)
    requires Trim(s, IsNumberSpace) == s && s != [] && IsSign(s[0]) && s[1..] == u && IsFloatNumber(u)
    ensures LooksNumber(s)
  {
  }

  /** A run of digits is a float literal. */
  lemma DigitsAreFloat(d: string)
    requires d != [] && All(d, IsDigit)
    ensures IsFloatNumber(d) && !IsSign(d[0]) && !IsSpace(d[0]) && !IsSpace(d[|d| - 1])
  {
    assert IndexOf(Lower(d), 'e') == |d| by {
      forall i | 0 <= i < |d| ensures Lower(d)[i] != 'e' { assert IsDigit(d[i]); }
    }
    assert IndexOf(d, '.') == |d| by {
      forall i | 0 <= i < |d| ensures d[i] != '.' { assert IsDigit(d[i]); }
    }
  }
}
