/**
 * The Python `str` operations the modelled code relies on, over `seq<char>`:
 * whitespace and line-break classes, `strip`, `split()`, `splitlines()`,
 * `split(sep)`, `join`, `find`, `in`, `startswith`, slicing with Python's
 * negative-bound rule, and `lower`/`upper` (ASCII letters only).
 */
module Text {

  function Min(a: int, b: int): int { if a <= b then a else b }
  function Max(a: int, b: int): int { if a >= b then a else b }

  /** The characters `str.isspace()` accepts, which `split()` and `strip()` treat as whitespace. */
  predicate IsSpace(c: char) {
    c == ' ' || ('\t' <= c <= '\r') || ('\U{1C}' <= c <= '\U{1F}') || c == '\U{85}' || c == '\U{A0}'
    || c == '\U{1680}' || ('\U{2000}' <= c <= '\U{200A}') || c == '\U{2028}' || c == '\U{2029}'
    || c == '\U{202F}' || c == '\U{205F}' || c == '\U{3000}'
  }

  predicate NotSpace(c: char) { !IsSpace(c) }

  /**
   * The whitespace `int()` and `float()` skip around a number: every
   * character `str.isspace()` accepts except the ASCII separators
   * U+001C to U+001F, which stay and make the text unreadable.
   */
  predicate IsNumberSpace(c: char) { IsSpace(c) && !('\U{1C}' <= c <= '\U{1F}') }

  /** The characters at which `str.splitlines()` ends a line ("\r\n" counts as one break). */
  predicate IsLineBreak(c: char) {
    ('\n' <= c <= '\r') || ('\U{1C}' <= c <= '\U{1E}') || c == '\U{85}' || c == '\U{2028}' || c == '\U{2029}'
  }

  predicate NotLineBreak(c: char) { !IsLineBreak(c) }

  predicate IsAsciiAlnum(c: char) { ('a' <= c <= 'z') || ('A' <= c <= 'Z') || ('0' <= c <= '9') }

  predicate All(s: string, p: char -> bool) { forall i :: 0 <= i < |s| ==> p(s[i]) }

  // ---------------------------------------------------------------- trimming

  /** Length of the longest prefix of `s` whose characters satisfy `p`. */
  function LeadingRun(s: string, p: char -> bool): (k: nat)
    ensures k <= |s|
    ensures forall i :: 0 <= i < k ==> p(s[i])
    ensures k < |s| ==> !p(s[k])
  {
    if s == [] || !p(s[0]) then 0 else 1 + LeadingRun(s[1..], p)
  }

  /** Length of the longest suffix of `s` whose characters satisfy `p`. */
  function TrailingRun(s: string, p: char -> bool): (k: nat)
    ensures k <= |s|
    ensures forall i :: |s| - k <= i < |s| ==> p(s[i])
    ensures k < |s| ==> !p(s[|s| - 1 - k])
  {
    if s == [] || !p(s[|s| - 1]) then 0 else 1 + TrailingRun(s[..|s| - 1], p)
  }

  /** Python `s.lstrip(chars)` with the stripped class given as `p`. */
  function TrimLeft(s: string, p: char -> bool): (r: string)
    ensures |r| <= |s| && r == s[|s| - |r|..]
    ensures r == [] || !p(r[0])
    ensures forall i :: 0 <= i < |s| - |r| ==> p(s[i])
  {
    s[LeadingRun(s, p)..]
  }

  /** Python `s.rstrip(chars)` with the stripped class given as `p`. */
  function TrimRight(s: string, p: char -> bool): (r: string)
    ensures |r| <= |s| && r == s[..|r|]
    ensures r == [] || !p(r[|r| - 1])
    ensures forall i :: |r| <= i < |s| ==> p(s[i])
  {
    s[..|s| - TrailingRun(s, p)]
  }

  /** Python `s.strip(chars)` with the stripped class given as `p`. */
  function Trim(s: string, p: char -> bool): (r: string)
    ensures r == [] || (!p(r[0]) && !p(r[|r| - 1]))
    ensures r == [] <==> All(s, p)
  {
    var t := TrimLeft(s, p);
    assert t != [] ==> !p(t[0]);
    TrimRight(t, p)
  }

  /** Python `s.strip()`. */
  function Strip(s: string): (r: string)
    ensures r == [] || (!IsSpace(r[0]) && !IsSpace(r[|r| - 1]))
    ensures r == [] <==> All(s, IsSpace)
  {
    Trim(s, IsSpace)
  }

  // ---------------------------------------------------------------- case

  function LowerChar(c: char): char { if 'A' <= c <= 'Z' then (c as int + 32) as char else c }
  function UpperChar(c: char): char { if 'a' <= c <= 'z' then (c as int - 32) as char else c }

  /** Python `s.lower()` on ASCII letters; every other character is kept. */
  function Lower(s: string): (r: string)
    ensures |r| == |s| && forall i :: 0 <= i < |s| ==> r[i] == LowerChar(s[i])
  {
    seq(|s|, i requires 0 <= i < |s| => LowerChar(s[i]))
  }

  /** Python `s.upper()` on ASCII letters; every other character is kept. */
  function Upper(s: string): (r: string)
    ensures |r| == |s| && forall i :: 0 <= i < |s| ==> r[i] == UpperChar(s[i])
  {
    seq(|s|, i requires 0 <= i < |s| => UpperChar(s[i]))
  }

  // ---------------------------------------------------------------- search

  predicate StartsWith(s: string, prefix: string) { |prefix| <= |s| && s[..|prefix|] == prefix }

  predicate EndsWith(s: string, suffix: string) { |suffix| <= |s| && s[|s| - |suffix|..] == suffix }

  predicate OccursAt(hay: string, needle: string, i: int) {
    0 <= i && i + |needle| <= |hay| && hay[i..i + |needle|] == needle
  }

  /** Python `needle in hay`. */
  predicate Contains(hay: string, needle: string) {
    exists i :: 0 <= i <= |hay| - |needle| && OccursAt(hay, needle, i)
  }

  function FindFrom(hay: string, needle: string, k: nat): (r: int)
    ensures r == -1 || (k <= r && OccursAt(hay, needle, r))
    ensures r == -1 ==> forall i :: k <= i ==> !OccursAt(hay, needle, i)
    ensures r != -1 ==> forall i :: k <= i < r ==> !OccursAt(hay, needle, i)
    decreases |hay| - k
  {
    if k + |needle| > |hay| then -1
    else if hay[k..k + |needle|] == needle then k
    else FindFrom(hay, needle, k + 1)
  }

  /** Python `hay.find(needle)`: the first occurrence, or -1. */
  function Find(hay: string, needle: string): (r: int)
    ensures r == -1 <==> !Contains(hay, needle)
    ensures r != -1 ==> OccursAt(hay, needle, r) && forall i :: 0 <= i < r ==> !OccursAt(hay, needle, i)
  {
    FindFrom(hay, needle, 0)
  }

  /** Python `s.rfind(c)`: the last index of `c`, or -1. */
  function LastIndexOf(s: string, c: char): (r: int)
    ensures -1 <= r < |s|
    ensures r >= 0 ==> s[r] == c
    ensures forall i :: r < i < |s| ==> s[i] != c
  {
    if s == [] then -1 else if s[|s| - 1] == c then |s| - 1 else LastIndexOf(s[..|s| - 1], c)
  }

  /** Where the first `c` in `s` is, or `|s|` if there is none. */
  function IndexOf(s: string, c: char): (r: nat)
    ensures r <= |s|
    ensures r < |s| ==> s[r] == c
    ensures forall i :: 0 <= i < r ==> s[i] != c
  {
    if s == [] || s[0] == c then 0 else 1 + IndexOf(s[1..], c)
  }

  // ---------------------------------------------------------------- splitting

  predicate IsWord(w: string) { w != [] && All(w, NotSpace) }

  /** Python `s.split()`: the maximal runs of non-whitespace, in order. */
  function SplitWords(s: string): (ws: seq<string>)
    ensures forall k :: 0 <= k < |ws| ==> IsWord(ws[k])
    decreases |s|
  {
    var t := TrimLeft(s, IsSpace);
    if t == [] then []
    else
      var n := LeadingRun(t, NotSpace);
      assert n >= 1;
      var w := t[..n];
      assert All(w, NotSpace) by { forall i | 0 <= i < |w| ensures NotSpace(w[i]) { assert w[i] == t[i]; } }
      var rest := SplitWords(t[n..]);
      assert forall k :: 0 <= k < |rest| ==> IsWord(rest[k]);
      [w] + rest
  }

  /** Python `s.splitlines()`: no trailing empty line, "\r\n" is one break. */
  function SplitLines(s: string): (lines: seq<string>)
    ensures forall k :: 0 <= k < |lines| ==> All(lines[k], NotLineBreak)
    decreases |s|
  {
    if s == [] then []
    else
      var n := LeadingRun(s, NotLineBreak);
      if n == |s| then [s]
      else
        var brk := if s[n] == '\r' && n + 1 < |s| && s[n + 1] == '\n' then 2 else 1;
        [s[..n]] + SplitLines(s[n + brk..])
  }

  /** Python `s.split(sep)` for a one-character separator: empty fields are kept. */
  function SplitOn(s: string, sep: char): (parts: seq<string>)
    ensures |parts| >= 1
    ensures forall k :: 0 <= k < |parts| ==> sep !in parts[k]
    decreases |s|
  {
    var n := IndexOf(s, sep);
    if n == |s| then [s] else [s[..n]] + SplitOn(s[n + 1..], sep)
  }

  /** Python `sep.join(parts)`. */
  function Join(sep: string, parts: seq<string>): string {
    if parts == [] then "" else if |parts| == 1 then parts[0] else parts[0] + sep + Join(sep, parts[1..])
  }

  /** Python `s.replace(a, b)` for single characters. */
  function ReplaceChar(s: string, a: char, b: char): (r: string)
    ensures |r| == |s| && forall i :: 0 <= i < |s| ==> r[i] == if s[i] == a then b else s[i]
  {
    seq(|s|, i requires 0 <= i < |s| => if s[i] == a then b else s[i])
  }

  // ---------------------------------------------------------------- slicing

  /** Python `[x for x in s if p(x)]`. */
  function Filter<T>(s: seq<T>, p: T -> bool): (r: seq<T>)
    ensures |r| <= |s|
    ensures forall k :: 0 <= k < |r| ==> p(r[k]) && r[k] in s
    ensures (forall k :: 0 <= k < |s| ==> p(s[k])) ==> r == s
    decreases |s|
  {
    if s == [] then []
    else
      var init := s[..|s| - 1];
      var r := Filter(init, p);
      assert forall k :: 0 <= k < |r| ==> r[k] in s by {
        forall k | 0 <= k < |r| ensures r[k] in s { assert r[k] in init; }
      }
      assert s == init + [s[|s| - 1]];
      r + (if p(s[|s| - 1]) then [s[|s| - 1]] else [])
  }

  /** Python `s[:k]`: a negative `k` counts from the end. */
  function PrefixTo<T>(s: seq<T>, k: int): (r: seq<T>)
    ensures |r| == if k >= 0 then Min(k, |s|) else Max(0, |s| + k)
    ensures r == s[..|r|]
  {
    if k >= 0 then s[..Min(k, |s|)] else s[..Max(0, |s| + k)]
  }

  /** Python `s[i:j]` for `i >= 0`: a negative `j` counts from the end, and crossed bounds give nothing. */
  function Slice<T>(s: seq<T>, i: nat, j: int): (r: seq<T>)
    ensures i <= j <= |s| ==> r == s[i..j]
    ensures 0 <= j <= i ==> r == []
    ensures |r| <= |s|
  {
    var e := if j < 0 then Max(0, |s| + j) else Min(j, |s|);
    if i < e then s[i..e] else []
  }

  /** Python `s[:n]` for `n >= 0`. */
  function Take<T>(s: seq<T>, n: nat): (r: seq<T>)
    ensures |r| == Min(n, |s|) && r == s[..|r|]
  {
    s[..Min(n, |s|)]
  }

  // ---------------------------------------------------------------- numbers

  function DigitChar(d: nat): char
    requires d < 10
  {
    "0123456789"[d]
  }

  /** Python `str(n)` for an `int`. */
  function IntToString(i: int): (r: string)
    ensures r != []
    decreases if i < 0 then 1 - i else i
  {
    if i < 0 then "-" + IntToString(-i)
    else if i < 10 then [DigitChar(i)]
    else IntToString(i / 10) + [DigitChar(i % 10)]
  }

  predicate IsDigit(c: char) { '0' <= c <= '9' }

  /** The number a string of decimal digits denotes (`int(s)` for such a string). */
  function DecimalValue(s: string): nat
    requires All(s, IsDigit)
  {
    if s == [] then 0
    else
      assert All(s[..|s| - 1], IsDigit) by { assert forall i :: 0 <= i < |s| - 1 ==> s[..|s| - 1][i] == s[i]; }
      10 * DecimalValue(s[..|s| - 1]) + (s[|s| - 1] as int - '0' as int)
  }

  lemma DigitCharValue(d: nat)
    requires d < 10
    ensures IsDigit(DigitChar(d)) && DigitChar(d) as int - '0' as int == d
  {
  }

  /** `str(n)` of a non-negative number is all digits and reads back as `n`. */
  lemma {:induction false} IntToStringDecimal(n: nat)
    ensures All(IntToString(n), IsDigit) && DecimalValue(IntToString(n)) == n
    decreases n
  {
    if n < 10 {
      DigitCharValue(n);
      assert IntToString(n)[..0] == [];
    } else {
      var init := IntToString(n / 10);
      IntToStringDecimal(n / 10);
      DigitCharValue(n % 10);
      var s := IntToString(n);
      assert s == init + [DigitChar(n % 10)];
      assert s[..|s| - 1] == init;
    }
  }

  // ---------------------------------------------------------------- lemmas

  /** `split(sep)` and `join` with that separator are inverse: the fields and separators rebuild the input. */
  lemma {:induction false} SplitOnJoin(s: string, sep: char)
    ensures Join([sep], SplitOn(s, sep)) == s
    decreases |s|
  {
    var n := IndexOf(s, sep);
    if n < |s| {
      var rest := SplitOn(s[n + 1..], sep);
      SplitOnJoin(s[n + 1..], sep);
      SplitOnStep(s, sep);
      JoinCons([sep], s[..n], rest);
    }
  }

  /** One field of `split(sep)`: the text up to the first separator. */
  lemma SplitOnStep(s: string, sep: char)
    requires IndexOf(s, sep) < |s|
    ensures var n := IndexOf(s, sep);
            && SplitOn(s, sep) == [s[..n]] + SplitOn(s[n + 1..], sep)
            && s == s[..n] + [sep] + s[n + 1..]
  {
    var n := IndexOf(s, sep);
    SplitOnUnfold(s, sep, n);
    SplitAround(s, n);
  }

  lemma SplitOnUnfold(s: string, sep: char, n: nat)
    requires n == IndexOf(s, sep) && n < |s|
    ensures SplitOn(s, sep) == [s[..n]] + SplitOn(s[n + 1..], sep)
  {
  }

  /** The head and the tail of a sequence with one element put in front. */
  lemma ConsParts<T>(x: T, s: seq<T>)
    ensures ([x] + s)[0] == x && ([x] + s)[1..] == s
  {
  }

  /** A prefix one longer is the prefix and the next element. */
  lemma Extend<T>(s: seq<T>, i: nat)
    requires i < |s|
    ensures s[..i + 1] == s[..i] + [s[i]]
  {
  }

  /** A sequence is the part before an index, the element there and the part after it. */
  lemma SplitAround<T>(s: seq<T>, n: nat)
    requires n < |s|
    ensures s == s[..n] + [s[n]] + s[n + 1..]
  {
    assert s[..n] + [s[n]] == s[..n + 1];
  }

  /** Joining fields without the separator and splitting again gives the fields back. */
  lemma {:induction false} JoinSplitOn(parts: seq<string>, sep: char)
    requires parts != [] && forall k :: 0 <= k < |parts| ==> sep !in parts[k]
    ensures SplitOn(Join([sep], parts), sep) == parts
    decreases |parts|
  {
    var p0 := parts[0];
    if |parts| == 1 {
      assert IndexOf(p0, sep) == |p0|;
    } else {
      var rest := parts[1..];
      JoinCons([sep], p0, rest);
      var s := Join([sep], parts);
      assert s == p0 + [sep] + Join([sep], rest);
      assert s[|p0|] == sep;
      assert forall i :: 0 <= i < |p0| ==> s[i] == p0[i];
      assert IndexOf(s, sep) == |p0|;
      SplitOnStep(s, sep);
      assert s[..|p0|] == p0 && s[|p0| + 1..] == Join([sep], rest);
      JoinSplitOn(rest, sep);
      assert parts == [p0] + rest;
    }
  }

  /** A join of fields and a separator drawn from one class of characters stays in that class. */
  lemma {:induction false} JoinAll(sep: string, parts: seq<string>, p: char -> bool)
    requires All(sep, p) && forall k :: 0 <= k < |parts| ==> All(parts[k], p)
    ensures All(Join(sep, parts), p)
    decreases |parts|
  {
    if |parts| > 1 {
      JoinAll(sep, parts[1..], p);
      var s := parts[0] + sep + Join(sep, parts[1..]);
      assert All(s, p) by {
        forall i | 0 <= i < |s| ensures p(s[i]) {
          if i < |parts[0]| { assert s[i] == parts[0][i]; }
          else if i < |parts[0]| + |sep| { assert s[i] == sep[i - |parts[0]|]; }
          else { assert s[i] == Join(sep, parts[1..])[i - |parts[0]| - |sep|]; }
        }
      }
    }
  }

  lemma JoinCons(sep: string, a: string, rest: seq<string>)
    requires rest != []
    ensures Join(sep, [a] + rest) == a + sep + Join(sep, rest)
  {
    assert ([a] + rest)[1..] == rest;
  }

  /** Lines without breaks, joined by "\n", split back into themselves when the last one is not empty. */
  lemma {:induction false} JoinSplitLines(lines: seq<string>)
    requires forall k :: 0 <= k < |lines| ==> All(lines[k], NotLineBreak)
    requires lines != [] ==> lines[|lines| - 1] != []
    ensures SplitLines(Join("\n", lines)) == lines
    decreases |lines|
  {
    if |lines| == 1 {
      SplitLinesSingle(lines[0]);
    } else if |lines| > 1 {
      var l0, rest := lines[0], lines[1..];
      JoinCons("\n", l0, rest);
      var s := Join("\n", lines);
      assert s == l0 + "\n" + Join("\n", rest);
      assert s[|l0|] == '\n';
      assert forall i :: 0 <= i < |l0| ==> s[i] == l0[i];
      assert LeadingRun(s, NotLineBreak) == |l0| by {
        LeadingRunAt(s, NotLineBreak, |l0|);
      }
      assert s[..|l0|] == l0 && s[|l0| + 1..] == Join("\n", rest);
      JoinSplitLines(rest);
      assert lines == [l0] + rest;
    }
  }

  /** The run of `p` ends at the first character that fails it. */
  lemma {:induction false} LeadingRunAt(s: string, p: char -> bool, n: nat)
    requires n < |s| && !p(s[n]) && forall i :: 0 <= i < n ==> p(s[i])
    ensures LeadingRun(s, p) == n
    decreases n
  {
    if n > 0 {
      LeadingRunAt(s[1..], p, n - 1);
    }
  }

  /** A string without line breaks is a single line (none if it is empty). */
  lemma SplitLinesSingle(s: string)
    requires All(s, NotLineBreak)
    ensures SplitLines(s) == if s == [] then [] else [s]
  {
    if s != [] {
      assert LeadingRun(s, NotLineBreak) == |s|;
    }
  }

  /** Stripping keeps only characters of the input, so a property of every character survives it. */
  lemma TrimKeeps(s: string, p: char -> bool, q: char -> bool)
    requires All(s, q)
    ensures All(Trim(s, p), q)
  {
    var t := TrimLeft(s, p);
    assert All(t, q) by { forall i | 0 <= i < |t| ensures q(t[i]) { assert t[i] == s[|s| - |t| + i]; } }
    var r := TrimRight(t, p);
    assert All(r, q) by { forall i | 0 <= i < |r| ensures q(r[i]) { assert r[i] == t[i]; } }
  }

  /** A string whose ends are outside the stripped class is left as it is. */
  lemma TrimUnpadded(s: string, p: char -> bool)
    requires s == [] || (!p(s[0]) && !p(s[|s| - 1]))
    ensures Trim(s, p) == s
  {
    if s != [] {
      assert LeadingRun(s, p) == 0;
      assert TrailingRun(s, p) == 0;
    }
  }

  /** A string with no whitespace at either end is its own `strip()`. */
  lemma StripUnpadded(s: string)
    requires s == [] || (!IsSpace(s[0]) && !IsSpace(s[|s| - 1]))
    ensures Strip(s) == s
  {
    TrimUnpadded(s, IsSpace);
  }

  /** Stripping leaves a minus sign followed by digits alone. */
  lemma SignedUnpadded(d: string)
    requires d != [] && IsDigit(d[|d| - 1])
    ensures Strip("-" + d) == "-" + d
    ensures Trim("-" + d, IsNumberSpace) == "-" + d
  {
    var s := "-" + d;
    assert s[|s| - 1] == d[|d| - 1];
    StripUnpadded(s);
    NumberUnpadded(s);
  }

  /** Text with no whitespace at either end is left alone by the number strip too. */
  lemma NumberUnpadded(s: string)
    requires s == [] || (!IsSpace(s[0]) && !IsSpace(s[|s| - 1]))
    ensures Trim(s, IsNumberSpace) == s
  {
    TrimUnpadded(s, IsNumberSpace);
  }

  /** Filtering distributes over concatenation: the kept elements stay in their order. */
  lemma {:induction false} FilterAppend<T>(a: seq<T>, b: seq<T>, p: T -> bool)
    ensures Filter(a + b, p) == Filter(a, p) + Filter(b, p)
    decreases |b|
  {
    if b == [] {
      assert a + b == a;
    } else {
      var b' := b[..|b| - 1];
      FilterAppend(a, b', p);
      assert (a + b)[..|a + b| - 1] == a + b';
      assert (a + b)[|a + b| - 1] == b[|b| - 1];
      var tail := if p(b[|b| - 1]) then [b[|b| - 1]] else [];
      assert Filter(a + b, p) == Filter(a + b', p) + tail;
      assert Filter(b, p) == Filter(b', p) + tail;
    }
  }

  /** Filtering out every element leaves nothing. */
  lemma {:induction false} FilterNone<T>(s: seq<T>, p: T -> bool)
    requires forall k :: 0 <= k < |s| ==> !p(s[k])
    ensures Filter(s, p) == []
    decreases |s|
  {
    if s != [] {
      FilterNone(s[..|s| - 1], p);
    }
  }
}
