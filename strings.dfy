/**
 * Character classes and string helpers shared by the line parsers: the ASCII
 * part of Python's `\w`, `\s` and `\d`, `str.strip`, line iteration over a text
 * file, and the decimal conversions behind `int(...)` and `str(...)`.
 */
module Strings {

  /** Python's `\w`, restricted to ASCII: letters, digits and the underscore. */
  predicate IsWordChar(c: char) {
    ('a' <= c <= 'z') || ('A' <= c <= 'Z') || ('0' <= c <= '9') || c == '_'
  }

  /** The ASCII whitespace of Python's `\s` and `str.strip`: space, \t \n \v \f \r and \x1c-\x1f. */
  predicate IsSpace(c: char) {
    c == ' ' || ('\t' <= c <= '\r') || ('\U{1C}' <= c <= '\U{1F}')
  }

  predicate IsNonSpace(c: char) { !IsSpace(c) }

  /** Python's `\d`, restricted to ASCII. */
  predicate IsDigit(c: char) { '0' <= c <= '9' }

  predicate IsHexDigit(c: char) {
    ('0' <= c <= '9') || ('a' <= c <= 'f') || ('A' <= c <= 'F')
  }

  /** The characters at which a text file is split into lines. */
  predicate IsLineBreak(c: char) { c == '\n' || c == '\r' }

  predicate IsNotLineBreak(c: char) { !IsLineBreak(c) }

  predicate IsNotQuote(c: char) { c != '"' }

  predicate NoLineBreak(s: string) {
    forall i :: 0 <= i < |s| ==> !IsLineBreak(s[i])
  }

  predicate IsDigits(s: string) {
    forall i :: 0 <= i < |s| ==> IsDigit(s[i])
  }

  predicate StartsWith(s: string, prefix: string) {
    |prefix| <= |s| && s[..|prefix|] == prefix
  }

  /** Length of the longest prefix of `s` whose characters all satisfy `p`. */
  function Span(s: string, p: char -> bool): (n: nat)
    ensures n <= |s|
    ensures forall i :: 0 <= i < n ==> p(s[i])
    ensures n == |s| || !p(s[n])
    decreases |s|
  {
    if s == [] || !p(s[0]) then 0 else 1 + Span(s[1..], p)
  }

  /** The two postconditions of `Span` determine it. */
  lemma SpanIs(s: string, p: char -> bool, n: nat)
    requires n <= |s|
    requires forall i :: 0 <= i < n ==> p(s[i])
    requires n == |s| || !p(s[n])
    ensures Span(s, p) == n
  {
  }

  /** Python's `str.lstrip()`. */
  function TrimStart(s: string): (r: string)
    ensures |r| <= |s| && r == s[|s| - |r|..]
    ensures forall i :: 0 <= i < |s| - |r| ==> IsSpace(s[i])
    ensures r == [] || !IsSpace(r[0])
    decreases |s|
  {
    if s != [] && IsSpace(s[0]) then TrimStart(s[1..]) else s
  }

  /** Python's `str.rstrip()`. */
  function TrimEnd(s: string): (r: string)
    ensures |r| <= |s| && r == s[..|r|]
    ensures forall i :: |r| <= i < |s| ==> IsSpace(s[i])
    ensures r == [] || !IsSpace(r[|r| - 1])
    decreases |s|
  {
    if s != [] && IsSpace(s[|s| - 1]) then TrimEnd(s[..|s| - 1]) else s
  }

  /** Python's `str.strip()`: the text between the leading and the trailing whitespace. */
  function Strip(s: string): (r: string)
    ensures exists i, j ::
      && 0 <= i <= j <= |s| && r == s[i..j]
      && (forall x :: 0 <= x < i ==> IsSpace(s[x]))
      && (forall x :: j <= x < |s| ==> IsSpace(s[x]))
    ensures r == [] || (!IsSpace(r[0]) && !IsSpace(r[|r| - 1]))
  {
    var t := TrimStart(s);
    var r := TrimEnd(t);
    StripWitness(s, t, r);
    r
  }

  /** The ends `strip()` drops are whitespace: those `TrimStart` dropped, then those `TrimEnd` dropped. */
  lemma StripWitness(s: string, t: string, r: string)
    requires |t| <= |s| && t == s[|s| - |t|..] && forall x :: 0 <= x < |s| - |t| ==> IsSpace(s[x])
    requires |r| <= |t| && r == t[..|r|] && forall x :: |r| <= x < |t| ==> IsSpace(t[x])
    ensures exists i, j ::
      && 0 <= i <= j <= |s| && r == s[i..j]
      && (forall x :: 0 <= x < i ==> IsSpace(s[x]))
      && (forall x :: j <= x < |s| ==> IsSpace(s[x]))
  {
    var i := |s| - |t|;
    var j := i + |r|;
    forall x | j <= x < |s| ensures IsSpace(s[x]) {
      assert s[x] == t[x - i];
    }
    assert r == s[i..j];
  }

  /** A string that neither starts nor ends with whitespace is its own `strip()`. */
  lemma StripUnchanged(s: string)
    requires s != [] && !IsSpace(s[0]) && !IsSpace(s[|s| - 1])
    ensures Strip(s) == s
  {
    assert TrimStart(s) == s;
    assert TrimEnd(s) == s;
  }

  lemma NoLineBreakConcat(a: string, b: string)
    requires NoLineBreak(a) && NoLineBreak(b)
    ensures NoLineBreak(a + b)
  {
    forall i | 0 <= i < |a + b| ensures !IsLineBreak((a + b)[i]) {
      if i >= |a| {
        assert (a + b)[i] == b[i - |a|];
      }
    }
  }

  /** A piece of a string without line breaks has none either. */
  lemma NoLineBreakInfix(a: string, b: string, c: string)
    requires NoLineBreak(a + b + c)
    ensures NoLineBreak(b)
  {
    forall i | 0 <= i < |b| ensures !IsLineBreak(b[i]) {
      assert (a + b + c)[|a| + i] == b[i];
    }
  }

  /** The text between two quotes of a line without line breaks has none either. */
  lemma NoLineBreakQuoted(a: string, v: string, b: string)
    requires NoLineBreak(a + ("\"" + v + "\"") + b)
    ensures NoLineBreak(v)
  {
    var s := a + ("\"" + v + "\"") + b;
    forall i | 0 <= i < |v| ensures !IsLineBreak(v[i]) {
      assert s[|a| + 1 + i] == v[i];
    }
  }

  lemma StripNoLineBreak(s: string)
    requires NoLineBreak(s)
    ensures NoLineBreak(Strip(s))
  {
    var i, j :| 0 <= i <= j <= |s| && Strip(s) == s[i..j];
    assert s == s[..i] + s[i..j] + s[j..];
    NoLineBreakInfix(s[..i], s[i..j], s[j..]);
  }

  /**
   * The lines of a text file, as `for line in f` yields them once stripped:
   * the text is cut at every line break and the break itself is dropped.
   * Python reads "\r\n" as one break; cutting at '\r' and at '\n' separately
   * yields one extra empty line there, which every parser here skips.
   */
  function Lines(s: string): (ls: seq<string>)
    ensures forall i :: 0 <= i < |ls| ==> NoLineBreak(ls[i])
    decreases |s|
  {
    if s == [] then []
    else
      var n := Span(s, IsNotLineBreak);
      if n == |s| then [s] else [s[..n]] + Lines(s[n + 1..])
  }

  /** The text written by one `f.write(line + "\n")` per line. */
  function Join(ls: seq<string>): string {
    if ls == [] then "" else ls[0] + "\n" + Join(ls[1..])
  }

  lemma {:induction false} JoinAppend(a: seq<string>, b: seq<string>)
    ensures Join(a + b) == Join(a) + Join(b)
    decreases |a|
  {
    if a != [] {
      assert (a + b)[1..] == a[1..] + b;
      JoinAppend(a[1..], b);
    } else {
      assert a + b == b;
    }
  }

  /** Writing one more line appends it and its newline to the text. */
  lemma JoinSnoc(ls: seq<string>, l: string)
    ensures Join(ls + [l]) == Join(ls) + l + "\n"
  {
    JoinAppend(ls, [l]);
    assert Join([l]) == l + "\n" + Join([]);
  }

  /** Reading back what was written line by line gives the same lines. */
  lemma {:induction false} LinesOfJoin(ls: seq<string>)
    requires forall i :: 0 <= i < |ls| ==> NoLineBreak(ls[i])
    ensures Lines(Join(ls)) == ls
    decreases |ls|
  {
    if ls != [] {
      var s := Join(ls);
      var l := ls[0];
      assert s == l + "\n" + Join(ls[1..]);
      assert s[|l|] == '\n';
      SpanIs(s, IsNotLineBreak, |l|);
      assert s[..|l|] == l;
      assert s[|l| + 1..] == Join(ls[1..]);
      LinesOfJoin(ls[1..]);
    }
  }

  function DigitValue(c: char): nat
    requires IsDigit(c)
  {
    c as int - '0' as int
  }

  function DigitChar(d: nat): (c: char)
    requires d < 10
    ensures IsDigit(c) && DigitValue(c) == d
  {
    ('0' as int + d) as char
  }

  /** Python's `int(ds)` for a string of ASCII digits (leading zeros allowed). */
  function DecimalValue(ds: string): nat
    requires IsDigits(ds)
    decreases |ds|
  {
    if ds == [] then 0 else 10 * DecimalValue(ds[..|ds| - 1]) + DigitValue(ds[|ds| - 1])
  }

  /** Python's `str(n)` for a non-negative integer; `int` reads its digits back as `n`. */
  function Decimal(n: nat): (ds: string)
    ensures |ds| > 0 && IsDigits(ds)
    ensures ds[0] != '0' || n == 0
    ensures DecimalValue(ds) == n
    decreases n
  {
    if n < 10 then [DigitChar(n)]
    else
      var init := Decimal(n / 10);
      var ds := init + [DigitChar(n % 10)];
      assert ds[..|ds| - 1] == init;
      ds
  }
}
