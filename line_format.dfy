/**
 * The line grammar shared by the settings file, the targets file and the
 * legacy single-file format. Each regular expression of the source, applied
 * with `re.match` (anchored at the start of the stripped line only), is a
 * deterministic scanner here. Next to each scanner stands a declarative
 * "layout" predicate saying how a matching line is put together, and a lemma
 * proving that the scanner accepts exactly those lines, with those groups.
 */
module LineFormat {
  import opened Wrappers
  import opened Strings

  /** A target record, `{"value": ..., "desc": ...}`; `desc` is "" when absent. */
  datatype TargetInfo = TargetInfo(value: string, desc: string)

  const SecretPrefix: string := "secret:"
  const NumberPrefix: string := "num:"
  const ThemePrefix: string := "theme:"
  const TargetPrefix: string := "target:"

  /** A `(\w+)` group. */
  predicate IsKey(k: string) {
    |k| > 0 && forall i :: 0 <= i < |k| ==> IsWordChar(k[i])
  }

  /** A `\s+` run. */
  predicate IsSpaces(ws: string) {
    |ws| > 0 && forall i :: 0 <= i < |ws| ==> IsSpace(ws[i])
  }

  /** A `([^"]+)` group: at least one character, and no double quote. */
  predicate IsQuotable(v: string) {
    |v| > 0 && forall i :: 0 <= i < |v| ==> v[i] != '"'
  }

  /** A `(#[0-9a-fA-F]{6})` group. */
  predicate IsColor(c: string) {
    |c| == 7 && c[0] == '#' && forall i :: 1 <= i < 7 ==> IsHexDigit(c[i])
  }

  function Quote(v: string): string {
    "\"" + v + "\""
  }

  // ---------------------------------------------------------------- scanners

  /** `(\w+)\s+` at the start of `s`: the key, the whitespace, and the rest. */
  function KeyThenSpace(s: string): (r: Option<(string, string, string)>)
    ensures r.Some? ==> IsKey(r.value.0) && IsSpaces(r.value.1)
    ensures r.Some? ==> r.value.2 == [] || !IsSpace(r.value.2[0])
    ensures r.Some? ==> s == r.value.0 + r.value.1 + r.value.2
  {
    var k := Span(s, IsWordChar);
    if k == 0 then None
    else
      var w := Span(s[k..], IsSpace);
      if w == 0 then None
      else
        KeyThenSpaceParts(s, k, w);
        Some((s[..k], s[k..k + w], s[k + w..]))
  }

  lemma KeyThenSpaceParts(s: string, k: nat, w: nat)
    requires 0 < k <= |s| && k == Span(s, IsWordChar) && 0 < w && w == Span(s[k..], IsSpace)
    ensures IsKey(s[..k]) && IsSpaces(s[k..k + w])
    ensures s[k + w..] == [] || !IsSpace(s[k + w..][0])
    ensures s == s[..k] + s[k..k + w] + s[k + w..]
  {
    KeyPart(s, k);
    SpacePart(s[k..], w);
    SliceOfSlice(s, k, w);
  }

  lemma KeyPart(s: string, k: nat)
    requires 0 < k <= |s| && k == Span(s, IsWordChar)
    ensures IsKey(s[..k])
  {
    forall i | 0 <= i < k ensures IsWordChar(s[..k][i]) {
      assert s[..k][i] == s[i];
    }
  }

  lemma SpacePart(t: string, w: nat)
    requires 0 < w && w == Span(t, IsSpace)
    ensures IsSpaces(t[..w]) && (t[w..] == [] || !IsSpace(t[w..][0]))
  {
    forall i | 0 <= i < w ensures IsSpace(t[..w][i]) {
      assert t[..w][i] == t[i];
    }
  }

  lemma SliceOfSlice(s: string, k: nat, w: nat)
    requires k + w <= |s|
    ensures s[k..][..w] == s[k..k + w] && s[k..][w..] == s[k + w..]
    ensures s == s[..k] + s[k..k + w] + s[k + w..]
  {
  }

  /** `"([^"]+)"` at the start of `s`: the quoted text and the rest. */
  function Quoted(s: string): (r: Option<(string, string)>)
    ensures r.Some? ==> IsQuotable(r.value.0) && s == Quote(r.value.0) + r.value.1
  {
    if s == [] || s[0] != '"' then None
    else
      var n := Span(s[1..], IsNotQuote);
      if n == 0 || n + 1 == |s| then None
      else
        assert s == [s[0]] + s[1..n + 1] + [s[n + 1]] + s[n + 2..];
        Some((s[1..n + 1], s[n + 2..]))
  }

  /** `secret:(\w+)\s+"([^"]+)"`. */
  function MatchSecret(line: string): Option<(string, string)> {
    if !StartsWith(line, SecretPrefix) then None
    else
      match KeyThenSpace(line[|SecretPrefix|..])
      case None => None
      case Some((k, _, rest)) =>
        match Quoted(rest)
        case None => None
        case Some((v, _)) => Some((k, v))
  }

  /** `num:(\w+)\s+(\d+)`, the digits read by `int`. */
  function MatchNumber(line: string): Option<(string, nat)> {
    if !StartsWith(line, NumberPrefix) then None
    else
      match KeyThenSpace(line[|NumberPrefix|..])
      case None => None
      case Some((k, _, rest)) =>
        var n := Span(rest, IsDigit);
        if n == 0 then None else Some((k, DecimalValue(rest[..n])))
  }

  /** `theme:(\w+)\s+(#[0-9a-fA-F]{6})`; the value keeps its '#'. */
  function MatchTheme(line: string): Option<(string, string)> {
    if !StartsWith(line, ThemePrefix) then None
    else
      match KeyThenSpace(line[|ThemePrefix|..])
      case None => None
      case Some((k, _, rest)) =>
        if |rest| >= 7 && IsColor(rest[..7]) then Some((k, rest[..7])) else None
  }

  /** `(?:\s+"([^"]+)")?`: the optional description, "" when the group does not match. */
  function OptionalDesc(s: string): string {
    var w := Span(s, IsSpace);
    if w == 0 then ""
    else
      match Quoted(s[w..])
      case None => ""
      case Some((d, _)) => d
  }

  /**
   * `<prefix>(\w+)\s+"([^"]+)"(?:\s+"([^"]+)")?` with `desc or ""`: the targets
   * file uses the empty prefix, the legacy format the prefix "target:".
   */
  function MatchTarget(prefix: string, line: string): Option<(string, TargetInfo)> {
    if !StartsWith(line, prefix) then None
    else
      match KeyThenSpace(line[|prefix|..])
      case None => None
      case Some((k, _, rest)) =>
        match Quoted(rest)
        case None => None
        case Some((v, tail)) => Some((k, TargetInfo(v, OptionalDesc(tail))))
  }

  // ------------------------------------------------------ declarative layouts

  ghost predicate SecretLayout(line: string, k: string, ws: string, v: string, tail: string) {
    IsKey(k) && IsSpaces(ws) && IsQuotable(v) && line == SecretPrefix + k + ws + Quote(v) + tail
  }

  /** `line` starts with a match of the secret pattern whose groups are `k` and `v`. */
  ghost predicate SecretShape(line: string, k: string, v: string) {
    exists ws, tail :: SecretLayout(line, k, ws, v, tail)
  }

  /** The digit group is greedy: what follows it is not a digit. */
  ghost predicate NumberLayout(line: string, k: string, ws: string, ds: string, tail: string) {
    && IsKey(k) && IsSpaces(ws) && |ds| > 0 && IsDigits(ds)
    && (tail == [] || !IsDigit(tail[0]))
    && line == NumberPrefix + k + ws + ds + tail
  }

  ghost predicate NumberShape(line: string, k: string, n: nat) {
    exists ws, ds, tail :: NumberLayout(line, k, ws, ds, tail) && DecimalValue(ds) == n
  }

  ghost predicate ThemeLayout(line: string, k: string, ws: string, c: string, tail: string) {
    IsKey(k) && IsSpaces(ws) && IsColor(c) && line == ThemePrefix + k + ws + c + tail
  }

  ghost predicate ThemeShape(line: string, k: string, c: string) {
    exists ws, tail :: ThemeLayout(line, k, ws, c, tail)
  }

  ghost predicate DescLayout(s: string, ws: string, d: string, tail: string) {
    IsSpaces(ws) && IsQuotable(d) && s == ws + Quote(d) + tail
  }

  /** `s` starts with whitespace and a quoted, non-empty description. */
  ghost predicate HasDesc(s: string) {
    exists ws, d, tail :: DescLayout(s, ws, d, tail)
  }

  /** The optional group of `s` yields `d`: it matches with `d`, or, for "", it cannot match. */
  ghost predicate DescShape(s: string, d: string) {
    if d == "" then !HasDesc(s) else exists ws, tail :: DescLayout(s, ws, d, tail)
  }

  ghost predicate TargetLayout(prefix: string, line: string, k: string, ws: string, v: string, tail: string) {
    IsKey(k) && IsSpaces(ws) && IsQuotable(v) && line == prefix + k + ws + Quote(v) + tail
  }

  ghost predicate TargetShape(prefix: string, line: string, k: string, t: TargetInfo) {
    exists ws, tail :: TargetLayout(prefix, line, k, ws, t.value, tail) && DescShape(tail, t.desc)
  }

  // ----------------------------------------------------- scanner = layout

  /** A line built from a prefix and four pieces starts with the prefix, the rest being the pieces. */
  lemma AfterPrefix(p: string, k: string, ws: string, q: string, tail: string)
    ensures var line := p + k + ws + q + tail;
      StartsWith(line, p) && line[|p|..] == k + ws + (q + tail)
  {
    var line := p + k + ws + q + tail;
    assert line == p + (k + ws + (q + tail));
  }

  /** The greedy digit run of a number followed by a non-digit. */
  lemma DigitsThenTail(ds: string, tail: string)
    requires IsDigits(ds) && (tail == [] || !IsDigit(tail[0]))
    ensures Span(ds + tail, IsDigit) == |ds| && (ds + tail)[..|ds|] == ds
  {
    SpanIs(ds + tail, IsDigit, |ds|);
  }

  lemma SplitPrefix(line: string, prefix: string)
    requires StartsWith(line, prefix)
    ensures line == prefix + line[|prefix|..]
  {
  }

  /** The pieces a scanner cuts a line into, put back together. */
  lemma Concat5(line: string, p: string, k: string, ws: string, q: string, tail: string, s: string, rest: string)
    requires line == p + s && s == k + ws + rest && rest == q + tail
    ensures line == p + k + ws + q + tail
  {
  }

  lemma KeyThenSpaceOf(k: string, ws: string, rest: string)
    requires IsKey(k) && IsSpaces(ws) && (rest == [] || !IsSpace(rest[0]))
    ensures KeyThenSpace(k + ws + rest) == Some((k, ws, rest))
  {
    var s := k + ws + rest;
    SpanIs(s, IsWordChar, |k|);
    assert s[|k|..] == ws + rest;
    SpanIs(ws + rest, IsSpace, |ws|);
    assert s[..|k|] == k;
    assert s[|k|..][..|ws|] == ws;
    assert s[|k| + |ws|..] == rest;
  }

  lemma QuotedOf(v: string, rest: string)
    requires IsQuotable(v)
    ensures Quoted(Quote(v) + rest) == Some((v, rest))
  {
    var s := Quote(v) + rest;
    assert s[1..] == v + ("\"" + rest);
    SpanIs(s[1..], IsNotQuote, |v|);
    assert s[1..|v| + 1] == v;
    assert s[|v| + 2..] == rest;
  }

  lemma MatchSecretOf(k: string, ws: string, v: string, tail: string)
    requires IsKey(k) && IsSpaces(ws) && IsQuotable(v)
    ensures MatchSecret(SecretPrefix + k + ws + Quote(v) + tail) == Some((k, v))
  {
    AfterPrefix(SecretPrefix, k, ws, Quote(v), tail);
    KeyThenSpaceOf(k, ws, Quote(v) + tail);
    QuotedOf(v, tail);
  }

  lemma MatchSecretSound(line: string) returns (ws: string, tail: string)
    requires MatchSecret(line).Some?
    ensures SecretLayout(line, MatchSecret(line).value.0, ws, MatchSecret(line).value.1, tail)
  {
    var s := line[|SecretPrefix|..];
    var r := KeyThenSpace(s).value;
    var q := Quoted(r.2).value;
    ws, tail := r.1, q.1;
    SplitPrefix(line, SecretPrefix);
    Concat5(line, SecretPrefix, r.0, ws, Quote(q.0), tail, s, r.2);
  }

  /** The secret scanner accepts exactly the lines of the secret layout, with its groups. */
  lemma MatchSecretExact(line: string, k: string, v: string)
    ensures MatchSecret(line) == Some((k, v)) <==> SecretShape(line, k, v)
  {
    if MatchSecret(line) == Some((k, v)) {
      var ws, tail := MatchSecretSound(line);
    }
    if SecretShape(line, k, v) {
      var ws, tail :| SecretLayout(line, k, ws, v, tail);
      MatchSecretOf(k, ws, v, tail);
    }
  }

  lemma MatchNumberOf(k: string, ws: string, ds: string, tail: string)
    requires NumberLayout(NumberPrefix + k + ws + ds + tail, k, ws, ds, tail)
    ensures MatchNumber(NumberPrefix + k + ws + ds + tail) == Some((k, DecimalValue(ds)))
  {
    AfterPrefix(NumberPrefix, k, ws, ds, tail);
    KeyThenSpaceOf(k, ws, ds + tail);
    DigitsThenTail(ds, tail);
  }

  lemma MatchNumberSound(line: string) returns (ws: string, ds: string, tail: string)
    requires MatchNumber(line).Some?
    ensures NumberLayout(line, MatchNumber(line).value.0, ws, ds, tail)
    ensures DecimalValue(ds) == MatchNumber(line).value.1
  {
    var s := line[|NumberPrefix|..];
    var r := KeyThenSpace(s).value;
    var m := Span(r.2, IsDigit);
    ws, ds, tail := r.1, r.2[..m], r.2[m..];
    assert IsDigits(ds) && |ds| > 0;
    assert tail == [] || !IsDigit(tail[0]) by {
      if tail != [] { assert tail[0] == r.2[m]; }
    }
    assert r.2 == ds + tail;
    SplitPrefix(line, NumberPrefix);
    Concat5(line, NumberPrefix, r.0, ws, ds, tail, s, r.2);
  }

  /** The number scanner accepts exactly the lines of the number layout, with its value. */
  lemma MatchNumberExact(line: string, k: string, n: nat)
    ensures MatchNumber(line) == Some((k, n)) <==> NumberShape(line, k, n)
  {
    if MatchNumber(line) == Some((k, n)) {
      var ws, ds, tail := MatchNumberSound(line);
    }
    if NumberShape(line, k, n) {
      var ws, ds, tail :| NumberLayout(line, k, ws, ds, tail) && DecimalValue(ds) == n;
      MatchNumberOf(k, ws, ds, tail);
    }
  }

  lemma MatchThemeOf(k: string, ws: string, c: string, tail: string)
    requires IsKey(k) && IsSpaces(ws) && IsColor(c)
    ensures MatchTheme(ThemePrefix + k + ws + c + tail) == Some((k, c))
  {
    AfterPrefix(ThemePrefix, k, ws, c, tail);
    KeyThenSpaceOf(k, ws, c + tail);
    assert (c + tail)[..7] == c;
  }

  lemma MatchThemeSound(line: string) returns (ws: string, tail: string)
    requires MatchTheme(line).Some?
    ensures ThemeLayout(line, MatchTheme(line).value.0, ws, MatchTheme(line).value.1, tail)
  {
    var s := line[|ThemePrefix|..];
    var r := KeyThenSpace(s).value;
    ws, tail := r.1, r.2[7..];
    assert r.2 == r.2[..7] + tail;
    SplitPrefix(line, ThemePrefix);
    Concat5(line, ThemePrefix, r.0, ws, r.2[..7], tail, s, r.2);
  }

  /** The theme scanner accepts exactly the lines of the theme layout, with its colour. */
  lemma MatchThemeExact(line: string, k: string, c: string)
    ensures MatchTheme(line) == Some((k, c)) <==> ThemeShape(line, k, c)
  {
    if MatchTheme(line) == Some((k, c)) {
      var ws, tail := MatchThemeSound(line);
    }
    if ThemeShape(line, k, c) {
      var ws, tail :| ThemeLayout(line, k, ws, c, tail);
      MatchThemeOf(k, ws, c, tail);
    }
  }

  lemma OptionalDescOf(ws: string, d: string, tail: string)
    requires DescLayout(ws + Quote(d) + tail, ws, d, tail)
    ensures OptionalDesc(ws + Quote(d) + tail) == d
  {
    var s := ws + Quote(d) + tail;
    assert s == ws + (Quote(d) + tail);
    SpanIs(s, IsSpace, |ws|);
    assert s[|ws|..] == Quote(d) + tail;
    QuotedOf(d, tail);
  }

  /** The optional description group is greedy: it yields `d` exactly when `DescShape` says so. */
  lemma OptionalDescExact(s: string, d: string)
    ensures OptionalDesc(s) == d <==> DescShape(s, d)
  {
    var w := Span(s, IsSpace);
    if w > 0 && Quoted(s[w..]).Some? {
      var (d', tail) := Quoted(s[w..]).value;
      assert s == s[..w] + s[w..];
      assert DescLayout(s, s[..w], d', tail);
      assert OptionalDesc(s) == d';
    }
    if HasDesc(s) {
      var ws, d', tail :| DescLayout(s, ws, d', tail);
      OptionalDescOf(ws, d', tail);
      if d' != d {
        if d != "" && exists ws2, tail2 :: DescLayout(s, ws2, d, tail2) {
          var ws2, tail2 :| DescLayout(s, ws2, d, tail2);
          OptionalDescOf(ws2, d, tail2);
        }
      }
    }
  }

  lemma MatchTargetOf(prefix: string, k: string, ws: string, v: string, tail: string)
    requires IsKey(k) && IsSpaces(ws) && IsQuotable(v)
    ensures MatchTarget(prefix, prefix + k + ws + Quote(v) + tail)
         == Some((k, TargetInfo(v, OptionalDesc(tail))))
  {
    AfterPrefix(prefix, k, ws, Quote(v), tail);
    KeyThenSpaceOf(k, ws, Quote(v) + tail);
    QuotedOf(v, tail);
  }

  lemma MatchTargetSound(prefix: string, line: string) returns (ws: string, tail: string)
    requires MatchTarget(prefix, line).Some?
    ensures var (k, t) := MatchTarget(prefix, line).value;
            TargetLayout(prefix, line, k, ws, t.value, tail) && t.desc == OptionalDesc(tail)
  {
    var s := line[|prefix|..];
    var r := KeyThenSpace(s).value;
    var q := Quoted(r.2).value;
    ws, tail := r.1, q.1;
    SplitPrefix(line, prefix);
    Concat5(line, prefix, r.0, ws, Quote(q.0), tail, s, r.2);
  }

  /**
   * The target scanner accepts exactly the lines of the target layout; the
   * description is the optional group's, "" when that group cannot match.
   */
  lemma MatchTargetExact(prefix: string, line: string, k: string, t: TargetInfo)
    ensures MatchTarget(prefix, line) == Some((k, t)) <==> TargetShape(prefix, line, k, t)
  {
    if MatchTarget(prefix, line) == Some((k, t)) {
      var ws, tail := MatchTargetSound(prefix, line);
      OptionalDescExact(tail, t.desc);
    }
    if TargetShape(prefix, line, k, t) {
      var ws, tail :| TargetLayout(prefix, line, k, ws, t.value, tail) && DescShape(tail, t.desc);
      MatchTargetOf(prefix, k, ws, t.value, tail);
      OptionalDescExact(tail, t.desc);
    }
  }

  // ------------------------------------------------------------ rendering

  /** A value the writer can put between quotes and read back: `[^"]+` on one line. */
  predicate IsStorable(v: string) {
    IsQuotable(v) && NoLineBreak(v)
  }

  /** `f'secret:{key} "{val}"'`. */
  function SecretLine(k: string, v: string): string {
    SecretPrefix + k + " " + Quote(v)
  }

  /** `f'num:{key} {val}'`, the number written by `str`. */
  function NumberLine(k: string, n: nat): string {
    NumberPrefix + k + " " + Decimal(n)
  }

  /** `f'theme:{key} {val}'`. */
  function ThemeLine(k: string, c: string): string {
    ThemePrefix + k + " " + c
  }

  /** `f'{key} "{val}" "{desc}"'`, or `f'{key} "{val}"'` when the description is empty. */
  function TargetLine(k: string, t: TargetInfo): string {
    if t.desc != "" then k + " " + Quote(t.value) + " " + Quote(t.desc)
    else k + " " + Quote(t.value)
  }

  lemma SecretLineRoundTrip(k: string, v: string)
    requires IsKey(k) && IsQuotable(v)
    ensures MatchSecret(SecretLine(k, v)) == Some((k, v))
  {
    assert SecretLine(k, v) == SecretPrefix + k + " " + Quote(v) + "";
    MatchSecretOf(k, " ", v, "");
  }

  lemma NumberLineRoundTrip(k: string, n: nat)
    requires IsKey(k)
    ensures MatchNumber(NumberLine(k, n)) == Some((k, n))
  {
    var line := NumberLine(k, n);
    assert line == NumberPrefix + k + " " + Decimal(n) + "";
    assert NumberLayout(line, k, " ", Decimal(n), "");
    MatchNumberOf(k, " ", Decimal(n), "");
  }

  lemma ThemeLineRoundTrip(k: string, c: string)
    requires IsKey(k) && IsColor(c)
    ensures MatchTheme(ThemeLine(k, c)) == Some((k, c))
  {
    assert ThemeLine(k, c) == ThemePrefix + k + " " + c + "";
    MatchThemeOf(k, " ", c, "");
  }

  /** A target line, behind either prefix, reads back as the same key and record. */
  lemma TargetLineRoundTrip(prefix: string, k: string, t: TargetInfo)
    requires IsKey(k) && IsQuotable(t.value) && (t.desc == "" || IsQuotable(t.desc))
    ensures MatchTarget(prefix, prefix + TargetLine(k, t)) == Some((k, t))
  {
    var line := prefix + TargetLine(k, t);
    if t.desc != "" {
      var tail := " " + Quote(t.desc);
      assert line == prefix + k + " " + Quote(t.value) + tail;
      MatchTargetOf(prefix, k, " ", t.value, tail);
      assert tail == " " + Quote(t.desc) + "";
      OptionalDescOf(" ", t.desc, "");
    } else {
      assert line == prefix + k + " " + Quote(t.value) + "";
      MatchTargetOf(prefix, k, " ", t.value, "");
    }
  }

  // ----------------------------------- behaviour that departs from the design

  lemma EmptyQuotesNotQuoted(tail: string)
    ensures Quoted("\"\"" + tail) == None
  {
    var q := "\"\"" + tail;
    SpanIs(q[1..], IsNotQuote, 0);
  }

  /** `[^"]+` needs a character: a secret line whose value is `""` matches nothing. */
  lemma EmptySecretRejected(k: string, ws: string, tail: string)
    requires IsKey(k) && IsSpaces(ws)
    ensures MatchSecret(SecretPrefix + k + ws + "\"\"" + tail) == None
  {
    var q := "\"\"" + tail;
    EmptyQuotesNotQuoted(tail);
    var line := SecretPrefix + k + ws + q;
    assert SecretPrefix + k + ws + "\"\"" + tail == line;
    assert line[..|SecretPrefix|] == SecretPrefix;
    assert line[|SecretPrefix|..] == k + ws + q;
    KeyThenSpaceOf(k, ws, q);
  }

  /** Likewise a target line whose value is `""` matches nothing. */
  lemma EmptyTargetValueRejected(prefix: string, k: string, ws: string, tail: string)
    requires IsKey(k) && IsSpaces(ws)
    ensures MatchTarget(prefix, prefix + k + ws + "\"\"" + tail) == None
  {
    var q := "\"\"" + tail;
    EmptyQuotesNotQuoted(tail);
    var line := prefix + k + ws + q;
    assert prefix + k + ws + "\"\"" + tail == line;
    assert line[..|prefix|] == prefix;
    assert line[|prefix|..] == k + ws + q;
    KeyThenSpaceOf(k, ws, q);
  }

  /** An empty quoted description, `k "v" ""`, is read as no description. */
  lemma EmptyQuotedDescIgnored(ws: string, tail: string)
    requires IsSpaces(ws)
    ensures OptionalDesc(ws + "\"\"" + tail) == ""
  {
    var s := ws + "\"\"" + tail;
    SpanIs(s, IsSpace, |ws|);
    assert s[|ws|..] == "\"\"" + tail;
    EmptyQuotesNotQuoted(tail);
  }

  /** A secret value without quotes yields no secret. */
  lemma UnquotedSecretRejected(k: string, ws: string, rest: string)
    requires IsKey(k) && IsSpaces(ws) && rest != [] && rest[0] != '"' && !IsSpace(rest[0])
    ensures MatchSecret(SecretPrefix + k + ws + rest) == None
  {
    var line := SecretPrefix + k + ws + rest;
    assert line[..|SecretPrefix|] == SecretPrefix;
    assert line[|SecretPrefix|..] == k + ws + rest;
    KeyThenSpaceOf(k, ws, rest);
  }

  /** Matching is anchored at the start only: `num:x 5abc` reads the number 5. */
  lemma NumberPrefixOfDigits()
    ensures MatchNumber("num:x 5abc") == Some(("x", 5))
  {
    assert "num:x 5abc" == NumberPrefix + "x" + " " + "5" + "abc";
    assert DecimalValue("5") == 5 by {
      assert "5"[..0] == [];
    }
    MatchNumberOf("x", " ", "5", "abc");
  }

  /** A key with a character outside `\w`, such as `my-site`, is not read back. */
  lemma NonWordKeyLost()
    ensures MatchTarget("", TargetLine("my-site", TargetInfo("10.0.0.1", ""))) == None
  {
    var line := TargetLine("my-site", TargetInfo("10.0.0.1", ""));
    assert line[..0] == "";
    assert line[0..] == line;
    SpanIs(line, IsWordChar, 2);
  }

  /**
   * A double quote inside a description cuts it short when the file is read
   * back: `k "v" "say "hi""` yields the description `say `.
   */
  lemma QuoteInDescTruncated(k: string, v: string, d1: string, d2: string)
    requires IsKey(k) && IsQuotable(v) && IsQuotable(d1)
    ensures MatchTarget("", TargetLine(k, TargetInfo(v, d1 + "\"" + d2)))
         == Some((k, TargetInfo(v, d1)))
  {
    var d := d1 + "\"" + d2;
    var line := TargetLine(k, TargetInfo(v, d));
    var tail := " " + Quote(d1) + (d2 + "\"");
    assert Quote(d) == Quote(d1) + (d2 + "\"");
    assert line == "" + k + " " + Quote(v) + tail;
    MatchTargetOf("", k, " ", v, tail);
    OptionalDescOf(" ", d1, d2 + "\"");
  }

  // ------------------------------------------- where rendered lines go to

  /** The four prefixes exclude each other: a line is dispatched on at most one. */
  lemma PrefixesExclusive(line: string)
    ensures StartsWith(line, SecretPrefix) ==> !StartsWith(line, NumberPrefix) && !StartsWith(line, ThemePrefix) && !StartsWith(line, TargetPrefix)
    ensures StartsWith(line, NumberPrefix) ==> !StartsWith(line, ThemePrefix) && !StartsWith(line, TargetPrefix)
    ensures StartsWith(line, ThemePrefix) ==> !StartsWith(line, TargetPrefix)
    ensures StartsWith(line, SecretPrefix) || StartsWith(line, NumberPrefix) || StartsWith(line, ThemePrefix) || StartsWith(line, TargetPrefix)
            ==> !StartsWith(line, "//")
  {
    if StartsWith(line, SecretPrefix) { assert line[0] == SecretPrefix[0]; }
    if StartsWith(line, NumberPrefix) { assert line[0] == NumberPrefix[0]; }
    if StartsWith(line, ThemePrefix) { assert line[1] == ThemePrefix[1]; assert line[0] == ThemePrefix[0]; }
    if StartsWith(line, TargetPrefix) { assert line[1] == TargetPrefix[1]; assert line[0] == TargetPrefix[0]; }
  }

  lemma KeyNoLineBreak(k: string)
    requires IsKey(k)
    ensures NoLineBreak(k) && !IsSpace(k[0]) && k[0] != '/'
  {
  }

  /** A secret line is one line, already stripped, and dispatched as a secret. */
  lemma SecretLineFacts(k: string, v: string)
    requires IsKey(k) && IsStorable(v)
    ensures var line := SecretLine(k, v);
      NoLineBreak(line) && Strip(line) == line && StartsWith(line, SecretPrefix)
      && line != "" && !StartsWith(line, "//")
  {
    var line := SecretLine(k, v);
    KeyNoLineBreak(k);
    assert line == SecretPrefix + k + " " + "\"" + v + "\"";
    StripUnchanged(line);
    assert line[..|SecretPrefix|] == SecretPrefix;
    PrefixesExclusive(line);
  }

  lemma NumberLineFacts(k: string, n: nat)
    requires IsKey(k)
    ensures var line := NumberLine(k, n);
      NoLineBreak(line) && Strip(line) == line && StartsWith(line, NumberPrefix)
      && line != "" && !StartsWith(line, "//") && !StartsWith(line, SecretPrefix)
  {
    var line := NumberLine(k, n);
    var ds := Decimal(n);
    KeyNoLineBreak(k);
    assert line[|line| - 1] == ds[|ds| - 1];
    StripUnchanged(line);
    assert line[..|NumberPrefix|] == NumberPrefix;
    PrefixesExclusive(line);
  }

  lemma ThemeLineFacts(k: string, c: string)
    requires IsKey(k) && IsColor(c)
    ensures var line := ThemeLine(k, c);
      NoLineBreak(line) && Strip(line) == line && StartsWith(line, ThemePrefix)
      && line != "" && !StartsWith(line, "//") && !StartsWith(line, SecretPrefix) && !StartsWith(line, NumberPrefix)
  {
    var line := ThemeLine(k, c);
    KeyNoLineBreak(k);
    assert line[|line| - 1] == c[6];
    StripUnchanged(line);
    assert line[..|ThemePrefix|] == ThemePrefix;
    PrefixesExclusive(line);
  }

  /** A target line is one line, already stripped, and not a comment. */
  lemma TargetLineFacts(k: string, t: TargetInfo)
    requires IsKey(k) && IsStorable(t.value) && (t.desc == "" || IsStorable(t.desc))
    ensures var line := TargetLine(k, t);
      NoLineBreak(line) && Strip(line) == line && line != "" && !StartsWith(line, "//")
  {
    var line := TargetLine(k, t);
    KeyNoLineBreak(k);
    TargetLineOneLine(k, t);
    TargetLineEnds(k, t);
    StripUnchanged(line);
  }

  lemma TargetLineEnds(k: string, t: TargetInfo)
    requires IsKey(k)
    ensures var line := TargetLine(k, t);
      line != "" && line[0] == k[0] && line[|line| - 1] == '"'
  {
  }

  lemma QuoteOneLine(v: string)
    requires NoLineBreak(v)
    ensures NoLineBreak(Quote(v))
  {
    NoLineBreakConcat("\"", v);
    NoLineBreakConcat("\"" + v, "\"");
  }

  lemma TargetLineOneLine(k: string, t: TargetInfo)
    requires IsKey(k) && IsStorable(t.value) && (t.desc == "" || IsStorable(t.desc))
    ensures NoLineBreak(TargetLine(k, t))
  {
    KeyNoLineBreak(k);
    QuoteOneLine(t.value);
    NoLineBreakConcat(k, " ");
    NoLineBreakConcat(k + " ", Quote(t.value));
    if t.desc != "" {
      QuoteOneLine(t.desc);
      NoLineBreakConcat(k + " " + Quote(t.value), " ");
      NoLineBreakConcat(k + " " + Quote(t.value) + " ", Quote(t.desc));
    }
  }
}
