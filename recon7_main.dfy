/**
 * The non-drawing logic of the recon7 terminal UI: the conversion of a
 * `#rrggbb` theme colour to the 0..1000 scale of curses, the split of the
 * "add target" input line, and the cursor over the list of targets.
 */
module Recon7Main {
  import opened Wrappers
  import opened Strings
  import opened Dicts
  import opened LineFormat
  import opened Files
  import SevenConfig

  // ------------------------------------------------------------ hex_to_rgb

  /** `s.lstrip('#')`: every leading '#' removed. */
  function StripHashes(s: string): (r: string)
    ensures |r| <= |s| && r == s[|s| - |r|..]
    ensures forall i :: 0 <= i < |s| - |r| ==> s[i] == '#'
    ensures r == [] || r[0] != '#'
    decreases |s|
  {
    if s != [] && s[0] == '#' then StripHashes(s[1..]) else s
  }

  function HexDigitValue(c: char): (v: nat)
    requires IsHexDigit(c)
    ensures v < 16
  {
    if '0' <= c <= '9' then c as int - '0' as int
    else if 'a' <= c <= 'f' then c as int - 'a' as int + 10
    else c as int - 'A' as int + 10
  }

  /** Two hex digits read as one byte, the first the high one. */
  function ByteOf(hi: char, lo: char): (b: nat)
    requires IsHexDigit(hi) && IsHexDigit(lo)
    ensures b <= 255
  {
    16 * HexDigitValue(hi) + HexDigitValue(lo)
  }

  /**
   * Python's `int(s, 16)` on a string of at most two characters, None
   * standing for the `ValueError`: whitespace around the number is ignored,
   * one sign may lead, and what is left must be hex digits. (A `0x` prefix
   * needs a digit after it and an underscore digits on both sides, so on two
   * characters neither can occur.)
   */
  function ParseHex(s: string): Option<int>
    requires |s| <= 2
  {
    if |s| == 0 then None
    else if |s| == 1 then
      if IsHexDigit(s[0]) then Some(HexDigitValue(s[0])) else None
    else
      var a, b := s[0], s[1];
      if IsHexDigit(a) && IsHexDigit(b) then Some(ByteOf(a, b))
      else if IsHexDigit(a) && IsSpace(b) then Some(HexDigitValue(a))
      else if IsSpace(a) && IsHexDigit(b) then Some(HexDigitValue(b))
      else if a == '+' && IsHexDigit(b) then Some(HexDigitValue(b))
      else if a == '-' && IsHexDigit(b) then Some(-(HexDigitValue(b) as int))
      else None
  }

  /** `x * 1000 // 255`; Dafny's `/` floors like Python's `//` for a positive divisor. */
  function Scale(x: int): int {
    x * 1000 / 255
  }

  /** One channel: a pair of characters read as a number and scaled; None is the `ValueError`. */
  function Channel(pair: string): Option<int>
    requires |pair| <= 2
  {
    match ParseHex(pair)
    case Some(v) => Some(Scale(v))
    case None => None
  }

  /**
   * `hex_to_rgb`: strip the leading '#'s; a string of another length than 6
   * is white, otherwise each pair of characters is one channel. None stands
   * for the `ValueError` of a pair that is not a number.
   */
  function HexToRgb(s: string): Option<(int, int, int)> {
    var h := StripHashes(s);
    if |h| != 6 then Some((1000, 1000, 1000))
    else
      match (Channel(h[0..2]), Channel(h[2..4]), Channel(h[4..6]))
      case (Some(r), Some(g), Some(b)) => Some((r, g, b))
      case _ => None
  }

  /** A string that is not six characters long once the '#'s are gone is white. */
  lemma WrongLengthIsWhite(s: string)
    requires |StripHashes(s)| != 6
    ensures HexToRgb(s) == Some((1000, 1000, 1000))
  {
  }

  /** Extra leading '#'s change nothing. */
  lemma ExtraHashesIgnored(s: string)
    ensures HexToRgb("#" + s) == HexToRgb(s)
  {
    assert ("#" + s)[1..] == s;
  }

  /** The scale maps a byte into 0..1000, 0 to 0 and 255 to 1000. */
  lemma ScaleRange(x: int)
    requires 0 <= x <= 255
    ensures 0 <= Scale(x) <= 1000
    ensures x == 0 ==> Scale(x) == 0
    ensures x == 255 ==> Scale(x) == 1000
  {
    assert x * 1000 <= 255 * 1000;
  }

  /** Distinct bytes stay distinct, and in order, on the 0..1000 scale. */
  lemma {:induction false} ScaleStrictlyIncreasing(x: int, y: int)
    requires x < y
    ensures Scale(x) < Scale(y)
  {
    var q, r := x * 1000 / 255, x * 1000 % 255;
    assert x * 1000 == 255 * q + r;
    assert y * 1000 >= x * 1000 + 1000;
    assert y * 1000 >= 255 * (q + 1) + r + 745;
    assert y * 1000 / 255 >= q + 1;
  }

  /** A pair of hex digits is one channel: its byte, scaled into 0..1000. */
  lemma PairChannel(hi: char, lo: char)
    requires IsHexDigit(hi) && IsHexDigit(lo)
    ensures Channel([hi, lo]) == Some(Scale(ByteOf(hi, lo)))
    ensures 0 <= Scale(ByteOf(hi, lo)) <= 1000
  {
    ScaleRange(ByteOf(hi, lo));
  }

  /** A string that is six characters once the '#'s are gone, each pair a channel, gives those channels. */
  lemma ChannelsOfSix(s: string, h: string, r: int, g: int, b: int)
    requires StripHashes(s) == h && |h| == 6
    requires Channel(h[0..2]) == Some(r) && Channel(h[2..4]) == Some(g) && Channel(h[4..6]) == Some(b)
    ensures HexToRgb(s) == Some((r, g, b))
  {
  }

  /** The six digits after the '#' of a theme colour, and their three pairs. */
  lemma ColorShape(c: string)
    requires IsColor(c)
    ensures |c[1..]| == 6
    ensures c[1..][0..2] == [c[1], c[2]] && c[1..][2..4] == [c[3], c[4]] && c[1..][4..6] == [c[5], c[6]]
    ensures IsHexDigit(c[1]) && IsHexDigit(c[2]) && IsHexDigit(c[3])
    ensures IsHexDigit(c[4]) && IsHexDigit(c[5]) && IsHexDigit(c[6])
  {
  }

  /** A theme colour loses exactly its one '#'. */
  lemma ColorHashes(c: string)
    requires IsColor(c)
    ensures StripHashes(c) == c[1..]
  {
    assert IsHexDigit(c[1]);
  }

  /**
   * A theme colour converts without error, each channel being its pair of
   * hex digits read as a byte and scaled into 0..1000.
   */
  lemma ColorConverts(c: string)
    requires IsColor(c)
    ensures HexToRgb(c) == Some((Scale(ByteOf(c[1], c[2])), Scale(ByteOf(c[3], c[4])), Scale(ByteOf(c[5], c[6]))))
    ensures var (r, g, b) := HexToRgb(c).value;
      0 <= r <= 1000 && 0 <= g <= 1000 && 0 <= b <= 1000
  {
    ColorShape(c);
    ColorHashes(c);
    PairChannel(c[1], c[2]);
    PairChannel(c[3], c[4]);
    PairChannel(c[5], c[6]);
    ChannelsOfSix(c, c[1..], Scale(ByteOf(c[1], c[2])), Scale(ByteOf(c[3], c[4])), Scale(ByteOf(c[5], c[6])));
  }

  /** The colours the UI falls back on: black, white and cyan. */
  lemma DefaultThemeColors()
    ensures HexToRgb("#000000") == Some((0, 0, 0))
    ensures HexToRgb("#ffffff") == Some((1000, 1000, 1000))
    ensures HexToRgb("#00ffff") == Some((0, 1000, 1000))
  {
    Black();
    White();
    Cyan();
  }

  // One helper per default colour: proving the three in one context is costly.

  lemma Black()
    ensures HexToRgb("#000000") == Some((0, 0, 0))
  {
    ZeroAndFull();
    assert StripHashes("#000000") == "000000";
    assert "000000"[0..2] == "00" && "000000"[2..4] == "00" && "000000"[4..6] == "00";
    ChannelsOfSix("#000000", "000000", 0, 0, 0);
  }

  lemma White()
    ensures HexToRgb("#ffffff") == Some((1000, 1000, 1000))
  {
    ZeroAndFull();
    assert StripHashes("#ffffff") == "ffffff";
    assert "ffffff"[0..2] == "ff" && "ffffff"[2..4] == "ff" && "ffffff"[4..6] == "ff";
    ChannelsOfSix("#ffffff", "ffffff", 1000, 1000, 1000);
  }

  lemma Cyan()
    ensures HexToRgb("#00ffff") == Some((0, 1000, 1000))
  {
    ZeroAndFull();
    assert StripHashes("#00ffff") == "00ffff";
    assert "00ffff"[0..2] == "00" && "00ffff"[2..4] == "ff" && "00ffff"[4..6] == "ff";
    ChannelsOfSix("#00ffff", "00ffff", 0, 1000, 1000);
  }

  /** "00" is channel 0 and "ff" channel 1000. */
  lemma ZeroAndFull()
    ensures Channel("00") == Some(0) && Channel("ff") == Some(1000)
  {
    PairChannel('0', '0');
    PairChannel('f', 'f');
    ScaleRange(ByteOf('0', '0'));
    ScaleRange(ByteOf('f', 'f'));
  }

  /**
   * Outside the theme grammar a pair may carry a sign, and `int` accepts it:
   * the channel then goes below 0. No value the settings file can hold gets
   * here, since the `theme:` pattern admits only hex digits.
   */
  lemma SignedPairBelowZero()
    ensures HexToRgb("-f-f-f") == Some((-59, -59, -59))
  {
    var s := "-f-f-f";
    assert s[0..2] == "-f" && s[2..4] == "-f" && s[4..6] == "-f";
    NegativeChannel();
    ChannelsOfSix(s, s, -59, -59, -59);
  }

  /** `int("-f", 16)` is -15, and -15000 // 255 is -59. */
  lemma NegativeChannel()
    ensures Channel("-f") == Some(-59)
  {
    assert ParseHex("-f") == Some(-15);
    assert Scale(-15) == -59;
  }

  // ------------------------------------------------------ the add input

  /** The length of the run of non-whitespace characters `s` starts with. */
  function WordLength(s: string): (n: nat)
    ensures n <= |s|
    ensures forall i :: 0 <= i < n ==> !IsSpace(s[i])
    ensures n == |s| || IsSpace(s[n])
    decreases |s|
  {
    if s == [] || IsSpace(s[0]) then 0 else 1 + WordLength(s[1..])
  }

  /** What the add prompt does with the typed line. */
  datatype AddInput = Cancelled | TooFewFields | Fields(key: string, value: string, desc: string)

  /**
   * The stripped line: cancelled when empty; otherwise `split(maxsplit=2)`
   * read word by word: the first word is the key, the text after it less its
   * leading whitespace must hold the value as its first word, and what is
   * left after the value, less its leading whitespace, is the description
   * ("" when there is no third piece).
   */
  function FieldsOf(inp: string): AddInput {
    if inp == "" then Cancelled
    else
      var n := WordLength(inp);
      var afterKey := TrimStart(inp[n..]);
      if afterKey == [] then TooFewFields
      else
        var m := WordLength(afterKey);
        Fields(inp[..n], afterKey[..m], TrimStart(afterKey[m..]))
  }

  /** What `add_target` makes of the typed line. */
  function ParseAddInput(raw: string): AddInput {
    FieldsOf(Strip(raw))
  }

  /** Neither leading nor trailing whitespace, as `strip()` leaves a string. */
  predicate IsStripped(s: string) {
    s == [] || (!IsSpace(s[0]) && !IsSpace(s[|s| - 1]))
  }

  predicate IsWord(w: string) {
    w != [] && forall i :: 0 <= i < |w| ==> !IsSpace(w[i])
  }

  /** `lstrip()` keeps the last character of a string it leaves non-empty. */
  lemma TrimStartKeepsLast(s: string)
    requires TrimStart(s) != []
    ensures TrimStart(s)[|TrimStart(s)| - 1] == s[|s| - 1]
  {
  }

  /** The word a stripped, non-empty string starts with. */
  lemma FirstWord(s: string)
    requires s != [] && !IsSpace(s[0])
    ensures WordLength(s) > 0 && IsWord(s[..WordLength(s)])
  {
    var n := WordLength(s);
    assert forall i :: 0 <= i < n ==> s[..n][i] == s[i];
  }

  lemma {:induction false} WordLengthIs(w: string, rest: string)
    requires forall i :: 0 <= i < |w| ==> !IsSpace(w[i])
    requires rest == [] || IsSpace(rest[0])
    ensures WordLength(w + rest) == |w|
    decreases |w|
  {
    if w == [] {
      assert w + rest == rest;
    } else {
      assert (w + rest)[1..] == w[1..] + rest;
      WordLengthIs(w[1..], rest);
    }
  }

  lemma {:induction false} TrimSpaces(ws: string, s: string)
    requires forall i :: 0 <= i < |ws| ==> IsSpace(ws[i])
    requires s == [] || !IsSpace(s[0])
    ensures TrimStart(ws + s) == s
    decreases |ws|
  {
    if ws != [] {
      assert (ws + s)[1..] == ws[1..] + s;
      TrimSpaces(ws[1..], s);
    } else {
      assert ws + s == s;
    }
  }

  /** A blank line cancels the add. */
  lemma AddCancelledIffBlank(raw: string)
    ensures ParseAddInput(raw) == Cancelled <==> Strip(raw) == ""
  {
  }

  /** A non-empty stripped string that is not one word has text after its first word. */
  lemma MoreThanOneWord(inp: string)
    requires inp != [] && IsStripped(inp) && !IsWord(inp)
    ensures WordLength(inp) < |inp| && TrimStart(inp[WordLength(inp)..]) != []
    ensures var r := inp[WordLength(inp)..]; r[|r| - 1] == inp[|inp| - 1]
  {
    var n := WordLength(inp);
    assert n < |inp|;
    var r := inp[n..];
    assert r[|r| - 1] == inp[|inp| - 1];
    assert TrimStart(r) != [];
  }

  /** One word is rejected, and only one word. */
  lemma AddRejectedIffOneWord(raw: string)
    ensures ParseAddInput(raw) == TooFewFields <==> IsWord(Strip(raw))
  {
    var inp := Strip(raw);
    if IsWord(inp) {
      WordLengthIs(inp, []);
      assert inp + [] == inp;
      assert inp[WordLength(inp)..] == [];
    } else if inp != [] {
      MoreThanOneWord(inp);
    }
  }

  /** The second word and the rest come out as a word and a stripped string. */
  lemma ValueAndDesc(r: string)
    requires TrimStart(r) != [] && !IsSpace(r[|r| - 1])
    ensures var t := TrimStart(r);
      var m := WordLength(t);
      IsWord(t[..m]) && IsStripped(TrimStart(t[m..]))
  {
    var t := TrimStart(r);
    FirstWord(t);
    TrimStartKeepsLast(r);
    TailEndsLikeWhole(t, WordLength(t));
    TrimStartStripped(t[WordLength(t)..]);
  }

  /** `lstrip()` of a string that does not end in whitespace is stripped. */
  lemma TrimStartStripped(s: string)
    requires s == [] || !IsSpace(s[|s| - 1])
    ensures IsStripped(TrimStart(s))
  {
    if TrimStart(s) != [] {
      TrimStartKeepsLast(s);
    }
  }

  lemma TailEndsLikeWhole(t: string, m: nat)
    requires m <= |t| && t != [] && !IsSpace(t[|t| - 1])
    ensures t[m..] == [] || !IsSpace(t[m..][|t[m..]| - 1])
  {
  }

  /**
   * A line of two or more words gives a key and a value that are single
   * words and a description that is "" or the stripped rest of the line.
   */
  lemma AddFieldsAreWords(raw: string)
    requires ParseAddInput(raw).Fields?
    ensures var f := ParseAddInput(raw);
      IsWord(f.key) && IsWord(f.value) && IsStripped(f.desc)
  {
    var inp := Strip(raw);
    AddRejectedIffOneWord(raw);
    FirstWord(inp);
    MoreThanOneWord(inp);
    ValueAndDesc(inp[WordLength(inp)..]);
  }

  /** A word, one space and more text: the word, then that text. */
  lemma WordThenText(w: string, text: string)
    requires IsWord(w) && (text == [] || !IsSpace(text[0]))
    ensures var s := w + " " + text;
      WordLength(s) == |w| && s[..|w|] == w && TrimStart(s[|w|..]) == text
  {
    var s := w + " " + text;
    assert s == w + (" " + text);
    WordLengthIs(w, " " + text);
    assert s[..|w|] == w && s[|w|..] == " " + text;
    TrimSpaces(" ", text);
  }

  /**
   * The fields read back from a line typed as key, space, value and an
   * optional space and description; the description keeps its inner spaces.
   */
  lemma AddInputRoundTrip(key: string, value: string, desc: string)
    requires IsWord(key) && IsWord(value) && IsStripped(desc)
    ensures ParseAddInput(key + " " + value + (if desc == "" then "" else " " + desc)) == Fields(key, value, desc)
  {
    var tail := if desc == "" then "" else " " + desc;
    var afterKey := value + tail;
    assert key + " " + value + tail == key + " " + afterKey;
    KeyValueDesc(key, value, desc, afterKey);
  }

  lemma KeyValueDesc(key: string, value: string, desc: string, afterKey: string)
    requires IsWord(key) && IsWord(value) && IsStripped(desc)
    requires afterKey == value + (if desc == "" then "" else " " + desc)
    ensures ParseAddInput(key + " " + afterKey) == Fields(key, value, desc)
  {
    ValueThenDesc(value, desc);
    LineIsStripped(key, afterKey);
    KeyThenRest(key, afterKey);
  }

  /** The text after the key: the value is its first word and the rest, less leading space, the description. */
  lemma ValueThenDesc(value: string, desc: string)
    requires IsWord(value) && IsStripped(desc)
    ensures var a := value + (if desc == "" then "" else " " + desc);
      a != [] && !IsSpace(a[0]) && !IsSpace(a[|a| - 1])
      && WordLength(a) == |value| && a[..|value|] == value && TrimStart(a[|value|..]) == desc
  {
    if desc == "" {
      LoneWord(value);
    } else {
      WordThenDesc(value, desc);
    }
  }

  lemma WordThenDesc(value: string, desc: string)
    requires IsWord(value) && IsStripped(desc) && desc != ""
    ensures var a := value + (" " + desc);
      a != [] && !IsSpace(a[0]) && !IsSpace(a[|a| - 1])
      && WordLength(a) == |value| && a[..|value|] == value && TrimStart(a[|value|..]) == desc
  {
    assert value + (" " + desc) == value + " " + desc;
    WordThenText(value, desc);
    EndsOfWordThenText(value, desc);
  }

  lemma LoneWord(w: string)
    requires IsWord(w)
    ensures var a := w + "";
      a != [] && !IsSpace(a[0]) && !IsSpace(a[|a| - 1])
      && WordLength(a) == |w| && a[..|w|] == w && TrimStart(a[|w|..]) == []
  {
    WordLengthIs(w, []);
    assert w + [] == w;
  }

  lemma EndsOfWordThenText(w: string, text: string)
    requires IsWord(w) && text != [] && !IsSpace(text[|text| - 1])
    ensures var s := w + " " + text; s[0] == w[0] && s[|s| - 1] == text[|text| - 1]
  {
  }

  lemma LineIsStripped(key: string, afterKey: string)
    requires IsWord(key) && afterKey != [] && !IsSpace(afterKey[|afterKey| - 1])
    ensures Strip(key + " " + afterKey) == key + " " + afterKey
  {
    var line := key + " " + afterKey;
    assert line[|line| - 1] == afterKey[|afterKey| - 1];
    StripUnchanged(line);
  }

  /** A stripped line made of a word, a space and more text splits after the word. */
  lemma KeyThenRest(key: string, afterKey: string)
    requires IsWord(key) && afterKey != [] && !IsSpace(afterKey[0])
    ensures var m := WordLength(afterKey);
      FieldsOf(key + " " + afterKey) == Fields(key, afterKey[..m], TrimStart(afterKey[m..]))
  {
    WordThenText(key, afterKey);
  }

  // ------------------------------------------------------ the cursor

  /** `max(0, i - 1)`, the cursor after the up key. */
  function CursorUp(i: int): (r: int)
    ensures r >= 0 && (i > 0 ==> r == i - 1) && (i <= 0 ==> r == 0)
  {
    if i - 1 > 0 then i - 1 else 0
  }

  /** `min(n - 1, i + 1)`, the cursor after the down key over `n` rows. */
  function CursorDown(i: int, n: nat): (r: int)
    ensures r <= n - 1 && (i + 1 <= n - 1 ==> r == i + 1) && (i + 1 > n - 1 ==> r == n - 1)
  {
    if n - 1 < i + 1 then n - 1 else i + 1
  }

  /** `min(i, n - 1)`, the cursor after a delete leaves `n` rows: -1 when none are left. */
  function CursorAfterDelete(i: int, n: nat): (r: int)
    ensures r <= i && r <= n - 1 && (r == i || r == n - 1)
  {
    if i < n - 1 then i else n - 1
  }

  /** Where the cursor can be: on a row, or at 0 or -1 over an empty list. */
  predicate CursorOk(i: int, n: nat) {
    if n == 0 then i == 0 || i == -1 else 0 <= i < n
  }

  /** Every cursor rule keeps the cursor where it can be. */
  lemma CursorRulesKeepCursorOk(i: int, n: nat)
    requires CursorOk(i, n)
    ensures CursorOk(CursorUp(i), n)
    ensures CursorOk(CursorDown(i, n), n)
    ensures CursorOk(n - 1, n)
  {
  }

  lemma CursorAfterDeleteOk(i: int, n: nat)
    requires CursorOk(i, n + 1)
    ensures CursorOk(CursorAfterDelete(i, n), n)
    ensures n == 0 ==> CursorAfterDelete(i, n) == -1
  {
  }

  /** Python's `xs[i]`: a negative index counts from the end; None is the `IndexError`. */
  function PyIndex<T>(xs: seq<T>, i: int): (r: Option<T>)
    ensures 0 <= i < |xs| ==> r == Some(xs[i])
    ensures -|xs| <= i < 0 ==> r == Some(xs[|xs| + i])
    ensures r.None? <==> i < -|xs| || i >= |xs|
  {
    if 0 <= i < |xs| then Some(xs[i])
    else if -|xs| <= i < 0 then Some(xs[|xs| + i])
    else None
  }

  /** What a key press ended in. */
  datatype Outcome = Done | NoTargets | Rejected | IndexOutOfRange | Failed(error: Error)

  /**
   * The targets list of the UI and its cursor, over the targets store they
   * mirror (`self.targets`, `self.selected_index`, `self.targets_lock`).
   */
  class TargetList {
    const lock: SevenConfig.TargetLock
    var targets: seq<(string, TargetInfo)>
    var selectedIndex: int

    /** The list shows the store's targets, in order. */
    ghost predicate Synced()
      reads this, lock
    {
      lock.Valid() && targets == lock.targets.Items()
    }

    /** `__init__`: the list of the store's items and the cursor on the first row. */
    constructor (lock: SevenConfig.TargetLock)
      requires lock.Valid()
      ensures this.lock == lock && Synced() && selectedIndex == 0
      ensures CursorOk(selectedIndex, |targets|)
    {
      this.lock := lock;
      targets := lock.AllTargets().Items();
      selectedIndex := 0;
    }

    /** The up key (`k`). */
    method MoveUp()
      modifies this`selectedIndex
      ensures selectedIndex == CursorUp(old(selectedIndex))
      ensures old(CursorOk(selectedIndex, |targets|)) ==> CursorOk(selectedIndex, |targets|)
    {
      selectedIndex := if 0 > selectedIndex - 1 then 0 else selectedIndex - 1;
    }

    /** The down key (`j`). */
    method MoveDown()
      modifies this`selectedIndex
      ensures selectedIndex == CursorDown(old(selectedIndex), |targets|)
      ensures old(CursorOk(selectedIndex, |targets|)) ==> CursorOk(selectedIndex, |targets|)
    {
      selectedIndex := if |targets| - 1 < selectedIndex + 1 then |targets| - 1 else selectedIndex + 1;
    }

    /**
     * `add_target` from the typed line on: a blank or one-word line changes
     * nothing; otherwise the store adds and saves, the list is refreshed and
     * the cursor goes to the last row. A failed save raises out of the UI
     * with the store already changed and the list not yet refreshed.
     */
    method AddFromInput(fs: FileSystem, raw: string) returns (out: Outcome)
      requires Synced()
      modifies this, lock, fs`files
      ensures lock.Valid() && lock.filepath == old(lock.filepath)
      ensures ParseAddInput(raw) == Cancelled ==> out == Done && unchanged(this, lock) && fs.files == old(fs.files)
      ensures ParseAddInput(raw) == TooFewFields ==> out == Rejected && unchanged(this, lock) && fs.files == old(fs.files)
      ensures ParseAddInput(raw).Fields? ==>
        var f := ParseAddInput(raw);
        && lock.targets == old(lock.targets).Put(f.key, TargetInfo(f.value, f.desc))
        && var (files, p) := PersistSpec(old(fs.files), fs.denied, lock.filepath, SevenConfig.TargetsText(lock.targets));
           fs.files == files
           && (p == Written ==> out == Done && Synced() && selectedIndex == |targets| - 1 && CursorOk(selectedIndex, |targets|))
           && (p != Written ==> out == Failed(SevenConfig.SaveStatus(p).error)
                                && targets == old(targets) && selectedIndex == old(selectedIndex))
    {
      match ParseAddInput(raw)
      case Cancelled =>
        out := Done;
      case TooFewFields =>
        out := Rejected;
      case Fields(key, value, desc) =>
        out := AddFields(fs, key, value, desc);
    }

    /** The store adds the target and saves; the list is refreshed and the cursor put on the last row once saved. */
    method AddFields(fs: FileSystem, key: string, value: string, desc: string) returns (out: Outcome)
      requires Synced()
      modifies this, lock, fs`files
      ensures lock.Valid() && lock.filepath == old(lock.filepath)
      ensures lock.targets == old(lock.targets).Put(key, TargetInfo(value, desc))
      ensures var (files, p) := PersistSpec(old(fs.files), fs.denied, lock.filepath, SevenConfig.TargetsText(lock.targets));
        fs.files == files
        && (p == Written ==> out == Done && Synced() && selectedIndex == |targets| - 1 && CursorOk(selectedIndex, |targets|))
        && (p != Written ==> out == Failed(SevenConfig.SaveStatus(p).error)
                             && targets == old(targets) && selectedIndex == old(selectedIndex))
    {
      var st := lock.AddTarget(fs, key, value, desc);
      if st.Raised? {
        return Failed(st.error);
      }
      targets := lock.AllTargets().Items();
      PutNotEmpty(old(lock.targets), key, TargetInfo(value, desc));
      selectedIndex := |targets| - 1;
      out := Done;
    }

    /**
     * `delete_target`: with no rows nothing happens; otherwise the row under
     * the cursor (Python indexing, so -1 is the last row) is deleted from the
     * store, the list is refreshed and the cursor clamped to the new last row.
     */
    method DeleteSelected(fs: FileSystem) returns (out: Outcome)
      requires Synced()
      modifies this, lock, fs`files
      ensures lock.Valid() && lock.filepath == old(lock.filepath)
      ensures old(targets) == [] ==> out == NoTargets && unchanged(this, lock) && fs.files == old(fs.files)
      ensures old(targets) != [] && PyIndex(old(targets), old(selectedIndex)).None? ==>
        out == IndexOutOfRange && unchanged(this, lock) && fs.files == old(fs.files)
      ensures old(targets) != [] && PyIndex(old(targets), old(selectedIndex)).Some? ==>
        var key := PyIndex(old(targets), old(selectedIndex)).value.0;
        && lock.targets == old(lock.targets).Remove(key)
        && (var (files, p) := PersistSpec(old(fs.files), fs.denied, lock.filepath, SevenConfig.TargetsText(lock.targets));
            fs.files == files && (p == Written <==> out == Done)
            && (p != Written ==> out == Failed(SevenConfig.SaveStatus(p).error)))
        && (out == Done ==> Synced() && selectedIndex == CursorAfterDelete(old(selectedIndex), |targets|)
                            && |targets| == |old(targets)| - 1)
        && (out != Done ==> targets == old(targets) && selectedIndex == old(selectedIndex))
      ensures old(CursorOk(selectedIndex, |targets|)) && out == Done ==> CursorOk(selectedIndex, |targets|)
    {
      if targets == [] {
        return NoTargets;
      }
      var row := PyIndex(targets, selectedIndex);
      if row.None? {
        return IndexOutOfRange;
      }
      RowKeyPresent(lock.targets, selectedIndex);
      out := DeleteKey(fs, row.value.0);
    }

    /**
     * The store deletes the key and saves, and the save's outcome is reported;
     * once saved the list is refreshed and the cursor clamped.
     */
    method DeleteKey(fs: FileSystem, key: string) returns (out: Outcome)
      requires Synced() && key in lock.targets.vals
      modifies this, lock, fs`files
      ensures lock.Valid() && lock.filepath == old(lock.filepath)
      ensures lock.targets == old(lock.targets).Remove(key)
      ensures var (files, p) := PersistSpec(old(fs.files), fs.denied, lock.filepath, SevenConfig.TargetsText(lock.targets));
        fs.files == files && (p == Written <==> out == Done)
        && (p != Written ==> out == Failed(SevenConfig.SaveStatus(p).error))
      ensures out == Done ==> Synced() && selectedIndex == CursorAfterDelete(old(selectedIndex), |targets|)
                              && |targets| == |old(targets)| - 1
      ensures out != Done ==> targets == old(targets) && selectedIndex == old(selectedIndex)
      ensures old(CursorOk(selectedIndex, |targets|)) && out == Done ==> CursorOk(selectedIndex, |targets|)
    {
      var st := lock.DeleteTarget(fs, key);
      if st.Raised? {
        return Failed(st.error);
      }
      RemoveShrinks(old(lock.targets), key);
      var rows := |targets|;
      targets := lock.AllTargets().Items();
      if CursorOk(selectedIndex, rows) {
        CursorAfterDeleteOk(selectedIndex, |targets|);
      }
      selectedIndex := if selectedIndex < |targets| - 1 then selectedIndex else |targets| - 1;
      out := Done;
    }
  }

  /** A dictionary holds at least one pair once a key is put in it. */
  lemma PutNotEmpty(d: Dict<string, TargetInfo>, k: string, t: TargetInfo)
    requires d.Valid()
    ensures |d.Put(k, t).Items()| >= 1
  {
  }

  /** The key on any row the cursor can point at is in the store. */
  lemma RowKeyPresent(d: Dict<string, TargetInfo>, i: int)
    requires d.Valid() && PyIndex(d.Items(), i).Some?
    ensures PyIndex(d.Items(), i).value.0 in d.vals
  {
  }

  lemma RemoveShrinks(d: Dict<string, TargetInfo>, k: string)
    requires d.Valid() && k in d.vals
    ensures |d.Remove(k).Items()| == |d.Items()| - 1
  {
    RemoveDropsPair(d, k);
  }

  /**
   * After an add the cursor is on the last row, which is not the edited
   * target when an existing key other than the last was overwritten in place.
   */
  lemma AddCursorMissesOverwrittenKey(d: Dict<string, TargetInfo>, k: string, t: TargetInfo)
    requires d.Valid() && k in d.vals && IndexOf(d.keys, k) != |d.keys| - 1
    ensures var items := d.Put(k, t).Items();
      |items| == |d.keys| && items[|items| - 1].0 != k
  {
    PutExistingInPlace(d, k, t);
    var i := IndexOf(d.keys, k);
    assert d.keys[|d.keys| - 1] != d.keys[i];
  }
}
