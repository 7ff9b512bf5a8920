/**
 * The two stores of recon7: `Config`, the settings file of secrets, numbers
 * and theme colours, and `TargetLock`, the file of named targets. Each is a
 * class over the file it was opened on; the file is read line by line into
 * insertion-ordered dictionaries, and written back after a backup copy.
 */
module SevenConfig {
  import opened Wrappers
  import opened Strings
  import opened Dicts
  import opened LineFormat
  import opened Files

  // =================================================================
  // The settings file
  // =================================================================

  /** `self.data`: the dictionaries "secrets", "numbers" and "theme". */
  datatype ConfigData = ConfigData(
    secrets: Dict<string, string>,
    numbers: Dict<string, nat>,
    theme: Dict<string, string>)

  function EmptyConfig(): (d: ConfigData)
    ensures WellFormedConfig(d)
  {
    ConfigData(Empty(), Empty(), Empty())
  }

  /**
   * What loading can produce: word keys, secrets that fit between quotes on
   * one line, and `#rrggbb` colours. Exactly these survive a save and a load.
   */
  ghost predicate WellFormedConfig(d: ConfigData) {
    && d.secrets.Valid() && d.numbers.Valid() && d.theme.Valid()
    && (forall k :: k in d.secrets.vals ==> IsKey(k) && IsStorable(d.secrets.vals[k]))
    && (forall k :: k in d.numbers.vals ==> IsKey(k))
    && (forall k :: k in d.theme.vals ==> IsKey(k) && IsColor(d.theme.vals[k]))
  }

  // ------------------------------------------------------ reading a file

  /** `_parse_secret`: a matching line sets its key, any other line is ignored. */
  function WithSecret(d: ConfigData, line: string): ConfigData {
    match MatchSecret(line)
    case None => d
    case Some((k, v)) => d.(secrets := d.secrets.Put(k, v))
  }

  /** `_parse_number`. */
  function WithNumber(d: ConfigData, line: string): ConfigData {
    match MatchNumber(line)
    case None => d
    case Some((k, n)) => d.(numbers := d.numbers.Put(k, n))
  }

  /** `_parse_theme`. */
  function WithTheme(d: ConfigData, line: string): ConfigData {
    match MatchTheme(line)
    case None => d
    case Some((k, c)) => d.(theme := d.theme.Put(k, c))
  }

  /** One turn of the loop in `_load_config`, on one line of the file. */
  function ConfigStep(d: ConfigData, raw: string): ConfigData {
    var line := Strip(raw);
    if line == "" || StartsWith(line, "//") then d
    else if StartsWith(line, SecretPrefix) then WithSecret(d, line)
    else if StartsWith(line, NumberPrefix) then WithNumber(d, line)
    else if StartsWith(line, ThemePrefix) then WithTheme(d, line)
    else d
  }

  /** The data after running the loop over `lines`, starting from `d`. */
  function ConfigFrom(d: ConfigData, lines: seq<string>): ConfigData
    decreases |lines|
  {
    if lines == [] then d
    else ConfigStep(ConfigFrom(d, lines[..|lines| - 1]), lines[|lines| - 1])
  }

  /** The data a settings file with this text loads as. */
  function ParseConfig(text: string): (d: ConfigData)
    ensures WellFormedConfig(d)
  {
    ConfigFromWellFormed(EmptyConfig(), Lines(text));
    ConfigFrom(EmptyConfig(), Lines(text))
  }

  /**
   * `_load_config` on the file at `path`: the data is cleared first; a missing
   * file leaves it empty without an error, an unreadable one leaves it empty
   * and raises the loading `RuntimeError`.
   */
  function LoadConfigSpec(files: map<string, Entry>, path: string): (r: (ConfigData, Status))
    ensures WellFormedConfig(r.0)
    ensures r.1.Raised? <==> path in files && files[path].Unreadable?
    ensures r.1.Raised? ==> r == (EmptyConfig(), Raised(Runtime(Loading)))
  {
    match ReadOf(files, path)
    case NotFound => (EmptyConfig(), Ok)
    case ReadError => (EmptyConfig(), Raised(Runtime(Loading)))
    case Contents(text) => (ParseConfig(text), Ok)
  }

  // ------------------------------------------------------ writing a file

  function SecretLines(items: seq<(string, string)>): (ls: seq<string>)
    ensures |ls| == |items|
    decreases |items|
  {
    if items == [] then []
    else SecretLines(items[..|items| - 1]) + [SecretLine(items[|items| - 1].0, items[|items| - 1].1)]
  }

  function NumberLines(items: seq<(string, nat)>): (ls: seq<string>)
    ensures |ls| == |items|
    decreases |items|
  {
    if items == [] then []
    else NumberLines(items[..|items| - 1]) + [NumberLine(items[|items| - 1].0, items[|items| - 1].1)]
  }

  function ThemeLines(items: seq<(string, string)>): (ls: seq<string>)
    ensures |ls| == |items|
    decreases |items|
  {
    if items == [] then []
    else ThemeLines(items[..|items| - 1]) + [ThemeLine(items[|items| - 1].0, items[|items| - 1].1)]
  }

  /** The lines `save` writes: every secret, then every number, then every colour, each in insertion order. */
  function ConfigLines(d: ConfigData): seq<string>
    requires d.secrets.Valid() && d.numbers.Valid() && d.theme.Valid()
  {
    SecretLines(d.secrets.Items()) + NumberLines(d.numbers.Items()) + ThemeLines(d.theme.Items())
  }

  /** The text `save` writes. */
  function ConfigText(d: ConfigData): string
    requires d.secrets.Valid() && d.numbers.Valid() && d.theme.Valid()
  {
    Join(ConfigLines(d))
  }

  /** The error a save raises: each step has its own `RuntimeError`. */
  function SaveStatus(p: Persisted): (st: Status)
    ensures st.Ok? <==> p == Written
  {
    match p
    case Written => Ok
    case BackupFailed => Raised(Runtime(BackingUp))
    case WriteFailed => Raised(Runtime(Saving))
  }

  // ------------------------------------------------------ reloading

  /** The state `reload` leaves: the path the object now points at, its data, the files, the outcome. */
  datatype Reloaded = Reloaded(path: string, data: ConfigData, files: map<string, Entry>, status: Status)

  /**
   * `reload`: load again; if that raises, swap the path with its backup path,
   * load the backup and save it under the backup path. An error in either
   * step raises the reloading `RuntimeError`, and the swap stays in place.
   */
  function ReloadSpec(path: string, files: map<string, Entry>, denied: set<string>): Reloaded {
    var (d1, s1) := LoadConfigSpec(files, path);
    if s1.Ok? then Reloaded(path, d1, files, Ok)
    else
      var backup := BackupPath(path);
      var (d2, s2) := LoadConfigSpec(files, backup);
      if s2.Raised? then Reloaded(backup, d2, files, Raised(Runtime(Reloading)))
      else
        var (after, p) := PersistSpec(files, denied, backup, ConfigText(d2));
        Reloaded(backup, d2, after, if p == Written then Ok else Raised(Runtime(Reloading)))
  }

  // ------------------------------------------------------ the class

  /** A value `get` returns. */
  datatype Value = Text(s: string) | Number(n: nat)

  class Config {
    var filepath: string
    var data: ConfigData

    ghost predicate Valid()
      reads this
    {
      WellFormedConfig(data)
    }

    /** The fields `__init__` sets before it loads. */
    constructor (path: string)
      ensures filepath == path && data == EmptyConfig() && Valid()
    {
      filepath := path;
      data := EmptyConfig();
    }

    /**
     * `Config(path)`: construct, then load the file. When the load raises, the
     * constructor raises with it, so the caller gets no object (null here).
     */
    static method Open(fs: FileSystem, path: string) returns (c: Config?, st: Status)
      ensures st == LoadConfigSpec(fs.files, path).1
      ensures c != null <==> !st.Raised?
      ensures c != null ==> fresh(c) && c.Valid() && c.filepath == path
      ensures c != null ==> c.data == LoadConfigSpec(fs.files, path).0
    {
      var made := new Config(path);
      st := made.LoadConfig(fs);
      c := if st.Raised? then null else made;
    }

    /** `_load_config`. */
    method LoadConfig(fs: FileSystem) returns (st: Status)
      modifies this`data
      ensures Valid()
      ensures (data, st) == LoadConfigSpec(fs.files, filepath)
    {
      data := EmptyConfig();
      var r := fs.Read(filepath);
      match r
      case NotFound =>
        st := Ok;
      case ReadError =>
        st := Raised(Runtime(Loading));
      case Contents(text) =>
        var lines := Lines(text);
        for i := 0 to |lines|
          invariant data == ConfigFrom(EmptyConfig(), lines[..i])
        {
          LoadLine(lines[i]);
          assert lines[..i + 1][..i] == lines[..i];
        }
        assert lines[..|lines|] == lines;
        assert data == ParseConfig(text);
        st := Ok;
    }

    /** The body of the read loop: strip the line, skip blanks and comments, dispatch on the prefix. */
    method LoadLine(raw: string)
      modifies this`data
      ensures data == ConfigStep(old(data), raw)
    {
      var line := Strip(raw);
      if line == "" || StartsWith(line, "//") {
      } else if StartsWith(line, SecretPrefix) {
        ParseSecret(line);
      } else if StartsWith(line, NumberPrefix) {
        ParseNumber(line);
      } else if StartsWith(line, ThemePrefix) {
        ParseTheme(line);
      }
    }

    method ParseSecret(line: string)
      modifies this`data
      ensures data == WithSecret(old(data), line)
    {
      var m := MatchSecret(line);
      if m.Some? {
        var (key, value) := m.value;
        data := data.(secrets := data.secrets.Put(key, value));
      }
    }

    method ParseNumber(line: string)
      modifies this`data
      ensures data == WithNumber(old(data), line)
    {
      var m := MatchNumber(line);
      if m.Some? {
        var (key, value) := m.value;
        data := data.(numbers := data.numbers.Put(key, value));
      }
    }

    method ParseTheme(line: string)
      modifies this`data
      ensures data == WithTheme(old(data), line)
    {
      var m := MatchTheme(line);
      if m.Some? {
        var (key, value) := m.value;
        data := data.(theme := data.theme.Put(key, value));
      }
    }

    /** `get_secret`: the stored secret, or None. */
    function GetSecret(key: string): (r: Option<string>)
      reads this
      ensures r.Some? <==> key in data.secrets.vals
      ensures r.Some? ==> r.value == data.secrets.vals[key]
    {
      data.secrets.Get(key)
    }

    /** `get_number`: the stored number, or None. */
    function GetNumber(key: string): (r: Option<nat>)
      reads this
      ensures r.Some? <==> key in data.numbers.vals
      ensures r.Some? ==> r.value == data.numbers.vals[key]
    {
      data.numbers.Get(key)
    }

    /** `get("section:subkey")`: the key is cut at its first ':'. */
    function Get(key: string): (r: Option<Value>)
      reads this
      ensures ':' !in key ==> r == None
    {
      if ':' !in key then None
      else
        var i := IndexOf(key, ':');
        Section(key[..i], key[i + 1..])
    }

    /** `self.data.get(section, {}).get(subkey)`: sections are named as in `data`. */
    function Section(section: string, subkey: string): Option<Value>
      reads this
    {
      if section == "secrets" then
        (match data.secrets.Get(subkey) case None => None case Some(s) => Some(Text(s)))
      else if section == "numbers" then
        (match data.numbers.Get(subkey) case None => None case Some(n) => Some(Number(n)))
      else if section == "theme" then
        (match data.theme.Get(subkey) case None => None case Some(c) => Some(Text(c)))
      else None
    }

    /** A key whose section holds no ':' is looked up in that section, whatever ':' the subkey holds. */
    lemma GetSplitsAtFirstColon(section: string, subkey: string)
      requires ':' !in section
      ensures Get(section + ":" + subkey) == Section(section, subkey)
    {
      FirstColon(section, subkey);
    }

    /** What `get` finds under a section name. */
    lemma GetSecretsSection(subkey: string)
      ensures Get("secrets:" + subkey) == (if GetSecret(subkey).Some? then Some(Text(GetSecret(subkey).value)) else None)
    {
      assert "secrets:" + subkey == "secrets" + ":" + subkey;
      GetSplitsAtFirstColon("secrets", subkey);
    }

    lemma GetNumbersSection(subkey: string)
      ensures Get("numbers:" + subkey) == (if GetNumber(subkey).Some? then Some(Number(GetNumber(subkey).value)) else None)
    {
      assert "numbers:" + subkey == "numbers" + ":" + subkey;
      GetSplitsAtFirstColon("numbers", subkey);
    }

    lemma GetThemeSection(subkey: string)
      ensures Get("theme:" + subkey) == (if subkey in data.theme.vals then Some(Text(data.theme.vals[subkey])) else None)
    {
      assert "theme:" + subkey == "theme" + ":" + subkey;
      GetSplitsAtFirstColon("theme", subkey);
    }

    /**
     * The prefixes of the file, "secret" and "num", are not section names:
     * `get("secret:x")` is always None, whatever the file holds.
     */
    lemma FilePrefixesAreNoSections(subkey: string)
      ensures Get("secret:" + subkey) == None && Get("num:" + subkey) == None
    {
      assert "secret:" + subkey == "secret" + ":" + subkey;
      GetSplitsAtFirstColon("secret", subkey);
      assert "num:" + subkey == "num" + ":" + subkey;
      GetSplitsAtFirstColon("num", subkey);
    }

    lemma ThemeSection()
      ensures forall k :: Get("theme:" + k) == (if k in data.theme.vals then Some(Text(data.theme.vals[k])) else None)
    {
      forall k ensures Get("theme:" + k) == (if k in data.theme.vals then Some(Text(data.theme.vals[k])) else None) {
        GetThemeSection(k);
      }
    }

    /** A section name other than the three finds nothing. */
    lemma GetUnknownSection(section: string, subkey: string)
      requires ':' !in section
      requires section != "secrets" && section != "numbers" && section != "theme"
      ensures Get(section + ":" + subkey) == None
    {
      GetSplitsAtFirstColon(section, subkey);
    }

    /** `all_secrets`: the dictionary `get_secret` looks in. */
    function AllSecrets(): (r: Dict<string, string>)
      reads this
      ensures forall k :: r.Get(k) == GetSecret(k)
    {
      data.secrets
    }

    /** `all_numbers`: the dictionary `get_number` looks in. */
    function AllNumbers(): (r: Dict<string, nat>)
      reads this
      ensures forall k :: r.Get(k) == GetNumber(k)
    {
      data.numbers
    }

    /** `all_theme`: the dictionary `get("theme:...")` looks in. */
    function AllTheme(): (r: Dict<string, string>)
      reads this
      ensures forall k :: Get("theme:" + k) == (if r.Get(k).Some? then Some(Text(r.Get(k).value)) else None)
    {
      ThemeSection();
      data.theme
    }

    /** `all`: the three dictionaries together. */
    function All(): (r: ConfigData)
      reads this
      ensures r.secrets == AllSecrets() && r.numbers == AllNumbers() && r.theme == AllTheme()
    {
      data
    }

    /** The text the three write loops of `save` produce. */
    method Render() returns (text: string)
      requires Valid()
      ensures text == ConfigText(data)
    {
      var secrets := data.secrets.Items();
      var numbers := data.numbers.Items();
      var theme := data.theme.Items();
      var s := RenderSecrets(secrets);
      var n := RenderNumbers(numbers);
      var t := RenderTheme(theme);
      text := s + n + t;
      JoinAppend(SecretLines(secrets), NumberLines(numbers));
      JoinAppend(SecretLines(secrets) + NumberLines(numbers), ThemeLines(theme));
    }

    /**
     * `save`: back the file up, then rewrite it. After a normal return the
     * file loads back as exactly the data in memory.
     */
    method Save(fs: FileSystem) returns (st: Status)
      requires Valid()
      modifies fs`files
      ensures var (files, p) := PersistSpec(old(fs.files), fs.denied, filepath, ConfigText(data));
        fs.files == files && st == SaveStatus(p)
      ensures st.Ok? ==> LoadConfigSpec(fs.files, filepath) == (data, Ok)
    {
      var text := Render();
      var p := Persist(fs, filepath, text);
      st := SaveStatus(p);
      SaveThenLoad(old(fs.files), fs.denied, filepath, data);
    }

    /** `reload`. */
    method Reload(fs: FileSystem) returns (st: Status)
      requires Valid()
      modifies this, fs`files
      ensures Valid()
      ensures Reloaded(filepath, data, fs.files, st) == ReloadSpec(old(filepath), old(fs.files), fs.denied)
    {
      var backupPath := BackupPath(filepath);
      var loaded := LoadConfig(fs);
      if loaded.Ok? {
        return Ok;
      }
      filepath, backupPath := backupPath, filepath;
      loaded := LoadConfig(fs);
      if loaded.Raised? {
        return Raised(Runtime(Reloading));
      }
      var saved := Save(fs);
      st := if saved.Ok? then Ok else Raised(Runtime(Reloading));
    }
  }

  /** The loop `for key, val in self.data["secrets"].items(): f.write(...)`. */
  method RenderSecrets(items: seq<(string, string)>) returns (text: string)
    ensures text == Join(SecretLines(items))
  {
    text := "";
    for i := 0 to |items|
      invariant text == Join(SecretLines(items[..i]))
    {
      var (key, val) := items[i];
      JoinSnoc(SecretLines(items[..i]), SecretLine(key, val));
      assert items[..i + 1][..i] == items[..i];
      text := text + SecretLine(key, val) + "\n";
    }
    assert items[..|items|] == items;
  }

  method RenderNumbers(items: seq<(string, nat)>) returns (text: string)
    ensures text == Join(NumberLines(items))
  {
    text := "";
    for i := 0 to |items|
      invariant text == Join(NumberLines(items[..i]))
    {
      var (key, val) := items[i];
      JoinSnoc(NumberLines(items[..i]), NumberLine(key, val));
      assert items[..i + 1][..i] == items[..i];
      text := text + NumberLine(key, val) + "\n";
    }
    assert items[..|items|] == items;
  }

  method RenderTheme(items: seq<(string, string)>) returns (text: string)
    ensures text == Join(ThemeLines(items))
  {
    text := "";
    for i := 0 to |items|
      invariant text == Join(ThemeLines(items[..i]))
    {
      var (key, val) := items[i];
      JoinSnoc(ThemeLines(items[..i]), ThemeLine(key, val));
      assert items[..i + 1][..i] == items[..i];
      text := text + ThemeLine(key, val) + "\n";
    }
    assert items[..|items|] == items;
  }

  /** In `section + ":" + subkey` with no ':' in `section`, the first ':' ends the section. */
  lemma FirstColon(section: string, subkey: string)
    requires ':' !in section
    ensures var key := section + ":" + subkey;
      ':' in key && IndexOf(key, ':') == |section|
      && key[..|section|] == section && key[|section| + 1..] == subkey
  {
    var key := section + ":" + subkey;
    assert key[|section|] == ':';
    assert forall j :: 0 <= j < |section| ==> key[j] == section[j];
  }

  // ------------------------------------------------------ properties

  lemma {:induction false} ConfigFromAppend(d: ConfigData, a: seq<string>, b: seq<string>)
    ensures ConfigFrom(d, a + b) == ConfigFrom(ConfigFrom(d, a), b)
    decreases |b|
  {
    if b == [] {
      assert a + b == a;
    } else {
      assert (a + b)[..|a + b| - 1] == a + b[..|b| - 1];
      ConfigFromAppend(d, a, b[..|b| - 1]);
    }
  }

  lemma MatchedSecretStorable(line: string)
    requires NoLineBreak(line) && MatchSecret(line).Some?
    ensures IsKey(MatchSecret(line).value.0) && IsStorable(MatchSecret(line).value.1)
  {
    var (k, v) := MatchSecret(line).value;
    var ws, tail := MatchSecretSound(line);
    NoLineBreakQuoted(SecretPrefix + k + ws, v, tail);
  }

  /** Every line a file can hold keeps the data well formed. */
  lemma SecretStepWellFormed(d: ConfigData, line: string)
    requires WellFormedConfig(d) && NoLineBreak(line)
    ensures WellFormedConfig(WithSecret(d, line))
  {
    if MatchSecret(line).Some? {
      MatchedSecretStorable(line);
      var (k, v) := MatchSecret(line).value;
      var r := d.secrets.Put(k, v);
      forall j | j in r.vals ensures IsKey(j) && IsStorable(r.vals[j]) {
        if j != k {
          assert r.Get(j) == d.secrets.Get(j);
        }
      }
    }
  }

  lemma NumberStepWellFormed(d: ConfigData, line: string)
    requires WellFormedConfig(d)
    ensures WellFormedConfig(WithNumber(d, line))
  {
    if MatchNumber(line).Some? {
      var (k, n) := MatchNumber(line).value;
      var r := d.numbers.Put(k, n);
      forall j | j in r.vals ensures IsKey(j) {
        if j != k {
          assert r.Get(j) == d.numbers.Get(j);
        }
      }
    }
  }

  lemma ThemeStepWellFormed(d: ConfigData, line: string)
    requires WellFormedConfig(d)
    ensures WellFormedConfig(WithTheme(d, line))
  {
    if MatchTheme(line).Some? {
      var (k, c) := MatchTheme(line).value;
      var r := d.theme.Put(k, c);
      forall j | j in r.vals ensures IsKey(j) && IsColor(r.vals[j]) {
        if j != k {
          assert r.Get(j) == d.theme.Get(j);
        }
      }
    }
  }

  lemma ConfigStepWellFormed(d: ConfigData, raw: string)
    requires WellFormedConfig(d) && NoLineBreak(raw)
    ensures WellFormedConfig(ConfigStep(d, raw))
  {
    var line := Strip(raw);
    StripNoLineBreak(raw);
    SecretStepWellFormed(d, line);
    NumberStepWellFormed(d, line);
    ThemeStepWellFormed(d, line);
  }

  lemma {:induction false} ConfigFromWellFormed(d: ConfigData, lines: seq<string>)
    requires WellFormedConfig(d)
    requires forall i :: 0 <= i < |lines| ==> NoLineBreak(lines[i])
    ensures WellFormedConfig(ConfigFrom(d, lines))
    decreases |lines|
  {
    if lines != [] {
      ConfigFromWellFormed(d, lines[..|lines| - 1]);
      ConfigStepWellFormed(ConfigFrom(d, lines[..|lines| - 1]), lines[|lines| - 1]);
    }
  }

  /** A stripped line that matches the secret pattern sets that secret. */
  lemma SecretStep(d: ConfigData, line: string, k: string, v: string)
    requires line != "" && !StartsWith(line, "//") && StartsWith(line, SecretPrefix)
    requires Strip(line) == line && MatchSecret(line) == Some((k, v))
    ensures ConfigStep(d, line) == d.(secrets := d.secrets.Put(k, v))
  {
  }

  lemma NumberStep(d: ConfigData, line: string, k: string, n: nat)
    requires line != "" && !StartsWith(line, "//") && !StartsWith(line, SecretPrefix) && StartsWith(line, NumberPrefix)
    requires Strip(line) == line && MatchNumber(line) == Some((k, n))
    ensures ConfigStep(d, line) == d.(numbers := d.numbers.Put(k, n))
  {
  }

  lemma ThemeStep(d: ConfigData, line: string, k: string, c: string)
    requires line != "" && !StartsWith(line, "//") && !StartsWith(line, SecretPrefix) && !StartsWith(line, NumberPrefix)
    requires StartsWith(line, ThemePrefix) && Strip(line) == line && MatchTheme(line) == Some((k, c))
    ensures ConfigStep(d, line) == d.(theme := d.theme.Put(k, c))
  {
  }

  /** A secret line that `save` writes sets that secret when it is loaded. */
  lemma SecretLineStep(d: ConfigData, k: string, v: string)
    requires IsKey(k) && IsStorable(v)
    ensures ConfigStep(d, SecretLine(k, v)) == d.(secrets := d.secrets.Put(k, v))
  {
    SecretLineFacts(k, v);
    SecretLineRoundTrip(k, v);
    SecretStep(d, SecretLine(k, v), k, v);
  }

  lemma NumberLineStep(d: ConfigData, k: string, n: nat)
    requires IsKey(k)
    ensures ConfigStep(d, NumberLine(k, n)) == d.(numbers := d.numbers.Put(k, n))
  {
    NumberLineFacts(k, n);
    NumberLineRoundTrip(k, n);
    NumberStep(d, NumberLine(k, n), k, n);
  }

  lemma ThemeLineStep(d: ConfigData, k: string, c: string)
    requires IsKey(k) && IsColor(c)
    ensures ConfigStep(d, ThemeLine(k, c)) == d.(theme := d.theme.Put(k, c))
  {
    ThemeLineFacts(k, c);
    ThemeLineRoundTrip(k, c);
    ThemeStep(d, ThemeLine(k, c), k, c);
  }

  /** The lines `save` writes for a dictionary of secrets put those secrets, in order. */
  lemma {:induction false} SecretLinesApply(d: ConfigData, items: seq<(string, string)>)
    requires forall i :: 0 <= i < |items| ==> IsKey(items[i].0) && IsStorable(items[i].1)
    ensures ConfigFrom(d, SecretLines(items)) == d.(secrets := d.secrets.PutAll(items))
    decreases |items|
  {
    if items != [] {
      var init := items[..|items| - 1];
      var (k, v) := items[|items| - 1];
      var ls := SecretLines(items);
      SecretLinesApply(d, init);
      assert ls[..|ls| - 1] == SecretLines(init);
      SecretLineStep(ConfigFrom(d, SecretLines(init)), k, v);
    }
  }

  lemma SecretLinesOneLine(items: seq<(string, string)>)
    requires forall i :: 0 <= i < |items| ==> IsKey(items[i].0) && IsStorable(items[i].1)
    ensures forall i :: 0 <= i < |items| ==> NoLineBreak(SecretLines(items)[i])
  {
    forall i | 0 <= i < |items| ensures NoLineBreak(SecretLines(items)[i]) {
      SecretLineAt(items, i);
      SecretLineFacts(items[i].0, items[i].1);
    }
  }

  lemma {:induction false} SecretLineAt(items: seq<(string, string)>, i: nat)
    requires i < |items|
    ensures SecretLines(items)[i] == SecretLine(items[i].0, items[i].1)
    decreases |items|
  {
    if i < |items| - 1 {
      SecretLineAt(items[..|items| - 1], i);
    }
  }

  lemma {:induction false} NumberLinesApply(d: ConfigData, items: seq<(string, nat)>)
    requires forall i :: 0 <= i < |items| ==> IsKey(items[i].0)
    ensures ConfigFrom(d, NumberLines(items)) == d.(numbers := d.numbers.PutAll(items))
    decreases |items|
  {
    if items != [] {
      var init := items[..|items| - 1];
      var (k, n) := items[|items| - 1];
      var ls := NumberLines(items);
      NumberLinesApply(d, init);
      assert ls[..|ls| - 1] == NumberLines(init);
      NumberLineStep(ConfigFrom(d, NumberLines(init)), k, n);
    }
  }

  lemma NumberLinesOneLine(items: seq<(string, nat)>)
    requires forall i :: 0 <= i < |items| ==> IsKey(items[i].0)
    ensures forall i :: 0 <= i < |items| ==> NoLineBreak(NumberLines(items)[i])
  {
    forall i | 0 <= i < |items| ensures NoLineBreak(NumberLines(items)[i]) {
      NumberLineAt(items, i);
      NumberLineFacts(items[i].0, items[i].1);
    }
  }

  lemma {:induction false} NumberLineAt(items: seq<(string, nat)>, i: nat)
    requires i < |items|
    ensures NumberLines(items)[i] == NumberLine(items[i].0, items[i].1)
    decreases |items|
  {
    if i < |items| - 1 {
      NumberLineAt(items[..|items| - 1], i);
    }
  }

  lemma {:induction false} ThemeLinesApply(d: ConfigData, items: seq<(string, string)>)
    requires forall i :: 0 <= i < |items| ==> IsKey(items[i].0) && IsColor(items[i].1)
    ensures ConfigFrom(d, ThemeLines(items)) == d.(theme := d.theme.PutAll(items))
    decreases |items|
  {
    if items != [] {
      var init := items[..|items| - 1];
      var (k, c) := items[|items| - 1];
      var ls := ThemeLines(items);
      ThemeLinesApply(d, init);
      assert ls[..|ls| - 1] == ThemeLines(init);
      ThemeLineStep(ConfigFrom(d, ThemeLines(init)), k, c);
    }
  }

  lemma ThemeLinesOneLine(items: seq<(string, string)>)
    requires forall i :: 0 <= i < |items| ==> IsKey(items[i].0) && IsColor(items[i].1)
    ensures forall i :: 0 <= i < |items| ==> NoLineBreak(ThemeLines(items)[i])
  {
    forall i | 0 <= i < |items| ensures NoLineBreak(ThemeLines(items)[i]) {
      ThemeLineAt(items, i);
      ThemeLineFacts(items[i].0, items[i].1);
    }
  }

  lemma {:induction false} ThemeLineAt(items: seq<(string, string)>, i: nat)
    requires i < |items|
    ensures ThemeLines(items)[i] == ThemeLine(items[i].0, items[i].1)
    decreases |items|
  {
    if i < |items| - 1 {
      ThemeLineAt(items[..|items| - 1], i);
    }
  }

  lemma OneLineEachConcat(a: seq<string>, b: seq<string>)
    requires forall i :: 0 <= i < |a| ==> NoLineBreak(a[i])
    requires forall i :: 0 <= i < |b| ==> NoLineBreak(b[i])
    ensures forall i :: 0 <= i < |a + b| ==> NoLineBreak((a + b)[i])
  {
    forall i | 0 <= i < |a + b| ensures NoLineBreak((a + b)[i]) {
      if i >= |a| {
        assert (a + b)[i] == b[i - |a|];
      }
    }
  }

  lemma SecretsRebuilt(d: ConfigData)
    requires WellFormedConfig(d)
    ensures ConfigFrom(EmptyConfig(), SecretLines(d.secrets.Items())) == EmptyConfig().(secrets := d.secrets)
  {
    SecretLinesApply(EmptyConfig(), d.secrets.Items());
    PutAllItems(d.secrets);
  }

  lemma NumbersRebuilt(d: ConfigData, e: ConfigData)
    requires WellFormedConfig(d) && e.numbers == Empty()
    ensures ConfigFrom(e, NumberLines(d.numbers.Items())) == e.(numbers := d.numbers)
  {
    NumberLinesApply(e, d.numbers.Items());
    PutAllItems(d.numbers);
  }

  lemma ThemeRebuilt(d: ConfigData, e: ConfigData)
    requires WellFormedConfig(d) && e.theme == Empty()
    ensures ConfigFrom(e, ThemeLines(d.theme.Items())) == e.(theme := d.theme)
  {
    ThemeLinesApply(e, d.theme.Items());
    PutAllItems(d.theme);
  }

  /** Running the load loop over the lines `save` writes rebuilds the data. */
  lemma ConfigLinesApply(d: ConfigData)
    requires WellFormedConfig(d)
    ensures ConfigFrom(EmptyConfig(), ConfigLines(d)) == d
  {
    var ss, ns, ts := SecretLines(d.secrets.Items()), NumberLines(d.numbers.Items()), ThemeLines(d.theme.Items());
    var e := EmptyConfig();
    ConfigFromAppend(e, ss, ns);
    ConfigFromAppend(e, ss + ns, ts);
    var e1 := e.(secrets := d.secrets);
    SecretsRebuilt(d);
    var e2 := e1.(numbers := d.numbers);
    NumbersRebuilt(d, e1);
    ThemeRebuilt(d, e2);
  }

  /** Every line `save` writes is one line of the file. */
  lemma ConfigLinesOneLine(d: ConfigData)
    requires WellFormedConfig(d)
    ensures forall i :: 0 <= i < |ConfigLines(d)| ==> NoLineBreak(ConfigLines(d)[i])
  {
    var ss, ns, ts := SecretLines(d.secrets.Items()), NumberLines(d.numbers.Items()), ThemeLines(d.theme.Items());
    SecretLinesOneLine(d.secrets.Items());
    NumberLinesOneLine(d.numbers.Items());
    ThemeLinesOneLine(d.theme.Items());
    OneLineEachConcat(ss, ns);
    OneLineEachConcat(ss + ns, ts);
  }

  /** What `save` writes, `_load_config` reads back as the same three dictionaries, in the same order. */
  lemma ConfigRoundTrip(d: ConfigData)
    requires WellFormedConfig(d)
    ensures ParseConfig(ConfigText(d)) == d
  {
    ConfigLinesApply(d);
    ConfigLinesOneLine(d);
    LinesOfJoin(ConfigLines(d));
  }

  /** Saving what was loaded and loading it again gives the same data: a save after a load is a fixpoint. */
  lemma LoadSaveLoad(text: string)
    ensures ParseConfig(ConfigText(ParseConfig(text))) == ParseConfig(text)
  {
    ConfigRoundTrip(ParseConfig(text));
  }

  /** Blank lines and `//` lines leave the data as it is. */
  lemma SkippedLineIgnored(d: ConfigData, raw: string)
    requires Strip(raw) == "" || StartsWith(Strip(raw), "//")
    ensures ConfigStep(d, raw) == d
  {
  }

  /** A line none of the three patterns matches is dropped without an error. */
  lemma UnmatchedLineIgnored(d: ConfigData, raw: string)
    requires MatchSecret(Strip(raw)).None? && MatchNumber(Strip(raw)).None? && MatchTheme(Strip(raw)).None?
    ensures ConfigStep(d, raw) == d
  {
  }

  /** A `secret:` line the secret pattern rejects is dropped, whatever the other patterns say. */
  lemma RejectedSecretIgnored(d: ConfigData, line: string)
    requires line != "" && !StartsWith(line, "//") && StartsWith(line, SecretPrefix)
    requires Strip(line) == line && MatchSecret(line) == None
    ensures ConfigStep(d, line) == d
  {
  }

  /** A `secret:` line whose value has no quotes, such as `secret:foo bar`, adds nothing and raises nothing. */
  lemma UnquotedSecretLineIgnored(d: ConfigData, k: string, ws: string, rest: string)
    requires IsKey(k) && IsSpaces(ws) && rest != [] && rest[0] != '"' && !IsSpace(rest[0])
    requires !IsSpace(rest[|rest| - 1])
    ensures ConfigStep(d, SecretPrefix + k + ws + rest) == d
  {
    var line := SecretPrefix + k + ws + rest;
    UnquotedSecretRejected(k, ws, rest);
    assert line[0] == 's' && line[|line| - 1] == rest[|rest| - 1];
    StripUnchanged(line);
    assert line[..|SecretPrefix|] == SecretPrefix;
    assert line[..2] == "se";
    RejectedSecretIgnored(d, line);
  }

  /** The value the last line that sets secret `k` gives it, if any line does. */
  function LastSecret(lines: seq<string>, k: string): Option<string>
    decreases |lines|
  {
    if lines == [] then None
    else
      var m := MatchSecret(Strip(lines[|lines| - 1]));
      if m.Some? && m.value.0 == k then Some(m.value.1)
      else LastSecret(lines[..|lines| - 1], k)
  }

  /**
   * A later line for the same secret overwrites an earlier one, and no number,
   * theme, comment or malformed line touches the secrets.
   */
  lemma {:induction false} SecretIsLastAssignment(lines: seq<string>, k: string)
    ensures ConfigFrom(EmptyConfig(), lines).secrets.Get(k) == LastSecret(lines, k)
    decreases |lines|
  {
    if lines != [] {
      var init := lines[..|lines| - 1];
      SecretIsLastAssignment(init, k);
      var line := Strip(lines[|lines| - 1]);
      if MatchSecret(line).Some? {
        assert StartsWith(line, SecretPrefix);
        PrefixesExclusive(line);
      }
    }
  }

  function LastNumber(lines: seq<string>, k: string): Option<nat>
    decreases |lines|
  {
    if lines == [] then None
    else
      var m := MatchNumber(Strip(lines[|lines| - 1]));
      if m.Some? && m.value.0 == k then Some(m.value.1)
      else LastNumber(lines[..|lines| - 1], k)
  }

  lemma {:induction false} NumberIsLastAssignment(lines: seq<string>, k: string)
    ensures ConfigFrom(EmptyConfig(), lines).numbers.Get(k) == LastNumber(lines, k)
    decreases |lines|
  {
    if lines != [] {
      var init := lines[..|lines| - 1];
      NumberIsLastAssignment(init, k);
      var line := Strip(lines[|lines| - 1]);
      if MatchNumber(line).Some? {
        assert StartsWith(line, NumberPrefix);
        PrefixesExclusive(line);
      }
    }
  }

  function LastTheme(lines: seq<string>, k: string): Option<string>
    decreases |lines|
  {
    if lines == [] then None
    else
      var m := MatchTheme(Strip(lines[|lines| - 1]));
      if m.Some? && m.value.0 == k then Some(m.value.1)
      else LastTheme(lines[..|lines| - 1], k)
  }

  lemma {:induction false} ThemeIsLastAssignment(lines: seq<string>, k: string)
    ensures ConfigFrom(EmptyConfig(), lines).theme.Get(k) == LastTheme(lines, k)
    decreases |lines|
  {
    if lines != [] {
      var init := lines[..|lines| - 1];
      ThemeIsLastAssignment(init, k);
      var line := Strip(lines[|lines| - 1]);
      if MatchTheme(line).Some? {
        assert StartsWith(line, ThemePrefix);
        PrefixesExclusive(line);
      }
    }
  }

  /** A number and a secret under the same key, such as `num:x 5` and `secret:x "hello"`, both load. */
  lemma NamespacesIsolated(k: string, n: nat, v: string)
    requires IsKey(k) && IsStorable(v)
    ensures var d := ConfigFrom(EmptyConfig(), [NumberLine(k, n), SecretLine(k, v)]);
      d.numbers.Get(k) == Some(n) && d.secrets.Get(k) == Some(v)
  {
    var a, b := NumberLine(k, n), SecretLine(k, v);
    TwoLines(EmptyConfig(), a, b);
    NumberLineStep(EmptyConfig(), k, n);
    var e1 := EmptyConfig().(numbers := EmptyConfig().numbers.Put(k, n));
    SecretLineStep(e1, k, v);
  }

  lemma TwoLines(d: ConfigData, a: string, b: string)
    ensures ConfigFrom(d, [a, b]) == ConfigStep(ConfigStep(d, a), b)
  {
    assert [a, b][..1] == [a] && [a][..0] == [];
    assert ConfigFrom(d, [a]) == ConfigStep(d, a);
    assert ConfigFrom(d, [a, b]) == ConfigStep(ConfigFrom(d, [a]), b);
  }

  /** The load/save cycle on disk: after a save returns normally, loading the same path gives the data back. */
  lemma SaveThenLoad(files: map<string, Entry>, denied: set<string>, path: string, d: ConfigData)
    requires WellFormedConfig(d)
    ensures var (after, p) := PersistSpec(files, denied, path, ConfigText(d));
      p == Written ==> LoadConfigSpec(after, path) == (d, Ok)
  {
    var (after, p) := PersistSpec(files, denied, path, ConfigText(d));
    PersistWrites(files, denied, path, ConfigText(d));
    if p == Written {
      LoadsAs(after, path, ConfigText(d));
      ConfigRoundTrip(d);
    }
  }

  /**
   * A reload never rewrites the primary file: when it cannot be read, the
   * object moves to the backup path and only that file and its own backup
   * change, so a later save also goes to the backup path.
   */
  lemma ReloadNeverHealsPrimary(path: string, files: map<string, Entry>, denied: set<string>)
    ensures var r := ReloadSpec(path, files, denied);
      && SameAt(r.files, files, path)
      && (r.path == path <==> !(path in files && files[path].Unreadable?))
      && (r.path != path ==> r.path == BackupPath(path))
  {
    var r := ReloadSpec(path, files, denied);
    var backup := BackupPath(path);
    if path in files && files[path].Unreadable? && !(backup in files && files[backup].Unreadable?) {
      var d2 := LoadConfigSpec(files, backup).0;
      PersistOrdering(files, denied, backup, ConfigText(d2));
      assert path != backup && path != BackupPath(backup);
    }
  }

  /**
   * Falling back to a readable backup: the data is the backup's, and if both
   * the backup path and its own backup can be written, the reload returns
   * normally with the backup rewritten as it loaded.
   */
  lemma ReloadFromBackup(path: string, files: map<string, Entry>, denied: set<string>, text: string)
    requires path in files && files[path].Unreadable?
    requires BackupPath(path) in files && files[BackupPath(path)] == File(text)
    requires BackupPath(path) !in denied && BackupPath(BackupPath(path)) !in denied
    ensures var r := ReloadSpec(path, files, denied);
      && r.status == Ok && r.path == BackupPath(path) && r.data == ParseConfig(text)
      && r.files == files[BackupPath(BackupPath(path)) := File(text)]
                         [BackupPath(path) := File(ConfigText(ParseConfig(text)))]
  {
    var backup := BackupPath(path);
    LoadsAs(files, backup, text);
    PersistOverFile(files, denied, backup, text, ConfigText(ParseConfig(text)));
  }

  lemma LoadsAs(files: map<string, Entry>, path: string, text: string)
    requires path in files && files[path] == File(text)
    ensures LoadConfigSpec(files, path) == (ParseConfig(text), Ok)
  {
  }

  /** Saving over a readable file copies it to its backup, then writes the new text. */
  lemma PersistOverFile(files: map<string, Entry>, denied: set<string>, path: string, previous: string, text: string)
    requires path in files && files[path] == File(previous)
    requires path !in denied && BackupPath(path) !in denied
    ensures PersistSpec(files, denied, path, text)
         == (files[BackupPath(path) := File(previous)][path := File(text)], Written)
  {
  }

  /**
   * With no backup at all the fallback "succeeds" with empty data, and the
   * save writes an empty backup file.
   */
  lemma ReloadWithoutBackup(path: string, files: map<string, Entry>, denied: set<string>)
    requires path in files && files[path].Unreadable?
    requires BackupPath(path) !in files && BackupPath(path) !in denied
    ensures var r := ReloadSpec(path, files, denied);
      r.status == Ok && r.data == EmptyConfig() && r.files == files[BackupPath(path) := File("")]
  {
    assert EmptyConfig().secrets.Items() == [];
    assert EmptyConfig().numbers.Items() == [];
    assert EmptyConfig().theme.Items() == [];
  }

  /** A missing file is no failure: the reload leaves the path, the files and an empty store in place. */
  lemma ReloadMissingPrimary(path: string, files: map<string, Entry>, denied: set<string>)
    requires path !in files
    ensures ReloadSpec(path, files, denied) == Reloaded(path, EmptyConfig(), files, Ok)
  {
  }

  /** When the file and its backup are both unreadable, the reload raises and the data in memory is gone. */
  lemma ReloadDoubleFailure(path: string, files: map<string, Entry>, denied: set<string>)
    requires path in files && files[path].Unreadable?
    requires BackupPath(path) in files && files[BackupPath(path)].Unreadable?
    ensures ReloadSpec(path, files, denied)
         == Reloaded(BackupPath(path), EmptyConfig(), files, Raised(Runtime(Reloading)))
  {
  }

  // =================================================================
  // The targets file
  // =================================================================

  /** One turn of the loop in `_load_targets`. */
  function TargetStep(d: Dict<string, TargetInfo>, raw: string): Dict<string, TargetInfo> {
    var line := Strip(raw);
    if line == "" || StartsWith(line, "//") then d
    else
      match MatchTarget("", line)
      case None => d
      case Some((k, t)) => d.Put(k, t)
  }

  function TargetsFrom(d: Dict<string, TargetInfo>, lines: seq<string>): Dict<string, TargetInfo>
    decreases |lines|
  {
    if lines == [] then d
    else TargetStep(TargetsFrom(d, lines[..|lines| - 1]), lines[|lines| - 1])
  }

  /** The targets a file with this text loads as. */
  function ParseTargets(text: string): (d: Dict<string, TargetInfo>)
    ensures WellFormedTargets(d)
  {
    TargetsFromWellFormed(Empty(), Lines(text));
    TargetsFrom(Empty(), Lines(text))
  }

  /**
   * `_load_targets`: the targets are cleared first; a missing file leaves
   * them empty, any other read error propagates as it is.
   */
  function LoadTargetsSpec(files: map<string, Entry>, path: string): (r: (Dict<string, TargetInfo>, Status))
    ensures r.0.Valid()
    ensures r.1.Raised? <==> path in files && files[path].Unreadable?
    ensures r.1.Raised? ==> r == (Empty(), Raised(ReadFailure))
  {
    match ReadOf(files, path)
    case NotFound => (Empty(), Ok)
    case ReadError => (Empty(), Raised(ReadFailure))
    case Contents(text) => (ParseTargets(text), Ok)
  }

  /** Targets that a save writes and a load reads back unchanged. */
  ghost predicate WellFormedTargets(d: Dict<string, TargetInfo>) {
    && d.Valid()
    && forall k :: k in d.vals ==>
         IsKey(k) && IsStorable(d.vals[k].value) && (d.vals[k].desc == "" || IsStorable(d.vals[k].desc))
  }

  /** The arguments of `add_target` that keep the targets well formed. */
  predicate IsStorableTarget(key: string, value: string, desc: string) {
    IsKey(key) && IsStorable(value) && (desc == "" || IsStorable(desc))
  }

  function TargetLines(items: seq<(string, TargetInfo)>): (ls: seq<string>)
    ensures |ls| == |items|
    decreases |items|
  {
    if items == [] then []
    else TargetLines(items[..|items| - 1]) + [TargetLine(items[|items| - 1].0, items[|items| - 1].1)]
  }

  /** The text `save_targets` writes: one line per target, in insertion order. */
  function TargetsText(d: Dict<string, TargetInfo>): string
    requires d.Valid()
  {
    Join(TargetLines(d.Items()))
  }

  class TargetLock {
    var filepath: string
    var targets: Dict<string, TargetInfo>

    ghost predicate Valid()
      reads this
    {
      targets.Valid()
    }

    constructor (path: string)
      ensures filepath == path && targets == Empty() && Valid()
    {
      filepath := path;
      targets := Empty();
    }

    /**
     * `TargetLock(path)`: construct, then load the file. A read error other
     * than a missing file propagates out of the constructor, so the caller gets
     * no object (null here).
     */
    static method Open(fs: FileSystem, path: string) returns (t: TargetLock?, st: Status)
      ensures st == LoadTargetsSpec(fs.files, path).1
      ensures t != null <==> !st.Raised?
      ensures t != null ==> fresh(t) && t.Valid() && t.filepath == path
      ensures t != null ==> t.targets == LoadTargetsSpec(fs.files, path).0
    {
      var made := new TargetLock(path);
      st := made.LoadTargets(fs);
      t := if st.Raised? then null else made;
    }

    /** `_load_targets`. */
    method LoadTargets(fs: FileSystem) returns (st: Status)
      modifies this`targets
      ensures Valid()
      ensures (targets, st) == LoadTargetsSpec(fs.files, filepath)
    {
      targets := Empty();
      var r := fs.Read(filepath);
      match r
      case NotFound =>
        targets := Empty();
        st := Ok;
      case ReadError =>
        st := Raised(ReadFailure);
      case Contents(text) =>
        LoadLines(Lines(text));
        assert targets == ParseTargets(text);
        st := Ok;
    }

    /** The read loop of `_load_targets` over the lines of the file, from no targets. */
    method LoadLines(lines: seq<string>)
      requires targets == Empty()
      modifies this`targets
      ensures targets == TargetsFrom(Empty(), lines)
    {
      for i := 0 to |lines|
        invariant targets == TargetsFrom(Empty(), lines[..i])
      {
        LoadLine(lines[i]);
        assert lines[..i + 1][..i] == lines[..i];
      }
      assert lines[..|lines|] == lines;
    }

    /** The body of the read loop: strip the line, skip blanks and comments, match the target pattern. */
    method LoadLine(raw: string)
      modifies this`targets
      ensures targets == TargetStep(old(targets), raw)
    {
      var line := Strip(raw);
      if line != "" && !StartsWith(line, "//") {
        var m := MatchTarget("", line);
        if m.Some? {
          var (key, info) := m.value;
          targets := targets.Put(key, info);
        }
      }
    }

    /**
     * `all_targets`: the rows of its `items()` are exactly the stored
     * targets, each row a key of the store with that key's record.
     */
    function AllTargets(): (r: Dict<string, TargetInfo>)
      requires Valid()
      reads this
      ensures r.Valid()
      ensures forall i :: 0 <= i < |r.Items()| ==> r.Items()[i].0 in targets.vals && r.Items()[i].1 == targets.vals[r.Items()[i].0]
      ensures forall k :: k in targets.vals ==> exists i :: 0 <= i < |r.Items()| && r.Items()[i] == (k, targets.vals[k])
    {
      ItemsListAll(targets);
      targets
    }

    /** The text the write loop of `save_targets` produces. */
    method Render() returns (text: string)
      requires Valid()
      ensures text == TargetsText(targets)
    {
      var items := targets.Items();
      text := "";
      for i := 0 to |items|
        invariant text == Join(TargetLines(items[..i]))
      {
        var (key, target) := items[i];
        var line;
        if target.desc != "" {
          line := key + " " + Quote(target.value) + " " + Quote(target.desc);
        } else {
          line := key + " " + Quote(target.value);
        }
        JoinSnoc(TargetLines(items[..i]), line);
        assert items[..i + 1][..i] == items[..i];
        text := text + line + "\n";
      }
      assert items[..|items|] == items;
    }

    /** `save_targets`: back the file up, then rewrite it. */
    method SaveTargets(fs: FileSystem) returns (st: Status)
      requires Valid()
      modifies fs`files
      ensures var (files, p) := PersistSpec(old(fs.files), fs.denied, filepath, TargetsText(targets));
        fs.files == files && st == SaveStatus(p)
      ensures st.Ok? && WellFormedTargets(targets) ==> LoadTargetsSpec(fs.files, filepath) == (targets, Ok)
    {
      var text := Render();
      var p := Persist(fs, filepath, text);
      st := SaveStatus(p);
      if WellFormedTargets(targets) {
        SaveThenLoadTargets(old(fs.files), fs.denied, filepath, targets);
      }
    }

    /** `add_target`: set the record (in place for an existing key, at the end for a new one), then save. */
    method AddTarget(fs: FileSystem, key: string, value: string, desc: string) returns (st: Status)
      requires Valid()
      modifies this`targets, fs`files
      ensures Valid()
      ensures targets == old(targets).Put(key, TargetInfo(value, desc))
      ensures var (files, p) := PersistSpec(old(fs.files), fs.denied, filepath, TargetsText(targets));
        fs.files == files && st == SaveStatus(p)
      ensures old(WellFormedTargets(targets)) && IsStorableTarget(key, value, desc)
        ==> WellFormedTargets(targets)
    {
      ghost var before := targets;
      targets := targets.Put(key, TargetInfo(value, desc));
      st := SaveTargets(fs);
      if WellFormedTargets(before) && IsStorableTarget(key, value, desc) {
        AddKeepsWellFormed(before, key, value, desc);
      }
    }

    /** `delete_target`: remove and save when the key is present; otherwise do nothing at all. */
    method DeleteTarget(fs: FileSystem, key: string) returns (st: Status)
      requires Valid()
      modifies this`targets, fs`files
      ensures Valid()
      ensures key !in old(targets.vals) ==> targets == old(targets) && fs.files == old(fs.files) && st == Ok
      ensures key in old(targets.vals) ==>
        && targets == old(targets).Remove(key)
        && var (files, p) := PersistSpec(old(fs.files), fs.denied, filepath, TargetsText(targets));
           fs.files == files && st == SaveStatus(p)
      ensures old(WellFormedTargets(targets)) ==> WellFormedTargets(targets)
    {
      if key in targets.keys {
        ghost var before := targets;
        targets := targets.Remove(key);
        st := SaveTargets(fs);
        if WellFormedTargets(before) {
          RemoveKeepsWellFormed(before, key);
        }
      } else {
        st := Ok;
      }
    }

    /** `reload`: load again; unlike the settings store there is no fallback to the backup. */
    method Reload(fs: FileSystem) returns (st: Status)
      modifies this`targets
      ensures Valid()
      ensures (targets, st) == LoadTargetsSpec(fs.files, filepath)
    {
      st := LoadTargets(fs);
    }
  }

  lemma AddKeepsWellFormed(d: Dict<string, TargetInfo>, key: string, value: string, desc: string)
    requires WellFormedTargets(d) && IsStorableTarget(key, value, desc)
    ensures WellFormedTargets(d.Put(key, TargetInfo(value, desc)))
  {
    var r := d.Put(key, TargetInfo(value, desc));
    forall j | j in r.vals
      ensures IsKey(j) && IsStorable(r.vals[j].value) && (r.vals[j].desc == "" || IsStorable(r.vals[j].desc))
    {
      if j != key {
        assert r.Get(j) == d.Get(j);
      }
    }
  }

  lemma RemoveKeepsWellFormed(d: Dict<string, TargetInfo>, key: string)
    requires WellFormedTargets(d)
    ensures WellFormedTargets(d.Remove(key))
  {
    var r := d.Remove(key);
    forall j | j in r.vals
      ensures IsKey(j) && IsStorable(r.vals[j].value) && (r.vals[j].desc == "" || IsStorable(r.vals[j].desc))
    {
      assert r.Get(j) == d.Get(j);
    }
  }

  lemma OptionalDescStorable(s: string)
    requires NoLineBreak(s)
    ensures OptionalDesc(s) == "" || IsStorable(OptionalDesc(s))
  {
    var w := Span(s, IsSpace);
    if w > 0 && Quoted(s[w..]).Some? {
      var (d, rest) := Quoted(s[w..]).value;
      assert s == s[..w] + (Quote(d) + rest);
      assert s == s[..w] + Quote(d) + rest;
      NoLineBreakQuoted(s[..w], d, rest);
    }
  }

  lemma MatchedTargetStorable(prefix: string, line: string)
    requires NoLineBreak(line) && MatchTarget(prefix, line).Some?
    ensures var (k, t) := MatchTarget(prefix, line).value;
      IsStorableTarget(k, t.value, t.desc)
  {
    var (k, t) := MatchTarget(prefix, line).value;
    var ws, tail := MatchTargetSound(prefix, line);
    NoLineBreakQuoted(prefix + k + ws, t.value, tail);
    NoLineBreakInfix(prefix + k + ws + Quote(t.value), tail, "");
    OptionalDescStorable(tail);
  }

  lemma TargetStepWellFormed(d: Dict<string, TargetInfo>, raw: string)
    requires WellFormedTargets(d) && NoLineBreak(raw)
    ensures WellFormedTargets(TargetStep(d, raw))
  {
    var line := Strip(raw);
    StripNoLineBreak(raw);
    if line != "" && !StartsWith(line, "//") && MatchTarget("", line).Some? {
      MatchedTargetStorable("", line);
      var (k, t) := MatchTarget("", line).value;
      AddKeepsWellFormed(d, k, t.value, t.desc);
    }
  }

  lemma {:induction false} TargetsFromWellFormed(d: Dict<string, TargetInfo>, lines: seq<string>)
    requires WellFormedTargets(d)
    requires forall i :: 0 <= i < |lines| ==> NoLineBreak(lines[i])
    ensures WellFormedTargets(TargetsFrom(d, lines))
    decreases |lines|
  {
    if lines != [] {
      TargetsFromWellFormed(d, lines[..|lines| - 1]);
      TargetStepWellFormed(TargetsFrom(d, lines[..|lines| - 1]), lines[|lines| - 1]);
    }
  }

  /** A target line that `save_targets` writes sets that target when it is loaded. */
  lemma TargetLineStep(d: Dict<string, TargetInfo>, k: string, t: TargetInfo)
    requires IsStorableTarget(k, t.value, t.desc)
    ensures TargetStep(d, TargetLine(k, t)) == d.Put(k, t)
  {
    var line := TargetLine(k, t);
    TargetLineFacts(k, t);
    TargetLineRoundTrip("", k, t);
    assert "" + line == line;
    TargetMatchStep(d, line, k, t);
  }

  lemma TargetMatchStep(d: Dict<string, TargetInfo>, line: string, k: string, t: TargetInfo)
    requires line != "" && !StartsWith(line, "//") && Strip(line) == line
    requires MatchTarget("", line) == Some((k, t))
    ensures TargetStep(d, line) == d.Put(k, t)
  {
  }

  lemma {:induction false} TargetLinesApply(d: Dict<string, TargetInfo>, items: seq<(string, TargetInfo)>)
    requires forall i :: 0 <= i < |items| ==> IsStorableTarget(items[i].0, items[i].1.value, items[i].1.desc)
    ensures TargetsFrom(d, TargetLines(items)) == d.PutAll(items)
    ensures forall i :: 0 <= i < |items| ==> NoLineBreak(TargetLines(items)[i])
    decreases |items|
  {
    if items != [] {
      var init := items[..|items| - 1];
      var (k, t) := items[|items| - 1];
      var ls := TargetLines(items);
      TargetLinesApply(d, init);
      assert ls[..|ls| - 1] == TargetLines(init);
      TargetLineStep(TargetsFrom(d, TargetLines(init)), k, t);
      TargetLineFacts(k, t);
    }
  }

  /** What `save_targets` writes, `_load_targets` reads back as the same targets, in the same order. */
  lemma TargetsRoundTrip(d: Dict<string, TargetInfo>)
    requires WellFormedTargets(d)
    ensures ParseTargets(TargetsText(d)) == d
  {
    var items := d.Items();
    TargetLinesApply(Empty(), items);
    PutAllItems(d);
    LinesOfJoin(TargetLines(items));
  }

  /** The record the last line that sets target `k` gives it, if any line does. */
  function LastTarget(lines: seq<string>, k: string): Option<TargetInfo>
    decreases |lines|
  {
    if lines == [] then None
    else
      var line := Strip(lines[|lines| - 1]);
      var m := if line == "" || StartsWith(line, "//") then None else MatchTarget("", line);
      if m.Some? && m.value.0 == k then Some(m.value.1)
      else LastTarget(lines[..|lines| - 1], k)
  }

  /** A later line for the same target overwrites an earlier one. */
  lemma {:induction false} TargetIsLastAssignment(lines: seq<string>, k: string)
    ensures TargetsFrom(Empty(), lines).Get(k) == LastTarget(lines, k)
    decreases |lines|
  {
    if lines != [] {
      TargetIsLastAssignment(lines[..|lines| - 1], k);
    }
  }

  /** After `save_targets` returns normally, loading the same path gives the targets back. */
  lemma SaveThenLoadTargets(files: map<string, Entry>, denied: set<string>, path: string, d: Dict<string, TargetInfo>)
    requires WellFormedTargets(d)
    ensures var (after, p) := PersistSpec(files, denied, path, TargetsText(d));
      p == Written ==> LoadTargetsSpec(after, path) == (d, Ok)
  {
    var (after, p) := PersistSpec(files, denied, path, TargetsText(d));
    PersistWrites(files, denied, path, TargetsText(d));
    if p == Written {
      TargetsRoundTrip(d);
    }
  }

  /** `reload` of the targets does not fall back: an unreadable file raises even when the backup is readable. */
  lemma TargetsReloadNoFallback(files: map<string, Entry>, path: string, text: string)
    requires path in files && files[path].Unreadable?
    requires BackupPath(path) in files && files[BackupPath(path)] == File(text)
    ensures LoadTargetsSpec(files, path) == (Empty(), Raised(ReadFailure))
  {
  }

  /**
   * Adding an existing key rewrites its record in place (a description not
   * given is cleared); deleting it drops it; a new key goes last.
   */
  lemma AddThenDelete(d: Dict<string, TargetInfo>, key: string, t: TargetInfo, u: TargetInfo)
    requires d.Valid() && key !in d.vals
    ensures d.Put(key, t).Items() == d.Items() + [(key, t)]
    ensures d.Put(key, t).Put(key, u).Items() == d.Items() + [(key, u)]
    ensures d.Put(key, t).Put(key, u).Remove(key).Items() == d.Items()
  {
    PutNewAppends(d, key, t);
    PutTwice(d, key, t, u);
    PutNewAppends(d, key, u);
    PutNewThenRemove(d, key, u);
  }
}
