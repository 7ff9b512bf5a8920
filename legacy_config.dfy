/**
 * The older, read-only settings reader: one file holding targets, secrets,
 * numbers and theme colours side by side. It has no save; a file that cannot
 * be opened or read makes construction fail.
 */
module LegacyConfig {
  import opened Wrappers
  import opened Strings
  import opened Dicts
  import opened LineFormat
  import opened Files
  import SevenConfig

  /** `self.data`: the dictionaries "targets", "secrets", "numbers" and "theme". */
  datatype LegacyData = LegacyData(
    targets: Dict<string, TargetInfo>,
    secrets: Dict<string, string>,
    numbers: Dict<string, nat>,
    theme: Dict<string, string>)

  ghost predicate ValidData(d: LegacyData) {
    d.targets.Valid() && d.secrets.Valid() && d.numbers.Valid() && d.theme.Valid()
  }

  function EmptyLegacy(): (d: LegacyData)
    ensures ValidData(d)
  {
    LegacyData(Empty(), Empty(), Empty(), Empty())
  }

  /** One turn of the loop in `_parse_config`; `target:` lines are tried first. */
  function LegacyStep(d: LegacyData, raw: string): (r: LegacyData)
    ensures ValidData(d) ==> ValidData(r)
  {
    var line := Strip(raw);
    if line == "" || StartsWith(line, "//") then d
    else if StartsWith(line, TargetPrefix) then
      match MatchTarget(TargetPrefix, line)
      case None => d
      case Some((k, t)) => d.(targets := d.targets.Put(k, t))
    else if StartsWith(line, SecretPrefix) then
      match MatchSecret(line)
      case None => d
      case Some((k, v)) => d.(secrets := d.secrets.Put(k, v))
    else if StartsWith(line, NumberPrefix) then
      match MatchNumber(line)
      case None => d
      case Some((k, n)) => d.(numbers := d.numbers.Put(k, n))
    else if StartsWith(line, ThemePrefix) then
      match MatchTheme(line)
      case None => d
      case Some((k, c)) => d.(theme := d.theme.Put(k, c))
    else d
  }

  function LegacyFrom(d: LegacyData, lines: seq<string>): (r: LegacyData)
    ensures ValidData(d) ==> ValidData(r)
    decreases |lines|
  {
    if lines == [] then d
    else LegacyStep(LegacyFrom(d, lines[..|lines| - 1]), lines[|lines| - 1])
  }

  /** The data a legacy file with this text is read as. */
  function ParseLegacy(text: string): (d: LegacyData)
    ensures ValidData(d)
  {
    LegacyFrom(EmptyLegacy(), Lines(text))
  }

  /** How construction ends: opening or reading the file propagates its error as it is. */
  function OpenStatus(files: map<string, Entry>, path: string): (st: Status)
    ensures st == Ok <==> path in files && files[path].File?
  {
    match ReadOf(files, path)
    case NotFound => Raised(FileNotFound)
    case ReadError => Raised(ReadFailure)
    case Contents(_) => Ok
  }

  /** A value `get` returns; the "targets" section yields the whole record. */
  datatype LegacyValue = Text(s: string) | Number(n: nat) | Record(t: TargetInfo)

  class Config {
    var filepath: string
    var data: LegacyData

    ghost predicate Valid()
      reads this
    {
      ValidData(data)
    }

    /** The fields `__init__` sets before it parses. */
    constructor (path: string)
      ensures filepath == path && data == EmptyLegacy() && Valid()
    {
      filepath := path;
      data := EmptyLegacy();
    }

    /**
     * `Config(path)`: construct and parse. When the file cannot be opened or
     * read the constructor raises, so the caller gets no object (null here).
     */
    static method Open(fs: FileSystem, path: string) returns (c: Config?, st: Status)
      ensures st == OpenStatus(fs.files, path)
      ensures c != null <==> st == Ok
      ensures c != null ==> fresh(c) && c.Valid() && c.filepath == path
      ensures c != null ==> c.data == ParseLegacy(fs.files[path].content)
    {
      var made := new Config(path);
      st := made.ParseFile(fs);
      c := if st == Ok then made else null;
    }

    /** `_parse_config`, reading into the data `__init__` set up. */
    method ParseFile(fs: FileSystem) returns (st: Status)
      requires data == EmptyLegacy()
      modifies this`data
      ensures st == OpenStatus(fs.files, filepath)
      ensures st == Ok ==> data == ParseLegacy(fs.files[filepath].content)
      ensures Valid()
    {
      var r := fs.Read(filepath);
      match r
      case NotFound =>
        st := Raised(FileNotFound);
      case ReadError =>
        st := Raised(ReadFailure);
      case Contents(text) =>
        ParseLines(Lines(text));
        assert data == ParseLegacy(text);
        st := Ok;
    }

    /** The read loop of `_parse_config` over the lines of the file. */
    method ParseLines(lines: seq<string>)
      requires data == EmptyLegacy()
      modifies this`data
      ensures data == LegacyFrom(EmptyLegacy(), lines)
    {
      for i := 0 to |lines|
        invariant data == LegacyFrom(EmptyLegacy(), lines[..i])
      {
        ParseLine(lines[i]);
        assert lines[..i + 1][..i] == lines[..i];
      }
      assert lines[..|lines|] == lines;
    }

    /** The body of the read loop. */
    method ParseLine(raw: string)
      modifies this`data
      ensures data == LegacyStep(old(data), raw)
    {
      var line := Strip(raw);
      if line == "" || StartsWith(line, "//") {
      } else if StartsWith(line, TargetPrefix) {
        var m := MatchTarget(TargetPrefix, line);
        if m.Some? {
          var (key, info) := m.value;
          data := data.(targets := data.targets.Put(key, info));
        }
      } else if StartsWith(line, SecretPrefix) {
        var m := MatchSecret(line);
        if m.Some? {
          var (key, value) := m.value;
          data := data.(secrets := data.secrets.Put(key, value));
        }
      } else if StartsWith(line, NumberPrefix) {
        var m := MatchNumber(line);
        if m.Some? {
          var (key, value) := m.value;
          data := data.(numbers := data.numbers.Put(key, value));
        }
      } else if StartsWith(line, ThemePrefix) {
        var m := MatchTheme(line);
        if m.Some? {
          var (key, value) := m.value;
          data := data.(theme := data.theme.Put(key, value));
        }
      }
    }

    /** `get_target`: the value of the target, or None. */
    function GetTarget(key: string): (r: Option<string>)
      reads this
      ensures r.Some? <==> key in data.targets.vals
      ensures r.Some? ==> r.value == data.targets.vals[key].value
    {
      match data.targets.Get(key)
      case None => None
      case Some(t) => Some(t.value)
    }

    /** `get_secret`. */
    function GetSecret(key: string): (r: Option<string>)
      reads this
      ensures r.Some? <==> key in data.secrets.vals
      ensures r.Some? ==> r.value == data.secrets.vals[key]
    {
      data.secrets.Get(key)
    }

    /** `get_number`. */
    function GetNumber(key: string): (r: Option<nat>)
      reads this
      ensures r.Some? <==> key in data.numbers.vals
      ensures r.Some? ==> r.value == data.numbers.vals[key]
    {
      data.numbers.Get(key)
    }

    /** `get("section:subkey")`: the key is cut at its first ':'. */
    function Get(key: string): (r: Option<LegacyValue>)
      reads this
      ensures ':' !in key ==> r == None
    {
      if ':' !in key then None
      else
        var i := IndexOf(key, ':');
        Section(key[..i], key[i + 1..])
    }

    /** `self.data.get(section, {}).get(subkey)`: sections are named as in `data`. */
    function Section(section: string, subkey: string): Option<LegacyValue>
      reads this
    {
      if section == "targets" then
        (match data.targets.Get(subkey) case None => None case Some(t) => Some(Record(t)))
      else if section == "secrets" then
        (match data.secrets.Get(subkey) case None => None case Some(s) => Some(Text(s)))
      else if section == "numbers" then
        (match data.numbers.Get(subkey) case None => None case Some(n) => Some(Number(n)))
      else if section == "theme" then
        (match data.theme.Get(subkey) case None => None case Some(c) => Some(Text(c)))
      else None
    }

    /** A key whose section holds no ':' is looked up in that section, whatever ':' the subkey holds. */
    lemma GetSplitsAtFirstColon(section: string, subkey: string)
      requires ':' !in section
      ensures Get(section + ":" + subkey) == Section(section, subkey)
    {
      SevenConfig.FirstColon(section, subkey);
    }

    /** What `get` finds under a section name; "targets:k" yields the whole record, not its value. */
    lemma GetTargetsSection(subkey: string)
      ensures Get("targets:" + subkey) == (if subkey in data.targets.vals then Some(Record(data.targets.vals[subkey])) else None)
    {
      assert "targets:" + subkey == "targets" + ":" + subkey;
      GetSplitsAtFirstColon("targets", subkey);
    }

    lemma GetSecretsSection(subkey: string)
      ensures Get("secrets:" + subkey) == (if GetSecret(subkey).Some? then Some(Text(GetSecret(subkey).value)) else None)
    {
      assert "secrets:" + subkey == "secrets" + ":" + subkey;
      GetSplitsAtFirstColon("secrets", subkey);
    }

    lemma GetNumbersSection(subkey: string)
      ensures Get("numbers:" + subkey) == (if GetNumber(subkey).Some? then Some(Number(GetNumber(subkey).value)) else None)
    {
      assert "numbers:" + subkey == "numbers" + ":" + subkey;
      GetSplitsAtFirstColon("numbers", subkey);
    }

    lemma GetThemeSection(subkey: string)
      ensures Get("theme:" + subkey) == (if subkey in data.theme.vals then Some(Text(data.theme.vals[subkey])) else None)
    {
      assert "theme:" + subkey == "theme" + ":" + subkey;
      GetSplitsAtFirstColon("theme", subkey);
    }

    /** "number:k", the spelling the docstring gives, and "target:k", the file's prefix, are no sections. */
    lemma GetMisspelledSections(subkey: string)
      ensures Get("number:" + subkey) == None && Get("target:" + subkey) == None
    {
      assert "number:" + subkey == "number" + ":" + subkey;
      GetSplitsAtFirstColon("number", subkey);
      assert "target:" + subkey == "target" + ":" + subkey;
      GetSplitsAtFirstColon("target", subkey);
    }

    /** Any section other than the four, with its first colon after the section name, gives `None`. */
    lemma GetUnknownSection(section: string, subkey: string)
      requires ':' !in section
      requires section != "targets" && section != "secrets" && section != "numbers" && section != "theme"
      ensures Get(section + ":" + subkey) == None
    {
      GetSplitsAtFirstColon(section, subkey);
    }

    /** `all_targets`: the dictionary `get_target` looks in. */
    function AllTargets(): (r: Dict<string, TargetInfo>)
      reads this
      ensures forall k :: (r.Get(k).Some? <==> GetTarget(k).Some?)
      ensures forall k :: r.Get(k).Some? ==> GetTarget(k) == Some(r.Get(k).value.value)
    {
      data.targets
    }

    /** `all_secrets`. */
    function AllSecrets(): (r: Dict<string, string>)
      reads this
      ensures forall k :: r.Get(k) == GetSecret(k)
    {
      data.secrets
    }

    /** `all_numbers`. */
    function AllNumbers(): (r: Dict<string, nat>)
      reads this
      ensures forall k :: r.Get(k) == GetNumber(k)
    {
      data.numbers
    }

    /** `all_theme`. */
    function AllTheme(): (r: Dict<string, string>)
      reads this
      ensures forall k :: Get("theme:" + k) == (if r.Get(k).Some? then Some(Text(r.Get(k).value)) else None)
    {
      ThemeSection();
      data.theme
    }

    lemma ThemeSection()
      ensures forall k :: Get("theme:" + k) == (if k in data.theme.vals then Some(Text(data.theme.vals[k])) else None)
    {
      forall k ensures Get("theme:" + k) == (if k in data.theme.vals then Some(Text(data.theme.vals[k])) else None) {
        GetThemeSection(k);
      }
    }
  }

  // ------------------------------------------------------ properties

  /** The legacy data and the newer store's data hold the same secrets, numbers and colours. */
  ghost predicate Agree(d: LegacyData, c: SevenConfig.ConfigData) {
    d.secrets == c.secrets && d.numbers == c.numbers && d.theme == c.theme
  }

  lemma StepAgrees(d: LegacyData, c: SevenConfig.ConfigData, raw: string)
    requires Agree(d, c)
    ensures Agree(LegacyStep(d, raw), SevenConfig.ConfigStep(c, raw))
  {
    var line := Strip(raw);
    if line != "" && !StartsWith(line, "//") && StartsWith(line, TargetPrefix) {
      assert !StartsWith(line, SecretPrefix) && !StartsWith(line, NumberPrefix) && !StartsWith(line, ThemePrefix) by {
        PrefixesExclusive(line);
      }
    }
  }

  /**
   * On any file, the legacy reader and the newer settings store read the
   * same secrets, numbers and colours, in the same order: the `target:`
   * lines the legacy reader adds are lines the newer store ignores.
   */
  lemma {:induction false} LegacyAgreesWithConfig(lines: seq<string>)
    ensures Agree(LegacyFrom(EmptyLegacy(), lines), SevenConfig.ConfigFrom(SevenConfig.EmptyConfig(), lines))
    decreases |lines|
  {
    if lines != [] {
      var init := lines[..|lines| - 1];
      LegacyAgreesWithConfig(init);
      StepAgrees(LegacyFrom(EmptyLegacy(), init), SevenConfig.ConfigFrom(SevenConfig.EmptyConfig(), init), lines[|lines| - 1]);
    }
  }

  lemma ParseAgrees(text: string)
    ensures Agree(ParseLegacy(text), SevenConfig.ParseConfig(text))
  {
    LegacyAgreesWithConfig(Lines(text));
  }

  /** A `target:` line of the legacy file reads as the same line without the prefix reads in the targets file. */
  lemma TargetPrefixStripped(l: string)
    ensures MatchTarget(TargetPrefix, TargetPrefix + l) == MatchTarget("", l)
  {
    var line := TargetPrefix + l;
    assert line[..|TargetPrefix|] == TargetPrefix;
    assert line[|TargetPrefix|..] == l;
    assert l[|""|..] == l;
  }

  /** A legacy target line written with the newer targets format reads back as that target. */
  lemma LegacyTargetRoundTrip(k: string, t: TargetInfo)
    requires IsKey(k) && IsQuotable(t.value) && (t.desc == "" || IsQuotable(t.desc))
    ensures MatchTarget(TargetPrefix, TargetPrefix + TargetLine(k, t)) == Some((k, t))
  {
    TargetLineRoundTrip(TargetPrefix, k, t);
  }

  /** The record the last `target:` line for `k` gives it, if any line does. */
  function LastLegacyTarget(lines: seq<string>, k: string): Option<TargetInfo>
    decreases |lines|
  {
    if lines == [] then None
    else
      var m := MatchTarget(TargetPrefix, Strip(lines[|lines| - 1]));
      if m.Some? && m.value.0 == k then Some(m.value.1)
      else LastLegacyTarget(lines[..|lines| - 1], k)
  }

  /** A later `target:` line for the same key overwrites an earlier one, and no other line touches the targets. */
  lemma {:induction false} TargetIsLastAssignment(lines: seq<string>, k: string)
    ensures LegacyFrom(EmptyLegacy(), lines).targets.Get(k) == LastLegacyTarget(lines, k)
    decreases |lines|
  {
    if lines != [] {
      TargetIsLastAssignment(lines[..|lines| - 1], k);
      var line := Strip(lines[|lines| - 1]);
      if MatchTarget(TargetPrefix, line).Some? {
        PrefixesExclusive(line);
      }
    }
  }

  /** A missing file is an error for the legacy reader, where the newer stores start empty. */
  lemma MissingFileRaises(files: map<string, Entry>, path: string)
    requires path !in files
    ensures OpenStatus(files, path) == Raised(FileNotFound)
    ensures SevenConfig.LoadConfigSpec(files, path) == (SevenConfig.EmptyConfig(), Ok)
  {
  }
}
