# recon7 persistence layer in Dafny

This project models the persistence core of recon7, a terminal tool for
keeping reconnaissance targets and settings.

- It covers the two stores in `recon7/sevenconfig.py`:
  - `Config` holds secrets, numbers and theme colours.
  - `TargetLock` holds named targets, each with a value and an optional description.
- It covers the older read-only reader in `sevenconfig.py`, which keeps targets, secrets, numbers and colours in one file.
- It covers three pieces of logic from the UI in `recon7/__main__.py`:
  - `hex_to_rgb`.
  - The split of the "add target" input line.
  - The clamping of the list cursor.

Both stores read their file line by line into insertion-ordered dictionaries:

1. Each line is stripped.
2. Blank lines and `//` comments are skipped.
3. Every other line is tried against an anchored regular expression.
4. A line that does not match is dropped without an error.

A save works in two steps:

1. If the file exists, it is copied to `<path>.save`.
2. The file is rewritten from the dictionaries.

`Config.reload` falls back to `<path>.save` when the file cannot be read. `TargetLock.reload` does not.

Modules, one per file:

- `Wrappers`: `Option`, standing for Python's `None` or a value.
- `Strings`: the ASCII character classes of `\w`, `\s` and `\d`, plus `strip`, `lstrip`, line iteration over a file, and `int`/`str` on decimal digits.
- `Dicts`: Python's insertion-ordered `dict`, as an order of keys plus a map.
- `LineFormat`: the line grammar.
  - Each regular expression is a deterministic scanner, proved to accept exactly the lines of a declarative layout, with the same groups.
  - The writers' line formats, and proofs that each written line reads back as what was written.
- `Files`: the file system as a map from path to entry.
  - An entry is a readable text or an unreadable file.
  - A set of paths that cannot be opened for writing decides whether a copy or a write fails.
  - Also holds the backup-then-write step that both stores share.
- `SevenConfig`: the classes `Config` and `TargetLock` of `recon7/sevenconfig.py`.
  - Loading, saving and reloading are methods that follow the source step by step.
  - Each method is proved equal to a specification function, such as `LoadConfigSpec`, `PersistSpec` or `ReloadSpec`.
  - Round trips, ordering and fallback behaviour are proved about those functions.
- `LegacyConfig`: the class `Config` of `sevenconfig.py`.
- `Recon7Main`:
  - `hex_to_rgb`.
  - The add-input split.
  - The class `TargetList`, which models the UI's list of targets, its cursor and the store behind it.

Where the code departs from its documented design, the model follows the code. Each departure is stated as a lemma:

- A secret, target value or description between quotes needs at least one character. A line with `""` there is dropped (`LineFormat.EmptySecretRejected`, `LineFormat.EmptyTargetValueRejected`). An empty quoted description reads as no description (`LineFormat.EmptyQuotedDescIgnored`).
- `Config.reload` swaps the store's path with the backup path and then saves under the backup path. The primary file is never rewritten, and the store stays pointed at the backup (`SevenConfig.ReloadNeverHealsPrimary`).
- When both the file and the backup are unreadable, the data in memory is lost, not kept. The load clears it before reading (`SevenConfig.ReloadDoubleFailure`).
- `TargetLock.reload` has no fallback at all (`SevenConfig.TargetsReloadNoFallback`).
- A missing backup counts as a successful fallback, with empty data (`SevenConfig.ReloadWithoutBackup`).
- The stores offer no setters; the only operations that change data are `add_target` and `delete_target`.
- `get` looks sections up by the dictionary names `secrets`, `numbers` and `theme`, not by the file prefixes `secret` and `num` (`SevenConfig.Config.FilePrefixesAreNoSections`). In the legacy reader it does not know `number`, the spelling its docstring uses (`LegacyConfig.Config.GetMisspelledSections`).
- A description that contains a double quote is cut short when read back (`LineFormat.QuoteInDescTruncated`).
- A key with a character outside `\w` is written but never read back (`LineFormat.NonWordKeyLost`).
- `hex_to_rgb` lets `int(..., 16)` accept a sign, so a channel can fall below 0 (`Recon7Main.SignedPairBelowZero`). No colour that the settings file can hold reaches that case.

## Model

| member | source | states |
|---|---|---|
| Strings.Strip | recon7/sevenconfig.py:24 | `str.strip()`: the result is a slice of the input, everything dropped before and after it is whitespace, and it is empty or starts and ends with a non-whitespace character |
| Strings.TrimStart | recon7/__main__.py:182 | `str.lstrip()`: the result is a suffix of the input, everything dropped is whitespace, and it does not start with whitespace |
| Strings.StripUnchanged | recon7/sevenconfig.py:24 | a string that neither starts nor ends with whitespace is its own `strip()` |
| Strings.Lines | recon7/sevenconfig.py:23 | `for line in f` yields lines that hold no line break |
| Strings.LinesOfJoin | recon7/sevenconfig.py:96-102 | reading back text written one `line + "\n"` at a time gives exactly the lines written |
| Strings.JoinAppend | recon7/sevenconfig.py:97-102 | the text of consecutive write loops is the concatenation of their texts |
| Strings.Decimal | recon7/sevenconfig.py:49 | `str(n)` is a non-empty run of digits, without a leading zero unless n is 0, and `int` reads it back as n |
| Dicts.Dict.Put | recon7/sevenconfig.py:43 | `d[k] = v` keeps the dictionary valid, maps k to v and leaves every other key as it was |
| Dicts.Dict.Remove | recon7/sevenconfig.py:150 | `del d[k]` keeps the dictionary valid, unmaps k and leaves every other key as it was |
| Dicts.Dict.Items | recon7/sevenconfig.py:164 | `items()` lists each key once, in insertion order, with its value |
| Dicts.PutExistingInPlace | recon7/sevenconfig.py:145 | overwriting a present key changes its pair in place, and no other pair moves |
| Dicts.PutNewAppends | recon7/sevenconfig.py:145 | a new key is appended after every existing pair |
| Dicts.PutTwice | recon7/sevenconfig.py:145 | putting a key twice leaves the same dictionary as putting it once with the second value |
| Dicts.PutNewThenRemove | recon7/sevenconfig.py:144-151 | removing a key that was just put for the first time gives back the dictionary as it was before |
| Dicts.RemoveDropsPair | recon7/sevenconfig.py:150 | removing a present key drops its pair and keeps the other pairs in order |
| Dicts.ItemsListAll | recon7/sevenconfig.py:164 | every stored key appears in `items()`, paired with its value |
| Dicts.PutAllItems | recon7/sevenconfig.py:164 | putting the pairs of `items()` one by one into an empty dictionary rebuilds it, order included |
| LineFormat.KeyThenSpace | recon7/sevenconfig.py:134 | `(\w+)\s+`: on success the input is the key, the whitespace and a rest that does not start with whitespace |
| LineFormat.KeyThenSpaceOf | recon7/sevenconfig.py:134 | the key/whitespace scanner splits a word, whitespace and any rest not starting with whitespace at exactly those points |
| LineFormat.Quoted | recon7/sevenconfig.py:134 | `"([^"]+)"`: on success the input is a non-empty quote-free text in quotes, followed by the rest |
| LineFormat.QuotedOf | recon7/sevenconfig.py:134 | a quoted non-empty, quote-free text is read back with the rest that follows it |
| LineFormat.MatchSecretExact | recon7/sevenconfig.py:39-43 | the secret scanner yields (k, v) if and only if the line starts with `secret:`, a word k, whitespace and v in quotes |
| LineFormat.MatchSecretSound | recon7/sevenconfig.py:40 | every match of the secret pattern has that layout |
| LineFormat.MatchSecretOf | recon7/sevenconfig.py:40 | every line of that layout matches, whatever follows it |
| LineFormat.MatchNumberExact | recon7/sevenconfig.py:45-49 | the number scanner yields (k, n) if and only if the line starts with `num:`, a word k, whitespace and a maximal run of digits whose value is n |
| LineFormat.MatchNumberSound | recon7/sevenconfig.py:46 | every match of the number pattern has that layout |
| LineFormat.MatchNumberOf | recon7/sevenconfig.py:46 | every line of that layout matches with the value of its digits |
| LineFormat.MatchThemeExact | recon7/sevenconfig.py:51-55 | the theme scanner yields (k, c) if and only if the line starts with `theme:`, a word k, whitespace and a colour c of `#` and six hex digits |
| LineFormat.MatchThemeSound | recon7/sevenconfig.py:52 | every match of the theme pattern has that layout |
| LineFormat.MatchThemeOf | recon7/sevenconfig.py:52 | every line of that layout matches, with the `#` kept |
| LineFormat.OptionalDescExact | recon7/sevenconfig.py:134-137 | the optional group `(?:\s+"([^"]+)")?` with `desc or ""` yields d if and only if the text has whitespace and d in quotes; it yields "" exactly when the group cannot match |
| LineFormat.OptionalDescOf | recon7/sevenconfig.py:134 | whitespace and a quoted description yield that description |
| LineFormat.MatchTargetExact | recon7/sevenconfig.py:134-137 | the target scanner yields (k, {value, desc}) if and only if the line has the target layout and the optional group yields desc |
| LineFormat.MatchTargetSound | recon7/sevenconfig.py:134-136 | every match of the target pattern has that layout |
| LineFormat.MatchTargetOf | recon7/sevenconfig.py:134-137 | every line of the target layout matches, with the description of the optional group |
| LineFormat.SecretLineRoundTrip | recon7/sevenconfig.py:98 | the line `save` writes for a secret reads back as the same key and secret |
| LineFormat.NumberLineRoundTrip | recon7/sevenconfig.py:100 | the line `save` writes for a number reads back as the same key and number |
| LineFormat.ThemeLineRoundTrip | recon7/sevenconfig.py:102 | the line `save` writes for a colour reads back as the same key and colour |
| LineFormat.TargetLineRoundTrip | recon7/sevenconfig.py:163-170 | the line `save_targets` writes, with or without a description, reads back as the same key and record, behind either prefix |
| LineFormat.EmptyQuotesNotQuoted | recon7/sevenconfig.py:134 | `""` is not a quoted value: `[^"]+` needs a character |
| LineFormat.EmptySecretRejected | recon7/sevenconfig.py:40 | a secret line whose value is `""` matches nothing |
| LineFormat.EmptyTargetValueRejected | recon7/sevenconfig.py:134 | a target line whose value is `""` matches nothing |
| LineFormat.EmptyQuotedDescIgnored | recon7/sevenconfig.py:134-137 | an empty quoted description reads as the empty description |
| LineFormat.UnquotedSecretRejected | recon7/sevenconfig.py:40-41 | a secret whose value does not start with a quote yields no secret |
| LineFormat.NumberPrefixOfDigits | recon7/sevenconfig.py:46-49 | matching is anchored at the start only: `num:x 5abc` reads 5 |
| LineFormat.NonWordKeyLost | recon7/sevenconfig.py:134-170 | a target written under the key `my-site` is not read back |
| LineFormat.QuoteInDescTruncated | recon7/sevenconfig.py:134-168 | a description holding a quote reads back cut at that quote |
| LineFormat.PrefixesExclusive | recon7/sevenconfig.py:25-32 | a line starts with at most one of the four prefixes, and never with `//` when it starts with one |
| LineFormat.SecretLineFacts | recon7/sevenconfig.py:98 | a written secret line is one line, already stripped, and dispatched as a secret |
| LineFormat.NumberLineFacts | recon7/sevenconfig.py:100 | a written number line is one line, already stripped, and dispatched as a number |
| LineFormat.ThemeLineFacts | recon7/sevenconfig.py:102 | a written colour line is one line, already stripped, and dispatched as a colour |
| LineFormat.TargetLineFacts | recon7/sevenconfig.py:168-170 | a written target line is one line, already stripped, and not a comment |
| Files.BackupPath | recon7/sevenconfig.py:87 | `path + ".save"` is another, longer path |
| Files.FileSystem.Read | recon7/sevenconfig.py:22 | opening and reading gives not-found exactly for a missing path, an error exactly for an unreadable file, and otherwise the file's text |
| Files.FileSystem.IsFile | recon7/sevenconfig.py:89 | `os.path.isfile` is true exactly for a present path |
| Files.FileSystem.CopyFile | recon7/sevenconfig.py:90 | `shutil.copyfile` succeeds exactly when the source is readable and the target writable, and then the target holds the source; otherwise nothing changes |
| Files.FileSystem.WriteFile | recon7/sevenconfig.py:96-102 | the write succeeds exactly when the path is writable, and then the file holds the text; otherwise nothing changes |
| Files.Persist | recon7/sevenconfig.py:85-104 | the backup-then-write step leaves the files and the outcome that `PersistSpec` gives |
| Files.PersistWrites | recon7/sevenconfig.py:95-102 | a save that reports success has put the text in the file |
| Files.PersistOrdering | recon7/sevenconfig.py:87-104 | the backup is taken only when the file exists, and before the write. A failed backup changes no file. A failed write leaves the file as it was. Only the file and its backup ever change |
| Files.PersistTwice | recon7/sevenconfig.py:85-104 | saving the same text twice leaves the same file, and the second backup holds what the first call wrote; the second call can fail only at its backup, and then changes nothing |
| SevenConfig.EmptyConfig | recon7/sevenconfig.py:8-12 | the three empty dictionaries are well formed |
| SevenConfig.ParseConfig | recon7/sevenconfig.py:22-32 | whatever the text, loading gives word keys, storable secrets and `#rrggbb` colours |
| SevenConfig.LoadConfigSpec | recon7/sevenconfig.py:15-37 | the load always leaves well-formed data; it raises exactly for an unreadable file, and then leaves empty data |
| SevenConfig.SaveStatus | recon7/sevenconfig.py:91-104 | a save returns normally exactly when the write happened; a failed backup and a failed write raise their own `RuntimeError` |
| SevenConfig.Config.constructor | recon7/sevenconfig.py:6-12 | the path is set and the data is empty |
| SevenConfig.Config.Open | recon7/sevenconfig.py:6-37 | constructing gives an object exactly when the load does not raise, holding the data `LoadConfigSpec` gives; a raised load hands back no object (null) |
| SevenConfig.Config.LoadConfig | recon7/sevenconfig.py:15-37 | `_load_config` clears the data, then runs the read loop; the data and the outcome are those of `LoadConfigSpec` |
| SevenConfig.Config.LoadLine | recon7/sevenconfig.py:24-32 | the loop body strips the line, skips blanks and comments, and dispatches on the prefix |
| SevenConfig.Config.ParseSecret | recon7/sevenconfig.py:39-43 | a matching secret line sets its key |
| SevenConfig.Config.ParseNumber | recon7/sevenconfig.py:45-49 | a matching number line sets its key to the value of the digits |
| SevenConfig.Config.ParseTheme | recon7/sevenconfig.py:51-55 | a matching theme line sets its key to the colour |
| SevenConfig.Config.GetSecret | recon7/sevenconfig.py:58-59 | the stored secret when the key is present, None otherwise |
| SevenConfig.Config.GetNumber | recon7/sevenconfig.py:61-62 | the stored number when the key is present, None otherwise |
| SevenConfig.Config.Get | recon7/sevenconfig.py:64-69 | a key without `:` gives None |
| SevenConfig.Config.GetSplitsAtFirstColon | recon7/sevenconfig.py:70-71 | the key is cut at its first `:`, and the subkey may hold further colons |
| SevenConfig.FirstColon | recon7/sevenconfig.py:70 | `split(':', 1)` of `section:subkey`, where the section holds no colon, gives back the section and the subkey |
| SevenConfig.Config.GetSecretsSection | recon7/sevenconfig.py:70-71 | `get("secrets:k")` is `get_secret(k)` |
| SevenConfig.Config.GetNumbersSection | recon7/sevenconfig.py:70-71 | `get("numbers:k")` is `get_number(k)` |
| SevenConfig.Config.GetThemeSection | recon7/sevenconfig.py:70-71 | `get("theme:k")` is the colour stored under k, or None |
| SevenConfig.Config.GetUnknownSection | recon7/sevenconfig.py:71 | any other section gives None |
| SevenConfig.Config.ThemeSection | recon7/sevenconfig.py:70-71 | for every key k, `get("theme:" + k)` is exactly what `all_theme()` holds under k |
| SevenConfig.Config.FilePrefixesAreNoSections | recon7/sevenconfig.py:64-71 | `get("secret:k")` and `get("num:k")` are always None |
| SevenConfig.Config.AllSecrets | recon7/sevenconfig.py:73-74 | the dictionary `get_secret` reads |
| SevenConfig.Config.AllNumbers | recon7/sevenconfig.py:76-77 | the dictionary `get_number` reads |
| SevenConfig.Config.AllTheme | recon7/sevenconfig.py:79-80 | the dictionary `get("theme:...")` reads |
| SevenConfig.Config.All | recon7/sevenconfig.py:82-83 | the three dictionaries that the accessors above return |
| SevenConfig.Config.Render | recon7/sevenconfig.py:96-102 | the three write loops produce the text of every secret, then every number, then every colour |
| SevenConfig.RenderSecrets | recon7/sevenconfig.py:97-98 | the secrets loop writes one line per pair, in order |
| SevenConfig.RenderNumbers | recon7/sevenconfig.py:99-100 | the numbers loop writes one line per pair, in order |
| SevenConfig.RenderTheme | recon7/sevenconfig.py:101-102 | the colours loop writes one line per pair, in order |
| SevenConfig.Config.Save | recon7/sevenconfig.py:85-104 | `save` leaves the files that the backup-then-write of the rendered text leaves; after a normal return, loading the path gives exactly the data in memory |
| SevenConfig.Config.Reload | recon7/sevenconfig.py:106-117 | `reload` leaves the path, data, files and outcome that `ReloadSpec` gives |
| SevenConfig.ConfigStepWellFormed | recon7/sevenconfig.py:24-55 | one loop turn on a line of the file keeps the data well formed |
| SevenConfig.ConfigFromWellFormed | recon7/sevenconfig.py:23-32 | the read loop keeps the data well formed |
| SevenConfig.ConfigFromAppend | recon7/sevenconfig.py:23-32 | the read loop over two runs of lines is the loop over the second run, started from where the first left off |
| SevenConfig.MatchedSecretStorable | recon7/sevenconfig.py:40-43 | a matched secret line of the file gives a word key and a value that can be written back |
| SevenConfig.SkippedLineIgnored | recon7/sevenconfig.py:24-26 | blank and `//` lines leave the data as it was |
| SevenConfig.UnmatchedLineIgnored | recon7/sevenconfig.py:27-53 | a line that none of the three patterns matches is dropped without an error |
| SevenConfig.RejectedSecretIgnored | recon7/sevenconfig.py:27-41 | a `secret:` line that the secret pattern rejects is dropped, whatever the other patterns say |
| SevenConfig.UnquotedSecretLineIgnored | recon7/sevenconfig.py:27-43 | a `secret:` line whose value has no quotes adds nothing and raises nothing |
| SevenConfig.SecretIsLastAssignment | recon7/sevenconfig.py:23-43 | after loading, a secret holds the value of the last line that sets it; no other kind of line touches the secrets |
| SevenConfig.NumberIsLastAssignment | recon7/sevenconfig.py:23-49 | after loading, a number holds the value of the last line that sets it |
| SevenConfig.ThemeIsLastAssignment | recon7/sevenconfig.py:23-55 | after loading, a colour holds the value of the last line that sets it |
| SevenConfig.NamespacesIsolated | recon7/sevenconfig.py:39-49 | a number and a secret under the same key both load, without collision |
| SevenConfig.ConfigLinesApply | recon7/sevenconfig.py:96-102 | running the read loop over the lines `save` writes rebuilds the three dictionaries, order included |
| SevenConfig.ConfigRoundTrip | recon7/sevenconfig.py:22-102 | text written by `save` loads back as the same well-formed data |
| SevenConfig.LoadSaveLoad | recon7/sevenconfig.py:15-102 | a save right after a load is a fixpoint: loading what it wrote gives the same data again |
| SevenConfig.SaveThenLoad | recon7/sevenconfig.py:15-104 | once a save has written the file, loading that path gives the data back with no error |
| SevenConfig.LoadsAs | recon7/sevenconfig.py:22-32 | a readable file loads as what its text parses to, with a normal return |
| SevenConfig.PersistOverFile | recon7/sevenconfig.py:87-102 | saving over an existing file with both paths writable copies the old text to the backup and writes the new text |
| SevenConfig.ReloadNeverHealsPrimary | recon7/sevenconfig.py:106-115 | a reload never rewrites the primary file; it moves to the backup path exactly when the primary is unreadable |
| SevenConfig.ReloadFromBackup | recon7/sevenconfig.py:108-115 | an unreadable primary and a readable backup give the backup's data and a normal return; the backup is rewritten and its old content goes to `<path>.save.save` |
| SevenConfig.ReloadWithoutBackup | recon7/sevenconfig.py:106-117 | with no backup, the fallback returns normally with empty data and writes an empty backup file |
| SevenConfig.ReloadMissingPrimary | recon7/sevenconfig.py:33-35 | a missing file is no failure: an empty store, the same path and no file changed |
| SevenConfig.ReloadDoubleFailure | recon7/sevenconfig.py:106-117 | when both files are unreadable, the reload raises, points at the backup path and leaves empty data |
| SevenConfig.ParseTargets | recon7/sevenconfig.py:129-137 | whatever the text, loading gives word keys and storable values and descriptions |
| SevenConfig.LoadTargetsSpec | recon7/sevenconfig.py:126-139 | the load always leaves a valid dictionary; it raises exactly for an unreadable file, with the read error itself (not wrapped in `RuntimeError`), and then leaves no targets |
| SevenConfig.TargetLock.constructor | recon7/sevenconfig.py:121-123 | the path is set and there are no targets |
| SevenConfig.TargetLock.Open | recon7/sevenconfig.py:121-139 | constructing gives an object exactly when the load does not raise, holding the targets `LoadTargetsSpec` gives; a read error other than a missing file hands back no object (null) |
| SevenConfig.TargetLock.LoadTargets | recon7/sevenconfig.py:126-139 | `_load_targets` leaves the targets and the outcome that `LoadTargetsSpec` gives |
| SevenConfig.TargetLock.LoadLines | recon7/sevenconfig.py:130-137 | the read loop puts the pairs the lines give, in order |
| SevenConfig.TargetLock.LoadLine | recon7/sevenconfig.py:131-137 | the loop body strips the line, skips blanks and comments, and puts a matching target |
| SevenConfig.TargetLock.AllTargets | recon7/sevenconfig.py:141-142 | the rows of `all_targets().items()` are exactly the stored targets: each row is a stored key with its record, and every stored key has its row; the UI builds its list from it |
| SevenConfig.TargetLock.Render | recon7/sevenconfig.py:164-170 | the write loop produces one line per target in order, without the description when it is empty |
| SevenConfig.TargetLock.SaveTargets | recon7/sevenconfig.py:153-172 | `save_targets` leaves the files that the backup-then-write of the rendered text leaves; after a normal return, well-formed targets load back unchanged |
| SevenConfig.TargetLock.AddTarget | recon7/sevenconfig.py:144-146 | `add_target` puts the record and always saves, with the files and outcome of the backup-then-write; a storable record keeps the targets well formed |
| SevenConfig.TargetLock.DeleteTarget | recon7/sevenconfig.py:148-151 | `delete_target` of an absent key changes nothing and saves nothing; a present key is removed and the targets saved |
| SevenConfig.TargetLock.Reload | recon7/sevenconfig.py:174-175 | `reload` is a plain load, with no fallback |
| SevenConfig.AddKeepsWellFormed | recon7/sevenconfig.py:145 | adding a storable target keeps the targets well formed |
| SevenConfig.RemoveKeepsWellFormed | recon7/sevenconfig.py:150 | deleting keeps the targets well formed |
| SevenConfig.TargetStepWellFormed | recon7/sevenconfig.py:131-137 | one loop turn keeps the targets well formed |
| SevenConfig.OptionalDescStorable | recon7/sevenconfig.py:134-137 | a description read from the file is empty or can be written back |
| SevenConfig.MatchedTargetStorable | recon7/sevenconfig.py:134-137 | a matched target line gives a word key, a value and a description that can be written back |
| SevenConfig.TargetMatchStep | recon7/sevenconfig.py:131-137 | a stripped, non-comment line that matches puts its key and record |
| SevenConfig.TargetLinesApply | recon7/sevenconfig.py:130-170 | reading the lines `save_targets` writes puts every pair in order, and each written line is one line |
| SevenConfig.TargetsRoundTrip | recon7/sevenconfig.py:129-170 | text written by `save_targets` loads back as the same targets in the same order, with "" where the description was left out |
| SevenConfig.TargetIsLastAssignment | recon7/sevenconfig.py:130-137 | after loading, a target holds the record of the last line that sets it |
| SevenConfig.SaveThenLoadTargets | recon7/sevenconfig.py:126-172 | once `save_targets` has written the file, loading that path gives the targets back |
| SevenConfig.TargetsReloadNoFallback | recon7/sevenconfig.py:174-175 | an unreadable targets file raises on reload even when its backup is readable |
| SevenConfig.AddThenDelete | recon7/sevenconfig.py:144-151 | a new key goes last; adding it again with another record keeps its place and holds the new record; deleting it gives back the pairs as they were |
| LegacyConfig.EmptyLegacy | sevenconfig.py:7-12 | the four empty dictionaries are valid |
| LegacyConfig.LegacyStep | sevenconfig.py:17-53 | one loop turn keeps the dictionaries valid |
| LegacyConfig.LegacyFrom | sevenconfig.py:17-29 | the read loop over any lines keeps the dictionaries valid |
| LegacyConfig.ParseLegacy | sevenconfig.py:15-29 | the data read from any text is valid |
| LegacyConfig.OpenStatus | sevenconfig.py:13-16 | construction succeeds exactly when the file exists and is readable |
| LegacyConfig.Config.constructor | sevenconfig.py:5-12 | the path is set and the four dictionaries are empty |
| LegacyConfig.Config.Open | sevenconfig.py:5-16 | construction gives an object exactly when the file can be read, holding the data the file parses to; otherwise the error propagates |
| LegacyConfig.Config.ParseFile | sevenconfig.py:15-29 | `_parse_config` raises on a missing or unreadable file, and otherwise reads the file's data |
| LegacyConfig.Config.ParseLines | sevenconfig.py:17-29 | the read loop over the lines of the file |
| LegacyConfig.Config.ParseLine | sevenconfig.py:18-53 | the loop body strips, skips, and dispatches on the four prefixes, `target:` first |
| LegacyConfig.Config.GetTarget | sevenconfig.py:56-57 | the value of the target when the key is present, None otherwise |
| LegacyConfig.Config.GetSecret | sevenconfig.py:59-60 | the stored secret or None |
| LegacyConfig.Config.GetNumber | sevenconfig.py:62-63 | the stored number or None |
| LegacyConfig.Config.Get | sevenconfig.py:65-70 | a key without `:` gives None |
| LegacyConfig.Config.GetSplitsAtFirstColon | sevenconfig.py:71-72 | the key is cut at its first `:` |
| LegacyConfig.Config.GetTargetsSection | sevenconfig.py:71-72 | `get("targets:k")` is the whole record of target k, or None |
| LegacyConfig.Config.GetSecretsSection | sevenconfig.py:71-72 | `get("secrets:k")` is `get_secret(k)` |
| LegacyConfig.Config.GetNumbersSection | sevenconfig.py:71-72 | `get("numbers:k")` is `get_number(k)` |
| LegacyConfig.Config.GetThemeSection | sevenconfig.py:71-72 | `get("theme:k")` is the colour under k, or None |
| LegacyConfig.Config.GetMisspelledSections | sevenconfig.py:67-72 | `get("number:k")` and `get("target:k")` are always None |
| LegacyConfig.Config.GetUnknownSection | sevenconfig.py:71-72 | for every section name without ':' other than `targets`, `secrets`, `numbers` and `theme`, `get("section:k")` is None whatever `k` is |
| LegacyConfig.Config.ThemeSection | sevenconfig.py:71-72 | for every key k, `get("theme:" + k)` is exactly what `all_theme()` holds under k |
| LegacyConfig.Config.AllTargets | sevenconfig.py:74-75 | the dictionary `get_target` reads |
| LegacyConfig.Config.AllSecrets | sevenconfig.py:77-78 | the dictionary `get_secret` reads |
| LegacyConfig.Config.AllNumbers | sevenconfig.py:80-81 | the dictionary `get_number` reads |
| LegacyConfig.Config.AllTheme | sevenconfig.py:83-84 | the dictionary `get("theme:...")` reads |
| LegacyConfig.StepAgrees | sevenconfig.py:18-53 | one loop turn changes the secrets, numbers and colours as the newer store's loop turn does |
| LegacyConfig.LegacyAgreesWithConfig | sevenconfig.py:15-53 | on any file, the legacy reader and the newer store read the same secrets, numbers and colours, in the same order |
| LegacyConfig.ParseAgrees | sevenconfig.py:15-53 | the same for the text of a whole file |
| LegacyConfig.TargetPrefixStripped | sevenconfig.py:31-35 | a `target:` line reads as the same line without the prefix reads in the targets file |
| LegacyConfig.LegacyTargetRoundTrip | sevenconfig.py:31-35 | `target:` followed by a written target line reads back as that target, with "" for a missing description |
| LegacyConfig.TargetIsLastAssignment | sevenconfig.py:22-35 | after reading, a target holds the record of the last `target:` line that sets it |
| LegacyConfig.MissingFileRaises | sevenconfig.py:13-16 | a missing file raises here, while the newer store starts empty |
| Recon7Main.StripHashes | recon7/__main__.py:33 | `lstrip('#')` removes exactly the leading `#`s |
| Recon7Main.ByteOf | recon7/__main__.py:36-38 | two hex digits are a byte, at most 255 |
| Recon7Main.WrongLengthIsWhite | recon7/__main__.py:33-35 | a string whose length is not 6 once the `#`s are gone is white |
| Recon7Main.ExtraHashesIgnored | recon7/__main__.py:33 | extra leading `#`s change nothing |
| Recon7Main.ScaleRange | recon7/__main__.py:36-38 | `x*1000//255` maps a byte into 0..1000, 0 to 0 and 255 to 1000 |
| Recon7Main.ScaleStrictlyIncreasing | recon7/__main__.py:36-38 | the scale keeps distinct values distinct and in order |
| Recon7Main.PairChannel | recon7/__main__.py:36-38 | a pair of hex digits is one channel: its byte, scaled into 0..1000 |
| Recon7Main.ChannelsOfSix | recon7/__main__.py:34-39 | six characters, each pair a valid channel, give those three channels |
| Recon7Main.ColorHashes | recon7/__main__.py:33 | a `#rrggbb` colour loses exactly its one `#` |
| Recon7Main.ColorConverts | recon7/__main__.py:32-39 | every `#rrggbb` colour converts without error, each channel being its byte scaled into 0..1000 |
| Recon7Main.DefaultThemeColors | recon7/__main__.py:54-56 | the fallback colours are black (0,0,0), white (1000,1000,1000) and cyan (0,1000,1000) |
| Recon7Main.SignedPairBelowZero | recon7/__main__.py:36-38 | `int(..., 16)` accepts a sign, so `-f-f-f` gives channels of -59 |
| Recon7Main.NegativeChannel | recon7/__main__.py:36 | the pair `-f` is read as -15 and scales to -59 |
| Recon7Main.WordLength | recon7/__main__.py:182 | the length of the maximal run of non-whitespace characters that the string starts with |
| Recon7Main.AddCancelledIffBlank | recon7/__main__.py:177-181 | the add is cancelled exactly when the stripped line is empty |
| Recon7Main.AddRejectedIffOneWord | recon7/__main__.py:182-185 | the add is rejected exactly when the stripped line is one word |
| Recon7Main.FirstWord | recon7/__main__.py:182 | a string that starts with a non-space character starts with a non-empty word |
| Recon7Main.TrimSpaces | recon7/__main__.py:182 | `lstrip` drops exactly a run of leading whitespace |
| Recon7Main.MoreThanOneWord | recon7/__main__.py:182-183 | a stripped line of more than one word has text left after its first word and the whitespace after it |
| Recon7Main.ValueAndDesc | recon7/__main__.py:182-187 | what follows the key splits into a word value and a stripped description |
| Recon7Main.WordThenText | recon7/__main__.py:182 | a word, one space and a text that does not start with whitespace split there |
| Recon7Main.AddFieldsAreWords | recon7/__main__.py:182-187 | otherwise the key and the value are single words, and the description is a stripped string |
| Recon7Main.AddInputRoundTrip | recon7/__main__.py:182-187 | a line typed as key, space, value and an optional space and description gives exactly those fields, with the description's inner spaces kept |
| Recon7Main.CursorUp | recon7/__main__.py:234 | `max(0, i - 1)` |
| Recon7Main.CursorDown | recon7/__main__.py:236 | `min(n - 1, i + 1)` |
| Recon7Main.CursorAfterDelete | recon7/__main__.py:201 | `min(i, n - 1)`, so -1 when the list is empty |
| Recon7Main.CursorRulesKeepCursorOk | recon7/__main__.py:234-236 | the up, down and add rules keep the cursor on a row, or at 0 or -1 over an empty list |
| Recon7Main.CursorAfterDeleteOk | recon7/__main__.py:201 | the delete rule keeps the cursor on a row, and gives -1 when no row is left |
| Recon7Main.PyIndex | recon7/__main__.py:198 | Python indexing: a negative index counts from the end, and anything outside is an `IndexError` |
| Recon7Main.RowKeyPresent | recon7/__main__.py:198 | the key of the row under a valid cursor is in the store |
| Recon7Main.RemoveShrinks | recon7/__main__.py:199-200 | deleting a present key leaves one row less |
| Recon7Main.TargetList.constructor | recon7/__main__.py:49-50 | the list shows the store's targets in order, with the cursor on row 0 |
| Recon7Main.TargetList.MoveUp | recon7/__main__.py:234 | the up key applies `max(0, i - 1)` and keeps a valid cursor valid |
| Recon7Main.TargetList.MoveDown | recon7/__main__.py:236 | the down key applies `min(n - 1, i + 1)` and keeps a valid cursor valid |
| Recon7Main.TargetList.AddFromInput | recon7/__main__.py:177-190 | a blank line or a single word changes nothing. Otherwise the store adds and saves the fields; once saved, the list is refreshed and the cursor is on the last row. A failed save leaves the list as it was |
| Recon7Main.TargetList.AddFields | recon7/__main__.py:188-190 | the store adds and saves; once saved, the list is refreshed and the cursor is on the last row |
| Recon7Main.TargetList.DeleteSelected | recon7/__main__.py:194-202 | with no rows nothing happens, and a cursor outside the list (Python indexing, so -1 is the last row) raises `IndexError` with nothing changed. Otherwise the row under the cursor is deleted from the store and the store saved: the files are those `PersistSpec` gives, the outcome is `Done` exactly when the text was written, and otherwise the backup or save error. Once saved, the list is one shorter and the cursor is `min(i, n - 1)`; a failed save leaves the list as it was |
| Recon7Main.TargetList.DeleteKey | recon7/__main__.py:199-201 | the store deletes the key and saves: the files are those `PersistSpec` gives, the outcome is `Done` exactly when the text was written, and otherwise the backup or save error. Once saved, the list is one shorter and the cursor is clamped to `min(i, n - 1)`; a failed save leaves the list and cursor as they were |
| Recon7Main.AddCursorMissesOverwrittenKey | recon7/__main__.py:188-190 | after overwriting an existing key that is not the last, the cursor's last row is not the edited target |

## Left out

- Curses drawing, colours and key reading are left out. So are the messages shown to the user, `select_target`, `select_target_type`, `reload_all`, `parse_cli_args` and `reconseven.py`. None of them holds logic of the stores.
- `reload_all` does not clamp the cursor when the list shrinks. Since it is not modelled, neither is that cursor state.
- The theme fallbacks `config.get('theme:bg') or '#000000'` are not modelled; only the conversion of their default colours is (`Recon7Main.DefaultThemeColors`).
- The input comes from `getstr(2, 0, 100).decode()`. Its 100-byte limit and its UTF-8 decoding are not modelled; the model starts from the decoded text.
- Error messages and their ANSI colour codes are left out; only which error is raised is kept.
- Unicode: `\w`, `\d`, `\s`, `str.strip`, `str.split` and `int` are restricted to their ASCII meaning.
- `int` on very long digit strings is left out. Python 3.11 and later refuse more than 4300 digits.
- Lines are split at every `\n` and every `\r`; a `\r\n` therefore gives an extra empty line, which all three readers skip as blank. Python's newline translation is not modelled.
- The file system is atomic and has no directories. A copy or write either succeeds or fails as a whole; partial writes, truncation by `open(..., 'w')` and byte-level copying are left out. Whether a path can be written is given by a fixed set.
- Races with other processes editing the files are left out.
- Files.FileSystem.CopyFile, Files.Persist, SevenConfig.LoadConfigSpec and SevenConfig.LoadTargetsSpec: a file that opens but does not decode as text (a byte 0xff under UTF-8, say) is not modelled. Python copies such a file byte for byte when it backs it up, but reading it raises `UnicodeDecodeError`. The model has one kind of failing file, `Unreadable`, which both reading and copying refuse. So after a failed `TargetLock.reload` on such a file, the model's `add_target` stops at the backup, whereas Python backs the file up and writes the new list.
- SevenConfig.LoadConfigSpec, SevenConfig.LoadTargetsSpec and SevenConfig.ReloadDoubleFailure: a read that fails part-way through the file is not modelled. In Python, the lines parsed before the failure stay in `self.data` or `self.targets`. The model reads a file whole or not at all, so a failed load always leaves empty data.
- A `ValueError` that `int(..., 16)` raises inside `hex_to_rgb` is modelled as the result `None`. The lemmas about the conversion cover the colours the settings file can hold, the wrong-length case and the signed case, not every string Python rejects.
