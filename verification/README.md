# karuku — a verified model of its core

karuku is a macOS desktop tool that watches chosen folders and, when a PNG file appears, optionally shrinks it by a resize ratio and recompresses it with the external `pngquant` tool. It appends one JSON line per processed file to a log that a log window reads back. This project models the program's decision logic as pure Dafny functions and methods over abstract outcomes. It proves what each operation promises. The parts modelled are:

- **Watch registry and event filter** (`FileWatcher`): the map from configuration id to watcher handle, with replace-on-restart, stop, stop-all and listing. It also models the per-event decision: dot-file exclusion, the `*.png` or regular-expression test on the base name, and then exactly one callback carrying either the optimizer's record or a synthesized failure record.
- **Optimizer pipeline and durable log** (`Optimizer`, `Json`, `Text`): the `ProcessedFile` record computed from injected outcomes (stat, image dimensions, resize, tool lookup, tool exit, second stat), including the `floor(w·r) × floor(h·r)` resize with the ratio as a rational. It also models the ordered and cached search for the compression tool, the JSON-lines writer, and the reader. The reader keeps the last N lines, returns them newest first, and parses all-or-nothing with a model of `JSON.parse`.
- **Configuration** (`Types`, `Config`): the `retinaOptimization → resizeRatio` migration, the default configuration, merge-with-defaults on load, the add/remove watch-configuration handlers, "watch exactly the enabled configurations", restart, and the tray's enabled count.
- **Locale resolution and templating** (`Locale`, `MainI18n`, `RendererI18n`): `mapToSupportedLanguage` in both the main-process and renderer versions, `setLanguage`, the two-level fallback of `t` with `{{name}}` placeholders, `getLanguageName`, `getSupportedLanguages`, and the listener list.
- **Installer** (`Installer`): the stage machine of `installPngquant` over probe results, the Homebrew probe order, the exit-code classification, and the settle-at-most-once guard of `executeInstallation`.
- **Log view** (`LogsView`): the success and error counts, the file-name cell, error truncation, the `-` cells for failures, and the zero cases of the size and savings formatters.
- **Icon rasterization and PNG layout** (`Canvas`, `Line`, `IconHelper`, `AppIcon`, `SimplePng`): a square RGBA canvas as a byte sequence, bounds-checked `setPixel`, the Bresenham walk, thick lines, discs and rounded rectangles, the bold "K" glyphs and fallback icons, and the byte layout of the hand-written PNG encoder (signature, IHDR, raw IDAT rows, zero CRC fields). The layout is compared with the chunk format of the PNG Specification (ISO/IEC 15948), sections 5.2, 5.3 and 11.2.2.

File systems, processes, the image library, clocks and the regular-expression engine are not modelled directly. They appear as parameters: outcome values supplied by the caller, or oracle functions.

## Model

| member | source | states |
|---|---|---|
| FileWatcher.Get | src/main/fileWatcher.ts:60 | `watchers.get(id)` is absent exactly when no entry has that id, and a present answer is that id's own entry |
| FileWatcher.Remove | src/main/fileWatcher.ts:63 | `watchers.delete(id)` keeps exactly the entries with other ids and never grows the map |
| FileWatcher.StopWatching | src/main/fileWatcher.ts:59-66 | stopping closes the handle `get` returns, and an absent id leaves the registry as it was |
| FileWatcher.StartWatching | src/main/fileWatcher.ts:14-17 | a start first stops (and closes) whatever watcher the id had, and issues one new handle |
| FileWatcher.StopAllWatching | src/main/fileWatcher.ts:68-74 | stop-all closes every handle, in registry order, and leaves the registry empty |
| FileWatcher.RemoveKeepsOrder | src/main/fileWatcher.ts:63 | after a delete the ids are the old ids minus that id, in their old order |
| FileWatcher.StopKeepsValid | src/main/fileWatcher.ts:59-66 | stopping keeps ids unique and every handle older than the next one |
| FileWatcher.StopRemovesOnlyId | src/main/fileWatcher.ts:59-66 | `getActiveWatchers` after a stop lists the old ids without that one, in order; a stop of an absent id changes nothing |
| FileWatcher.StopLookup | src/main/fileWatcher.ts:59-66 | after a stop the id has no watcher and every other id keeps the watcher it had |
| FileWatcher.StartKeepsValid | src/main/fileWatcher.ts:14-17 | a start (replacing any old watcher) keeps ids unique and handles ordered |
| FileWatcher.StartLookup | src/main/fileWatcher.ts:56 | after a start the id maps to exactly the new watcher and every other id is unaffected |
| FileWatcher.StartListsLast | src/main/fileWatcher.ts:15-17 | a restarted id moves to the end of the `Map`'s key order; the other ids keep their order |
| FileWatcher.StopAllSpec | src/main/fileWatcher.ts:68-74 | after stop-all no watcher is active and exactly as many handles were closed as were active |
| FileWatcher.ScanDecidesIgnored | src/main/fileWatcher.ts:22 | a left-to-right scan decides the `ignored` pattern (a `.` at the start or after a separator, then one more character) on every path |
| FileWatcher.InsideDotDirectory | src/main/fileWatcher.ts:22 | any path with a component starting with `.` and one more character is ignored |
| FileWatcher.PlainPathNotIgnored | src/main/fileWatcher.ts:22 | a path with no `.` at the start or right after a separator is not ignored |
| FileWatcher.MatchesPattern | src/main/fileWatcher.ts:76-92 | under `*.png` a path matches exactly when the last four characters of its base name, lower-cased, are `.png`; any other pattern gives the regular expression's answer on the base name, and no match when the pattern is not a valid regular expression |
| FileWatcher.PngPatternIgnoresRegex | src/main/fileWatcher.ts:80-82 | the default pattern never consults the regular-expression engine |
| FileWatcher.AnyCasePng | src/main/fileWatcher.ts:80-82 | under `*.png`, a file `dir/name` matches if and only if `name` ends in `.png` in any letter case |
| FileWatcher.BasenameOfJoin | src/main/fileWatcher.ts:77 | the base name of `dir/name` is `name` |
| FileWatcher.DirectoryIrrelevant | src/main/fileWatcher.ts:77-91 | only the base name is tested: the same file name matches or not in every directory |
| FileWatcher.ErrorRecord | src/main/fileWatcher.ts:38-45 | the failure record carries the path and the message, both sizes 0, `success` false, and no resize fields |
| FileWatcher.Process | src/main/fileWatcher.ts:33-47 | the callback carries the optimizer's record when it settles and the failure record when it rejects |
| FileWatcher.OnEvent | src/main/fileWatcher.ts:27-54 | an event yields at most one callback, and one exactly when a callback was given and the event is a new, non-ignored, matching file; error events yield none |
| FileWatcher.DeliverSpec | src/main/fileWatcher.ts:24-50 | over a stream of events, the callbacks number exactly the handled events, and each comes from a new matching file and carries a record for that file |
| FileWatcher.DeliveredRecordIsOptimizers | src/main/fileWatcher.ts:34-35 | a handled file's single callback carries the record `optimizeImage` produced with the watcher's resize ratio |
| Optimizer.FirstRunning | src/main/optimizer.ts:32-41 | the index found is the first candidate whose `--version` runs; every earlier one failed |
| Optimizer.FindPngquantPath | src/main/optimizer.ts:18-72 | a hit is cached and non-empty; a non-empty cache is answered at once with no command run; a miss leaves the cache as it was |
| Optimizer.AskShell | src/main/optimizer.ts:43-71 | after every candidate failed, a `which` or Homebrew hit is cached and non-empty, and a miss leaves the cache alone |
| Optimizer.SearchOrder | src/main/optimizer.ts:24-66 | the commands a search runs are always a prefix of the fixed order: the five candidates, `which`, `brew --prefix`, the Homebrew binary |
| Optimizer.AskShellOrder | src/main/optimizer.ts:43-66 | the shell steps likewise run a prefix of that order |
| Optimizer.FirstCandidateWins | src/main/optimizer.ts:32-37 | the first candidate that runs is the answer, having tried exactly the candidates up to it |
| Optimizer.CachedSearch | src/main/optimizer.ts:19-21 | once found, the next search answers the cached path without running anything, whatever the shell would now say |
| Optimizer.NotFound | src/main/optimizer.ts:32-71 | no answer means every candidate failed, `which` gave nothing, and nothing was cached |
| Optimizer.ResizeImage | src/main/optimizer.ts:123-178 | a resize happens exactly when the dimensions decode as non-zero, both target sides `floor(w * r)` and `floor(h * r)` are positive, and the write and the rename succeed; missing dimensions skip it; a zero target side is rejected by the image library and fails the resize; a decoding failure fails it with that error |
| Optimizer.OptimizeImage | src/main/optimizer.ts:74-121 | the record names the input file; exactly one log append is attempted; success holds exactly when the first stat, the tool search, the tool run and the second stat all succeed, and then the sizes are the two stats; failures keep the optimized size 0; a missing tool gives the install message; the three resize fields are set if and only if the resize step succeeded, to `true` and its source and target dimensions; a failed tool run or second stat overwrites `error` with its own message; a successful record's error is the resize failure message or absent |
| Optimizer.ResizeFailureIsNotFatal | src/main/optimizer.ts:165-177 | a failed resize does not stop compression: the record can be a success that still carries `Resize failed: …` |
| Optimizer.AppendLog | src/main/optimizer.ts:191-195 | an append adds the line at the end, creates a missing file, and a failed write leaves the log unchanged |
| Optimizer.LogEntryFields | src/main/optimizer.ts:182-188 | the logged object reads back the timestamp, path, both sizes and the success flag as written |
| Optimizer.LogEntryOptionalFields | src/main/optimizer.ts:182-189 | the error is read back exactly when the record has one, and the resize fields are never logged |
| Optimizer.Slice | src/main/optimizer.ts:204 | `slice(start)` on an array, for negative, in-range and too-large starts |
| Optimizer.SliceKeepsLast | src/main/optimizer.ts:204 | `slice(-limit)` keeps the last `limit` lines, all of them when `limit` is 0 or at least their number, and drops the first `-limit` when `limit` is negative |
| Optimizer.NonEmpty | src/main/optimizer.ts:201 | `filter(line => line)` keeps only non-empty lines, and everything when none is empty |
| Optimizer.ParseLines | src/main/optimizer.ts:205-211 | all kept lines parse, none to `null`, or the parse as a whole fails because some line does |
| Optimizer.Reverse | src/main/optimizer.ts:212 | `reverse()` puts element `i` at position `n - 1 - i` |
| Optimizer.ReverseReverse | src/main/optimizer.ts:212 | reversing twice gives the original order |
| Optimizer.ProcessedFilesParsed | src/main/optimizer.ts:198-216 | a non-empty answer is the parse of every kept line, read newest first |
| Optimizer.BadLineEmptiesRead | src/main/optimizer.ts:203-215 | one unparsable line among the kept ones empties the whole answer |
| Optimizer.AppendExtendsLog | src/main/optimizer.ts:191-192 | appending a record's line to the log of earlier records gives the log of all of them; the first append creates the file |
| Optimizer.LineShape | src/main/optimizer.ts:191 | a logged line is one `{…}` object holding no line break |
| Optimizer.LogLinesOfDocument | src/main/optimizer.ts:201 | the trimmed, split and filtered lines of a log are exactly the serialized objects it holds |
| Optimizer.ParseLinesOfSerialized | src/main/optimizer.ts:206 | parsing the serialized objects gives the objects back |
| Optimizer.ReadBackDocument | src/main/optimizer.ts:198-212 | reading a log of objects gives back the last `limit` of them, newest first |
| Optimizer.ReadBackLog | src/main/optimizer.ts:180-212 | reading a log the program wrote gives back the logged objects of the last `limit` records, newest first |
| Optimizer.NewestFirst | src/main/optimizer.ts:198-212 | with a positive limit the answer has `min(limit, n)` entries and the newest record comes first |
| Json.Lookup | src/main/optimizer.ts:206-209 | a property read after `JSON.parse` finds a member with that key and no later one; absent exactly when no member has the key |
| Json.LookupUnique | src/main/optimizer.ts:182-189 | a key that occurs once is read at its one position |
| Json.SkipWs | src/main/optimizer.ts:206 | skipped whitespace leaves a text starting with no JSON whitespace |
| Json.ScanNumber | src/main/optimizer.ts:206 | the number scanner ends inside the text and consumes at least one character when it accepts |
| Json.CodeUnit | src/main/optimizer.ts:206 | four hexadecimal digits give one UTF-16 code unit and are consumed exactly |
| Json.ParseEscaped | src/main/optimizer.ts:191 | the parser reads back every escaped string `JSON.stringify` writes, whatever follows the closing quote |
| Json.ParseSerialized | src/main/optimizer.ts:191 | every value the program writes is read back from its serialization, whatever delimiter follows it |
| Json.ParseOfSerialize | src/main/optimizer.ts:191 | `JSON.parse(JSON.stringify(v))` gives `v` back for every value the program writes |
| Json.SerializeNoControl | src/main/optimizer.ts:191 | a serialized value holds no control character, so no line break |
| Text.Lower | src/main/fileWatcher.ts:81 | `toLowerCase` maps each character on its own and keeps the length |
| Text.LowerAppend | src/main/fileWatcher.ts:81 | lower-casing distributes over concatenation |
| Text.IndexOf | src/main/i18n.ts:454 | the first occurrence of a character, or the length when there is none |
| Text.ReplaceFirst | src/main/i18n.ts:454 | `replace('_', '-')` changes only the first `_` and nothing else |
| Text.BeforeFirst | src/main/i18n.ts:463 | `split('-')[0]` is the prefix before the first `-` |
| Text.AfterLast | src/renderer/logs.tsx:169 | `split('/').pop()` is a `/`-free suffix that is the whole text or follows a `/` |
| Text.Basename | src/main/fileWatcher.ts:77 | a base name holds no separator |
| Text.JoinPath | src/main/optimizer.ts:61 | `path.join(dir, name)` on a non-empty directory ends with `/name` |
| Text.SplitLastIsAfterLast | src/renderer/logs.tsx:169 | the last piece of a split is the text after the last separator |
| Text.SplitJoin | src/main/optimizer.ts:201 | splitting a join gives the parts back when no part holds the separator |
| Text.JoinSnoc | src/main/optimizer.ts:191-192 | joining one more part appends a separator and the part |
| Text.TrimStart | src/main/optimizer.ts:201 | trimming the front leaves a suffix that starts with no space |
| Text.TrimEnd | src/main/optimizer.ts:201 | trimming the end leaves a prefix that ends with no space |
| Text.TrimLine | src/main/optimizer.ts:201 | `trim()` of a line that ends in a line break and has no space at either end removes just the line break |
| Text.NatToString | src/main/optimizer.ts:185-186 | `String(n)` is a digit run without a leading zero |
| Text.DigitsValueOfNatToString | src/main/optimizer.ts:185-186 | the digits `String(n)` writes have the value `n` |
| Text.ReplaceAllAbsent | src/main/i18n.ts:510-512 | a global replace leaves a text without the pattern unchanged |
| Text.ReplaceAllSingle | src/main/i18n.ts:510-512 | with a border-free pattern, one occurrence in pattern-free text is replaced and nothing else changes |
| Locale.Index | src/main/i18n.ts:51-52 | each language has a position in the declaration order of the translation table, and that position holds it |
| Locale.FromCode | src/main/i18n.ts:457-460 | an exact-match lookup among the supported codes: a found language has exactly that code, and when none is found no language has it |
| Locale.Normalize | src/main/i18n.ts:454 | normalising keeps the length, lower-cases every character, and turns only the first underscore into a hyphen |
| Locale.LowerKeepsUnderscore | src/main/i18n.ts:454 | lower-casing leaves the position of the first underscore unchanged, so replacing it before or after lower-casing gives the same result |
| Locale.LangPart | src/main/i18n.ts:463 | the language part is a hyphen-free prefix of the normalised locale, and it is followed by a hyphen whenever it is shorter |
| Locale.LangPartWhole | src/main/i18n.ts:463 | a locale without a hyphen is its own language part |
| Locale.NormalizedHead | src/main/i18n.ts:454 | a normalised non-empty locale never begins with an underscore |
| Locale.FirstMatch | src/main/i18n.ts:464-467 | the first code, in declaration order, that starts with the language part: no earlier code starts with it |
| Locale.MapToSupported | src/main/i18n.ts:453-486 | the intended resolution always yields one of the eight languages, and an exactly matching code is kept |
| Locale.Property | src/main/i18n.ts:470-485 | looking a key up on the alias object gives an own entry or a property inherited by every object, and nothing else that is not a language |
| Locale.MapAsWritten | src/main/i18n.ts:453-486 | the written resolution yields a language except when the final lookup reaches an inherited property |
| Locale.AliasKeysPrefixed | src/main/i18n.ts:464-485 | every alias key already has a language part that some supported code starts with |
| Locale.AliasesUnreachable | src/main/i18n.ts:464-485 | when no code starts with the language part, neither the locale nor its language part is an alias key, so the alias table never decides the result |
| Locale.MapRule | src/main/i18n.ts:453-486 | without an exact match the result is the first language in declaration order whose code starts with the language part, and English when no code does |
| Locale.NormalizeKeeps | src/main/i18n.ts:454 | a text of lower-case letters and hyphens is already normalised |
| Locale.FromCodeOfCode | src/main/i18n.ts:457-460 | every language's own code is found as an exact match for that language |
| Locale.FromCodeLong | src/main/i18n.ts:457-460 | a text longer than five characters matches no code |
| Locale.MapZh | src/main/i18n.ts:453-467 | the locale zh-CN resolves to Simplified Chinese through the prefix step, because its lower-cased form is not a code |
| Locale.MapIdempotent | src/main/i18n.ts:453-486 | resolving a language's own code gives that language back |
| Locale.AsWrittenConstructor | src/main/i18n.ts:485 | a locale whose language part is constructor makes the written lookup return the inherited constructor property instead of a language |
| Locale.NotProto | src/main/i18n.ts:454-463 | normalisation never produces __proto__ as the locale or its language part, so that inherited name is never looked up |
| Locale.NoCodeStartsWith | src/main/i18n.ts:464-467 | no code starts with a language part longer than five characters |
| Locale.AsWrittenAgrees | src/main/i18n.ts:453-486 | for every other locale the written resolution agrees with the intended one |
| Locale.IntendedConstructor | src/main/i18n.ts:485 | the intended resolution maps a constructor locale to English |
| Locale.ConstructorLocale | src/main/i18n.ts:454-463 | the locale constructor itself has language part constructor, so the defect is reachable |
| Locale.Select | src/main/i18n.ts:488-495 | setting a language keeps it when it is a language, and falls back to English when it has no translation table |
| Locale.SelectMasksDefect | src/main/i18n.ts:488-495 | resolving and then setting, as both translators do at start-up, always ends in the intended language |
| Locale.ValueText | src/main/i18n.ts:511 | a string parameter is substituted verbatim and a number by its non-empty decimal text |
| Locale.Placeholder | src/main/i18n.ts:511 | a placeholder wraps the parameter name in two braces on each side |
| Locale.Translate | src/main/i18n.ts:501-513 | the current language's entry when it has one, filled in when parameters are given; without parameters and for a key that names no inherited object member, else the English entry, else the key itself |
| Locale.FillAbsent | src/main/i18n.ts:510-512 | parameters whose placeholders do not occur in the text leave it unchanged |
| Locale.PlaceholderBorderFree | src/main/i18n.ts:511 | a placeholder whose name has no brace cannot overlap itself, so its occurrences are replaced independently |
| Locale.FillOne | src/main/i18n.ts:510-512 | a single placeholder occurrence surrounded by text without it is replaced by the value's text and nothing else changes |
| MainI18n.StartLanguage | src/main/i18n.ts:417-451 | the language chosen at construction is the resolution of the system locale, and an exactly matching code is kept |
| MainI18n.DeclaredKeyTranslated | src/main/i18n.ts:501-513 | since every table defines every main key, a declared key is always shown in the current language, filled in when parameters are given, and never empty |
| RendererI18n.MissingKeyVerbatim | src/i18n/index.ts:151-164 | the two notification keys that English, Japanese, Spanish and Portuguese leave out are shown as the key itself |
| RendererI18n.EnglishFallback | src/i18n/index.ts:151-164 | keys the Spanish table leaves out but English defines are shown in English |
| RendererI18n.DefinedKeyTranslated | src/i18n/index.ts:151-164 | a declared key the current table defines is shown in the current language |
| RendererI18n.SupportedLanguages | src/i18n/index.ts:133-135 | the supported list holds the code of each language, in the order of the translation tables |
| RendererI18n.SupportedLanguagesResolve | src/i18n/index.ts:198-214 | every listed code resolves to its own language |
| RendererI18n.LanguageName | src/i18n/index.ts:137-149 | a supported code gets its native name, which differs from the code; any other value that names no inherited object member is returned unchanged |
| RendererI18n.NamesDistinct | src/i18n/index.ts:138-147 | different languages have different native names, and no native name equals a code |
| RendererI18n.AddListener | src/i18n/index.ts:238-240 | adding appends the listener at the end, keeps the earlier ones, and leaves the language alone |
| RendererI18n.Without | src/i18n/index.ts:242-244 | filtering removes every occurrence of the listener and keeps the count of every other one |
| RendererI18n.RemoveListener | src/i18n/index.ts:242-244 | after removal the listener is gone, every other listener keeps its count, and the language is unchanged |
| RendererI18n.WithoutAppend | src/i18n/index.ts:242-244 | removal distributes over concatenation, so the surviving listeners keep their order |
| RendererI18n.WithoutAbsent | src/i18n/index.ts:242-244 | removing a listener that is not registered changes nothing |
| RendererI18n.RemoveUndoesAdd | src/i18n/index.ts:238-244 | removing a listener just added restores the earlier state when it was not already registered |
| RendererI18n.SetLanguage | src/i18n/index.ts:113-127 | setting keeps a language or falls back to English, and in both branches every registered listener is notified in order |
| RendererI18n.StartUp | src/i18n/index.ts:171-235 | the language a window starts in is the intended resolution of its locale, and all listeners are notified |
| Config.DefaultWatcher | src/main/main.ts:76-103 | the default watcher is an enabled *.png watcher of the Desktop directory when it exists, else of the home directory, each with its fixed id |
| Config.DefaultConfig | src/main/main.ts:74-114 | the default configuration watches the one default directory, turns notifications and auto-start on, and halves images only on a Retina display |
| Config.Migrate | src/main/main.ts:165-176 | after migration no configuration still needs migrating (a file holding both `retinaOptimization` and `resizeRatio` keeps the old flag); a configuration already in the new format is untouched, and the flag becomes a ratio of one half or none |
| Config.MigrateIdempotent | src/main/main.ts:165-176 | migrating twice gives the same configuration as migrating once |
| Config.MigrateKeepsOthers | src/main/main.ts:165-176 | migration leaves the watch list, notifications and auto-start alone |
| Config.Merge | src/main/main.ts:134 | in the overlay of defaults and loaded fields, every field the loaded object has wins, and every other field comes from the defaults |
| Config.MergeIdempotent | src/main/main.ts:134 | overlaying a merged configuration again changes nothing, and overlaying an empty object gives the defaults |
| Config.LoadConfigAsWritten | src/main/main.ts:125-162 | the written load ends in the same configuration as the corrected one, but saves at most once, and never when the file's watch list is missing or non-empty |
| Config.LoadConfig | src/main/main.ts:125-162 | after loading there is at least one watched directory and the configuration no longer needs migrating; a missing or unreadable file gives the defaults, saved once; every save writes the final configuration, and an old-format file is always written back |
| Config.LoadedFieldsWin | src/main/main.ts:134-147 | a field present in the file overrides its default, and an empty or missing watch list is replaced by the default one |
| Config.MigrationNeverSaved | src/main/main.ts:150-153 | an old-format file with a directory configured is never written back as written, while the corrected load saves the migrated configuration |
| Config.Enabled | src/main/main.ts:400-402 | the enabled configurations are exactly those of the list with the flag set |
| Config.ConfigIds | src/main/main.ts:672-678 | the ids of a watch list, position by position |
| Config.StartNew | src/main/main.ts:680-681 | starting a watcher for an id not yet watched keeps the registry valid and lists that id last |
| Config.StartEachValid | src/main/main.ts:672-678 | starting the enabled configurations one after another keeps the registry valid |
| Config.StartEachSpec | src/main/main.ts:672-678 | with distinct new ids, the watched ids afterwards are the earlier ones followed by the enabled configurations' ids in list order |
| Config.EnabledIdsCons | src/main/main.ts:672-678 | the enabled ids of a list are those of its head, when enabled, followed by those of its tail |
| Config.RestartWatchesEnabled | src/main/main.ts:716-719 | after a restart exactly the enabled directories are watched, in list order, and their number is the count the tray menu shows |
| Config.AddWatchConfig | src/main/main.ts:569-581 | adding creates an enabled *.png configuration for the directory, appends it to the watch list, saves the result, and changes no other field |
| Config.AddWatchesNew | src/main/main.ts:569-581 | an added directory whose id is new is watched afterwards, listed after the earlier watchers |
| Config.RemoveId | src/main/main.ts:585-592 | the filtered list holds exactly the configurations with a different id |
| Config.RemoveWatchConfig | src/main/main.ts:585-592 | removal drops every configuration with that id, saves the result and stops that id's watcher |
| Config.RemoveIdKeepsOrder | src/main/main.ts:585-592 | the remaining ids are those of the list in their order with the removed id filtered out |
| Config.RemoveUndoesAdd | src/main/main.ts:569-592 | removing a directory just added under a fresh id restores the watch list |
| Config.RemoveIdAbsent | src/main/main.ts:585-592 | removing an id that does not occur leaves the list as it was |
| Config.RemoveIdAppend | src/main/main.ts:585-592 | a configuration appended with the removed id disappears without affecting the rest |
| Config.SaveConfig | src/main/main.ts:550-556 | the renderer's configuration replaces the one in memory and is the one written |
| Config.SaveRestartsWatchers | src/main/main.ts:550-556 | after a save exactly the saved configuration's enabled directories are watched |
| Installer.FirstSuccess | src/main/dependencyInstaller.ts:91-118 | the locations are tried in order and the probe stops at the first that runs: every earlier one failed, and when none runs all were tried |
| Installer.FirstSuccessFound | src/main/dependencyInstaller.ts:100-113 | the probe reports success exactly when some location runs |
| Installer.LongerPhrase | src/main/dependencyInstaller.ts:209-212 | an output containing "is already installed" also contains "already installed" |
| Installer.PhrasesEquivalent | src/main/dependencyInstaller.ts:209-212 | the four-way test on both phrases in both streams is equivalent to looking for the shorter phrase in either stream |
| Installer.Details | src/main/dependencyInstaller.ts:222 | the failure details are never empty: standard error when there is any, else standard output, else the fixed placeholder text |
| Installer.Classify | src/main/dependencyInstaller.ts:199-226 | the close handler resolves exactly when the exit code is 0 or the output says the formula is already installed, and otherwise rejects with the exit code and the details |
| Installer.ExecuteInstallation | src/main/dependencyInstaller.ts:159-251 | the install promise always settles, because the five-minute timer fires when nothing else settles it |
| Installer.SettledStays | src/main/dependencyInstaller.ts:200-239 | once the isResolved flag is set, no later event changes the settlement or kills the process |
| Installer.FirstSettling | src/main/dependencyInstaller.ts:199-244 | the first of the close, error and timer events: no earlier event settles |
| Installer.UnsettledCollects | src/main/dependencyInstaller.ts:186-197 | before the first settling event, the handlers only collect output and count progress reports |
| Installer.HandleAllAppend | src/main/dependencyInstaller.ts:186-244 | handling a concatenation of events is handling the first part and then the second |
| Installer.Winner | src/main/dependencyInstaller.ts:199-244 | the event that decides the settlement is a settling one, and it is the timer when the process produces no other |
| Installer.SplitAt | src/main/dependencyInstaller.ts:186-244 | handling a run of events splits around any one event |
| Installer.FirstSettlementWins | src/main/dependencyInstaller.ts:199-244 | the settlement is decided by the first close, error or timer event over the output collected before it, and the process is killed exactly when the timer wins |
| Installer.CollectedUnsettled | src/main/dependencyInstaller.ts:186-197 | collecting output never changes the settlement or the killed flag |
| Installer.Repeat | src/main/dependencyInstaller.ts:190 | one installing progress event per standard-output chunk |
| Installer.Probes | src/main/dependencyInstaller.ts:100-110 | one version probe is run per location tried, in the order tried |
| Installer.ProbesOnly | src/main/dependencyInstaller.ts:91-147 | probing for Homebrew or pngquant never runs brew update or the install |
| Installer.Failed | src/main/dependencyInstaller.ts:79-88 | the catch block adds an error progress event naming the message, and returns a failed result with that message as details |
| Installer.VerifyStep | src/main/dependencyInstaller.ts:55-77 | verification succeeds exactly when the first check or the second check after the wait finds pngquant; success reports completion, and a failure is reported through the catch block |
| Installer.InstallStep | src/main/dependencyInstaller.ts:44-77 | after the update, the install succeeds exactly when its process resolves and a verification finds pngquant; the progress on the happy path is fixed, and a failure is reported through the catch block |
| Installer.InstallPngquant | src/main/dependencyInstaller.ts:15-89 | the first progress event is always the environment check, and once Homebrew is found every failure is reported through the catch block |
| Installer.ToolStep | src/main/dependencyInstaller.ts:32-41 | from the pngquant check on, the progress still begins with the environment check and every failure is reported through the catch block |
| Installer.SuccessCharacterised | src/main/dependencyInstaller.ts:15-89 | the installation succeeds exactly when Homebrew is found and either pngquant is already there, or the install resolves and one of the two verifications finds it |
| Installer.NoHomebrewStops | src/main/dependencyInstaller.ts:19-29 | without Homebrew the result says so after one progress event, and neither the update nor the install runs |
| Installer.AlreadyPresentStops | src/main/dependencyInstaller.ts:32-41 | with pngquant present the installer reports success after two checking events, before any update or install |
| Installer.HappyPath | src/main/dependencyInstaller.ts:15-77 | on the happy path the progress is checking twice, updating, installing once plus once per output chunk, verifying, and completed |
| Installer.UpdateIrrelevant | src/main/dependencyInstaller.ts:149-157 | the outcome of brew update never changes the installation |
| Types.Scale | src/main/optimizer.ts:139-140 | the scaled side is the floor of the side times the ratio: the largest whole number not above the exact product |
| LogsView.Displayed | src/renderer/logs.tsx:29-38 | the window never lists more than the 200 records it asks the main process for |
| LogsView.CountSuccess | src/renderer/logs.tsx:136-145 | a filtered count never exceeds the number of records |
| LogsView.CountsAddUp | src/renderer/logs.tsx:130-146 | the success count and the error count add up to the total shown |
| LogsView.FormatFileSize | src/renderer/logs.tsx:48-54 | a size renders as 0 B exactly when it is zero |
| LogsView.CalculateSavings | src/renderer/logs.tsx:95-99 | the savings render as 0% exactly when the original size is zero |
| LogsView.FileNameCell | src/renderer/logs.tsx:169 | the name cell is the text after the last slash, or the whole path when that text is empty |
| LogsView.PoppedPiece | src/renderer/logs.tsx:169 | the last piece of splitting on slashes is the text after the last slash |
| LogsView.FileNameShape | src/renderer/logs.tsx:169 | the name cell is always a suffix of the path and holds no slash unless the path ends with one |
| LogsView.ErrorCell | src/renderer/logs.tsx:188-192 | no error line for a missing or empty error; lengths are UTF-16 code units: an error of up to 50 units is shown whole, and a longer one as its first 50 units followed by three dots |
| LogsView.ErrorCellBmp | src/renderer/logs.tsx:190 | for an error with no character beyond U+FFFF the cut is the character-level one: the first 50 characters and three dots |
| LogsView.ErrorCellSplitsPair | src/renderer/logs.tsx:190 | one ordinary character followed by 25 or more emoji is cut inside a surrogate pair: the 50th unit shown is a high surrogate followed by the dots |
| Text.Utf16 | src/renderer/logs.tsx:190 | the UTF-16 encoding takes one unit per character plus one per character beyond U+FFFF |
| Text.CharUnits | src/renderer/logs.tsx:190 | a character below U+10000 is one unit equal to itself, a higher one a high surrogate followed by a low surrogate |
| Text.CharUnitsDecode | src/renderer/logs.tsx:190 | the surrogate pair of a character decodes back to it |
| Text.Utf16Append | src/renderer/logs.tsx:190 | encoding distributes over concatenation |
| Text.Utf16Bmp | src/renderer/logs.tsx:190 | without characters beyond U+FFFF the units are the characters |
| Text.AllAstralCount | src/renderer/logs.tsx:190 | when every character lies beyond U+FFFF the encoding is twice as long as the string |
| Text.Utf16AstralAt | src/renderer/logs.tsx:190 | when every character lies beyond U+FFFF, character `i` occupies units `2i` and `2i + 1` |
| LogsView.RowOf | src/renderer/logs.tsx:162-194 | a failed record shows dashes for the optimised size and the ratio and the failed status; a successful one shows both sizes, the savings and the success status |
| LogsView.NotFoundRowCut | src/renderer/logs.tsx:188-192 | the optimizer's tool-not-found message is longer than 50 characters, so its row shows its first 50 units and three dots |
| Canvas.OffsetInRange | src/main/iconHelper.ts:67-75 | the four bytes of an in-bounds pixel lie inside the buffer |
| Canvas.OffsetsDisjoint | src/main/iconHelper.ts:67-75 | distinct in-bounds pixels own disjoint groups of four bytes |
| Canvas.SetPixel | src/main/iconHelper.ts:67-75 | an out-of-bounds pixel leaves the canvas unchanged; an in-bounds one gets the colour in its own four bytes and no other byte changes |
| Canvas.SetPixelEffect | src/main/iconHelper.ts:67-75 | seen pixel by pixel, only the target pixel changes |
| Canvas.Plot | src/main/iconHelper.ts:77-102 | painting a list of points keeps the buffer a canvas of the same size |
| Canvas.PlotEffect | src/main/iconHelper.ts:77-102 | after painting, a pixel has the colour exactly when it is one of the points, and otherwise keeps its old colour |
| Canvas.PlotPaints | src/main/iconHelper.ts:77-102 | painting changes exactly the listed pixels, to the colour |
| Canvas.PaintedOverTrans | src/main/iconHelper.ts:105-122 | painting one list of points and then another is painting their concatenation |
| Canvas.Blank | src/main/iconHelper.ts:42 | the allocated buffer has the requested length |
| Canvas.BlankTransparent | src/main/iconHelper.ts:42-50 | every pixel of a freshly allocated canvas is transparent black |
| Canvas.Put | src/main/iconHelper.ts:45-50 | a store keeps the buffer's length, and one past the end is ignored |
| Canvas.Clear | src/main/iconHelper.ts:45-50 | the clearing loop, four zero stores per step, leaves an all-zero buffer of the same length, whatever the length |
| Canvas.ScanMembers | src/main/appIcon.ts:166-167 | two nested loops over a rectangle visit exactly the accepted points inside it |
| Canvas.ScanAll | src/main/iconHelper.ts:184-185 | a scan that accepts every point visits exactly the rectangle's points |
| Canvas.FillRect | src/main/iconHelper.ts:184-188 | filling a rectangle gives every in-bounds pixel inside it the colour and leaves every other pixel as it was |
| Canvas.PlotScan | src/main/appIcon.ts:165-174 | after painting a scan, a pixel has the colour exactly when it is in the rectangle and accepted, and otherwise keeps its old colour |
| Line.StepArithmetic | src/main/iconHelper.ts:92-100 | each iteration of the loop moves at least one coordinate, never past its end, and keeps the error term equal to its closed form |
| Line.PassesEveryRow | src/main/iconHelper.ts:87-101 | a walk whose steps move each coordinate by at most one passes every row between its ends |
| Line.PassesEveryColumn | src/main/iconHelper.ts:87-101 | such a walk also passes every column between its ends |
| Line.Walk | src/main/iconHelper.ts:77-102 | the loop starts at the first end and stops at the second, after at most the sum of the two distances in steps; successive points are adjacent, every point lies in the bounding box, and a vertical or horizontal line visits every pixel between its ends |
| Line.DrawLine | src/main/iconHelper.ts:77-102 | drawing paints exactly the walk's points, which run from one end to the other inside the bounding box, and leaves every other pixel alone |
| Line.NearSomeCons | src/main/appIcon.ts:111-132 | a pixel is near some point of a walk exactly when it is near the first point or near some later one |
| Line.BrushMembers | src/main/appIcon.ts:115-119 | the square brush covers exactly the pixels within half the thickness of its centre in both coordinates |
| Line.AbsWithin | src/main/appIcon.ts:115-116 | a distance is at most h exactly when it lies in the range from -h to h |
| Line.InConcat | src/main/appIcon.ts:111-132 | a point is in two concatenated runs of points exactly when it is in one of them |
| Line.StampsMembers | src/main/appIcon.ts:111-132 | the brushes of all walk points cover exactly the pixels near some walk point |
| Line.DrawThickLine | src/main/appIcon.ts:103-133 | a pixel gets the colour exactly when it is within half the thickness, rounded down, of some point of the walk in both coordinates; every other pixel keeps its value |
| AppIcon.DiscInsideSquare | src/main/appIcon.ts:165-174 | for a non-negative radius the loop bounds add nothing to the distance test |
| AppIcon.DiscSymmetric | src/main/appIcon.ts:165-174 | the painted disc is symmetric under both mirrors and the diagonal swap |
| AppIcon.DrawFilledCircle | src/main/appIcon.ts:165-174 | a pixel gets the colour exactly when it is within the radius of the centre, and every other pixel keeps its value |
| AppIcon.DrawFilledRoundedRect | src/main/appIcon.ts:176-205 | a pixel gets the colour exactly when it lies in the rectangle and passes the corner test as written; every other pixel keeps its value |
| AppIcon.RoundedRectShape | src/main/appIcon.ts:176-205 | outside the four corner squares every pixel of the rectangle is painted, and in the top-left square exactly those within the quarter circle |
| AppIcon.AsWrittenAsymmetric | src/main/appIcon.ts:186-200 | the written corner test is not symmetric: a pixel in the top row is dropped on the left while its mirror image on the right is kept |
| AppIcon.KeepSymmetric | src/main/appIcon.ts:176-205 | the corrected corner test is symmetric under the left-right and the top-bottom mirror of the rectangle |
| IconHelper.VerticalStrokes | src/main/iconHelper.ts:108-111 | the first loop paints only points inside the K's box, and paints the whole left band of the K |
| IconHelper.UpperStrokes | src/main/iconHelper.ts:113-116 | the upper diagonals stay inside the box, start on the left band at the upper joint and end at the top of the right column |
| IconHelper.LowerStrokes | src/main/iconHelper.ts:118-121 | the lower diagonals stay inside the box, start on the left band at the lower joint and end at the bottom of the right column |
| IconHelper.DrawK | src/main/iconHelper.ts:105-122 | the three stroke families paint only points inside the box, covering the left band, both joints and both ends of the right column |
| IconHelper.ClearedCanvas | src/main/iconHelper.ts:42-50 | the allocated and cleared canvas has every pixel transparent |
| IconHelper.KIcon | src/main/iconHelper.ts:40-65 | the K icon is black on transparent, with nothing painted outside the K's box, and the left band and the diagonals' ends black |
| IconHelper.PackageIcon | src/main/iconHelper.ts:40-65 | the 18-pixel tray icon paints only inside columns 4 to 14 and rows 2 to 16, black on transparent, with columns 4 and 5 black from row 2 to 16 |
| IconHelper.HighResIcon | src/main/iconHelper.ts:216-240 | the 32-pixel icon paints only inside columns 6 to 26 and rows 4 to 28, black on transparent, with columns 6 to 8 black from row 4 to 28 |
| IconHelper.SmallIcon | src/main/iconHelper.ts:243-267 | the 16-pixel icon paints only inside columns 3 to 13 and rows 2 to 14, black on transparent, with columns 3 and 4 black from row 2 to 14 |
| IconHelper.FallbackPoints | src/main/iconHelper.ts:146-160 | the three loops visit exactly the frame and the cross |
| IconHelper.FallbackIcon | src/main/iconHelper.ts:131-169 | exactly the frame and cross pixels are black, and every other pixel is transparent |
| IconHelper.SimpleVisibleIcon | src/main/iconHelper.ts:171-200 | a black 7 by 7 block over rows and columns 6 to 12 with a white centre pixel, and every other pixel transparent |
| SimplePng.U32BE | create-simple-icons.js:71-74 | a 32-bit field is four bytes |
| SimplePng.U32RoundTrip | create-simple-icons.js:71-74 | reading a written big-endian 32-bit field back gives the number written |
| SimplePng.Ihdr | create-simple-icons.js:69-81 | the IHDR chunk is 25 bytes: length 13, the type, width and height both the size, depth 8, colour type 6, three zero method bytes and a zero CRC field |
| SimplePng.Rows | create-simple-icons.js:89-100 | the first y filtered scanlines take y times the scanline length |
| SimplePng.RowsStep | create-simple-icons.js:91-99 | each further scanline is its zero filter byte followed by the canvas row |
| SimplePng.RowsIndex | create-simple-icons.js:89-100 | every scanline starts with filter byte 0 and then holds the canvas row byte for byte |
| SimplePng.RowBytes | create-simple-icons.js:93-99 | the inner loop copies exactly the canvas row, four bytes per pixel |
| SimplePng.FilteredRows | create-simple-icons.js:84-100 | the row loop produces all the filtered scanlines, whose length is the computed IDAT size, and ends at that offset past the chunk header |
| SimplePng.Assemble | create-simple-icons.js:106 | the output is the signature, the IHDR, the IDAT chunk and the IEND chunk, in that length |
| SimplePng.AssembleHeader | create-simple-icons.js:65-107 | the assembled output has every fixed field in place and carries the payload unchanged after the IDAT header |
| SimplePng.AllPixelsReadBack | create-simple-icons.js:89-100 | every pixel of the canvas reads back from its place in the output, after its row's zero filter byte |
| SimplePng.CreateSimplePng | create-simple-icons.js:65-107 | the writer fails exactly when the IDAT length does not fit its 32-bit field; otherwise the output has every header field in place and every canvas pixel reads back from it |
| SimplePng.StrokePixel | create-simple-icons.js:21-26 | painting the stroke on a zeroed canvas makes a pixel black exactly when it lies in the stroke's columns and rows |
| SimplePng.LeftStroke | create-simple-icons.js:6-26 | on the zeroed canvas the left stroke of the K is black over its rows and columns, and every other pixel stays transparent |
| Optimizer.Versions | src/main/optimizer.ts:32-41 | one `--version` run per candidate, in the candidates' order |
| Optimizer.CandidatesInOrder | src/main/optimizer.ts:24-41 | the first runs of every search are the candidates' version probes, in the listed order |
| Optimizer.LogEntry | src/main/optimizer.ts:182-189 | the logged value is a JSON object |
| Optimizer.LogEntryCanonical | src/main/optimizer.ts:182-191 | every logged object is one that serialization and parsing reproduce exactly |
| Optimizer.Entries | src/main/optimizer.ts:182-191 | one logged object per record, in the records' order |
| Optimizer.SliceStart | src/main/optimizer.ts:204 | the start index of a slice never passes the end of the array |
| Optimizer.GetProcessedFiles | src/main/optimizer.ts:198-216 | a missing or unreadable log file gives the empty list |
| Json.ParseValue | src/main/optimizer.ts:206 | a value that parses consumes at least one character of the text |
| Json.ParseString | src/main/optimizer.ts:206 | the rest of a string that parses is shorter than the text |
| Json.ParseEscape | src/main/optimizer.ts:206 | an escape that parses consumes at least one character |
| Json.ParseNumber | src/main/optimizer.ts:206 | a number that parses consumes at least one character |
| Json.ParseNatLexeme | src/main/optimizer.ts:185-186 | a size written as a decimal digit run is parsed back as that number, whatever delimiter follows |
| FileWatcher.ScanIgnored | src/main/fileWatcher.ts:22 | the scan from a position finds a dot-entry exactly when one starts at or after that position |
| FileWatcher.Filter | src/main/fileWatcher.ts:63 | the filtered ids are exactly the old ids other than the removed one |
| Text.Split | src/main/optimizer.ts:201 | splitting always yields at least one piece |
| Text.IntToString | src/main/i18n.ts:511 | `String(n)` of an integer is non-empty and starts with a minus sign exactly when the integer is negative |

## Left out

- The Electron shell in `src/main/main.ts` is left out: windows, tray rendering, IPC registration, dialogs, notifications, and the macOS permission and version probes. These are user-interface and operating-system calls. Only the tray's enabled count is modelled.
- Real file-system, process and image-library effects are replaced by outcome parameters supplied by the caller. These cover `stat`, `appendFile`, `readFile`, `rename`, `unlink`, running `pngquant`, `which` and `brew`, and decoding and resampling with `sharp`. Whether a write failed is an input; the bytes written to disk are not modelled.
- The internals of the folder-watching library are left out, and so are timers: the one-second wait after an `add` event, the verification pauses and the five-minute installation timeout. Each of these is an event in the model, not wall-clock time. The interleaving of concurrent per-file chains is not modelled either.
- The JavaScript regular-expression engine is an oracle (`FileWatcher.RegexTest`) that answers a match, a non-match, or "invalid pattern".
- `t` with parameters replaces `{{name}}` by literal replace-all. This equals the source's regular-expression replacement only when parameter names hold no regular-expression metacharacters and values hold no `$`.
- Floating-point code is left out, and the resize ratio is a rational. The omitted code is:
  - `formatFileSize` for non-zero sizes and the `calculateSavings` percentage;
  - the rounding of the compression ratio in the notification text;
  - the gradient, particle and size-fraction "K" drawing of `appIcon.ts`;
  - the diagonal strokes of `createSimpleBMPIcon`.
- The locale string tables are data. The model keeps only which keys each table has, together with the strings that the lemmas about `t` need.
- Detecting the system language is left out: environment variables, `navigator.language` and `defaults read`. The detected locale is an input.
- The log timestamp is kept as the ISO text that a clock parameter supplies; `Date` parsing and formatting are not modelled.
- `Json.ParseString` rejects a `\u` escape that encodes a lone surrogate, which `JSON.parse` accepts. Strings here are sequences of Unicode scalar values and cannot hold a lone surrogate. Log lines written by the program never contain one.
- `Text.Lower` maps only ASCII letters and the Kelvin sign. Other characters lower-case only to forms that no comparison in the model can distinguish.
- CRC fields in the hand-written PNG encoder are zero, as the code writes them. The model therefore does not claim conformance with section 5.3 of the PNG Specification. The IDAT data is raw rows, as written, not a zlib stream.
- `create-icons.js`, `preload.ts`, `generateIcons.ts`, the `nativeImage` and SVG-file calls, the React components, and the build and test scripts are not part of this model. Most of them are user interface, file writes or tooling. `create-icons.js` has a stub encoder.
- `fileWatcher.ts` handles only the `add` and `error` events; there is no rename or duplicate-suppression filter, and none is modelled.
- In `getProcessedFiles` a single unparsable kept line makes the whole read return an empty list (`Optimizer.BadLineEmptiesRead`); no line is skipped on its own.
- Locale.Translate: its contract states the English and key fallbacks only for calls without parameters; with parameters only the current-language case is stated, and the rest is characterised through `Locale.FillAbsent` and `Locale.FillOne`.
- Locale.Translate: a key that names an inherited object member (`toString`, `constructor`, …) and is no own entry would find that member in JavaScript; the model falls through to the key there, and the contract states nothing for such keys. No declared translation key is such a name.
- RendererI18n.LanguageName: a string that names an inherited object member would return that member in JavaScript; the contract states the fallback only for other strings. The parameter is declared as a language code and the only caller passes the supported codes.
- Optimizer.ResizeImage: the text of the image library's error for a zero target side follows that library's wording for an invalid parameter, which is not part of this source.
- LogsView.NotFoundRowCut: it states the cut in UTF-16 units of the message and not the 50 characters themselves.
- IconHelper.DrawK: the contract states the whole left band and the end pixels of both diagonals. It does not state the exact pixel set of each diagonal, which follows the Bresenham walk of `Line`.
- Json.ParseValue: its own contract states only progress. Agreement with the printer is stated by the round-trip lemmas over whole lines.
- LogsView.FormatFileSize and LogsView.CalculateSavings: only the zero cases are stated exactly. Other sizes give a symbolic cell because the arithmetic is floating point.

## Findings

| source | as written | input that shows it | evidently intended | confidence | as-written member | corrected member |
|---|---|---|---|---|---|---|
| src/main/main.ts:150-153 | `migrateConfig` changes its argument in place and returns that same object, so the check that the migrated config differs from the loaded one is never true and the migrated config is never written back | a config file with `retinaOptimization: true`, no `resizeRatio` and one watcher | save the migrated configuration once, so the old field disappears from the file | not executed | Config.LoadConfigAsWritten (shown by Config.MigrationNeverSaved) | Config.LoadConfig |
| src/main/i18n.ts:485 | the final alias lookup indexes an object literal, so a name it inherits from the object prototype is found as if it were an alias | the locale `constructor` | only the listed aliases map to a language and every other locale maps to `en`; `setLanguage` later falls back to `en` and hides the effect (Locale.SelectMasksDefect) | not executed | Locale.MapAsWritten (shown by Locale.AsWrittenConstructor and Locale.ConstructorLocale) | Locale.MapToSupported (Locale.MapRule, Locale.IntendedConstructor) |
| src/main/appIcon.ts:186-200 | the right and bottom corner centres are placed at `x + w - radius` and `y + h - radius`, one pixel beyond the mirror of the left and top centres | x = y = 0, w = h = 10, radius 3: pixel (2,0) is dropped while its mirror (7,0) is kept | corner centres at `x + w - 1 - radius` and `y + h - 1 - radius`, so the shape is symmetric | not executed; the function has no caller in the repository | AppIcon.DrawFilledRoundedRect (shown by AppIcon.AsWrittenAsymmetric) | AppIcon.KeepSymmetric |
