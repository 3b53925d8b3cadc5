# NUT configurator decision engine

A Dafny model of the decision core of `NUTConfigurator`, the part of the fty-nut
agent that auto-configures NUT power-device drivers (UPS, ePDU, ATS). For one
device it takes candidate configurations, either from an operator-supplied
`upsconf_block` or from a scan. It picks the best candidate and completes it
with derived fields. It writes the result to the per-device store only when the
serialized text changed. Across a batch of devices it collects driver units to
start and to stop. `commit` then turns those into an ordered list of `systemctl`
commands and clears both sets.

Files:

- `classifiers.dfy`: module `Classifiers`. Candidates are `map<string, string>`. It holds
  the five classifiers (`IsEpdu`, `IsAts`, `IsUps`, `CanSnmp`, `CanNetXml`) and
  the two string searches they rely on (`Find`, `FindLastOf`). The module
  `Options` holds the `Option` type.
- `selection.dfy`: module `Selection`. It holds `std::find_if`/`std::any_of`
  over candidate lists, the MIB priority patterns, `BestSnmpMib`
  (`getBestSnmpMibConfiguration`), `NetXmlConfiguration` and `SelectBest`.
  A chosen candidate is a position in the list. `None` plays the end iterator.
- `upsconf_block.dfy`: module `UpsConfBlock`. It turns an explicit block into
  parser input. The separator replacement is done in place on an array, like
  `std::replace`.
- `nut_configurator.dfy`: module `Configurator`. The class `NutConfigurator`
  holds the device store, the pending `startDrivers`/`stopDrivers` sets and the
  trace of issued commands. The class's methods are proved against the pure
  functions `Completed`, `Updated`, `Erased` and `CommitCommands`, and the
  lemmas state what those functions promise.

Three behaviours of the code that are easy to misread. The model follows the
code in each:

- `isAts` is not a suffix test, although its own comment at
  src/nut_configurator.cc:93 ("no std::string::ends_with() yet") shows that one
  was meant. `find_last_of("ats")` finds the last of any of
  the characters `a`, `t`, `s`. The test holds when that index is `size() - 3`
  (`size_t` arithmetic, which wraps below three). So `"xa12"` is an ATS and
  `"eaton_ats"` is not (`IsAtsIsNotSuffixTest`). The reference predicate
  `HasAtsSuffix` is kept only to state that difference.
- The MIB priority patterns are matched with `std::regex_match`, a full match.
  `"pw"` and `"mge"` therefore select only those exact names. Among `"mge-other"`,
  `"pw-x"` and `"other-mib"`, the first, `"mge-other"`, wins through the catch-all
  `".+"` (`FullMatchExample`). Reading the patterns as prefixes would pick `"pw-x"`.
- An explicit block throws `std::out_of_range` when it has length 0 (at
  `at(0)`) or length 1 with a character that is not NUL (at `at(1)`), although
  the log line beside that test speaks of handling empty blocks. A block that
  is just "\0" does not throw: the `||` stops before `at(1)`, and the device
  gets the single candidate `{name: <device>}`.

`std::out_of_range`, thrown by `at()` for a block that is too short, is not
caught in the source and leaves `configure` before anything changes. The model
represents it as the status `BlockOutOfRange`, returned with the store and both
pending sets unchanged.

## Model

| member | source | states |
|---|---|---|
| `Classifiers.FindFrom` | src/nut_configurator.cc:80 | the result is the first position at or after `from` where the word occurs; none means it occurs nowhere from there |
| `Classifiers.Find` | src/nut_configurator.cc:80 | `std::string::find`: first occurrence, or none when the word occurs nowhere |
| `Classifiers.FindLastOf` | src/nut_configurator.cc:94 | the result holds one of the characters and no later position does; none means no position does |
| `Classifiers.SizeMinus3` | src/nut_configurator.cc:95 | `size() - 3` is exact from three upwards and wraps to at least 2^64 - 3 below |
| `Classifiers.IsEpdu` | src/nut_configurator.cc:63-85 | ePDU iff `mibs` is one of the six ePDU MIB names, or "epdu" occurs somewhere in `desc` (case-sensitive substring) |
| `Classifiers.IsAts` | src/nut_configurator.cc:87-101 | ATS iff `mibs` exists, has length at least 3, its third-last character is one of a/t/s and its last two are not |
| `Classifiers.IsUps` | src/nut_configurator.cc:103-106 | UPS by exclusion; a candidate with neither `mibs` nor `desc` is a UPS |
| `Classifiers.CanSnmp` | src/nut_configurator.cc:108-119 | an SNMP-capable candidate is never NetXML capable |
| `Classifiers.CanNetXml` | src/nut_configurator.cc:121-132 | a NetXML-capable candidate has a driver that is none of the SNMP drivers |
| `Classifiers.IsAtsNeedsThreeChars` | src/nut_configurator.cc:91-98 | a missing `mibs`, or one shorter than 3, is never ATS |
| `Classifiers.AtsSuffixIsNotAts` | src/nut_configurator.cc:93-95 | a `mibs` value that really ends in "ats" is never classified ATS |
| `Classifiers.IsAtsIsNotSuffixTest` | src/nut_configurator.cc:94-95 | "xa12" is ATS without the suffix; "eaton_ats" has the suffix and is not ATS |
| `Classifiers.AtsSuffixIsUps` | src/nut_configurator.cc:87-106 | a candidate whose `mibs` really ends in "ats", and which has no description or one without "epdu", is classified as a UPS |
| `Selection.FindIf` | src/nut_configurator.cc:142-151 | `std::find_if`: the first candidate satisfying the predicate; none when no candidate does |
| `Selection.AnyOf` | src/nut_configurator.cc:174-180 | `std::any_of` holds exactly when `std::find_if` finds a candidate |
| `Selection.FirstByPriority` | src/nut_configurator.cc:141-158 | the chosen candidate is the first to match some pattern, and no earlier pattern matches any candidate; none when no pattern matches any candidate |
| `Selection.BestSnmpMib` | src/nut_configurator.cc:134-159 | the chosen candidate has a non-empty `mibs`; nothing is chosen exactly when no candidate has one |
| `Selection.BestSnmpMibPreference` | src/nut_configurator.cc:134-159 | first "pw" candidate; else first "mge"; else first with non-empty `mibs`; none exactly when no `mibs` is non-empty |
| `Selection.FullMatchExample` | src/nut_configurator.cc:137-146 | full matching: "pw-x" and "mge-other" fall to the catch-all, and pattern order outranks list order |
| `Selection.NetXmlConfiguration` | src/nut_configurator.cc:161-172 | the first candidate whose driver is "netxml-ups"; none exactly when there is none |
| `Selection.First` | src/nut_configurator.cc:183 | `configs.begin()`: position 0, or the end iterator for an empty list |
| `Selection.SelectBest` | src/nut_configurator.cc:174-203 | a chosen position is always inside the list |
| `Selection.SelectBestNoneIff` | src/nut_configurator.cc:174-203 | nothing is chosen exactly for an empty list, or when an SNMP branch is taken and no candidate has a non-empty `mibs` |
| `Selection.SelectBestFallsBackToFirst` | src/nut_configurator.cc:197-199 | with no SNMP and no NetXML candidate, the first candidate is chosen |
| `Selection.SnmpEpduOrAtsOutranksNetXml` | src/nut_configurator.cc:185-187 | some SNMP candidate plus some ePDU/ATS candidate means the MIB-priority result, whatever NetXML candidates exist |
| `Selection.NetXmlChosenOtherwise` | src/nut_configurator.cc:189-191 | otherwise a NetXML candidate means the first NetXML candidate is chosen, never none |
| `Selection.SnmpChosenOtherwise` | src/nut_configurator.cc:193-195 | with SNMP and no NetXML candidate, the MIB-priority result is chosen |
| `UpsConfBlock.Replaced` | src/nut_configurator.cc:269 | replacing characters keeps the length |
| `UpsConfBlock.ReplacedAt` | src/nut_configurator.cc:269 | each separator becomes a newline and every other character is kept |
| `UpsConfBlock.ReplacedRemovesSeparator` | src/nut_configurator.cc:269 | unless the separator is a newline, none survives the replacement |
| `UpsConfBlock.ReplacedIdempotent` | src/nut_configurator.cc:269 | replacing twice equals replacing once |
| `UpsConfBlock.ReplacedAppend` | src/nut_configurator.cc:269 | the replacement distributes over concatenation |
| `UpsConfBlock.ReplacedWithoutSeparator` | src/nut_configurator.cc:269 | text without the separator is unchanged |
| `UpsConfBlock.ReplaceInPlace` | src/nut_configurator.cc:269 | the in-place loop leaves the array equal to the replaced text |
| `UpsConfBlock.TextOfBlock` | src/nut_configurator.cc:256-276 | `at` throws exactly for an empty block or a one-character non-NUL block; the block is empty exactly when its first or second character is NUL; the parser's input always starts with '[' |
| `UpsConfBlock.ConfigsFromBlock` | src/nut_configurator.cc:256-280 | only a block of length 0, or of length 1 whose character is not NUL, throws; an empty block yields the single candidate `{name: <device>}` |
| `UpsConfBlock.TextOfBlockContent` | src/nut_configurator.cc:267-276 | the content is the block after its separator, with separators turned into newlines; a "[name]" header and a final newline are added unless the content starts with '[' |
| `UpsConfBlock.ContentOnlyBlock` | src/nut_configurator.cc:274-275 | a block "SEP a SEP b" whose content does not start with '[' reaches the parser as "[name]\na\nb\n" |
| `UpsConfBlock.ConfigurationFromUpsConfBlock` | src/nut_configurator.cc:256-280 | the method's result is the throw, the single `{name}` candidate, or the parse of the block's text, as `ConfigsFromBlock` says |
| `Configurator.DriverUnit` | src/nut_configurator.cc:403 | the service unit of a device is "nut-driver@" followed by its name, which is a proper suffix of the unit |
| `Configurator.Stored` | src/nut_configurator.cc:382-387 | the text read for a device; a missing file reads as "" |
| `Configurator.Completed` | src/nut_configurator.cc:364-377 | completion sets `name` to the device and leaves every field outside the five completion keys as it was |
| `Configurator.CompletedFields` | src/nut_configurator.cc:366-377 | `synchronous=yes` iff ePDU and SNMP, `timeout=15` iff NetXML, `pollfreq` for SNMP and `pollinterval` otherwise; fields not set keep their old value or absence |
| `Configurator.SetKeepsClassification` | src/nut_configurator.cc:365-376 | setting a field other than `mibs`, `desc` or `driver` does not change any classification |
| `Configurator.CompletedStepwise` | src/nut_configurator.cc:365-377 | the source's step-by-step updates, each tested on the configuration updated so far, give the completed configuration |
| `Configurator.CompletedKeepsClassification` | src/nut_configurator.cc:365-377 | completion does not change any classification of the candidate |
| `Configurator.CompletedIdempotent` | src/nut_configurator.cc:364-377 | completing a completed configuration changes nothing |
| `Configurator.Updated` | src/nut_configurator.cc:381-407 | the store holds the new text; other devices and the stop set are unchanged; the start set gains at most the device's unit, and gains it whenever the text differed; an unchanged text changes nothing |
| `Configurator.Erased` | src/nut_configurator.cc:435-442 | the device's file is gone and reads as empty; its unit is added to the stop set and the units already there stay; other devices and the start set are unchanged |
| `Configurator.UpdatedIdempotent` | src/nut_configurator.cc:395-407 | repeating an identical update is a no-op |
| `Configurator.UpdateDeviceTwiceWritesOnce` | src/nut_configurator.cc:359-407 | updating a device twice from the same candidate writes at most once and leaves the serialized completion stored |
| `Configurator.DriverUnitInjective` | src/nut_configurator.cc:403 | distinct devices have distinct "nut-driver@" units |
| `Configurator.EraseThenUpdate` | src/nut_configurator.cc:435-442 | a device erased and configured again in one batch is both stopped and started |
| `Configurator.CandidatesOf` | src/nut_configurator.cc:414-422 | a scan never throws; only an explicit block of at most one character does |
| `Configurator.SystemctlCommands` | src/nut_configurator.cc:210-221 | no command for an empty unit set; otherwise exactly one, carrying the operation and the whole unit set |
| `Configurator.CommitCommands` | src/nut_configurator.cc:444-461 | the configuration helper always runs, and no `systemctl` command has an empty unit list |
| `Configurator.CommitUnmanaged` | src/nut_configurator.cc:444-461 | without service management only `fty-nutconfig` runs |
| `Configurator.CommitManagedOrder` | src/nut_configurator.cc:444-458 | disable then stop of the stop set come first when it is non-empty, then `fty-nutconfig`, then restart then enable of the start set when it is non-empty, and nothing but those and the server reload after the helper; no command is issued twice |
| `Configurator.CommitManagedSequence` | src/nut_configurator.cc:444-458 | with both sets non-empty the commands are exactly disable, stop, `fty-nutconfig`, restart, enable, server reload |
| `Configurator.CommitManagedActsOnPending` | src/nut_configurator.cc:446-455 | the stop set is disabled and stopped, and the start set restarted and enabled, exactly when non-empty |
| `Configurator.CommitReloadsServerIff` | src/nut_configurator.cc:456-457 | `reload-or-restart nut-server` is issued iff either set was non-empty, and then last |
| `Configurator.EraseThenCommit` | src/nut_configurator.cc:435-461 | erasing one device and committing issues disable and stop of its unit, the helper and the reload, and no restart or enable |
| `Configurator.SingleSnmpCandidate` | src/nut_configurator.cc:185-196 | a lone SNMP candidate with a non-empty `mibs` is chosen |
| `Configurator.SnmpUpsScenario` | src/nut_configurator.cc:359-404 | an SNMP UPS with `mibs=mge-other` is chosen and gains `name` and `pollfreq`; on change its unit is queued for start |
| `Configurator.SnmpEpduScenario` | src/nut_configurator.cc:366-374 | an SNMP ePDU gets `synchronous=yes` and `pollfreq`, not `pollinterval` |
| `Configurator.EpduPrefersSnmpOverNetXml` | src/nut_configurator.cc:185-187 | with a NetXML candidate first and an SNMP ePDU second, the ePDU is chosen |
| `Configurator.EmptyBlockConfiguresByName` | src/nut_configurator.cc:262-264 | an empty block yields the single `{name}` candidate; it is chosen and completed with `pollinterval` only |
| `Configurator.NutConfigurator.Systemctl` | src/nut_configurator.cc:210-236 | appends one command for a non-empty unit set and nothing for an empty one |
| `Configurator.NutConfigurator.UpdateNutConfig` | src/nut_configurator.cc:238-254 | appends one run of `fty-nutconfig`; its exit status changes nothing |
| `Configurator.NutConfigurator.UpdateDeviceConfiguration` | src/nut_configurator.cc:359-408 | the new store and start set are those of `Updated` for the serialized completion; the stop set and the trace are unchanged |
| `Configurator.NutConfigurator.Configure` | src/nut_configurator.cc:410-433 | the selected candidate is completed and written as by `Updated`; if the block throws or nothing is selected, the store and both sets are unchanged |
| `Configurator.NutConfigurator.Erase` | src/nut_configurator.cc:435-442 | the new store and stop set are those of `Erased` |
| `Configurator.NutConfigurator.Commit` | src/nut_configurator.cc:444-461 | the trace grows by `CommitCommands` of the old sets, the store is unchanged, and both sets are empty afterwards |

## Left out

- Scanning (`getConfigurationFromScanningDevice`), the security-wallet client, credential casting and network probes are foreign calls. `Configure` takes the scan's candidate list as input (`Scanned`).
- `s_getPollingInterval` reads a configuration file. The polling interval is a parameter of `UpdateDeviceConfiguration` and `Configure`.
- `fty::nut::parseConfigurationFile` and the serializer `operator<<` are not part of this model. Both are uninterpreted functions fixed when the configurator is constructed. Any exception they might throw is not modelled.
- Real files: `mkdir_if_needed`, the device directory path, reading, writing and `remove`. The store is a map from device name to text, and a missing file reads as "".
- `known_assets` is a directory listing and is not modelled.
- Subprocess execution and logging. Each command is one trace entry. Exit codes are only logged in the source, so the model drops them. The argument list is not split into chunks either (the source's FIXME).
- The order of unit names inside one `systemctl` argument list: `std::set` gives sorted order. The model records the unit set.
- The `std::regex` engine. The three priority patterns are explicit predicates. `.+` is modelled as "non-empty". ECMAScript's `.` does not match line terminators, so a MIB name containing `\n` or `\r` would fail the real catch-all but passes the model's.
- `bIsUps` is computed by `selectBestConfiguration` only for a debug log line. It does not take part in the choice, so `SelectBest` does not compute it.
- Selection.BestSnmpMib: its own contract says only that the choice has a non-empty MIB name and when nothing is chosen. The pattern order it follows is stated by `BestSnmpMibPreference`.
- Selection.SelectBest: its own contract only bounds the chosen position. What it chooses is stated by `SelectBestNoneIff` and the branch lemmas beside it.
- Strings: each Dafny `char` stands for one byte of the `std::string`, so a multi-byte UTF-8 character is several chars. `size()`, `at()`, `find_last_of` and `std::replace` all count and compare bytes, and so does the model under that reading.
- `nut_configurator_test` is empty.
