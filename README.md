# Windows Defender check: a verified model

This project models the Checkmk plugin that monitors Microsoft Defender on
Windows hosts. The agent dumps `Key : Value` lines such as
`AntivirusSignatureLastUpdated : 25.02.2021 22:37:08` and
`RealTimeProtectionEnabled : True`. The plugin turns them into findings:

- a state (OK, WARN, CRIT, UNKNOWN) and a message;
- metrics for the signature and scan ages.

The findings cover three things:

- the age of the three signature sets;
- whether the seven protection services are in the expected state;
- how long ago the last full and quick scans ran.

Version and host information is added as notices.

Two versions of the plugin are modelled:

- **Current plugin**, `plugins/windows_defender/agent_based/windows_defender.py`:
  - the section parser, the tri-state flags and the timestamp parser;
  - the signature, service, scan and version blocks of the check, and the check itself.
  - The timestamp parser takes a date-format family (`eu`, `us`, `iso`) with an ordered list of layouts, and a one-day future tolerance.
- **Legacy plugin**, `agent_based/windows_defender.py`:
  - its parser, which replaces the five timestamp entries of a dictionary by their ages in place;
  - its check.

The Dafny files follow the program's structure:

| file | module | what it holds |
|---|---|---|
| wrappers.dfy | `Wrappers` | `Option` |
| text.dfy | `Text` | `str.strip`, the framework's split of a line at `:`, and `":".join`, with their round trips |
| calendar.dfy | `Calendar` | the proleptic Gregorian calendar and seconds since the Unix epoch |
| strptime.dfy | `Strptime` | the seven date layouts, a matcher that behaves like `time.strptime` on them, a formatter, and the proof that each layout reads back its own rendering |
| findings.dfy | `Findings` | states, levels, messages, `check_levels`, and the worst state of a list of findings |
| `defender_section.dfy` | `DefenderSection` | `parse_windows_defender` and `_parse_bool` |
| `defender_timestamp.dfy` | `DefenderTimestamp` | `DATE_FORMAT_CONFIGS` and `_parse_timestamp` |
| `defender_check.dfy` | `DefenderCheck` | `_extract_levels_tuple`, the four check blocks, `check_windows_defender`, and a worked example |
| legacy.dfy | `LegacyDefender` | the legacy parser and check |

Each loop of the source is a `method` with a `for` loop. It is proved equal to a specification function, and the properties of the plugin are proved about that function:

- the parse loops;
- the loop over the layouts;
- the service loop with its counter and its list of services found as expected;
- the appends of the version notices;
- the legacy in-place conversion.

Three things stand in for calls the model cannot see:

- The clock reading `now` is a parameter.
- `time.mktime` becomes seconds since the epoch in UTC.
- Ages are whole seconds.

### Behaviour worth knowing

Each point below is what the source does, and the model does the same. Line numbers refer to
`plugins/windows_defender/agent_based/windows_defender.py`, except in the two legacy points, which
refer to `agent_based/windows_defender.py`.

- **Unknown services.** A service whose state is unknown counts as an issue. It therefore suppresses the aggregate "All N services in expected state" result, exactly as a mismatch does (lines 339-345, 359). `DefenderCheck.ServicesAllOk` states this.
- **Future timestamps.** A layout that reads the timestamp but puts it more than a day in the future does not end the search. The next layout is tried (lines 176-184). `DefenderTimestamp.FirstAgeIsFirst` states this.
- **Negative ages.** They are not clamped to zero. An age between −86400 and 0 is returned as it is (lines 179-182).
- **Version notices.** The current plugin emits each of its two notices only when it has at least one entry (lines 428, 440). With nothing to report, it emits nothing. The legacy plugin always emits its versions line.
- **Sections without data.** No section is produced when no line has at least two fields (lines 223, 228-229).
- **Legacy OK scan message.** It names the parameter key (`FullScanEndTime`) rather than the scan's description (`Full Scan`); see line 204. `LegacyDefender.ScanResult` states the message as written.
- **Legacy timestamps.** The legacy parser has no future-date check. It picks the AM/PM layout whenever the text ends in `AM` or `PM`, case-sensitively (lines 90-93).

## Model

| member | source | states |
|---|---|---|
| Text.StripSpec | plugins/windows_defender/agent_based/windows_defender.py:224-225 | `strip()` returns a factor of its input that neither starts nor ends with whitespace, and everything it cuts away is whitespace |
| Text.TrimStartSpec | plugins/windows_defender/agent_based/windows_defender.py:224 | the leading-whitespace half of `strip()` drops exactly a whitespace prefix |
| Text.TrimEndSpec | plugins/windows_defender/agent_based/windows_defender.py:225 | the trailing-whitespace half of `strip()` drops exactly a whitespace suffix |
| Text.StripIdempotent | plugins/windows_defender/agent_based/windows_defender.py:224-225 | stripping a key or value twice is stripping it once |
| Text.Split | plugins/windows_defender/agent_based/windows_defender.py:17 | a `sep(58)` line is cut into at least one field, none of which contains a colon |
| Text.SplitCount | plugins/windows_defender/agent_based/windows_defender.py:17 | a line has one field more than it has colons |
| Text.JoinSplit | plugins/windows_defender/agent_based/windows_defender.py:225 | `":".join` of the fields of a line gives the line back |
| Text.SplitJoin | plugins/windows_defender/agent_based/windows_defender.py:225 | splitting joined colon-free fields gives the fields back |
| Text.LineRoundTrip | plugins/windows_defender/agent_based/windows_defender.py:222-226 | a line `key:value` with a colon-free key has the key as first field, and rejoining the other fields restores the value, colons and all |
| Calendar.DaysInMonth | plugins/windows_defender/agent_based/windows_defender.py:178 | a month has 28 to 31 days, and 29 exactly for February of a leap year |
| Calendar.NextDay | plugins/windows_defender/agent_based/windows_defender.py:178 | the epoch day count of the next day within a month is one more |
| Calendar.NextMonth | plugins/windows_defender/agent_based/windows_defender.py:178 | the first of a month is one day after the last day of the month before, leap Februaries included |
| Calendar.NextYear | plugins/windows_defender/agent_based/windows_defender.py:178 | January 1 is one day after December 31 |
| Calendar.EpochOrigin | plugins/windows_defender/agent_based/windows_defender.py:178 | 1970-01-01 is day zero of the count |
| Strptime.DigitRun | plugins/windows_defender/agent_based/windows_defender.py:178 | a numeric field takes the maximal run of digits at its position |
| Strptime.Number | plugins/windows_defender/agent_based/windows_defender.py:178 | a numeric field that is read lies in its directive's range and within the text |
| Strptime.Step | plugins/windows_defender/agent_based/windows_defender.py:178 | one directive keeps every captured field in range and consumes no more than the text |
| Strptime.Match | plugins/windows_defender/agent_based/windows_defender.py:178 | a whole-layout match keeps every captured field in range |
| Strptime.StrPTime | plugins/windows_defender/agent_based/windows_defender.py:178 | `time.strptime` only ever returns a valid calendar date and time |
| Strptime.Render | plugins/windows_defender/agent_based/windows_defender.py:139-154 | a number is written as the decimal digits of its field, four for the year and two otherwise, or one when the field is below ten and written without its leading zero; `%p` is AM before noon and PM from noon; a literal is itself |
| Strptime.StrPTimeFormat | plugins/windows_defender/agent_based/windows_defender.py:178 | under a separated, complete layout, reading the text of a date gives the same date, whether its fields are zero-padded or not |
| Strptime.MatchThen | plugins/windows_defender/agent_based/windows_defender.py:178 | matching a date's text followed by more text captures exactly the date's fields and hands the rest of the text to the rest of the layout |
| Strptime.NumberRender | plugins/windows_defender/agent_based/windows_defender.py:178 | a numeric directive reading another directive's number gets that number exactly when it lies in the reading directive's range, and fails otherwise |
| Strptime.FormatAppend | plugins/windows_defender/agent_based/windows_defender.py:178 | the text of two layouts one after the other is the two texts one after the other |
| Strptime.DayDottedWellFormed | plugins/windows_defender/agent_based/windows_defender.py:145 | `%d.%m.%Y %H:%M:%S` is separated and names every field once |
| Strptime.UsAmPmWellFormed | plugins/windows_defender/agent_based/windows_defender.py:141 | `%m/%d/%Y %I:%M:%S %p` is separated and names every field once |
| Strptime.Us24WellFormed | plugins/windows_defender/agent_based/windows_defender.py:142 | `%m/%d/%Y %H:%M:%S` is separated and names every field once |
| Strptime.DaySlashedWellFormed | plugins/windows_defender/agent_based/windows_defender.py:147 | `%d/%m/%Y %H:%M:%S` is separated and names every field once |
| Strptime.DaySlashedAmPmWellFormed | plugins/windows_defender/agent_based/windows_defender.py:148 | `%d/%m/%Y %I:%M:%S %p` is separated and names every field once |
| Strptime.IsoSpaceWellFormed | plugins/windows_defender/agent_based/windows_defender.py:151 | `%Y-%m-%d %H:%M:%S` is separated and names every field once |
| Strptime.IsoTWellFormed | plugins/windows_defender/agent_based/windows_defender.py:152 | `%Y-%m-%dT%H:%M:%S` is separated and names every field once |
| Strptime.LayoutsRoundTrip | plugins/windows_defender/agent_based/windows_defender.py:139-154 | each of the seven layouts reads back the text it renders for any date of years 1 to 9999, zero-padded or with any two-digit fields unpadded, like the month, day and hour of `2/5/2021 1:02:03 PM` |
| Findings.UpperState | plugins/windows_defender/agent_based/windows_defender.py:308-314 | upper levels are inclusive: CRIT exactly from `crit` on, WARN exactly from `warn` below `crit`, OK exactly below both |
| Findings.CheckLevels | plugins/windows_defender/agent_based/windows_defender.py:308-314 | `check_levels` yields one result and then the metric with the value; with fixed levels the state is the upper-levels state and the bounds are the levels, and without levels it is OK with no bounds; the summary shows the levels exactly when the state is not OK |
| Findings.Worst | plugins/windows_defender/agent_based/windows_defender.py:444-461 | the service state is at least as bad as every result and is the state of one of them, or OK for none |
| Findings.WorstIgnoresOk | plugins/windows_defender/agent_based/windows_defender.py:428-441 | findings that are all OK never change the service state |
| DefenderSection.ParseBool | plugins/windows_defender/agent_based/windows_defender.py:189-195 | `True` gives true and `False` false, in both directions; every other text is unknown |
| DefenderSection.ParseSection | plugins/windows_defender/agent_based/windows_defender.py:215-260 | the parse loop builds the map `RawOf` describes and the record `SectionOf` describes |
| DefenderSection.RawOfKeys | plugins/windows_defender/agent_based/windows_defender.py:222-226 | a key is in the map exactly when some line of two or more fields carries it |
| DefenderSection.RawOfLastWins | plugins/windows_defender/agent_based/windows_defender.py:222-226 | a repeated key keeps the value of its last line |
| DefenderSection.SectionOfNone | plugins/windows_defender/agent_based/windows_defender.py:217-229 | no section exactly when no line has two fields, the empty table included |
| DefenderSection.AgentLine | plugins/windows_defender/agent_based/windows_defender.py:222-226 | an agent line `key:value` contributes the stripped key and the whole stripped value, colons included |
| DefenderSection.FlagSpec | plugins/windows_defender/agent_based/windows_defender.py:248-259 | a missing flag is unknown and never false; a present one is known exactly when it reads `True` or `False` |
| DefenderTimestamp.LayoutsFor | plugins/windows_defender/agent_based/windows_defender.py:139-173 | `us` gives the AM/PM then the 24-hour layout, `iso` the space then the `T` layout, and every other format the four `eu` layouts in source order |
| DefenderTimestamp.FirstAge | plugins/windows_defender/agent_based/windows_defender.py:176-186 | an age comes back only when it passes the one-day future check |
| DefenderTimestamp.ParseTimestamp | plugins/windows_defender/agent_based/windows_defender.py:157-186 | the loop over the layouts returns `TimestampAge`: none for an empty text, otherwise the first accepted layout's age for the stripped text |
| DefenderTimestamp.FirstAgeIsFirst | plugins/windows_defender/agent_based/windows_defender.py:176-182 | the age is that of the first layout that reads the text with an age of at least −86400; earlier layouts that fail or read a too-future date do not stop the search |
| DefenderTimestamp.FirstAgeNone | plugins/windows_defender/agent_based/windows_defender.py:176-186 | there is no age exactly when no layout gives an accepted age |
| DefenderTimestamp.TimestampAgeDefaults | plugins/windows_defender/agent_based/windows_defender.py:167-173 | an empty timestamp has no age, and any format other than `us` and `iso` is read as `eu` |
| DefenderTimestamp.AgeUnderFormat | plugins/windows_defender/agent_based/windows_defender.py:178-179 | the text of a date, padded or not, gives `now` minus its epoch seconds |
| DefenderTimestamp.DottedIsStripped | plugins/windows_defender/agent_based/windows_defender.py:170 | the canonical dotted text is unchanged by `strip()` |
| DefenderTimestamp.SlashedRejectsDotted | plugins/windows_defender/agent_based/windows_defender.py:144-149 | none of the slashed `eu` layouts reads a dotted text |
| DefenderTimestamp.EuDottedAge | plugins/windows_defender/agent_based/windows_defender.py:144-186 | under `eu`, the dotted text of a date gives its age when that is at least −86400, and no age otherwise |
| DefenderTimestamp.Us24RejectsAmPm | plugins/windows_defender/agent_based/windows_defender.py:141-142 | the US 24-hour layout never reads a US AM/PM text |
| DefenderTimestamp.UsAmPmRejects24 | plugins/windows_defender/agent_based/windows_defender.py:141-142 | the US AM/PM layout never reads a US 24-hour text |
| DefenderTimestamp.IsoRejectsOther | plugins/windows_defender/agent_based/windows_defender.py:151-152 | neither ISO layout reads the other's text |
| DefenderTimestamp.PairAge | plugins/windows_defender/agent_based/windows_defender.py:173-186 | with two layouts of which exactly one reads the text, the age is that layout's when at least −86400, and none otherwise |
| DefenderTimestamp.UsAmPmAge | plugins/windows_defender/agent_based/windows_defender.py:139-186 | under `us`, the AM/PM text of a date, padded or not, gives its age when that is at least −86400, and no age otherwise |
| DefenderTimestamp.Us24Age | plugins/windows_defender/agent_based/windows_defender.py:139-186 | under `us`, the 24-hour text of a date, padded or not, gives its age when that is at least −86400, and no age otherwise |
| DefenderTimestamp.IsoSpaceAge | plugins/windows_defender/agent_based/windows_defender.py:150-186 | under `iso`, the text of a date with a space gives its age when that is at least −86400, and no age otherwise |
| DefenderTimestamp.IsoTAge | plugins/windows_defender/agent_based/windows_defender.py:150-186 | under `iso`, the text of a date with a `T` gives its age when that is at least −86400, and no age otherwise |
| DefenderCheck.ExtractLevels | plugins/windows_defender/agent_based/windows_defender.py:198-212 | the pair comes back exactly for fixed levels, and it is their `(warn, crit)` |
| DefenderCheck.SignatureCheck | plugins/windows_defender/agent_based/windows_defender.py:296-314 | no age gives exactly one UNKNOWN; an age gives the `check_levels` state (`Findings.UpperState` against fixed levels, OK without), a "… age" summary showing the levels exactly when not OK, then the metric with the age and the configured bounds |
| DefenderCheck.CheckSignatureAges | plugins/windows_defender/agent_based/windows_defender.py:268-314 | the loop yields the signatures' findings in their order |
| DefenderCheck.ScanCheck | plugins/windows_defender/agent_based/windows_defender.py:378-410 | an unconfigured scan yields nothing; a scan without an age yields CRIT "never executed", showing the configured levels or else 7 and 14 days, and a zero metric without bounds; otherwise the `check_levels` state of the age, a "Last …" summary showing the levels exactly when not OK, and the age metric |
| DefenderCheck.CheckScanAges | plugins/windows_defender/agent_based/windows_defender.py:366-410 | the loop yields the scans' findings in their order, skipping unconfigured ones |
| DefenderCheck.ServiceIssue | plugins/windows_defender/agent_based/windows_defender.py:335-357 | a service raises an issue exactly when it is not as expected; UNKNOWN exactly for an unknown state, WARN exactly for a known one |
| DefenderCheck.CheckServiceStates | plugins/windows_defender/agent_based/windows_defender.py:317-363 | the loop with its issue counter and OK list yields the issues, then the aggregate OK only when there is none |
| DefenderCheck.IssuesAndOks | plugins/windows_defender/agent_based/windows_defender.py:332-357 | each service is counted either as an issue or as OK, never both, never neither |
| DefenderCheck.NoIssues | plugins/windows_defender/agent_based/windows_defender.py:332-359 | there is no issue exactly when every service is as expected |
| DefenderCheck.IssueStates | plugins/windows_defender/agent_based/windows_defender.py:339-355 | every issue is a WARN or UNKNOWN result |
| DefenderCheck.ServicesAllOk | plugins/windows_defender/agent_based/windows_defender.py:359-363 | the services yield the single "All 7 services" OK exactly when all seven are as expected; otherwise only issues, at least one |
| DefenderCheck.SingleIssue | plugins/windows_defender/agent_based/windows_defender.py:335-358 | when exactly one service is off, its issue is the only issue |
| DefenderCheck.OneMismatch | plugins/windows_defender/agent_based/windows_defender.py:347-355 | one known service in the wrong state yields exactly one WARN naming it with its actual and expected state, and no aggregate OK |
| DefenderCheck.TextEntry | plugins/windows_defender/agent_based/windows_defender.py:417-418 | a version is listed exactly when it is set and non-empty |
| DefenderCheck.FlagEntry | plugins/windows_defender/agent_based/windows_defender.py:435-438 | a flag is listed as Yes or No exactly when it is known |
| DefenderCheck.VersionEntries | plugins/windows_defender/agent_based/windows_defender.py:416-426 | at most five version entries, none with an empty value |
| DefenderCheck.DetailEntries | plugins/windows_defender/agent_based/windows_defender.py:432-438 | one entry per truthy running mode and known flag, the running mode first and the virtual-machine flag last, every value non-empty |
| DefenderCheck.VersionEntriesLabels | plugins/windows_defender/agent_based/windows_defender.py:416-426 | each version label appears exactly when its field is truthy, the engine first and the antispyware signature last |
| DefenderCheck.DetailEntriesLabels | plugins/windows_defender/agent_based/windows_defender.py:432-438 | each detail label appears exactly when its field is truthy or its flag known, the virtual-machine flag last |
| DefenderCheck.VersionFindings | plugins/windows_defender/agent_based/windows_defender.py:428-441 | only OK notices, at most two, and none exactly when both entry lists are empty |
| DefenderCheck.AppendText | plugins/windows_defender/agent_based/windows_defender.py:417-418 | the conditional append adds the text entry and nothing else |
| DefenderCheck.AppendFlag | plugins/windows_defender/agent_based/windows_defender.py:435-436 | the conditional append adds the flag entry and nothing else |
| DefenderCheck.VersionInfo | plugins/windows_defender/agent_based/windows_defender.py:413-441 | the appends and the two conditional notices yield `VersionFindings` |
| DefenderCheck.CheckWindowsDefender | plugins/windows_defender/agent_based/windows_defender.py:444-461 | signatures, then services, then scans, then notices, in that order |
| DefenderCheck.DefaultsCheckable | plugins/windows_defender/agent_based/windows_defender.py:120-135 | the default parameters never make `check_levels` fail, whatever the section |
| DefenderCheck.StateIgnoresVersions | plugins/windows_defender/agent_based/windows_defender.py:460-461 | the version notices never change the service state |
| DefenderCheck.AntivirusExample | plugins/windows_defender/agent_based/windows_defender.py:296-314 | `25.02.2021 22:37:08` read three days later under the defaults is a WARN of 259200 seconds against (2 d, 7 d) with the matching metric |
| LegacyDefender.Converted | agent_based/windows_defender.py:85-97 | converting timestamp entries keeps exactly the same keys |
| LegacyDefender.ParseLegacy | agent_based/windows_defender.py:79-99 | the dictionary build and the in-place conversion of the five timestamp keys give `LegacyParsed` |
| LegacyDefender.LegacyRawKeys | agent_based/windows_defender.py:83 | a key is in the dictionary exactly when some line's stripped first field is that key |
| LegacyDefender.LegacyLine | agent_based/windows_defender.py:83 | a `key:value` line contributes the whole stripped value; a one-field line contributes the empty text |
| LegacyDefender.LegacyAgeAmPm | agent_based/windows_defender.py:90-91 | the canonical AM/PM text of a date gives its age, however far in the future |
| LegacyDefender.LegacyAgeDotted | agent_based/windows_defender.py:92-93 | the canonical dotted text of a date gives its age, however far in the future |
| LegacyDefender.LegacyAgeEmpty | agent_based/windows_defender.py:89-96 | an empty timestamp text has no age |
| LegacyDefender.SignatureResult | agent_based/windows_defender.py:124-148 | no age gives UNKNOWN; an age gives the inclusive upper-levels state, with the levels shown exactly when not OK |
| LegacyDefender.ScanResult | agent_based/windows_defender.py:188-204 | unconfigured scans yield nothing; no age gives CRIT "never executed"; an age gives the upper-levels state, with the OK message naming the parameter key |
| LegacyDefender.CheckSignatures | agent_based/windows_defender.py:118-148 | the loop yields the signature results in order |
| LegacyDefender.CheckServices | agent_based/windows_defender.py:154-177 | the loop with its mismatch counter yields the warnings, then the OK notice only when there is none |
| LegacyDefender.CheckScans | agent_based/windows_defender.py:183-204 | the loop yields the scan results in order |
| LegacyDefender.CheckLegacy | agent_based/windows_defender.py:112-217 | signatures, services, scans, then the versions line |
| LegacyDefender.NoWarnings | agent_based/windows_defender.py:169-175 | no service warning exactly when every service word equals the expected word; every warning is a WARN |
| LegacyDefender.LegacyServicesAllOk | agent_based/windows_defender.py:176-177 | the "started correctly" notice appears exactly when every service word equals the expected word |
| LegacyDefender.VersionLast | agent_based/windows_defender.py:210-217 | the versions line is always the last finding, is OK, and never changes the service state |
| LegacyDefender.SameSignatureState | agent_based/windows_defender.py:138-148 | for the same age and levels, a legacy signature gets the state the current plugin's `check_levels` gives |

## Left out

- Registration, discovery, the rule set form, the graphing definitions and the agent plugin itself are out of scope: they are host integration, not check logic.
- `time.time()` is a parameter `now`.
- `time.mktime` interprets a date in the host's local time zone; the model counts UTC seconds since the epoch. Daylight-saving shifts and zone offsets are not modelled.
- Ages are whole seconds; the source computes them as floats.
- `render.timespan` and the exact summary wording are not modelled; messages are datatypes carrying their data (title, value, shown levels).
- Whitespace, digits and letter case are ASCII only. Unicode whitespace in `strip()`, Unicode digits in `strptime` and locale-specific AM/PM words are left out.
- `strptime` is modelled for the seven layouts the plugins use. A numeric field reads the maximal digit run, which agrees with CPython's regular expressions because no numeric directive in these layouts is followed by another.
- Findings.CheckLevels: levels of a shape other than `("fixed", …)` or `("no_levels", None)` make the monitoring library raise; the model requires well-formed levels wherever `check_levels` is reached (`DefenderCheck.Checkable`).
- DefenderCheck.CheckWindowsDefender: requires the levels to be well formed for every timestamp that has an age, because of the `check_levels` requirement above.
- LegacyDefender.ParseLegacy: an empty line, or a missing timestamp key, raises `IndexError` or `KeyError` in the source; the model requires every line to have a first field and the five keys to be present.
- LegacyDefender.CheckLegacy: a missing parameter, a missing service or version key, or a service word other than `True`/`False` that differs from the expected word raises `KeyError` in the source; the model requires them (`LegacyCheckable`).
