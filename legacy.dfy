/**
 * The legacy plugin (agent_based/windows_defender.py): the section is a
 * plain dictionary whose five timestamp entries are replaced in place by
 * their ages, and the check compares ages with `(warn, crit)` pairs and
 * service words with the expected words.
 */
module LegacyDefender {
  import opened Wrappers
  import opened Text
  import opened Calendar
  import opened Strptime
  import opened Findings
  import opened DefenderTimestamp

  /** A value of the parsed dictionary: the stripped text of a line, or, for
      the five timestamp keys, the age in seconds (`None` when the text does
      not parse). */
  datatype LegacyValue = Str(text: string) | Age(age: Option<int>)

  type LegacySection = map<string, LegacyValue>

  const TimestampKeys: seq<string> := [
    "AntispywareSignatureLastUpdated", "AntivirusSignatureLastUpdated", "NISSignatureLastUpdated",
    "QuickScanEndTime", "FullScanEndTime"]

  // ---------------------------------------------------------------------
  // Parsing.

  /** The dictionary built from the lines: the stripped first field maps to
      the remaining fields rejoined with `:` and stripped (empty for a line
      of one field); a later key overwrites an earlier one. */
  function LegacyRaw(table: seq<seq<string>>): map<string, string>
    requires forall i :: 0 <= i < |table| ==> |table[i]| >= 1
    decreases |table|
  {
    if table == [] then map[]
    else
      var line := table[|table| - 1];
      LegacyRaw(table[..|table| - 1])[Strip(line[0]) := Strip(Join(line[1..], ':'))]
  }

  /** The age of a timestamp text: a text ending in `AM` or `PM` is read as
      `%m/%d/%Y %I:%M:%S %p`, any other as `%d.%m.%Y %H:%M:%S`; there is no
      check against the future. */
  function LegacyAge(text: string, now: int): Option<int> {
    if EndsWith(text, "AM") || EndsWith(text, "PM") then AgeUnder(text, now, UsAmPm)
    else AgeUnder(text, now, DayDotted)
  }

  /** The dictionary once the given keys have been converted to ages. */
  function Converted(raw: map<string, string>, now: int, keys: seq<string>): (r: LegacySection)
    ensures r.Keys == raw.Keys
  {
    map k | k in raw :: if k in keys then Age(LegacyAge(raw[k], now)) else Str(raw[k])
  }

  /** What `parse_windows_defender` returns. */
  function LegacyParsed(table: seq<seq<string>>, now: int): LegacySection
    requires forall i :: 0 <= i < |table| ==> |table[i]| >= 1
  {
    Converted(LegacyRaw(table), now, TimestampKeys)
  }

  /** `parse_windows_defender`, with the clock reading as a parameter. An
      empty line (no first field) and a missing timestamp key raise in the
      source; both are excluded here. */
  method ParseLegacy(table: seq<seq<string>>, now: int) returns (parsed: LegacySection)
    requires forall i :: 0 <= i < |table| ==> |table[i]| >= 1
    requires forall j :: 0 <= j < |TimestampKeys| ==> TimestampKeys[j] in LegacyRaw(table)
    ensures parsed == LegacyParsed(table, now)
  {
    parsed := map[];
    for i := 0 to |table|
      invariant parsed == Converted(LegacyRaw(table[..i]), now, [])
    {
      var line := table[i];
      RawStep(table, i, now);
      parsed := parsed[Strip(line[0]) := Str(Strip(Join(line[1..], ':')))];
    }
    assert table[..|table|] == table;
    var raw := LegacyRaw(table);
    for j := 0 to |TimestampKeys|
      invariant parsed == Converted(raw, now, TimestampKeys[..j])
    {
      var key := TimestampKeys[j];
      ConvertStep(raw, now, j);
      var text := parsed[key].text;
      var age: Option<int>;
      if EndsWith(text, "AM") || EndsWith(text, "PM") {
        age := AgeUnder(text, now, UsAmPm);
      } else {
        age := AgeUnder(text, now, DayDotted);
      }
      parsed := parsed[key := Age(age)];
    }
    assert TimestampKeys[..|TimestampKeys|] == TimestampKeys;
  }

  lemma RawStep(table: seq<seq<string>>, i: nat, now: int)
    requires forall k :: 0 <= k < |table| ==> |table[k]| >= 1
    requires i < |table|
    ensures var line := table[i];
      Converted(LegacyRaw(table[..i + 1]), now, []) ==
        Converted(LegacyRaw(table[..i]), now, [])[Strip(line[0]) := Str(Strip(Join(line[1..], ':')))]
  {
    assert table[..i + 1][..i] == table[..i];
  }

  lemma ConvertStep(raw: map<string, string>, now: int, j: nat)
    requires j < |TimestampKeys| && TimestampKeys[j] in raw
    ensures var key := TimestampKeys[j];
      && key in Converted(raw, now, TimestampKeys[..j])
      && Converted(raw, now, TimestampKeys[..j])[key] == Str(raw[key])
      && Converted(raw, now, TimestampKeys[..j + 1]) ==
           Converted(raw, now, TimestampKeys[..j])[key := Age(LegacyAge(raw[key], now))]
  {
    var key := TimestampKeys[j];
    assert TimestampKeys[..j + 1] == TimestampKeys[..j] + [key];
    assert key !in TimestampKeys[..j];
  }

  /** A key is in the dictionary exactly when some line's stripped first
      field is that key. */
  lemma {:induction false} LegacyRawKeys(table: seq<seq<string>>, key: string)
    requires forall i :: 0 <= i < |table| ==> |table[i]| >= 1
    ensures key in LegacyRaw(table) <==> exists i :: 0 <= i < |table| && Strip(table[i][0]) == key
    decreases |table|
  {
    if table != [] {
      var front := table[..|table| - 1];
      LegacyRawKeys(front, key);
      assert forall i :: 0 <= i < |front| ==> front[i] == table[i];
    }
  }

  /** A line the agent wrote as `key:value` contributes the whole stripped
      value, colons included; a line of one field contributes the empty
      text. */
  lemma LegacyLine(table: seq<seq<string>>, key: string, value: string)
    requires forall i :: 0 <= i < |table| ==> |table[i]| >= 1
    requires ':' !in key
    ensures var t := table + [Split(key + [':'] + value, ':')];
      forall i :: 0 <= i < |t| ==> |t[i]| >= 1
    ensures var raw := LegacyRaw(table + [Split(key + [':'] + value, ':')]);
      Strip(key) in raw && raw[Strip(key)] == Strip(value)
    ensures forall i :: 0 <= i < |table + [[key]]| ==> |(table + [[key]])[i]| >= 1
    ensures var raw := LegacyRaw(table + [[key]]);
      Strip(key) in raw && raw[Strip(key)] == ""
  {
    LineRoundTrip(key, ':', value);
    var t := table + [Split(key + [':'] + value, ':')];
    assert t[..|t| - 1] == table;
    var u := table + [[key]];
    assert u[..|u| - 1] == table;
    assert Join([], ':') == "";
    assert Strip("") == "";
  }

  /** The canonical `%m/%d/%Y %I:%M:%S %p` text ends in `AM` or `PM`. */
  lemma AmPmSuffix(t: DateTime)
    requires Formattable(t)
    ensures EndsWith(Format(t, UsAmPm), "AM") || EndsWith(Format(t, UsAmPm), "PM")
  {
    var s := Format(t, UsAmPm);
    assert UsAmPm == UsAmPm[..12] + [AmPm];
    FormatAppend(t, UsAmPm[..12], [AmPm]);
    var tail := Render(AmPm, t);
    assert Format(t, [AmPm]) == tail;
    assert s[|s| - 2..] == tail;
  }

  /** The canonical `%d.%m.%Y %H:%M:%S` text ends in a digit, so in neither
      `AM` nor `PM`. */
  lemma DottedSuffix(t: DateTime)
    requires Formattable(t)
    ensures !EndsWith(Format(t, DayDotted), "AM") && !EndsWith(Format(t, DayDotted), "PM")
  {
    FormatLast(t, DayDotted);
    assert DayDotted[10] == Second;
  }

  /** The canonical `%m/%d/%Y %I:%M:%S %p` text of a date gives its age,
      however far in the future it lies. */
  lemma LegacyAgeAmPm(t: DateTime, now: int)
    requires Formattable(t)
    ensures LegacyAge(Format(t, UsAmPm), now) == Some(now - EpochSeconds(t))
  {
    var s := Format(t, UsAmPm);
    assert AgeUnder(s, now, UsAmPm) == Some(now - EpochSeconds(t)) by {
      UsAmPmWellFormed();
      AgeUnderFormat(t, now, UsAmPm);
    }
    assert EndsWith(s, "AM") || EndsWith(s, "PM") by {
      AmPmSuffix(t);
    }
  }

  /** The canonical `%d.%m.%Y %H:%M:%S` text of a date gives its age,
      however far in the future it lies. */
  lemma LegacyAgeDotted(t: DateTime, now: int)
    requires Formattable(t)
    ensures LegacyAge(Format(t, DayDotted), now) == Some(now - EpochSeconds(t))
  {
    var s := Format(t, DayDotted);
    assert AgeUnder(s, now, DayDotted) == Some(now - EpochSeconds(t)) by {
      DayDottedWellFormed();
      AgeUnderFormat(t, now, DayDotted);
    }
    assert !EndsWith(s, "AM") && !EndsWith(s, "PM") by {
      DottedSuffix(t);
    }
  }

  /** An empty timestamp text has no age. */
  lemma LegacyAgeEmpty(now: int)
    ensures LegacyAge("", now) == None
  {
    assert !EndsWith("", "AM") && !EndsWith("", "PM");
    assert Step("", DayDotted[0], Defaults) == None;
  }

  // ---------------------------------------------------------------------
  // The check.

  /** The check parameters: `(warn, crit)` per timestamp key, and the
      expected word (`True`/`False`) per service key. */
  datatype LegacyParams = LegacyParams(levels: map<string, (int, int)>, expected: map<string, string>)

  /** `windows_defender_default_levels`. */
  const LegacyDefaults: LegacyParams := LegacyParams(
    map[
      "AntispywareSignatureLastUpdated" := (3 * 86400, 7 * 86400),
      "AntivirusSignatureLastUpdated" := (2 * 86400, 7 * 86400),
      "NISSignatureLastUpdated" := (5 * 86400, 7 * 86400)],
    map[
      "AMServiceEnabled" := "True",
      "BehaviorMonitorEnabled" := "True",
      "AntispywareEnabled" := "True",
      "AntivirusEnabled" := "True",
      "NISEnabled" := "True",
      "RealTimeProtectionEnabled" := "True",
      "OnAccessProtectionEnabled" := "True"])

  const SignatureNames: seq<(string, string)> := [
    ("AntispywareSignatureLastUpdated", "AntiSpyware signature"),
    ("AntivirusSignatureLastUpdated", "AntiVirus signature"),
    ("NISSignatureLastUpdated", "NIS signature")]

  const ServiceNames: seq<(string, string)> := [
    ("AMServiceEnabled", "AM Service"),
    ("BehaviorMonitorEnabled", "Behavior Monitor"),
    ("AntispywareEnabled", "Antispyware"),
    ("AntivirusEnabled", "Antivirus"),
    ("NISEnabled", "NIS"),
    ("RealTimeProtectionEnabled", "RealTimeProtection"),
    ("OnAccessProtectionEnabled", "OnAccessProtection")]

  const ScanNames: seq<(string, string)> := [
    ("FullScanEndTime", "Full Scan"),
    ("QuickScanEndTime", "Quick Scan")]

  /** A signature can be checked: its levels are configured, and its entry,
      if any, is an age. */
  predicate SignatureReady(params: LegacyParams, section: LegacySection, key: string) {
    key in params.levels && (key in section ==> section[key].Age?)
  }

  /** A service can be checked: both words are there, and a word that
      differs from the expected one is `True` or `False`. */
  predicate ServiceReady(params: LegacyParams, section: LegacySection, key: string) {
    key in section && section[key].Str? && key in params.expected
    && (section[key].text != params.expected[key] ==> section[key].text in {"True", "False"})
  }

  /** A scan can be checked: when its levels are configured, its entry is
      an age. */
  predicate ScanReady(params: LegacyParams, section: LegacySection, key: string) {
    key in params.levels ==> key in section && section[key].Age?
  }

  /** The version entries are texts. */
  predicate VersionsReady(section: LegacySection) {
    && HasStr(section, "AMEngineVersion") && HasStr(section, "AMProductVersion")
    && HasStr(section, "NISSignatureVersion") && HasStr(section, "AntivirusSignatureVersion")
    && HasStr(section, "AntispywareSignatureVersion")
  }

  predicate HasStr(section: LegacySection, key: string) {
    key in section && section[key].Str?
  }

  /** Nothing the check looks up is missing or of the wrong kind. */
  predicate LegacyCheckable(params: LegacyParams, section: LegacySection) {
    (forall i :: 0 <= i < |SignatureNames| ==> SignatureReady(params, section, SignatureNames[i].0))
    && (forall i :: 0 <= i < |ServiceNames| ==> ServiceReady(params, section, ServiceNames[i].0))
    && (forall i :: 0 <= i < |ScanNames| ==> ScanReady(params, section, ScanNames[i].0))
    && VersionsReady(section)
  }

  /** `section.get(key, None)` for an age entry. */
  function AgeAt(section: LegacySection, key: string): Option<int>
    requires key in section ==> section[key].Age?
  {
    if key in section then section[key].age else None
  }

  /** The result of one signature: UNKNOWN without an age, otherwise the
      state of the age against the inclusive levels, with the levels shown
      only when reached. */
  function SignatureResult(params: LegacyParams, section: LegacySection, key: string, title: string): (r: Finding)
    requires SignatureReady(params, section, key)
    ensures r.Result?
    ensures AgeAt(section, key).None? ==> r == Result(Unknown, LastAgeUnknown(title))
    ensures AgeAt(section, key).Some? ==>
      && r.state == UpperState(AgeAt(section, key).value, params.levels[key].0, params.levels[key].1)
      && r.msg == AgeAgainst(title, AgeAt(section, key).value,
                             if r.state == Ok then None else Some(params.levels[key]))
  {
    var (warn, crit) := params.levels[key];
    match AgeAt(section, key)
    case None => Result(Unknown, LastAgeUnknown(title))
    case Some(age) =>
      if age >= crit then Result(Crit, AgeAgainst(title, age, Some((warn, crit))))
      else if age >= warn then Result(Warn, AgeAgainst(title, age, Some((warn, crit))))
      else Result(Ok, AgeAgainst(title, age, None))
  }

  function SignatureResults(params: LegacyParams, section: LegacySection, names: seq<(string, string)>): seq<Finding>
    requires forall i :: 0 <= i < |names| ==> SignatureReady(params, section, names[i].0)
    decreases |names|
  {
    if names == [] then []
    else
      var last := names[|names| - 1];
      SignatureResults(params, section, names[..|names| - 1]) + [SignatureResult(params, section, last.0, last.1)]
  }

  /** The WARN a service raises when its word differs from the expected
      one, naming the state its word stands for. */
  function ServiceWarning(params: LegacyParams, section: LegacySection, key: string, title: string): Option<Finding>
    requires ServiceReady(params, section, key)
  {
    var word := section[key].text;
    if word != params.expected[key] then
      Some(Result(Warn, ServiceIs(title, if word == "True" then "enabled" else "disabled")))
    else None
  }

  function ServiceWarnings(params: LegacyParams, section: LegacySection, names: seq<(string, string)>): seq<Finding>
    requires forall i :: 0 <= i < |names| ==> ServiceReady(params, section, names[i].0)
    decreases |names|
  {
    if names == [] then []
    else
      var last := names[|names| - 1];
      ServiceWarnings(params, section, names[..|names| - 1])
      + (match ServiceWarning(params, section, last.0, last.1) case None => [] case Some(f) => [f])
  }

  /** The service part: the warnings, then the OK notice when there is
      none. */
  function ServiceResults(params: LegacyParams, section: LegacySection): seq<Finding>
    requires forall i :: 0 <= i < |ServiceNames| ==> ServiceReady(params, section, ServiceNames[i].0)
  {
    var warnings := ServiceWarnings(params, section, ServiceNames);
    warnings + (if |warnings| == 0 then [Result(Ok, AllServicesStarted)] else [])
  }

  /** The results of one scan: nothing when it is not configured, CRIT when
      it never ran, otherwise the state of its age. The OK message names
      the parameter key rather than the scan's description, as the source
      does. */
  function ScanResult(params: LegacyParams, section: LegacySection, key: string, title: string): (r: seq<Finding>)
    requires ScanReady(params, section, key)
    ensures key !in params.levels ==> r == []
    ensures key in params.levels ==> |r| == 1 && r[0].Result?
    ensures key in params.levels && section[key].age.None? ==>
      r == [Result(Crit, NeverExecuted(title, params.levels[key].0, params.levels[key].1))]
    ensures key in params.levels && section[key].age.Some? ==>
      && r[0].state == UpperState(section[key].age.value, params.levels[key].0, params.levels[key].1)
      && r[0].msg == if r[0].state == Ok then LastScan(key, section[key].age.value, None)
                     else LastScan(title, section[key].age.value, Some(params.levels[key]))
  {
    if key !in params.levels then []
    else
      var (warn, crit) := params.levels[key];
      match section[key].age
      case None => [Result(Crit, NeverExecuted(title, warn, crit))]
      case Some(age) =>
        if age >= crit then [Result(Crit, LastScan(title, age, Some((warn, crit))))]
        else if age >= warn then [Result(Warn, LastScan(title, age, Some((warn, crit))))]
        else [Result(Ok, LastScan(key, age, None))]
  }

  function ScanResults(params: LegacyParams, section: LegacySection, names: seq<(string, string)>): seq<Finding>
    requires forall i :: 0 <= i < |names| ==> ScanReady(params, section, names[i].0)
    decreases |names|
  {
    if names == [] then []
    else
      var last := names[|names| - 1];
      ScanResults(params, section, names[..|names| - 1]) + ScanResult(params, section, last.0, last.1)
  }

  /** The versions notice. */
  function VersionResult(section: LegacySection): Finding
    requires VersionsReady(section)
  {
    Result(Ok, VersionLine(
      section["AMEngineVersion"].text, section["AMProductVersion"].text,
      section["NISSignatureVersion"].text, section["AntivirusSignatureVersion"].text,
      section["AntispywareSignatureVersion"].text))
  }

  /** What `check_windows_defender` yields. */
  function LegacyCheckOf(params: LegacyParams, section: LegacySection): seq<Finding>
    requires LegacyCheckable(params, section)
  {
    SignatureResults(params, section, SignatureNames)
    + ServiceResults(params, section)
    + ScanResults(params, section, ScanNames)
    + [VersionResult(section)]
  }

  /** The signature block of `check_windows_defender`. */
  method CheckSignatures(params: LegacyParams, section: LegacySection) returns (out: seq<Finding>)
    requires forall i :: 0 <= i < |SignatureNames| ==> SignatureReady(params, section, SignatureNames[i].0)
    ensures out == SignatureResults(params, section, SignatureNames)
  {
    out := [];
    for i := 0 to |SignatureNames|
      invariant out == SignatureResults(params, section, SignatureNames[..i])
    {
      var (key, title) := SignatureNames[i];
      assert SignatureNames[..i + 1][..i] == SignatureNames[..i];
      var s := Ok;
      var age := if key in section then section[key].age else None;
      var (warn, crit) := params.levels[key];
      if age.None? {
        out := out + [Result(Unknown, LastAgeUnknown(title))];
      } else {
        var shown: Option<(int, int)> := None;
        if age.value >= crit {
          shown := Some((warn, crit));
          s := Crit;
        } else if age.value >= warn {
          shown := Some((warn, crit));
          s := Warn;
        }
        out := out + [Result(s, AgeAgainst(title, age.value, shown))];
      }
    }
    assert SignatureNames[..|SignatureNames|] == SignatureNames;
  }

  /** The service block of `check_windows_defender`. */
  method CheckServices(params: LegacyParams, section: LegacySection) returns (out: seq<Finding>)
    requires forall i :: 0 <= i < |ServiceNames| ==> ServiceReady(params, section, ServiceNames[i].0)
    ensures out == ServiceResults(params, section)
  {
    out := [];
    var mismatches := 0;
    for i := 0 to |ServiceNames|
      invariant out == ServiceWarnings(params, section, ServiceNames[..i])
      invariant mismatches == |out|
    {
      var (key, title) := ServiceNames[i];
      assert ServiceNames[..i + 1][..i] == ServiceNames[..i];
      if section[key].text != params.expected[key] {
        var state := if section[key].text == "True" then "enabled" else "disabled";
        out := out + [Result(Warn, ServiceIs(title, state))];
        mismatches := mismatches + 1;
      }
    }
    assert ServiceNames[..|ServiceNames|] == ServiceNames;
    if mismatches == 0 {
      out := out + [Result(Ok, AllServicesStarted)];
    }
  }

  /** The scan block of `check_windows_defender`. */
  method CheckScans(params: LegacyParams, section: LegacySection) returns (out: seq<Finding>)
    requires forall i :: 0 <= i < |ScanNames| ==> ScanReady(params, section, ScanNames[i].0)
    ensures out == ScanResults(params, section, ScanNames)
  {
    out := [];
    for i := 0 to |ScanNames|
      invariant out == ScanResults(params, section, ScanNames[..i])
    {
      var (key, title) := ScanNames[i];
      assert ScanNames[..i + 1][..i] == ScanNames[..i];
      if key in params.levels {
        var (warn, crit) := params.levels[key];
        var age := section[key].age;
        if age.None? {
          out := out + [Result(Crit, NeverExecuted(title, warn, crit))];
        } else if age.value >= crit {
          out := out + [Result(Crit, LastScan(title, age.value, Some((warn, crit))))];
        } else if age.value >= warn {
          out := out + [Result(Warn, LastScan(title, age.value, Some((warn, crit))))];
        } else {
          out := out + [Result(Ok, LastScan(key, age.value, None))];
        }
      }
    }
    assert ScanNames[..|ScanNames|] == ScanNames;
  }

  /** `check_windows_defender`. */
  method CheckLegacy(params: LegacyParams, section: LegacySection) returns (out: seq<Finding>)
    requires LegacyCheckable(params, section)
    ensures out == LegacyCheckOf(params, section)
  {
    var signatures := CheckSignatures(params, section);
    var services := CheckServices(params, section);
    var scans := CheckScans(params, section);
    out := signatures + services + scans + [VersionResult(section)];
  }

  // ---------------------------------------------------------------------
  // Properties of the check.

  /** There is no service warning exactly when every service word equals
      the expected word, and every warning is a WARN. */
  lemma {:induction false} NoWarnings(params: LegacyParams, section: LegacySection, names: seq<(string, string)>)
    requires forall i :: 0 <= i < |names| ==> ServiceReady(params, section, names[i].0)
    ensures ServiceWarnings(params, section, names) == [] <==>
      forall i :: 0 <= i < |names| ==> section[names[i].0].text == params.expected[names[i].0]
    ensures forall i :: 0 <= i < |ServiceWarnings(params, section, names)| ==>
      ServiceWarnings(params, section, names)[i].Result? && ServiceWarnings(params, section, names)[i].state == Warn
    decreases |names|
  {
    if names != [] {
      var front := names[..|names| - 1];
      assert forall i :: 0 <= i < |front| ==> front[i] == names[i];
      NoWarnings(params, section, front);
    }
  }

  /** The OK services notice appears exactly when every service word equals
      the expected word. */
  lemma LegacyServicesAllOk(params: LegacyParams, section: LegacySection)
    requires LegacyCheckable(params, section)
    ensures Result(Ok, AllServicesStarted) in ServiceResults(params, section) <==>
      forall i :: 0 <= i < |ServiceNames| ==> section[ServiceNames[i].0].text == params.expected[ServiceNames[i].0]
  {
    NoWarnings(params, section, ServiceNames);
  }

  /** The versions notice is always emitted, last and OK, so it never
      changes the state of the service. */
  lemma VersionLast(params: LegacyParams, section: LegacySection)
    requires LegacyCheckable(params, section)
    ensures var out := LegacyCheckOf(params, section);
      |out| >= 1 && out[|out| - 1] == VersionResult(section) && out[|out| - 1].state == Ok
      && Worst(out) == Worst(out[..|out| - 1])
  {
    var out := LegacyCheckOf(params, section);
    var front := out[..|out| - 1];
    assert out == front + [VersionResult(section)];
    WorstIgnoresOk(front, [VersionResult(section)]);
  }

  /** For the same age and levels, a legacy signature result has the state
      the current plugin's levels check gives. */
  lemma SameSignatureState(params: LegacyParams, section: LegacySection, key: string, title: string, metric: string)
    requires SignatureReady(params, section, key) && AgeAt(section, key).Some?
    ensures SignatureResult(params, section, key, title).state ==
      CheckLevels(AgeAt(section, key).value, Some(Fixed(params.levels[key].0, params.levels[key].1)), metric, title)[0].state
  {
  }
}
