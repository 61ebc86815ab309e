/**
 * The check function of the current plugin
 * (plugins/windows_defender/agent_based/windows_defender.py): signature
 * ages, service states, scan ages and version notices, emitted in that
 * order. The clock is a parameter (`now`), and ages are whole seconds.
 */
module DefenderCheck {
  import opened Wrappers
  import opened Calendar
  import opened Strptime
  import opened Findings
  import opened DefenderSection
  import opened DefenderTimestamp

  /** The check parameters: the date format, the upper levels per timestamp
      key, and the expected state (`enabled`/`disabled`) per service key.
      A key that is missing is one that `params.get` does not find. */
  datatype Params = Params(
    dateFormat: Option<string>,
    levels: map<string, Levels>,
    expected: map<string, string>)

  const DaySeconds: int := 86400

  /** `WINDOWS_DEFENDER_DEFAULT_LEVELS`. */
  const DefaultParams: Params := Params(
    Some("eu"),
    map[
      "AntispywareSignatureLastUpdated" := Fixed(3 * DaySeconds, 7 * DaySeconds),
      "AntivirusSignatureLastUpdated" := Fixed(2 * DaySeconds, 7 * DaySeconds),
      "NISSignatureLastUpdated" := Fixed(5 * DaySeconds, 7 * DaySeconds)],
    map[
      "AMServiceEnabled" := "enabled",
      "BehaviorMonitorEnabled" := "enabled",
      "AntispywareEnabled" := "enabled",
      "AntivirusEnabled" := "enabled",
      "NISEnabled" := "enabled",
      "RealTimeProtectionEnabled" := "enabled",
      "OnAccessProtectionEnabled" := "enabled"])

  /** `params.get("date_format", "eu")`. */
  function DateFormat(params: Params): string {
    if params.dateFormat.Some? then params.dateFormat.value else "eu"
  }

  /** `params.get(key)` for a levels key. */
  function LevelsOf(params: Params, key: string): Option<Levels> {
    if key in params.levels then Some(params.levels[key]) else None
  }

  /** `_extract_levels_tuple`: the `(warn, crit)` pair of fixed levels, and
      nothing for no levels, for no parameter or for a value of another
      shape. */
  function ExtractLevels(levels: Option<Levels>): (r: Option<(int, int)>)
    ensures r.Some? <==> levels.Some? && levels.value.Fixed?
    ensures r.Some? ==> r.value == (levels.value.warn, levels.value.crit)
  {
    match levels
    case Some(Fixed(w, c)) => Some((w, c))
    case _ => None
  }

  /** The state `check_levels` gives a value: against the levels when they
      are fixed, OK when there are none. */
  function LevelsState(value: int, levels: Option<Levels>): State {
    match levels
    case Some(Fixed(w, c)) => UpperState(value, w, c)
    case _ => Ok
  }

  // ---------------------------------------------------------------------
  // Timestamp rows: signatures and scans.

  /** One timestamp the check looks at: its parameter key, metric name,
      label, and the raw text from the section. */
  datatype Row = Row(key: string, metric: string, title: string, raw: Option<string>)

  function SignatureRows(section: Section): seq<Row> {
    [Row("AntispywareSignatureLastUpdated", "antispyware_sig_age", "AntiSpyware signature",
         section.antispywareSignatureLastUpdated),
     Row("AntivirusSignatureLastUpdated", "antivirus_sig_age", "AntiVirus signature",
         section.antivirusSignatureLastUpdated),
     Row("NISSignatureLastUpdated", "nis_sig_age", "NIS signature",
         section.nisSignatureLastUpdated)]
  }

  function ScanRows(section: Section): seq<Row> {
    [Row("FullScanEndTime", "full_scan_age", "Full Scan", section.fullScanEndTime),
     Row("QuickScanEndTime", "quick_scan_age", "Quick Scan", section.quickScanEndTime)]
  }

  /** `_parse_timestamp(ts, now, date_format) if ts else None`. */
  function AgeOf(row: Row, params: Params, now: int): Option<int> {
    match row.raw
    case None => None
    case Some(ts) => TimestampAge(ts, now, DateFormat(params))
  }

  /** `check_levels` accepts the row's levels whenever it is called on them:
      whenever the row has an age. */
  predicate Usable(params: Params, row: Row, now: int) {
    AgeOf(row, params, now).Some? ==> WellFormed(LevelsOf(params, row.key))
  }

  predicate AllUsable(params: Params, rows: seq<Row>, now: int) {
    forall i :: 0 <= i < |rows| ==> Usable(params, rows[i], now)
  }

  /** What `_check_signature_ages` yields for one signature. */
  function SignatureCheck(row: Row, params: Params, now: int): (r: seq<Finding>)
    requires Usable(params, row, now)
    ensures var age := AgeOf(row, params, now);
      && (age.None? ==> r == [Result(Unknown, AgeUnknown(row.title))])
      && (age.Some? ==> |r| == 2 && r[0].Result?
                        && r[0].state == LevelsState(age.value, LevelsOf(params, row.key))
                        && r[0].msg == LevelsSummary(row.title + " age", age.value,
                             if r[0].state == Ok then None else ExtractLevels(LevelsOf(params, row.key)))
                        && r[1] == Metric(row.metric, age.value, ExtractLevels(LevelsOf(params, row.key))))
  {
    match AgeOf(row, params, now)
    case None => [Result(Unknown, AgeUnknown(row.title))]
    case Some(age) => CheckLevels(age, LevelsOf(params, row.key), row.metric, row.title + " age")
  }

  /** The findings of the given signatures, in order. */
  function SignatureFindings(rows: seq<Row>, params: Params, now: int): seq<Finding>
    requires AllUsable(params, rows, now)
    decreases |rows|
  {
    if rows == [] then []
    else
      SignatureFindings(rows[..|rows| - 1], params, now)
      + SignatureCheck(rows[|rows| - 1], params, now)
  }

  /** `_check_signature_ages`. */
  method CheckSignatureAges(params: Params, section: Section, now: int) returns (out: seq<Finding>)
    requires AllUsable(params, SignatureRows(section), now)
    ensures out == SignatureFindings(SignatureRows(section), params, now)
  {
    var dateFormat := DateFormat(params);
    var rows := SignatureRows(section);
    out := [];
    for i := 0 to |rows|
      invariant out == SignatureFindings(rows[..i], params, now)
    {
      var row := rows[i];
      assert rows[..i + 1][..i] == rows[..i];
      var age: Option<int> := None;
      if row.raw.Some? && row.raw.value != "" {
        age := ParseTimestamp(row.raw.value, now, dateFormat);
      }
      if age.None? {
        out := out + [Result(Unknown, AgeUnknown(row.title))];
      } else {
        out := out + CheckLevels(age.value, LevelsOf(params, row.key), row.metric, row.title + " age");
      }
    }
    assert rows[..|rows|] == rows;
  }

  /** What `_check_scan_ages` yields for one scan. */
  function ScanCheck(row: Row, params: Params, now: int): (r: seq<Finding>)
    requires Usable(params, row, now)
    ensures LevelsOf(params, row.key).None? ==> r == []
    ensures LevelsOf(params, row.key).Some? && AgeOf(row, params, now).None? ==>
      var shown := ExtractLevels(LevelsOf(params, row.key));
      var thresholds := if shown.Some? then shown.value else (7 * DaySeconds, 14 * DaySeconds);
      r == [Result(Crit, NeverExecuted(row.title, thresholds.0, thresholds.1)), Metric(row.metric, 0, None)]
    ensures LevelsOf(params, row.key).Some? && AgeOf(row, params, now).Some? ==>
      var age := AgeOf(row, params, now).value;
      && |r| == 2 && r[0].Result?
      && r[0].state == LevelsState(age, LevelsOf(params, row.key))
      && r[0].msg == LevelsSummary("Last " + row.title, age,
           if r[0].state == Ok then None else ExtractLevels(LevelsOf(params, row.key)))
      && r[1] == Metric(row.metric, AgeOf(row, params, now).value, ExtractLevels(LevelsOf(params, row.key)))
  {
    var levels := LevelsOf(params, row.key);
    if levels.None? then []
    else
      match AgeOf(row, params, now)
      case None =>
        var (w, c) := match ExtractLevels(levels)
          case Some(pair) => pair
          case None => (7 * DaySeconds, 14 * DaySeconds);
        [Result(Crit, NeverExecuted(row.title, w, c)), Metric(row.metric, 0, None)]
      case Some(age) => CheckLevels(age, levels, row.metric, "Last " + row.title)
  }

  /** The findings of the given scans, in order. */
  function ScanFindings(rows: seq<Row>, params: Params, now: int): seq<Finding>
    requires AllUsable(params, rows, now)
    decreases |rows|
  {
    if rows == [] then []
    else
      ScanFindings(rows[..|rows| - 1], params, now) + ScanCheck(rows[|rows| - 1], params, now)
  }

  /** `_check_scan_ages`. */
  method CheckScanAges(params: Params, section: Section, now: int) returns (out: seq<Finding>)
    requires AllUsable(params, ScanRows(section), now)
    ensures out == ScanFindings(ScanRows(section), params, now)
  {
    var dateFormat := DateFormat(params);
    var rows := ScanRows(section);
    out := [];
    for i := 0 to |rows|
      invariant out == ScanFindings(rows[..i], params, now)
    {
      var row := rows[i];
      assert rows[..i + 1][..i] == rows[..i];
      var levels := LevelsOf(params, row.key);
      if levels.None? {
        continue;
      }
      var age: Option<int> := None;
      if row.raw.Some? && row.raw.value != "" {
        age := ParseTimestamp(row.raw.value, now, dateFormat);
      }
      if age.None? {
        var shown := ExtractLevels(levels);
        var warn, crit := 7 * DaySeconds, 14 * DaySeconds;
        if shown.Some? {
          warn, crit := shown.value.0, shown.value.1;
        }
        out := out + [Result(Crit, NeverExecuted(row.title, warn, crit)), Metric(row.metric, 0, None)];
        continue;
      }
      out := out + CheckLevels(age.value, levels, row.metric, "Last " + row.title);
    }
    assert rows[..|rows|] == rows;
  }

  // ---------------------------------------------------------------------
  // Service states.

  /** One service the check looks at: its parameter key, its description,
      and its state from the section. */
  datatype ServiceRow = ServiceRow(key: string, description: string, current: TriBool)

  function ServiceRows(section: Section): seq<ServiceRow> {
    [ServiceRow("AMServiceEnabled", "AM Service", section.amServiceEnabled),
     ServiceRow("BehaviorMonitorEnabled", "Behavior Monitor", section.behaviorMonitorEnabled),
     ServiceRow("AntispywareEnabled", "Antispyware", section.antispywareEnabled),
     ServiceRow("AntivirusEnabled", "Antivirus", section.antivirusEnabled),
     ServiceRow("NISEnabled", "NIS", section.nisEnabled),
     ServiceRow("RealTimeProtectionEnabled", "RealTimeProtection", section.realtimeProtectionEnabled),
     ServiceRow("OnAccessProtectionEnabled", "OnAccessProtection", section.onaccessProtectionEnabled)]
  }

  /** `params.get(key, "enabled")`. */
  function Expected(params: Params, key: string): string {
    if key in params.expected then params.expected[key] else "enabled"
  }

  function StateWord(enabled: bool): string {
    if enabled then "enabled" else "disabled"
  }

  /** A service is as expected when its state is known and its word is the
      expected one. */
  predicate AsExpected(row: ServiceRow, params: Params) {
    row.current.Known? && StateWord(row.current.value) == Expected(params, row.key)
  }

  /** The issue one service raises, if any: UNKNOWN for an unknown state,
      WARN for a state other than the expected one. */
  function ServiceIssue(row: ServiceRow, params: Params): (r: Option<Finding>)
    ensures r.None? <==> AsExpected(row, params)
    ensures r.Some? ==> r.value.Result?
    ensures r.Some? ==> (r.value.state == Unknown <==> row.current.NotKnown?)
    ensures r.Some? ==> (r.value.state == Warn <==> row.current.Known?)
  {
    match row.current
    case NotKnown => Some(Result(Unknown, ServiceUnknown(row.description)))
    case Known(b) =>
      var word := StateWord(b);
      var expected := Expected(params, row.key);
      if word != expected then Some(Result(Warn, ServiceMismatch(row.description, word, expected)))
      else None
  }

  /** The issues of the given services, in order. */
  function IssuesOf(rows: seq<ServiceRow>, params: Params): seq<Finding>
    decreases |rows|
  {
    if rows == [] then []
    else
      var last := rows[|rows| - 1];
      IssuesOf(rows[..|rows| - 1], params)
      + (match ServiceIssue(last, params) case None => [] case Some(f) => [f])
  }

  /** The descriptions of the services that are as expected, in order. */
  function OkNames(rows: seq<ServiceRow>, params: Params): seq<string>
    decreases |rows|
  {
    if rows == [] then []
    else
      var last := rows[|rows| - 1];
      OkNames(rows[..|rows| - 1], params) + (if AsExpected(last, params) then [last.description] else [])
  }

  /** What `_check_service_states` yields: the issues, then the aggregate OK
      result only when there is none. */
  function ServiceFindings(rows: seq<ServiceRow>, params: Params): seq<Finding> {
    var issues := IssuesOf(rows, params);
    issues + (if |issues| == 0 then [Result(Ok, AllServicesOk(|OkNames(rows, params)|))] else [])
  }

  /** `_check_service_states`. */
  method CheckServiceStates(params: Params, section: Section) returns (out: seq<Finding>)
    ensures out == ServiceFindings(ServiceRows(section), params)
  {
    var rows := ServiceRows(section);
    var issues := 0;
    var okServices: seq<string> := [];
    out := [];
    for i := 0 to |rows|
      invariant out == IssuesOf(rows[..i], params)
      invariant issues == |out|
      invariant okServices == OkNames(rows[..i], params)
    {
      var row := rows[i];
      ServiceStep(rows, params, i);
      var expected := Expected(params, row.key);
      match row.current
      case NotKnown =>
        out := out + [Result(Unknown, ServiceUnknown(row.description))];
        issues := issues + 1;
      case Known(b) =>
        var current := if b then "enabled" else "disabled";
        if current != expected {
          out := out + [Result(Warn, ServiceMismatch(row.description, current, expected))];
          issues := issues + 1;
        } else {
          okServices := okServices + [row.description];
        }
    }
    assert rows[..|rows|] == rows;
    if issues == 0 {
      out := out + [Result(Ok, AllServicesOk(|okServices|))];
    }
  }

  lemma ServiceStep(rows: seq<ServiceRow>, params: Params, i: nat)
    requires i < |rows|
    ensures IssuesOf(rows[..i + 1], params) ==
      IssuesOf(rows[..i], params) + (match ServiceIssue(rows[i], params) case None => [] case Some(f) => [f])
    ensures OkNames(rows[..i + 1], params) ==
      OkNames(rows[..i], params) + (if AsExpected(rows[i], params) then [rows[i].description] else [])
  {
    assert rows[..i + 1][..i] == rows[..i];
  }

  /** Every service is either an issue or as expected, never both. */
  lemma {:induction false} IssuesAndOks(rows: seq<ServiceRow>, params: Params)
    ensures |IssuesOf(rows, params)| + |OkNames(rows, params)| == |rows|
    decreases |rows|
  {
    if rows != [] {
      IssuesAndOks(rows[..|rows| - 1], params);
    }
  }

  /** There is no issue exactly when every service is as expected. */
  lemma {:induction false} NoIssues(rows: seq<ServiceRow>, params: Params)
    ensures IssuesOf(rows, params) == [] <==> forall i :: 0 <= i < |rows| ==> AsExpected(rows[i], params)
    decreases |rows|
  {
    if rows != [] {
      var front := rows[..|rows| - 1];
      NoIssues(front, params);
      assert forall i :: 0 <= i < |front| ==> front[i] == rows[i];
    }
  }

  /** Every issue is a WARN or UNKNOWN result. */
  lemma {:induction false} IssueStates(rows: seq<ServiceRow>, params: Params)
    ensures forall i :: 0 <= i < |IssuesOf(rows, params)| ==>
      IssuesOf(rows, params)[i].Result? && IssuesOf(rows, params)[i].state in {Warn, Unknown}
    decreases |rows|
  {
    if rows != [] {
      IssueStates(rows[..|rows| - 1], params);
    }
  }

  /** The services yield the single aggregate OK result, counting all seven,
      exactly when every service is as expected; otherwise every result is
      an issue, and an unknown state counts as one. */
  lemma ServicesAllOk(section: Section, params: Params)
    ensures var rows := ServiceRows(section);
      ServiceFindings(rows, params) == [Result(Ok, AllServicesOk(7))] <==>
        forall i :: 0 <= i < |rows| ==> AsExpected(rows[i], params)
    ensures var rows := ServiceRows(section);
      (exists i :: 0 <= i < |rows| && !AsExpected(rows[i], params)) ==>
        ServiceFindings(rows, params) == IssuesOf(rows, params) && |IssuesOf(rows, params)| >= 1
  {
    var rows := ServiceRows(section);
    NoIssues(rows, params);
    IssuesAndOks(rows, params);
    if IssuesOf(rows, params) != [] {
      IssueStates(rows, params);
      assert ServiceFindings(rows, params)[0] == IssuesOf(rows, params)[0];
    }
  }

  /** When exactly one service is not as expected, its issue is the only
      issue. */
  lemma {:induction false} SingleIssue(rows: seq<ServiceRow>, params: Params, k: nat)
    requires k < |rows| && !AsExpected(rows[k], params)
    requires forall i :: 0 <= i < |rows| && i != k ==> AsExpected(rows[i], params)
    ensures IssuesOf(rows, params) == [ServiceIssue(rows[k], params).value]
    decreases |rows|
  {
    var front := rows[..|rows| - 1];
    if k == |rows| - 1 {
      assert forall i :: 0 <= i < |front| ==> front[i] == rows[i];
      NoIssues(front, params);
    } else {
      assert front[k] == rows[k];
      forall i | 0 <= i < |front| && i != k ensures AsExpected(front[i], params) {
        assert front[i] == rows[i];
      }
      SingleIssue(front, params, k);
    }
  }

  /** If exactly one service has a known state other than the expected one,
      the services yield exactly one WARN naming that service with both
      states, and no aggregate OK. */
  lemma OneMismatch(section: Section, params: Params, k: nat)
    requires var rows := ServiceRows(section);
      k < |rows| && rows[k].current.Known? && !AsExpected(rows[k], params)
      && forall i :: 0 <= i < |rows| && i != k ==> AsExpected(rows[i], params)
    ensures var rows := ServiceRows(section);
      ServiceFindings(rows, params) ==
        [Result(Warn, ServiceMismatch(rows[k].description, StateWord(rows[k].current.value),
                                      Expected(params, rows[k].key)))]
  {
    SingleIssue(ServiceRows(section), params, k);
  }

  // ---------------------------------------------------------------------
  // Version information.

  /** A Python truth test on an optional string. */
  predicate Truthy(v: Option<string>) {
    v.Some? && v.value != ""
  }

  function YesNo(b: bool): string {
    if b then "Yes" else "No"
  }

  /** Some entry carries the given label. */
  ghost predicate HasLabel(entries: seq<(string, string)>, title: string) {
    exists v :: (title, v) in entries
  }

  /** The entry of an optional text: present when the text is truthy. */
  function TextEntry(title: string, v: Option<string>): (r: seq<(string, string)>)
    ensures Truthy(v) ==> r == [(title, v.value)]
    ensures !Truthy(v) ==> r == []
  {
    if Truthy(v) then [(title, v.value)] else []
  }

  /** The entry of a flag: present when the flag is known, as Yes or No. */
  function FlagEntry(title: string, b: TriBool): (r: seq<(string, string)>)
    ensures b.Known? ==> r == [(title, YesNo(b.value))]
    ensures b.NotKnown? ==> r == []
  {
    match b
    case Known(x) => [(title, YesNo(x))]
    case NotKnown => []
  }

  /** The entries of the versions notice, in order. */
  function VersionEntries(section: Section): (r: seq<(string, string)>)
    ensures |r| <= 5
    ensures forall i :: 0 <= i < |r| ==> r[i].1 != ""
  {
    TextEntry("AM Engine", section.amEngineVersion)
    + TextEntry("AM Product", section.amProductVersion)
    + TextEntry("NIS Sig", section.nisSignatureVersion)
    + TextEntry("AV Sig", section.antivirusSignatureVersion)
    + TextEntry("AS Sig", section.antispywareSignatureVersion)
  }

  /** The entries of the details notice, in order. */
  function DetailEntries(section: Section): (r: seq<(string, string)>)
    ensures |r| == (if Truthy(section.amRunningMode) then 1 else 0)
                 + (if section.isTamperProtected.Known? then 1 else 0)
                 + (if section.isVirtualMachine.Known? then 1 else 0)
    ensures Truthy(section.amRunningMode) ==> r[0] == ("Running Mode", section.amRunningMode.value)
    ensures section.isTamperProtected.Known? ==>
      ("Tamper Protected", YesNo(section.isTamperProtected.value)) in r
    ensures section.isVirtualMachine.Known? ==>
      r[|r| - 1] == ("Virtual Machine", YesNo(section.isVirtualMachine.value))
    ensures forall i :: 0 <= i < |r| ==> r[i].1 != ""
  {
    TextEntry("Running Mode", section.amRunningMode)
    + FlagEntry("Tamper Protected", section.isTamperProtected)
    + FlagEntry("Virtual Machine", section.isVirtualMachine)
  }

  /** Each version appears in the notice exactly when its field is set and
      non-empty; the engine comes first and the antispyware signature last. */
  lemma VersionEntriesLabels(section: Section)
    ensures var r := VersionEntries(section);
      && (HasLabel(r, "AM Engine") <==> Truthy(section.amEngineVersion))
      && (HasLabel(r, "AM Product") <==> Truthy(section.amProductVersion))
      && (HasLabel(r, "NIS Sig") <==> Truthy(section.nisSignatureVersion))
      && (HasLabel(r, "AV Sig") <==> Truthy(section.antivirusSignatureVersion))
      && (HasLabel(r, "AS Sig") <==> Truthy(section.antispywareSignatureVersion))
      && (Truthy(section.amEngineVersion) ==> r[0] == ("AM Engine", section.amEngineVersion.value))
      && (Truthy(section.antispywareSignatureVersion) ==>
            r[|r| - 1] == ("AS Sig", section.antispywareSignatureVersion.value))
  {
    var r := VersionEntries(section);
    assert Truthy(section.amEngineVersion) ==> ("AM Engine", section.amEngineVersion.value) in r;
    assert Truthy(section.amProductVersion) ==> ("AM Product", section.amProductVersion.value) in r;
    assert Truthy(section.nisSignatureVersion) ==> ("NIS Sig", section.nisSignatureVersion.value) in r;
    assert Truthy(section.antivirusSignatureVersion) ==> ("AV Sig", section.antivirusSignatureVersion.value) in r;
    assert Truthy(section.antispywareSignatureVersion) ==> ("AS Sig", section.antispywareSignatureVersion.value) in r;
  }

  /** Each detail appears exactly when its field is truthy or its flag is
      known. */
  lemma DetailEntriesLabels(section: Section)
    ensures var r := DetailEntries(section);
      && (HasLabel(r, "Running Mode") <==> Truthy(section.amRunningMode))
      && (HasLabel(r, "Tamper Protected") <==> section.isTamperProtected.Known?)
      && (HasLabel(r, "Virtual Machine") <==> section.isVirtualMachine.Known?)
      && (section.isVirtualMachine.Known? ==>
            r[|r| - 1] == ("Virtual Machine", YesNo(section.isVirtualMachine.value)))
  {
    var r := DetailEntries(section);
    assert Truthy(section.amRunningMode) ==> ("Running Mode", section.amRunningMode.value) in r;
    assert section.isTamperProtected.Known? ==> ("Tamper Protected", YesNo(section.isTamperProtected.value)) in r;
    assert section.isVirtualMachine.Known? ==> ("Virtual Machine", YesNo(section.isVirtualMachine.value)) in r;
  }

  /** What `_yield_version_info` yields: OK notices only, each only when it
      has an entry. */
  function VersionFindings(section: Section): (r: seq<Finding>)
    ensures forall i :: 0 <= i < |r| ==> r[i].Result? && r[i].state == Ok
    ensures |r| <= 2
    ensures |r| == 0 <==> VersionEntries(section) == [] && DetailEntries(section) == []
  {
    var versions := VersionEntries(section);
    var details := DetailEntries(section);
    (if versions != [] then [Result(Ok, Versions(versions))] else [])
    + (if details != [] then [Result(Ok, Details(details))] else [])
  }

  /** `if v: entries.append(f"{title}: {v}")`. */
  method AppendText(entries: seq<(string, string)>, title: string, v: Option<string>)
    returns (r: seq<(string, string)>)
    ensures r == entries + TextEntry(title, v)
  {
    r := entries;
    if v.Some? && v.value != "" {
      r := r + [(title, v.value)];
    }
  }

  /** `if b is not None: entries.append(f"{title}: {'Yes' if b else 'No'}")`. */
  method AppendFlag(entries: seq<(string, string)>, title: string, b: TriBool)
    returns (r: seq<(string, string)>)
    ensures r == entries + FlagEntry(title, b)
  {
    r := entries;
    if b.Known? {
      r := r + [(title, if b.value then "Yes" else "No")];
    }
  }

  /** `_yield_version_info`. */
  method VersionInfo(section: Section) returns (out: seq<Finding>)
    ensures out == VersionFindings(section)
  {
    var versions: seq<(string, string)> := [];
    versions := AppendText(versions, "AM Engine", section.amEngineVersion);
    versions := AppendText(versions, "AM Product", section.amProductVersion);
    versions := AppendText(versions, "NIS Sig", section.nisSignatureVersion);
    versions := AppendText(versions, "AV Sig", section.antivirusSignatureVersion);
    versions := AppendText(versions, "AS Sig", section.antispywareSignatureVersion);
    assert versions == VersionEntries(section);
    out := [];
    if versions != [] {
      out := out + [Result(Ok, Versions(versions))];
    }
    var details: seq<(string, string)> := [];
    details := AppendText(details, "Running Mode", section.amRunningMode);
    details := AppendFlag(details, "Tamper Protected", section.isTamperProtected);
    details := AppendFlag(details, "Virtual Machine", section.isVirtualMachine);
    assert details == DetailEntries(section);
    if details != [] {
      out := out + [Result(Ok, Details(details))];
    }
  }

  // ---------------------------------------------------------------------
  // The whole check.

  /** The parameters never make `check_levels` fail on this section. */
  predicate Checkable(params: Params, section: Section, now: int) {
    AllUsable(params, SignatureRows(section), now) && AllUsable(params, ScanRows(section), now)
  }

  /** What `check_windows_defender` yields. */
  function CheckOf(params: Params, section: Section, now: int): seq<Finding>
    requires Checkable(params, section, now)
  {
    SignatureFindings(SignatureRows(section), params, now)
    + ServiceFindings(ServiceRows(section), params)
    + ScanFindings(ScanRows(section), params, now)
    + VersionFindings(section)
  }

  /** `check_windows_defender`, with the clock reading as a parameter. */
  method CheckWindowsDefender(params: Params, section: Section, now: int) returns (out: seq<Finding>)
    requires Checkable(params, section, now)
    ensures out == CheckOf(params, section, now)
  {
    var signatures := CheckSignatureAges(params, section, now);
    var services := CheckServiceStates(params, section);
    var scans := CheckScanAges(params, section, now);
    var notices := VersionInfo(section);
    out := signatures + services + scans + notices;
  }

  /** The default parameters have well-formed levels, so the check runs on
      every section. */
  lemma DefaultsCheckable(section: Section, now: int)
    ensures Checkable(DefaultParams, section, now)
  {
    assert LevelsOf(DefaultParams, "FullScanEndTime") == None;
    assert LevelsOf(DefaultParams, "QuickScanEndTime") == None;
  }

  /** The version notices never change the service state. */
  lemma StateIgnoresVersions(params: Params, section: Section, now: int)
    requires Checkable(params, section, now)
    ensures Worst(CheckOf(params, section, now)) ==
      Worst(SignatureFindings(SignatureRows(section), params, now)
            + ServiceFindings(ServiceRows(section), params)
            + ScanFindings(ScanRows(section), params, now))
  {
    WorstIgnoresOk(
      SignatureFindings(SignatureRows(section), params, now)
      + ServiceFindings(ServiceRows(section), params)
      + ScanFindings(ScanRows(section), params, now),
      VersionFindings(section));
  }

  /** The worked example: an antivirus signature dated
      `25.02.2021 22:37:08`, read at exactly three days later under the
      default parameters, is a warning with the age 259200 as its metric. */
  lemma AntivirusExample(section: Section, now: int)
    requires section.antivirusSignatureLastUpdated == Some("25.02.2021 22:37:08")
    requires now == EpochSeconds(ExampleDate) + 3 * DaySeconds
    ensures SignatureCheck(SignatureRows(section)[1], DefaultParams, now) ==
      [Result(Warn, LevelsSummary("AntiVirus signature age", 259200, Some((2 * DaySeconds, 7 * DaySeconds)))),
       Metric("antivirus_sig_age", 259200, Some((2 * DaySeconds, 7 * DaySeconds)))]
  {
    var row := SignatureRows(section)[1];
    ExampleAge(section, ExampleDate, now);
    ExampleLevels(row);
    ExampleTitle();
  }

  lemma ExampleLevels(row: Row)
    requires row.key == "AntivirusSignatureLastUpdated"
    ensures LevelsOf(DefaultParams, row.key) == Some(Fixed(2 * DaySeconds, 7 * DaySeconds))
  {
  }

  lemma ExampleTitle()
    ensures "AntiVirus signature" + " age" == "AntiVirus signature age"
  {
    var a, b, c := "AntiVirus signature", " age", "AntiVirus signature age";
    assert |a + b| == |c|;
    forall i | 0 <= i < |c| ensures (a + b)[i] == c[i] {
      if i < |a| {
        assert (a + b)[i] == a[i];
      } else {
        assert (a + b)[i] == b[i - |a|];
      }
    }
  }

  lemma ExampleAge(section: Section, t: DateTime, now: int)
    requires section.antivirusSignatureLastUpdated == Some("25.02.2021 22:37:08")
    requires t == ExampleDate && now == EpochSeconds(t) + 3 * DaySeconds
    ensures AgeOf(SignatureRows(section)[1], DefaultParams, now) == Some(3 * DaySeconds)
  {
    ExampleText(t);
    EuDottedAge(t, now);
  }

  /** One step of rendering a layout: the text from directive `k` on is
      that directive's text followed by the rest, compared character by
      character. */
  lemma FormatStep(t: DateTime, layout: Layout, k: nat, head: string, rest: string, whole: string)
    requires Formattable(t) && k < |layout|
    requires Render(layout[k], t) == head && Format(t, layout[k + 1..]) == rest
    requires |head| + |rest| == |whole|
    requires forall i :: 0 <= i < |head| ==> head[i] == whole[i]
    requires forall i :: 0 <= i < |rest| ==> rest[i] == whole[|head| + i]
    ensures Format(t, layout[k..]) == whole
  {
    assert layout[k..][1..] == layout[k + 1..];
    forall i | 0 <= i < |whole| ensures (head + rest)[i] == whole[i] {
      if i >= |head| {
        assert (head + rest)[i] == rest[i - |head|];
      }
    }
  }

  const ExampleDate: DateTime := DateTime(2021, 2, 25, 22, 37, 8)

  lemma ExampleFormattable(t: DateTime)
    requires t == ExampleDate
    ensures Formattable(t)
  {
    assert DaysInMonth(2021, 2) == 28;
  }

  lemma ExampleClock(t: DateTime)
    requires t == ExampleDate
    ensures Formattable(t)
    ensures Format(t, DayDotted[6..]) == "22:37:08"
  {
    ExampleFormattable(t);
    var L := DayDotted;
    assert L[11..] == [];
    FormatStep(t, L, 10, "08", "", "08");
    FormatStep(t, L, 9, ":", "08", ":08");
    FormatStep(t, L, 8, "37", ":08", "37:08");
    FormatStep(t, L, 7, ":", "37:08", ":37:08");
    FormatStep(t, L, 6, "22", ":37:08", "22:37:08");
  }

  lemma ExampleYear(t: DateTime)
    requires t == ExampleDate
    ensures Formattable(t)
    ensures Format(t, DayDotted[4..]) == "2021 22:37:08"
  {
    ExampleClock(t);
    var L := DayDotted;
    FormatStep(t, L, 5, " ", "22:37:08", " 22:37:08");
    assert Render(Year, t) == "2021";
    FormatStep(t, L, 4, "2021", " 22:37:08", "2021 22:37:08");
  }

  lemma ExampleDay(t: DateTime)
    requires t == ExampleDate
    ensures Formattable(t)
    ensures Format(t, DayDotted[2..]) == "02.2021 22:37:08"
  {
    ExampleYear(t);
    var L := DayDotted;
    assert L[3] == Lit('.') && L[2] == Month;
    assert Render(Month, t) == "02";
    FormatStep(t, L, 3, ".", "2021 22:37:08", ".2021 22:37:08");
    FormatStep(t, L, 2, "02", ".2021 22:37:08", "02.2021 22:37:08");
  }

  lemma ExampleMonth(t: DateTime)
    requires t == ExampleDate
    ensures Formattable(t)
    ensures Format(t, DayDotted[1..]) == ".02.2021 22:37:08"
  {
    ExampleDay(t);
    FormatStep(t, DayDotted, 1, ".", "02.2021 22:37:08", ".02.2021 22:37:08");
  }

  /** The example's text is the dotted rendering of its date. */
  lemma ExampleText(t: DateTime)
    requires t == ExampleDate
    ensures Formattable(t)
    ensures Format(t, DayDotted) == "25.02.2021 22:37:08"
  {
    ExampleMonth(t);
    var L := DayDotted;
    FormatStep(t, L, 0, "25", ".02.2021 22:37:08", "25.02.2021 22:37:08");
    assert L[0..] == L;
  }
}
