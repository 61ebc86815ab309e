/**
 * Section parser of the current plugin
 * (plugins/windows_defender/agent_based/windows_defender.py): the agent's
 * `key : value` lines, already cut at every `:` by the agent framework,
 * become a map from key to value and then a record of optional strings and
 * tri-state flags.
 */
module DefenderSection {
  import opened Wrappers
  import opened Text

  /** The agent section as the framework hands it over: one list of fields
      per line. */
  type Table = seq<seq<string>>

  /** A flag that is true, false, or not known (missing or not exactly
      `True`/`False`); never silently false. */
  datatype TriBool = Known(value: bool) | NotKnown

  /** `_parse_bool`. */
  function ParseBool(v: string): (r: TriBool)
    ensures r == Known(true) <==> v == "True"
    ensures r == Known(false) <==> v == "False"
    ensures r == NotKnown <==> v != "True" && v != "False"
  {
    if v == "True" then Known(true)
    else if v == "False" then Known(false)
    else NotKnown
  }

  /** `WindowsDefenderSection`. */
  datatype Section = Section(
    amEngineVersion: Option<string>,
    amProductVersion: Option<string>,
    amServiceVersion: Option<string>,
    nisEngineVersion: Option<string>,
    antispywareSignatureVersion: Option<string>,
    antivirusSignatureVersion: Option<string>,
    nisSignatureVersion: Option<string>,
    antispywareSignatureLastUpdated: Option<string>,
    antivirusSignatureLastUpdated: Option<string>,
    nisSignatureLastUpdated: Option<string>,
    fullScanEndTime: Option<string>,
    quickScanEndTime: Option<string>,
    amServiceEnabled: TriBool,
    behaviorMonitorEnabled: TriBool,
    antispywareEnabled: TriBool,
    antivirusEnabled: TriBool,
    nisEnabled: TriBool,
    realtimeProtectionEnabled: TriBool,
    onaccessProtectionEnabled: TriBool,
    amRunningMode: Option<string>,
    computerState: Option<string>,
    isTamperProtected: TriBool,
    isVirtualMachine: TriBool)

  /** `raw.get(key)`. */
  function Get(raw: map<string, string>, key: string): Option<string> {
    if key in raw then Some(raw[key]) else None
  }

  /** `_parse_bool(raw.get(key, ""))`. */
  function Flag(raw: map<string, string>, key: string): (r: TriBool)
  {
    ParseBool(if key in raw then raw[key] else "")
  }

  /** The key a line contributes: its first field, stripped. */
  function LineKey(line: seq<string>): string
    requires |line| >= 2
  {
    Strip(line[0])
  }

  /** The value a line contributes: every field after the first, rejoined
      with `:` and stripped. */
  function LineValue(line: seq<string>): string
    requires |line| >= 2
  {
    Strip(Join(line[1..], ':'))
  }

  /** The map the parse loop has built after the given lines; lines with
      fewer than two fields are skipped and a later key overwrites an earlier
      one. */
  function RawOf(table: Table): map<string, string>
    decreases |table|
  {
    if table == [] then map[]
    else
      var raw := RawOf(table[..|table| - 1]);
      var line := table[|table| - 1];
      if |line| >= 2 then raw[LineKey(line) := LineValue(line)] else raw
  }

  /** The record built from the map. */
  function BuildSection(raw: map<string, string>): Section {
    Section(
      Get(raw, "AMEngineVersion"),
      Get(raw, "AMProductVersion"),
      Get(raw, "AMServiceVersion"),
      Get(raw, "NISEngineVersion"),
      Get(raw, "AntispywareSignatureVersion"),
      Get(raw, "AntivirusSignatureVersion"),
      Get(raw, "NISSignatureVersion"),
      Get(raw, "AntispywareSignatureLastUpdated"),
      Get(raw, "AntivirusSignatureLastUpdated"),
      Get(raw, "NISSignatureLastUpdated"),
      Get(raw, "FullScanEndTime"),
      Get(raw, "QuickScanEndTime"),
      Flag(raw, "AMServiceEnabled"),
      Flag(raw, "BehaviorMonitorEnabled"),
      Flag(raw, "AntispywareEnabled"),
      Flag(raw, "AntivirusEnabled"),
      Flag(raw, "NISEnabled"),
      Flag(raw, "RealTimeProtectionEnabled"),
      Flag(raw, "OnAccessProtectionEnabled"),
      Get(raw, "AMRunningMode"),
      Get(raw, "ComputerState"),
      Flag(raw, "IsTamperProtected"),
      Flag(raw, "IsVirtualMachine"))
  }

  /** What `parse_windows_defender` returns. */
  function SectionOf(table: Table): Option<Section> {
    if table == [] then None
    else
      var raw := RawOf(table);
      if raw == map[] then None else Some(BuildSection(raw))
  }

  /** `parse_windows_defender`. */
  method ParseSection(table: Table) returns (r: Option<Section>)
    ensures r == SectionOf(table)
  {
    if |table| == 0 {
      return None;
    }
    var raw: map<string, string> := map[];
    for i := 0 to |table|
      invariant raw == RawOf(table[..i])
    {
      var line := table[i];
      RawOfStep(table, i);
      if |line| >= 2 {
        var key := LineKey(line);
        var value := LineValue(line);
        raw := raw[key := value];
      }
    }
    assert table[..|table|] == table;
    if raw == map[] {
      return None;
    }
    r := Some(BuildSection(raw));
  }

  lemma RawOfStep(table: Table, i: nat)
    requires i < |table|
    ensures RawOf(table[..i + 1]) ==
      if |table[i]| >= 2 then RawOf(table[..i])[LineKey(table[i]) := LineValue(table[i])]
      else RawOf(table[..i])
  {
    assert table[..i + 1][..i] == table[..i];
  }

  /** A key is in the map exactly when some line of at least two fields
      carries it. */
  lemma {:induction false} RawOfKeys(table: Table, key: string)
    ensures key in RawOf(table) <==>
      exists i :: 0 <= i < |table| && |table[i]| >= 2 && LineKey(table[i]) == key
    decreases |table|
  {
    if table != [] {
      var front := table[..|table| - 1];
      RawOfKeys(front, key);
      forall i | 0 <= i < |front| ensures front[i] == table[i] { }
    }
  }

  /** The value of a key is the one of the last line that carries it. */
  lemma {:induction false} RawOfLastWins(table: Table, i: nat, key: string)
    requires i < |table| && |table[i]| >= 2 && LineKey(table[i]) == key
    requires forall j :: i < j < |table| && |table[j]| >= 2 ==> LineKey(table[j]) != key
    ensures key in RawOf(table) && RawOf(table)[key] == LineValue(table[i])
    decreases |table|
  {
    var n := |table| - 1;
    RawOfStep(table, n);
    assert table[..n + 1] == table;
    if i < n {
      var front := table[..n];
      assert front[i] == table[i];
      forall j | i < j < |front| && |front[j]| >= 2 ensures LineKey(front[j]) != key {
        assert front[j] == table[j];
      }
      RawOfLastWins(front, i, key);
    }
  }

  /** No section comes back exactly when no line has two fields (the empty
      table included). */
  lemma SectionOfNone(table: Table)
    ensures SectionOf(table) == None <==> forall i :: 0 <= i < |table| ==> |table[i]| < 2
  {
    if exists i :: 0 <= i < |table| && |table[i]| >= 2 {
      var i :| 0 <= i < |table| && |table[i]| >= 2;
      RawOfKeys(table, LineKey(table[i]));
    } else if table != [] {
      if RawOf(table) != map[] {
        var k :| k in RawOf(table);
        RawOfKeys(table, k);
      }
    }
  }

  /** A line the agent wrote as `key:value`, whose key has no `:`, arrives
      cut at every `:` and contributes the stripped key and the whole
      stripped value, colons included. */
  lemma AgentLine(key: string, value: string)
    requires ':' !in key
    ensures var line := Split(key + [':'] + value, ':');
      |line| >= 2 && LineKey(line) == Strip(key) && LineValue(line) == Strip(value)
  {
    LineRoundTrip(key, ':', value);
  }

  /** A flag whose key is missing is not known, never false; a present key
      gives a known flag exactly when its value is `True` or `False`. */
  lemma FlagSpec(raw: map<string, string>, key: string)
    ensures key !in raw ==> Flag(raw, key) == NotKnown
    ensures key in raw ==> (Flag(raw, key).Known? <==> raw[key] == "True" || raw[key] == "False")
    ensures Flag(raw, key) == Known(false) <==> key in raw && raw[key] == "False"
  {
  }
}
