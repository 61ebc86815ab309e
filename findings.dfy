/**
 * What a check emits: results with a monitoring state and a message, and
 * metrics. Messages are modelled by their kind and their data, not by the
 * rendered text (`render.timespan` and the summary wording of
 * `check_levels` belong to the monitoring library).
 */
module Findings {
  import opened Wrappers

  datatype State = Ok | Warn | Crit | Unknown

  /** Upper levels as the rule set gives them: `("fixed", (warn, crit))`,
      `("no_levels", None)`, or a value of any other shape. */
  datatype Levels = Fixed(warn: int, crit: int) | NoLevels | Malformed

  datatype Msg =
    // current plugin
    | AgeUnknown(title: string)
    | LevelsSummary(title: string, value: int, shown: Option<(int, int)>)
    | ServiceUnknown(service: string)
    | ServiceMismatch(service: string, actual: string, expected: string)
    | AllServicesOk(count: nat)
    | NeverExecuted(title: string, warn: int, crit: int)
    | Versions(entries: seq<(string, string)>)
    | Details(entries: seq<(string, string)>)
    // legacy plugin
    | LastAgeUnknown(title: string)
    | AgeAgainst(title: string, age: int, shown: Option<(int, int)>)
    | ServiceIs(service: string, actual: string)
    | AllServicesStarted
    | LastScan(title: string, age: int, shown: Option<(int, int)>)
    | VersionLine(engine: string, product: string, nisSig: string, avSig: string, asSig: string)

  datatype Finding =
    | Result(state: State, msg: Msg)
    | Metric(name: string, value: int, bounds: Option<(int, int)>)

  /** The state of a value against inclusive upper levels: reaching `crit`
      is critical, otherwise reaching `warn` is a warning. */
  function UpperState(value: int, warn: int, crit: int): (r: State)
    ensures r == Crit <==> value >= crit
    ensures r == Warn <==> warn <= value < crit
    ensures r == Ok <==> value < warn && value < crit
  {
    if value >= crit then Crit
    else if value >= warn then Warn
    else Ok
  }

  predicate WellFormed(levels: Option<Levels>) {
    levels != Some(Malformed)
  }

  /** `check_levels(value, levels_upper=levels, metric_name=metric,
      label=label)`: one result, whose summary shows the levels only when
      they were reached, then the metric with the levels as its bounds. */
  function CheckLevels(value: int, levels: Option<Levels>, metric: string, title: string): (r: seq<Finding>)
    requires WellFormed(levels)
    ensures |r| == 2 && r[0].Result? && r[1].Metric? && r[1].name == metric && r[1].value == value
    ensures r[0].state != Unknown
    ensures levels.Some? && levels.value.Fixed? ==>
      r[0].state == UpperState(value, levels.value.warn, levels.value.crit)
      && r[1].bounds == Some((levels.value.warn, levels.value.crit))
    ensures !(levels.Some? && levels.value.Fixed?) ==> r[0].state == Ok && r[1].bounds == None
    ensures r[0].msg.LevelsSummary? && r[0].msg.title == title && r[0].msg.value == value
    ensures r[0].msg.shown.Some? <==> r[0].state != Ok
  {
    match levels
    case Some(Fixed(w, c)) =>
      var s := UpperState(value, w, c);
      [Result(s, LevelsSummary(title, value, if s == Ok then None else Some((w, c)))),
       Metric(metric, value, Some((w, c)))]
    case _ =>
      [Result(Ok, LevelsSummary(title, value, None)), Metric(metric, value, None)]
  }

  /** The monitoring core's ranking of states: OK, WARN, UNKNOWN, CRIT. */
  function Rank(s: State): nat {
    match s
    case Ok => 0
    case Warn => 1
    case Unknown => 2
    case Crit => 3
  }

  /** The worst state among the results of a list of findings (OK when there
      are none). */
  function Worst(fs: seq<Finding>): (r: State)
    ensures forall i :: 0 <= i < |fs| && fs[i].Result? ==> Rank(fs[i].state) <= Rank(r)
    ensures r == Ok || exists i :: 0 <= i < |fs| && fs[i].Result? && fs[i].state == r
  {
    if fs == [] then Ok
    else
      var rest := Worst(fs[1..]);
      if fs[0].Result? && Rank(fs[0].state) > Rank(rest) then
        fs[0].state
      else
        assert forall i :: 1 <= i < |fs| ==> fs[i] == fs[1..][i - 1];
        rest
  }

  /** Appending findings that are all OK does not change the worst state. */
  lemma {:induction false} WorstIgnoresOk(fs: seq<Finding>, oks: seq<Finding>)
    requires forall i :: 0 <= i < |oks| && oks[i].Result? ==> oks[i].state == Ok
    ensures Worst(fs + oks) == Worst(fs)
    decreases |fs|
  {
    if fs == [] {
      assert fs + oks == oks;
      WorstOfOks(oks);
    } else {
      assert (fs + oks)[1..] == fs[1..] + oks;
      WorstIgnoresOk(fs[1..], oks);
    }
  }

  lemma WorstOfOks(oks: seq<Finding>)
    requires forall i :: 0 <= i < |oks| && oks[i].Result? ==> oks[i].state == Ok
    ensures Worst(oks) == Ok
  {
  }
}
