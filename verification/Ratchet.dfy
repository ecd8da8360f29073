/** The ratchet over tier 1 baselines: rule signatures of an unchanged scenario only grow with a maintainer's label. */
module Ratchet {
  import opened Options

  /** A signature as the JSON of the baseline has it. */
  type Raw = string

  datatype Entry = Entry(scenario: string, hash: string, revision: string, rule: seq<Raw>)
  datatype Baseline = Baseline(version: int, scenarios: seq<Entry>)

  /** json.dumps with sorted keys, after a missing Character was set to null. */
  type Text = Raw -> string

  const ACCEPT_LABEL := "conformance-accept-signature"

  function Signatures(text: Text, rule: seq<Raw>): set<string> {
    set raw | raw in rule :: text(raw)
  }

  type Scenarios = map<string, Entry>

  /** What the entries look like before they count. */
  predicate EntryOk(e: Entry) { e.scenario != "" && e.hash != "" && e.revision != "" }

  /** None is the ValueError. */
  function ReadScenarios(entries: seq<Entry>): Option<Scenarios> {
    if |entries| == 0 then Some(map[])
    else
      var before, last := ReadScenarios(entries[..|entries| - 1]), entries[|entries| - 1];
      if before.None? || last.scenario in before.value || !EntryOk(last) then None
      else Some(before.value[last.scenario := last])
  }

  function ScenariosOf(b: Baseline): Option<Scenarios> {
    if b.version != 1 then None else ReadScenarios(b.scenarios)
  }

  datatype Report = Report(
    passes: bool, additions: map<string, set<string>>, removed: map<string, nat>,
    removedScenarios: set<string>, measurements: map<string, set<string>>)

  /** In both baselines, measured by the same harness on the same scenario. */
  predicate Kept(previous: Scenarios, candidate: Scenarios, name: string) {
    name in previous && name in candidate
    && previous[name].hash == candidate[name].hash && previous[name].revision == candidate[name].revision
  }

  function Added(text: Text, previous: Scenarios, candidate: Scenarios, name: string): set<string>
    requires name in candidate
  {
    Signatures(text, candidate[name].rule) - if name in previous then Signatures(text, previous[name].rule) else {}
  }

  function Lost(text: Text, previous: Scenarios, candidate: Scenarios, name: string): set<string>
    requires name in previous && name in candidate
  {
    Signatures(text, previous[name].rule) - Signatures(text, candidate[name].rule)
  }

  /** Names whose additions need the label, over some of the candidate's names. */
  function AdditionsIn(text: Text, previous: Scenarios, candidate: Scenarios, names: set<string>): map<string, set<string>> {
    map name | name in names && name in candidate && Kept(previous, candidate, name) && Added(text, previous, candidate, name) != {}
      :: Added(text, previous, candidate, name)
  }

  function RemovedIn(text: Text, previous: Scenarios, candidate: Scenarios, names: set<string>): map<string, nat> {
    map name | name in names && name in candidate && Kept(previous, candidate, name) && Lost(text, previous, candidate, name) != {}
      :: |Lost(text, previous, candidate, name)|
  }

  /** Measured anew: no additions are counted for a scenario that was not there. */
  function MeasuredIn(text: Text, previous: Scenarios, candidate: Scenarios, names: set<string>): map<string, set<string>> {
    map name | name in names && name in candidate && !Kept(previous, candidate, name)
      :: if name in previous then Added(text, previous, candidate, name) else {}
  }

  function ReportOn(text: Text, previous: Scenarios, candidate: Scenarios, accepted: bool): Report {
    var additions := AdditionsIn(text, previous, candidate, candidate.Keys);
    Report(additions == map[] || accepted, additions, RemovedIn(text, previous, candidate, candidate.Keys),
           previous.Keys - candidate.Keys, MeasuredIn(text, previous, candidate, candidate.Keys))
  }

  function Compared(text: Text, base: Baseline, current: Baseline, labels: seq<string>): Option<Report> {
    var previous, candidate := ScenariosOf(base), ScenariosOf(current);
    if previous.None? || candidate.None? then None
    else Some(ReportOn(text, previous.value, candidate.value, ACCEPT_LABEL in labels))
  }

  // ----- the loops

  method ReadAll(b: Baseline) returns (r: Option<Scenarios>)
    ensures r == ScenariosOf(b)
  {
    if b.version != 1 {
      return None;
    }
    var result: Scenarios := map[];
    var n := |b.scenarios|;
    for i := 0 to n
      invariant ReadScenarios(b.scenarios[..i]) == Some(result)
    {
      assert b.scenarios[..i + 1][..i] == b.scenarios[..i];
      var entry := b.scenarios[i];
      if entry.scenario in result || !EntryOk(entry) {
        StaysNone(b.scenarios, i + 1);
        return None;
      }
      result := result[entry.scenario := entry];
    }
    assert b.scenarios[..n] == b.scenarios;
    r := Some(result);
  }

  lemma {:induction false} StaysNone(entries: seq<Entry>, i: nat)
    requires i <= |entries| && ReadScenarios(entries[..i]).None?
    ensures ReadScenarios(entries).None?
    decreases |entries|
  {
    if i < |entries| {
      var n := |entries| - 1;
      assert entries[..n][..i] == entries[..i];
      StaysNone(entries[..n], i);
    } else {
      assert entries[..i] == entries;
    }
  }

  lemma OneMoreAddition(text: Text, previous: Scenarios, candidate: Scenarios, names: set<string>, name: string)
    requires name in candidate && name !in names
    ensures AdditionsIn(text, previous, candidate, names + {name}) ==
      if Kept(previous, candidate, name) && Added(text, previous, candidate, name) != {}
      then AdditionsIn(text, previous, candidate, names)[name := Added(text, previous, candidate, name)]
      else AdditionsIn(text, previous, candidate, names)
  {
  }

  lemma OneMoreRemoval(text: Text, previous: Scenarios, candidate: Scenarios, names: set<string>, name: string)
    requires name in candidate && name !in names
    ensures RemovedIn(text, previous, candidate, names + {name}) ==
      if Kept(previous, candidate, name) && Lost(text, previous, candidate, name) != {}
      then RemovedIn(text, previous, candidate, names)[name := |Lost(text, previous, candidate, name)|]
      else RemovedIn(text, previous, candidate, names)
  {
  }

  lemma OneMoreMeasurement(text: Text, previous: Scenarios, candidate: Scenarios, names: set<string>, name: string)
    requires name in candidate && name !in names
    ensures MeasuredIn(text, previous, candidate, names + {name}) ==
      if Kept(previous, candidate, name) then MeasuredIn(text, previous, candidate, names)
      else MeasuredIn(text, previous, candidate, names)[name := if name in previous then Added(text, previous, candidate, name) else {}]
  {
  }

  method Compare(text: Text, base: Baseline, current: Baseline, labels: seq<string>) returns (r: Option<Report>)
    ensures r == Compared(text, base, current, labels)
  {
    var previous := ReadAll(base);
    var candidate := ReadAll(current);
    if previous.None? || candidate.None? {
      return None;
    }
    var was, now := previous.value, candidate.value;
    var additions, removed, measurements := CompareAll(text, was, now);
    var accepted := ACCEPT_LABEL in labels;
    r := Some(Report(additions == map[] || accepted, additions, removed, was.Keys - now.Keys, measurements));
  }

  method CompareAll(text: Text, previous: Scenarios, candidate: Scenarios)
    returns (additions: map<string, set<string>>, removed: map<string, nat>, measurements: map<string, set<string>>)
    ensures additions == AdditionsIn(text, previous, candidate, candidate.Keys)
    ensures removed == RemovedIn(text, previous, candidate, candidate.Keys)
    ensures measurements == MeasuredIn(text, previous, candidate, candidate.Keys)
  {
    additions, removed, measurements := map[], map[], map[];
    var left := candidate.Keys;
    ghost var done: set<string> := {};
    while |left| > 0
      invariant left !! done && left + done == candidate.Keys
      invariant additions == AdditionsIn(text, previous, candidate, done)
      invariant removed == RemovedIn(text, previous, candidate, done)
      invariant measurements == MeasuredIn(text, previous, candidate, done)
      decreases |left|
    {
      var name := AnyOf(left);
      OneMoreAddition(text, previous, candidate, done, name);
      OneMoreRemoval(text, previous, candidate, done, name);
      OneMoreMeasurement(text, previous, candidate, done, name);
      if !Kept(previous, candidate, name) {
        measurements := measurements[name := if name in previous then Added(text, previous, candidate, name) else {}];
      } else {
        var added, lost := Added(text, previous, candidate, name), Lost(text, previous, candidate, name);
        if added != {} {
          additions := additions[name := added];
        }
        if lost != {} {
          removed := removed[name := |lost|];
        }
      }
      left := left - {name};
      done := done + {name};
    }
    assert left == {};
    assert done == candidate.Keys;
  }

  /** The order of a dict decides nothing here. */
  method AnyOf(names: set<string>) returns (name: string)
    requires |names| > 0
    ensures name in names
  {
    HasOne(names);
    name :| name in names;
  }

  lemma HasOne(names: set<string>)
    requires |names| > 0
    ensures exists name :: name in names
  {
    assert (forall name :: name !in names) ==> names == {};
  }

  // ----- along a history

  datatype Step = Step(baseline: Baseline, labels: seq<string>)

  /** The baseline before each step. */
  function BaseOf(start: Baseline, steps: seq<Step>): Baseline {
    if |steps| == 0 then start else steps[|steps| - 1].baseline
  }

  function ReportOf(text: Text, start: Baseline, steps: seq<Step>): Option<Report>
    requires |steps| > 0
  {
    var last := steps[|steps| - 1];
    Compared(text, BaseOf(start, steps[..|steps| - 1]), last.baseline, last.labels)
  }

  /** Every step was compared without an error and kept the scenario with its hash and revision. */
  ghost predicate Keeps(text: Text, start: Baseline, steps: seq<Step>, name: string)
    decreases |steps|
  {
    |steps| == 0 ||
    var base := BaseOf(start, steps[..|steps| - 1]);
    && Keeps(text, start, steps[..|steps| - 1], name)
    && ReportOf(text, start, steps).Some?
    && Kept(ScenariosOf(base).value, ScenariosOf(steps[|steps| - 1].baseline).value, name)
  }

  /** The additions reported for a scenario, and their number, and the number of removals. */
  function ReportedFor(text: Text, start: Baseline, steps: seq<Step>, name: string): set<string> {
    if |steps| == 0 then {}
    else
      var report := ReportOf(text, start, steps);
      ReportedFor(text, start, steps[..|steps| - 1], name) +
      if report.Some? && name in report.value.additions then report.value.additions[name] else {}
  }

  function AddedCount(text: Text, start: Baseline, steps: seq<Step>, name: string): nat {
    if |steps| == 0 then 0
    else
      var report := ReportOf(text, start, steps);
      AddedCount(text, start, steps[..|steps| - 1], name) +
      if report.Some? && name in report.value.additions then |report.value.additions[name]| else 0
  }

  function RemovedCount(text: Text, start: Baseline, steps: seq<Step>, name: string): nat {
    if |steps| == 0 then 0
    else
      var report := ReportOf(text, start, steps);
      RemovedCount(text, start, steps[..|steps| - 1], name) +
      if report.Some? && name in report.value.removed then report.value.removed[name] else 0
  }

  function RuleOf(text: Text, b: Baseline, name: string): set<string> {
    var scenarios := ScenariosOf(b);
    if scenarios.Some? && name in scenarios.value then Signatures(text, scenarios.value[name].rule) else {}
  }

  lemma SizeOfDifference(before: set<string>, after: set<string>)
    ensures |after| + |before - after| == |before| + |after - before|
  {
    assert before == (before * after) + (before - after) && after == (before * after) + (after - before);
  }

  /** What one report says of a kept scenario. */
  ghost predicate Tells(report: Report, accepted: bool, name: string, before: set<string>, after: set<string>) {
    && after - before == (if name in report.additions then report.additions[name] else {})
    && |before - after| == (if name in report.removed then report.removed[name] else 0)
    && (report.passes && !accepted ==> after <= before)
  }

  lemma NothingAdded(before: set<string>, after: set<string>)
    ensures after - before == {} ==> after <= before
    ensures before - after == {} ==> |before - after| == 0
  {
    assert forall x | x in after && x !in before :: x in after - before;
  }

  lemma ReportedAt(text: Text, previous: Scenarios, candidate: Scenarios, accepted: bool, name: string)
    requires Kept(previous, candidate, name)
    ensures Tells(ReportOn(text, previous, candidate, accepted), accepted, name,
                  Signatures(text, previous[name].rule), Signatures(text, candidate[name].rule))
  {
    NothingAdded(Signatures(text, previous[name].rule), Signatures(text, candidate[name].rule));
    assert name in candidate.Keys;
  }

  lemma ComparedAt(text: Text, base: Baseline, current: Baseline, labels: seq<string>, name: string)
    requires Compared(text, base, current, labels).Some?
    requires Kept(ScenariosOf(base).value, ScenariosOf(current).value, name)
    ensures Tells(Compared(text, base, current, labels).value, ACCEPT_LABEL in labels, name,
                  RuleOf(text, base, name), RuleOf(text, current, name))
  {
    var previous, candidate := ScenariosOf(base).value, ScenariosOf(current).value;
    ReportedAt(text, previous, candidate, ACCEPT_LABEL in labels, name);
    assert Compared(text, base, current, labels).value == ReportOn(text, previous, candidate, ACCEPT_LABEL in labels);
    assert RuleOf(text, base, name) == Signatures(text, previous[name].rule);
    assert RuleOf(text, current, name) == Signatures(text, candidate[name].rule);
  }

  lemma OneStep(text: Text, start: Baseline, steps: seq<Step>, name: string)
    requires |steps| > 0 && Keeps(text, start, steps, name)
    ensures var n := |steps| - 1;
      Tells(ReportOf(text, start, steps).value, ACCEPT_LABEL in steps[n].labels, name,
            RuleOf(text, BaseOf(start, steps[..n]), name), RuleOf(text, steps[n].baseline, name))
  {
    var n := |steps| - 1;
    ComparedAt(text, BaseOf(start, steps[..n]), steps[n].baseline, steps[n].labels, name);
  }

  /** As long as a scenario keeps its hash and revision, its rule signatures come from the first baseline or were
      reported as additions on the way, and their number changes by exactly what was reported. */
  lemma {:induction false} HistoryIsReported(text: Text, start: Baseline, steps: seq<Step>, name: string)
    requires Keeps(text, start, steps, name)
    ensures RuleOf(text, BaseOf(start, steps), name) <= RuleOf(text, start, name) + ReportedFor(text, start, steps, name)
    ensures |RuleOf(text, BaseOf(start, steps), name)| + RemovedCount(text, start, steps, name) ==
            |RuleOf(text, start, name)| + AddedCount(text, start, steps, name)
    decreases |steps|
  {
    if |steps| > 0 {
      var n := |steps| - 1;
      HistoryIsReported(text, start, steps[..n], name);
      OneStep(text, start, steps, name);
      SizeOfDifference(RuleOf(text, BaseOf(start, steps[..n]), name), RuleOf(text, steps[n].baseline, name));
    }
  }

  ghost predicate PassesUnlabelled(text: Text, start: Baseline, steps: seq<Step>)
    decreases |steps|
  {
    |steps| == 0 ||
    (&& PassesUnlabelled(text, start, steps[..|steps| - 1])
     && ACCEPT_LABEL !in steps[|steps| - 1].labels
     && ReportOf(text, start, steps).Some? && ReportOf(text, start, steps).value.passes)
  }

  /** Without the label, a history that passes only ever loses rule signatures of such a scenario. */
  lemma {:induction false} UnlabelledOnlyShrinks(text: Text, start: Baseline, steps: seq<Step>, name: string)
    requires Keeps(text, start, steps, name) && PassesUnlabelled(text, start, steps)
    ensures RuleOf(text, BaseOf(start, steps), name) <= RuleOf(text, start, name)
    decreases |steps|
  {
    if |steps| > 0 {
      UnlabelledOnlyShrinks(text, start, steps[..|steps| - 1], name);
      OneStep(text, start, steps, name);
    }
  }
}
