/** evaluateSimulation: matching traces to generated scenarios, and the verdict over all of them. */
module Simulation {
  import opened Text
  import opened Geometry
  import opened Model
  import opened Rules
  import opened Evaluator
  import Scenarios
  import Xorshift

  datatype Verdict = Clear | Hold

  datatype Summary = Summary(scenarioId: Text, verdict: Verdict, violationCount: nat)

  datatype Report = Report(
    verdict: Verdict,
    scenarioCount: nat,
    violationCount: nat,
    scenarioResults: seq<Summary>,
    violations: seq<Violation>)

  datatype Reason = SuiteRejected | TraceCount | UnknownScenario | OutsideWarehouse | MissingTrace

  datatype Result = Rejected(reason: Reason) | Evaluated(report: Report)

  // ---------- Keyed tables: new Map(entries) ----------

  function Table<T>(keys: seq<Text>, values: seq<T>): map<Text, T>
    requires |keys| == |values|
  {
    if keys == [] then map[]
    else
      var n := |keys| - 1;
      Table(keys[..n], values[..n])[keys[n] := values[n]]
  }

  lemma {:induction false} TableLookup<T>(keys: seq<Text>, values: seq<T>)
    requires |keys| == |values|
    ensures forall k :: k in Table(keys, values) <==> k in keys
    ensures Unique(keys) ==> forall i :: 0 <= i < |keys| ==> Table(keys, values)[keys[i]] == values[i]
  {
    if keys != [] {
      var n := |keys| - 1;
      TableLookup(keys[..n], values[..n]);
      assert keys == keys[..n] + [keys[n]];
      if Unique(keys) {
        forall i | 0 <= i < |keys| ensures Table(keys, values)[keys[i]] == values[i] {
          assert i < n ==> keys[..n][i] == keys[i] && values[..n][i] == values[i];
        }
      }
    }
  }

  function ZoneTable(zones: seq<Zone>): map<Text, Zone> { Table(ZoneIds(zones), zones) }

  function TraceTable(traces: seq<Trace>): map<Text, Trace> { Table(TraceIds(traces), traces) }

  // ---------- Specification ----------

  /** The scenarios an accepted envelope generates. */
  function SuiteOf(e: Envelope): seq<Scenario>
    requires ValidGeneration(e)
  {
    Scenarios.UncheckedSuite(e.generation).scenarios
  }

  predicate ValidGeneration(e: Envelope) {
    && (forall t :: t in e.generation.templates ==> ValidTemplate(t))
    && ValidSeed(e.generation.seed)
  }

  /** The traces cover exactly the generated scenarios and stay inside the warehouse. */
  predicate Covered(e: Envelope, traces: seq<Trace>)
    requires ValidGeneration(e)
  {
    && |traces| == |SuiteOf(e)|
    && forall t :: t in traces ==>
         t.scenarioId in ScenarioIds(SuiteOf(e)) && InsideWarehouse(t, e.bounds)
  }

  ghost predicate Parsed(e: Envelope, traces: seq<Trace>) {
    ParseEnvelope(e) == Some(e) && ParseTraces(traces) == Some(traces)
  }

  /** Parsed, of the dialect the generator accepts, and covered. */
  ghost predicate Evaluable(e: Envelope, traces: seq<Trace>) {
    && Parsed(e, traces)
    && e.version == Current
    && ValidGeneration(e)
    && Covered(e, traces)
  }

  ghost function RunFor(e: Envelope, traces: seq<Trace>, s: Scenario): Run
    requires s.id in TraceTable(traces)
  {
    Run(e.rules, s, TraceTable(traces)[s.id], ZoneTable(e.zones))
  }

  ghost predicate ScenarioReported(e: Envelope, traces: seq<Trace>, s: Scenario, list: seq<Violation>, summary: Summary) {
    && s.id in TraceTable(traces)
    && RunFor(e, traces, s).Valid()
    && RunFor(e, traces, s).IsViolationList(list)
    && summary == Summary(s.id, if list == [] then Clear else Hold, |list|)
  }

  function Concat<T>(lists: seq<seq<T>>): seq<T> {
    if lists == [] then [] else Concat(lists[..|lists| - 1]) + lists[|lists| - 1]
  }

  ghost predicate ReportedBy(e: Envelope, traces: seq<Trace>, suite: seq<Scenario>, report: Report, lists: seq<seq<Violation>>) {
    && |lists| == |suite| == |report.scenarioResults| == report.scenarioCount
    && (forall i :: 0 <= i < |suite| ==> ScenarioReported(e, traces, suite[i], lists[i], report.scenarioResults[i]))
    && report.violations == Concat(lists)
    && report.violationCount == |report.violations|
    && report.verdict == if report.violations == [] then Clear else Hold
  }

  ghost predicate IsReport(e: Envelope, traces: seq<Trace>, suite: seq<Scenario>, report: Report) {
    exists lists :: ReportedBy(e, traces, suite, report, lists)
  }

  /** Scenario s has a trace inside the warehouse, and its loops are well defined. */
  ghost predicate Matched(e: Envelope, traces: seq<Trace>, s: Scenario) {
    && s.id in TraceTable(traces)
    && InsideWarehouse(TraceTable(traces)[s.id], e.bounds)
    && RunFor(e, traces, s).Valid()
  }

  ghost predicate AllMatched(e: Envelope, traces: seq<Trace>, suite: seq<Scenario>) {
    forall i :: 0 <= i < |suite| ==> Matched(e, traces, suite[i])
  }

  /** The declarative safe condition: no rule is broken at any step of any scenario of the suite. */
  ghost predicate AllSafe(e: Envelope, traces: seq<Trace>, suite: seq<Scenario>)
    requires AllMatched(e, traces, suite)
  {
    forall i :: 0 <= i < |suite| ==> RunFor(e, traces, suite[i]).Safe()
  }

  // ---------- Supporting facts ----------

  lemma ParsedEnvelopeRuns(e: Envelope, s: Scenario, t: Trace)
    requires ParseEnvelope(e) == Some(e)
    ensures Run(e.rules, s, t, ZoneTable(e.zones)).Valid()
  {
    var zones := ZoneTable(e.zones);
    EnvelopeIdempotent(e, e);
    TableLookup(ZoneIds(e.zones), e.zones);
    forall r | r in e.rules ensures ZoneKnown(r, zones) {
      assert RuleZoneKnown(r, e.zones);
    }
    forall z | z in zones ensures zones[z].bounds.Positive() {
      assert z in ZoneIds(e.zones);
      var i :| 0 <= i < |e.zones| && ZoneIds(e.zones)[i] == z;
      assert zones[z] == e.zones[i] && e.zones[i] in e.zones;
    }
  }

  lemma ParsedEnvelopeGenerates(e: Envelope)
    requires ParseEnvelope(e) == Some(e)
    ensures ValidGeneration(e) && Unique(ScenarioIds(SuiteOf(e)))
    ensures ParseConfig(e.generation, None) == Some(e.generation)
    ensures ParseSuite(Scenarios.UncheckedSuite(e.generation)) ==
              if e.version == Current then Some(Scenarios.UncheckedSuite(e.generation)) else None
  {
    var g := e.generation;
    assert ParseConfig(g, Some(e.version)) == Some(g);
    assert ParseConfig(g, None) == Some(g);
    Scenarios.ParsedConfigIsValid(g, None, g);
    Scenarios.SuiteAcceptedIffCurrent(g, g);
    Scenarios.GeneratedIsVariedPermutation(g.templates, Xorshift.Stream(g.seed));
  }

  function IdSet(ids: seq<Text>): set<Text> {
    set t | t in ids
  }

  lemma {:induction false} UniqueCardinality(ids: seq<Text>)
    requires Unique(ids)
    ensures |IdSet(ids)| == |ids|
  {
    if ids != [] {
      var n := |ids| - 1;
      UniqueCardinality(ids[..n]);
      assert ids == ids[..n] + [ids[n]];
      assert IdSet(ids) == IdSet(ids[..n]) + {ids[n]};
      assert ids[n] !in ids[..n];
    }
  }

  lemma SubsetOfSameSize(a: set<Text>, b: set<Text>)
    requires a <= b && |a| == |b|
    ensures a == b
  {
    assert |b - a| == |b| - |a|;
  }

  /** Pigeonhole: as many traces as scenarios, unique ids on both sides and membership leave no scenario without a trace. */
  lemma NoScenarioWithoutTrace(traceIds: seq<Text>, scenarioIds: seq<Text>)
    requires Unique(traceIds) && Unique(scenarioIds) && |traceIds| == |scenarioIds|
    requires forall t :: t in traceIds ==> t in scenarioIds
    ensures forall s :: s in scenarioIds ==> s in traceIds
  {
    UniqueCardinality(traceIds);
    UniqueCardinality(scenarioIds);
    SubsetOfSameSize(IdSet(traceIds), IdSet(scenarioIds));
    forall s | s in scenarioIds ensures s in traceIds {
      assert s in IdSet(scenarioIds);
    }
  }

  lemma TraceIdsCovered(traces: seq<Trace>, suite: seq<Scenario>)
    requires Unique(TraceIds(traces)) && Unique(ScenarioIds(suite)) && |traces| == |suite|
    requires forall t :: t in traces ==> t.scenarioId in ScenarioIds(suite)
    ensures forall i :: 0 <= i < |suite| ==> suite[i].id in TraceIds(traces)
  {
    forall id | id in TraceIds(traces) ensures id in ScenarioIds(suite) {
      var i :| 0 <= i < |traces| && TraceIds(traces)[i] == id;
      assert traces[i] in traces;
    }
    NoScenarioWithoutTrace(TraceIds(traces), ScenarioIds(suite));
    forall i | 0 <= i < |suite| ensures suite[i].id in TraceIds(traces) {
      assert ScenarioIds(suite)[i] == suite[i].id;
    }
  }

  lemma EveryScenarioMatched(e: Envelope, traces: seq<Trace>)
    requires Parsed(e, traces) && ValidGeneration(e) && Covered(e, traces)
    ensures AllMatched(e, traces, SuiteOf(e))
  {
    var suite := SuiteOf(e);
    ParsedEnvelopeGenerates(e);
    ParsedTracesUnique(traces);
    TraceIdsCovered(traces, suite);
    TableLookup(TraceIds(traces), traces);
    forall i | 0 <= i < |suite| ensures Matched(e, traces, suite[i]) {
      var k :| 0 <= k < |traces| && TraceIds(traces)[k] == suite[i].id;
      assert traces[k] in traces && TraceTable(traces)[suite[i].id] == traces[k];
      ParsedEnvelopeRuns(e, suite[i], traces[k]);
    }
  }

  lemma ParsedTracesUnique(traces: seq<Trace>)
    requires ParseTraces(traces) == Some(traces)
    ensures Unique(TraceIds(traces))
  {
  }

  // ---------- The source's loop ----------

  /** The report on parsed inputs; the checks of the request come before it. */
  method EvaluateTraces(envelope: Envelope, traces: seq<Trace>) returns (r: Result)
    requires Parsed(envelope, traces)
    ensures r.Evaluated? <==> Evaluable(envelope, traces)
    ensures r.Evaluated? ==>
              && IsReport(envelope, traces, SuiteOf(envelope), r.report)
              && AllMatched(envelope, traces, SuiteOf(envelope))
              && (r.report.verdict == Clear <==> AllSafe(envelope, traces, SuiteOf(envelope)))
    ensures r != Rejected(MissingTrace)
  {
    var scenarios := GenerateSuite(envelope);
    if scenarios.None? { return Rejected(SuiteRejected); }
    var failure := MatchTraces(envelope, traces, scenarios.value);
    if failure.Some? { return Rejected(failure.value); }
    EveryScenarioMatched(envelope, traces);
    var report, missing := Collect(envelope, traces, scenarios.value, TraceTable(traces), ZoneTable(envelope.zones));
    VerdictMeaning(envelope, traces, scenarios.value, report);
    r := if missing then Rejected(MissingTrace) else Evaluated(report);
  }

  method GenerateSuite(e: Envelope) returns (scenarios: Option<seq<Scenario>>)
    requires ParseEnvelope(e) == Some(e)
    ensures ValidGeneration(e)
    ensures scenarios == if e.version == Current then Some(SuiteOf(e)) else None
  {
    ParsedEnvelopeGenerates(e);
    var suite := Scenarios.GenerateScenarioSuite(e.generation);
    scenarios := if suite.Some? then Some(suite.value.scenarios) else None;
  }

  /** The coverage checks before the scenario loop. */
  method MatchTraces(e: Envelope, traces: seq<Trace>, scenarios: seq<Scenario>) returns (failure: Option<Reason>)
    ensures failure.None? <==>
              && |traces| == |scenarios|
              && forall t :: t in traces ==> t.scenarioId in ScenarioIds(scenarios) && InsideWarehouse(t, e.bounds)
    ensures failure != Some(MissingTrace)
  {
    if |traces| != |scenarios| { return Some(TraceCount); }
    for i := 0 to |traces|
      invariant forall k :: 0 <= k < i ==>
                  traces[k].scenarioId in ScenarioIds(scenarios) && InsideWarehouse(traces[k], e.bounds)
    {
      assert traces[i] in traces;
      if traces[i].scenarioId !in ScenarioIds(scenarios) { return Some(UnknownScenario); }
      if !InsideWarehouse(traces[i], e.bounds) { return Some(OutsideWarehouse); }
    }
    failure := None;
  }

  /** The scenario loop. The missing-trace branch is there, and is never taken. */
  method Collect(e: Envelope, traces: seq<Trace>, suite: seq<Scenario>,
                 tracesByScenario: map<Text, Trace>, zones: map<Text, Zone>)
      returns (report: Report, missing: bool)
    requires AllMatched(e, traces, suite)
    requires tracesByScenario == TraceTable(traces) && zones == ZoneTable(e.zones)
    ensures !missing && IsReport(e, traces, suite, report)
  {
    var violations: seq<Violation> := [];
    var scenarioResults: seq<Summary> := [];
    ghost var lists: seq<seq<Violation>> := [];
    missing := false;
    var i := 0;
    while i < |suite| && !missing
      invariant 0 <= i <= |suite| && !missing
      invariant |lists| == |scenarioResults| == i
      invariant forall k :: 0 <= k < i ==> ScenarioReported(e, traces, suite[k], lists[k], scenarioResults[k])
      invariant violations == Concat(lists)
      decreases |suite| - i
    {
      var scenario := suite[i];
      assert Matched(e, traces, scenario);
      if scenario.id in tracesByScenario {
        var list := CollectOne(e, traces, scenario, tracesByScenario[scenario.id], zones);
        violations := violations + list;
        var summary := Summary(scenario.id, if list == [] then Clear else Hold, |list|);
        scenarioResults := scenarioResults + [summary];
        lists := lists + [list];
        assert lists[..i] + [list] == lists;
        i := i + 1;
      } else {
        missing := true;
      }
    }
    report := Report(if violations == [] then Clear else Hold, |suite|, |violations|, scenarioResults, violations);
    assert ReportedBy(e, traces, suite, report, lists);
  }

  method CollectOne(e: Envelope, traces: seq<Trace>, scenario: Scenario, trace: Trace, zones: map<Text, Zone>)
      returns (list: seq<Violation>)
    requires Matched(e, traces, scenario)
    requires trace == TraceTable(traces)[scenario.id] && zones == ZoneTable(e.zones)
    ensures ScenarioReported(e, traces, scenario, list, Summary(scenario.id, if list == [] then Clear else Hold, |list|))
  {
    var found := EvaluateScenario(scenario, trace, e, zones);
    list := found.value;
  }

  // ---------- What a report means ----------

  lemma {:induction false} ConcatEmpty<T>(lists: seq<seq<T>>)
    ensures Concat(lists) == [] <==> forall i :: 0 <= i < |lists| ==> lists[i] == []
  {
    if lists != [] {
      ConcatEmpty(lists[..|lists| - 1]);
    }
  }

  lemma ScenarioVerdict(e: Envelope, traces: seq<Trace>, s: Scenario, list: seq<Violation>, summary: Summary)
    requires ScenarioReported(e, traces, s, list, summary)
    ensures list == [] <==> RunFor(e, traces, s).Safe()
  {
    RunFor(e, traces, s).EmptyIffSafe(list);
  }

  /** CLEAR iff for every scenario, step and rule the declarative condition holds; and the same for each scenario's line. */
  lemma VerdictMeaning(e: Envelope, traces: seq<Trace>, suite: seq<Scenario>, report: Report)
    requires AllMatched(e, traces, suite) && IsReport(e, traces, suite, report)
    ensures report.verdict == Clear <==> AllSafe(e, traces, suite)
    ensures |report.scenarioResults| == |suite|
    ensures forall i :: 0 <= i < |suite| ==>
              Matched(e, traces, suite[i])
              && (report.scenarioResults[i].verdict == Clear <==> RunFor(e, traces, suite[i]).Safe())
  {
    var lists :| ReportedBy(e, traces, suite, report, lists);
    ConcatEmpty(lists);
    forall i | 0 <= i < |suite|
      ensures Matched(e, traces, suite[i])
      ensures lists[i] == [] <==> RunFor(e, traces, suite[i]).Safe()
    {
      ScenarioVerdict(e, traces, suite[i], lists[i], report.scenarioResults[i]);
    }
  }

  /** The verdict of a report on evaluable parts. */
  lemma EvaluableVerdict(e: Envelope, traces: seq<Trace>, report: Report)
    requires Evaluable(e, traces) && IsReport(e, traces, SuiteOf(e), report)
    ensures AllMatched(e, traces, SuiteOf(e))
    ensures report.verdict == Clear <==> AllSafe(e, traces, SuiteOf(e))
  {
    EveryScenarioMatched(e, traces);
    VerdictMeaning(e, traces, SuiteOf(e), report);
  }

  /** The report is a function of the parsed inputs. */
  lemma ReportIsUnique(e: Envelope, traces: seq<Trace>, suite: seq<Scenario>, a: Report, b: Report)
    requires IsReport(e, traces, suite, a) && IsReport(e, traces, suite, b)
    ensures a == b
  {
    var la :| ReportedBy(e, traces, suite, a, la);
    var lb :| ReportedBy(e, traces, suite, b, lb);
    forall i | 0 <= i < |suite| ensures la[i] == lb[i] && a.scenarioResults[i] == b.scenarioResults[i] {
      assert ScenarioReported(e, traces, suite[i], la[i], a.scenarioResults[i]);
      assert ScenarioReported(e, traces, suite[i], lb[i], b.scenarioResults[i]);
      ViolationListIsUnique(RunFor(e, traces, suite[i]), la[i], lb[i]);
    }
    assert la == lb;
    assert a.scenarioResults == b.scenarioResults;
  }

  // ---------- Monotonicity ----------

  /** r2 forbids at least what r1 forbids. */
  ghost predicate Tightens(r1: Rule, z1: map<Text, Zone>, r2: Rule, z2: map<Text, Zone>)
    requires ZoneKnown(r1, z1) && ZoneKnown(r2, z2)
  {
    match (r1, r2)
    case (RestrictedZone(_, a), RestrictedZone(_, b)) => Contains(z2[b].bounds, z1[a].bounds)
    case (SiteSpeedLimit(_, m), SiteSpeedLimit(_, n)) => n <= m
    case (ZoneSpeedLimit(_, a, m), ZoneSpeedLimit(_, b, n)) => Contains(z2[b].bounds, z1[a].bounds) && n <= m
    case (PayloadZoneRestriction(_, a, m), PayloadZoneRestriction(_, b, n)) =>
      Contains(z2[b].bounds, z1[a].bounds) && n <= m
    case _ => false
  }

  ghost predicate Stricter(r1: Rule, z1: map<Text, Zone>, r2: Rule, z2: map<Text, Zone>) {
    ZoneKnown(r1, z1) && ZoneKnown(r2, z2) && Tightens(r1, z1, r2, z2)
  }

  /** Every rule of the first envelope has a counterpart in the second with a lower limit or a larger zone. */
  ghost predicate AtLeastAsStrict(e1: Envelope, e2: Envelope) {
    forall r1 :: r1 in e1.rules ==>
      exists r2 :: r2 in e2.rules && Stricter(r1, ZoneTable(e1.zones), r2, ZoneTable(e2.zones))
  }

  lemma TouchesGrows(steps: seq<Step>, k: nat, small: Rectangle, large: Rectangle)
    requires k < |steps| && Contains(large, small) && Touches(steps, k, small)
    ensures Touches(steps, k, large)
  {
    var from, to := steps[if k == 0 then 0 else k - 1].position, steps[k].position;
    var t: real :| 0.0 <= t <= 1.0 && InsideAt(from, to, t, small);
    assert InsideAt(from, to, t, large);
  }

  lemma TightensBreaks(r1: Rule, z1: map<Text, Zone>, r2: Rule, z2: map<Text, Zone>, s: Scenario, t: Trace, k: nat)
    requires k < |t.steps| && ZoneKnown(r1, z1) && ZoneKnown(r2, z2) && Tightens(r1, z1, r2, z2)
    requires Breaks(r1, s, t, k, z1)
    ensures Breaks(r2, s, t, k, z2)
  {
    if !r1.SiteSpeedLimit? {
      TouchesGrows(t.steps, k, z1[r1.zoneId].bounds, z2[r2.zoneId].bounds);
    }
  }

  /** Lowering limits, enlarging zones or adding rules never turns HOLD into CLEAR on the same scenarios and traces. */
  lemma StricterStaysHeld(e1: Envelope, e2: Envelope, traces: seq<Trace>, suite: seq<Scenario>, report1: Report, report2: Report)
    requires AllMatched(e1, traces, suite) && AllMatched(e2, traces, suite)
    requires AtLeastAsStrict(e1, e2)
    requires IsReport(e1, traces, suite, report1) && IsReport(e2, traces, suite, report2)
    ensures report1.verdict == Hold ==> report2.verdict == Hold
  {
    VerdictMeaning(e1, traces, suite, report1);
    VerdictMeaning(e2, traces, suite, report2);
    if report2.verdict == Clear {
      forall i | 0 <= i < |suite| ensures RunFor(e1, traces, suite[i]).Safe() {
        assert Matched(e1, traces, suite[i]) && Matched(e2, traces, suite[i]);
        StricterSafe(e1, e2, RunFor(e1, traces, suite[i]), RunFor(e2, traces, suite[i]));
      }
    }
  }

  lemma StricterSafe(e1: Envelope, e2: Envelope, run1: Run, run2: Run)
    requires AtLeastAsStrict(e1, e2) && run1.Valid() && run2.Valid()
    requires run1 == Run(e1.rules, run1.scenario, run1.trace, ZoneTable(e1.zones))
    requires run2 == Run(e2.rules, run1.scenario, run1.trace, ZoneTable(e2.zones))
    requires run2.Safe()
    ensures run1.Safe()
  {
    forall q, k | run1.InRange(q, k) ensures !Breaks(run1.rules[q], run1.scenario, run1.trace, k, run1.zones) {
      var r1 := run1.rules[q];
      assert r1 in e1.rules;
      var r2 :| r2 in e2.rules && Stricter(r1, run1.zones, r2, run2.zones);
      var p :| 0 <= p < |e2.rules| && e2.rules[p] == r2;
      assert run2.InRange(p, k);
      if Breaks(r1, run1.scenario, run1.trace, k, run1.zones) {
        TightensBreaks(r1, run1.zones, r2, run2.zones, run1.scenario, run1.trace, k);
      }
    }
  }
}
