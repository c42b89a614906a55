/** The scenario loops and the verdict. */
module Evaluator {
  import opened Text
  import opened Geometry
  import opened Model
  import opened Rules
  import Sorting

  // ---------- One scenario ----------

  /** Everything the loops of one scenario read. */
  datatype Run = Run(rules: seq<Rule>, scenario: Scenario, trace: Trace, zones: map<Text, Zone>) {

    ghost predicate Valid() {
      && (forall r :: r in rules ==> ZoneKnown(r, zones))
      && PositiveZones(zones)
      && Sorting.StrictlySorted(RuleLess, rules)
      && Unique(RuleIds(rules))
    }

    predicate InRange(q: int, k: int) {
      0 <= q < |rules| && 0 <= k < |trace.steps|
    }

    /** What the evaluator reports for rule q at step k. */
    function Fire(q: int, k: int): Option<Violation>
      requires Valid() && InRange(q, k)
    {
      EvaluateRule(rules[q], scenario, trace, k, zones)
    }

    /** Step k is the first at which rule q is broken, in the real-geometry sense. */
    ghost predicate FirstBreak(q: int, k: int)
      requires Valid() && InRange(q, k)
    {
      && Breaks(rules[q], scenario, trace, k, zones)
      && forall j :: 0 <= j < k ==> !Breaks(rules[q], scenario, trace, j, zones)
    }

    ghost predicate Safe()
      requires Valid()
    {
      forall q, k :: InRange(q, k) ==> !Breaks(rules[q], scenario, trace, k, zones)
    }

    ghost predicate Reports(v: Violation, q: int, k: int)
      requires Valid()
    {
      InRange(q, k) && FirstBreak(q, k) && Fire(q, k) == Some(v)
    }

    /** One entry per broken rule, at its earliest breaking step, in the published order. */
    ghost predicate IsViolationList(list: seq<Violation>)
      requires Valid()
    {
      && Sorting.StrictlySorted(ViolationLess, list)
      && (forall v :: v in list ==> exists q, k :: Reports(v, q, k))
      && (forall q, k :: InRange(q, k) && FirstBreak(q, k) ==> exists v :: v in list && Reports(v, q, k))
    }

    lemma FireMeaning(q: int, k: int)
      requires Valid() && InRange(q, k)
      ensures Fire(q, k).Some? <==> Breaks(rules[q], scenario, trace, k, zones)
      ensures Fire(q, k).Some? ==>
                && Fire(q, k).value.ruleId == rules[q].id
                && Fire(q, k).value.Rank() == rules[q].Rank()
                && Fire(q, k).value.observation.stepIndex == k
    {
      EvaluateRuleMeaning(rules[q], scenario, trace, k, zones);
    }

    /** The loops have passed rule q at step k when they stand at step i, rule j. */
    predicate Passed(q: int, k: int, i: int, j: int) {
      k < i || (k == i && q < j)
    }

    ghost predicate Failed(q: int, i: int, j: int)
      requires Valid() && 0 <= q < |rules|
    {
      exists k :: InRange(q, k) && Passed(q, k, i, j) && Fire(q, k).Some?
    }

    /** marks[m] is the (step, rule) position of the m-th entry. */
    ghost predicate Marked(list: seq<Violation>, marks: seq<(int, int)>, i: int, j: int)
      requires Valid()
    {
      && |marks| == |list|
      && (forall m :: 0 <= m < |marks| ==> MarkFits(list[m], marks[m].0, marks[m].1, i, j))
      && (forall m, n :: 0 <= m < n < |marks| ==> Passed(marks[m].1, marks[m].0, marks[n].0, marks[n].1))
      && (forall q :: 0 <= q < |rules| && Failed(q, i, j) ==> exists m :: 0 <= m < |marks| && marks[m].1 == q)
    }

    ghost predicate MarkFits(v: Violation, k: int, q: int, i: int, j: int)
      requires Valid()
    {
      && InRange(q, k) && Passed(q, k, i, j)
      && Fire(q, k) == Some(v)
      && forall k' :: 0 <= k' < k ==> Fire(q, k').None?
    }

    lemma FailedStep(q: int, i: int, j: int)
      requires Valid() && 0 <= q < |rules| && InRange(j, i)
      ensures Failed(q, i, j + 1) <==> Failed(q, i, j) || (q == j && Fire(j, i).Some?)
    {
      if Failed(q, i, j + 1) {
        var k :| InRange(q, k) && Passed(q, k, i, j + 1) && Fire(q, k).Some?;
        assert Passed(q, k, i, j) || (q == j && k == i);
      }
      if q == j && Fire(j, i).Some? {
        assert Passed(q, i, i, j + 1);
      }
    }

    lemma FailedNextStep(q: int, i: int)
      requires Valid() && 0 <= q < |rules| && 0 <= i < |trace.steps|
      ensures Failed(q, i, |rules|) <==> Failed(q, i + 1, 0)
    {
      if Failed(q, i, |rules|) {
        var k :| InRange(q, k) && Passed(q, k, i, |rules|) && Fire(q, k).Some?;
        assert Passed(q, k, i + 1, 0);
      }
      if Failed(q, i + 1, 0) {
        var k :| InRange(q, k) && Passed(q, k, i + 1, 0) && Fire(q, k).Some?;
        assert Passed(q, k, i, |rules|);
      }
    }

    /** Positions in loop order are violations in published order, because the rules are sorted. */
    lemma MarksAreSorted(list: seq<Violation>, marks: seq<(int, int)>, i: int, j: int)
      requires Valid() && Marked(list, marks, i, j)
      ensures Sorting.StrictlySorted(ViolationLess, list)
    {
      forall m, n | 0 <= m < n < |list| ensures ViolationLess(list[m], list[n]) {
        assert MarkFits(list[m], marks[m].0, marks[m].1, i, j);
        assert MarkFits(list[n], marks[n].0, marks[n].1, i, j);
        FireMeaning(marks[m].1, marks[m].0);
        FireMeaning(marks[n].1, marks[n].0);
        assert Passed(marks[m].1, marks[m].0, marks[n].0, marks[n].1);
        if marks[m].0 == marks[n].0 {
          assert RuleLess(rules[marks[m].1], rules[marks[n].1]);
        }
      }
    }

    lemma MarksAreComplete(list: seq<Violation>, marks: seq<(int, int)>)
      requires Valid() && Marked(list, marks, |trace.steps|, 0)
      ensures IsViolationList(list)
    {
      var n := |trace.steps|;
      MarksAreSorted(list, marks, n, 0);
      forall m | 0 <= m < |list| ensures Reports(list[m], marks[m].1, marks[m].0) {
        var q, k := marks[m].1, marks[m].0;
        assert MarkFits(list[m], k, q, n, 0);
        FireMeaning(q, k);
        forall j | 0 <= j < k ensures !Breaks(rules[q], scenario, trace, j, zones) {
          FireMeaning(q, j);
        }
      }
      forall q, k | InRange(q, k) && FirstBreak(q, k) ensures exists v :: v in list && Reports(v, q, k) {
        FireMeaning(q, k);
        assert Passed(q, k, n, 0);
        assert Failed(q, n, 0);
        var m :| 0 <= m < |marks| && marks[m].1 == q;
        assert Reports(list[m], q, marks[m].0);
        assert marks[m].0 == k;
      }
    }

    /** The list is empty exactly when nothing is ever broken. */
    lemma EmptyIffSafe(list: seq<Violation>)
      requires Valid() && IsViolationList(list)
      ensures list == [] <==> Safe()
    {
      if list != [] {
        assert list[0] in list;
        var q, k :| Reports(list[0], q, k);
      }
      if !Safe() {
        var q, k :| InRange(q, k) && Breaks(rules[q], scenario, trace, k, zones);
        var first := Earliest(q, k);
        var v :| v in list && Reports(v, q, first);
      }
    }

    lemma Earliest(q: int, k: int) returns (first: int)
      requires Valid() && InRange(q, k) && Breaks(rules[q], scenario, trace, k, zones)
      ensures InRange(q, first) && FirstBreak(q, first)
    {
      first := k;
      while exists j :: 0 <= j < first && Breaks(rules[q], scenario, trace, j, zones)
        invariant InRange(q, first) && Breaks(rules[q], scenario, trace, first, zones)
        decreases first
      {
        var j :| 0 <= j < first && Breaks(rules[q], scenario, trace, j, zones);
        first := j;
      }
    }
  }

  /** The specification leaves no choice: a scenario has exactly one violation list. */
  lemma ViolationListIsUnique(run: Run, a: seq<Violation>, b: seq<Violation>)
    requires run.Valid() && run.IsViolationList(a) && run.IsViolationList(b)
    ensures a == b
  {
    forall v | v in a ensures v in b {
      var q, k :| run.Reports(v, q, k);
      var w :| w in b && run.Reports(w, q, k);
    }
    forall v | v in b ensures v in a {
      var q, k :| run.Reports(v, q, k);
      var w :| w in a && run.Reports(w, q, k);
    }
    ViolationOrderIsStrictWeak();
    Sorting.SortedBySet(ViolationLess, a, b);
  }

  predicate InsideWarehouse(trace: Trace, bounds: Rectangle) {
    forall i :: 0 <= i < |trace.steps| ==> PointInside(trace.steps[i].position, bounds)
  }

  /** evaluateScenario: rejects a trace that leaves the warehouse, and otherwise collects first violations. */
  method EvaluateScenario(scenario: Scenario, trace: Trace, envelope: Envelope, zones: map<Text, Zone>)
      returns (r: Option<seq<Violation>>)
    requires Run(envelope.rules, scenario, trace, zones).Valid()
    ensures r.Some? <==> InsideWarehouse(trace, envelope.bounds)
    ensures r.Some? ==> Run(envelope.rules, scenario, trace, zones).IsViolationList(r.value)
  {
    if !InsideWarehouse(trace, envelope.bounds) {
      return None;
    }
    var rules := envelope.rules;
    ghost var run := Run(rules, scenario, trace, zones);
    var violations: seq<Violation> := [];
    ghost var marks: seq<(int, int)> := [];
    var failedRules: set<Text> := {};
    for stepIndex := 0 to |trace.steps|
      invariant run.Marked(violations, marks, stepIndex, 0)
      invariant forall q :: 0 <= q < |rules| ==> (rules[q].id in failedRules <==> run.Failed(q, stepIndex, 0))
    {
      for j := 0 to |rules|
        invariant run.Marked(violations, marks, stepIndex, j)
        invariant forall q :: 0 <= q < |rules| ==> (rules[q].id in failedRules <==> run.Failed(q, stepIndex, j))
      {
        AdvanceRule(run, violations, marks, stepIndex, j);
        if rules[j].id !in failedRules {
          var violation := EvaluateRule(rules[j], scenario, trace, stepIndex, zones);
          if violation.Some? {
            failedRules := failedRules + {rules[j].id};
            violations := violations + [violation.value];
            marks := marks + [(stepIndex, j)];
          }
        }
      }
      AdvanceStep(run, violations, marks, stepIndex);
    }
    run.MarksAreComplete(violations, marks);
    ViolationOrderIsStrictWeak();
    Sorting.SortKeepsSorted(ViolationLess, violations);
    violations := Sorting.Sort(ViolationLess, violations);
    r := Some(violations);
  }

  /** One inner iteration: what stays true when rule j is skipped or quiet, and when it is recorded. */
  lemma AdvanceRule(run: Run, list: seq<Violation>, marks: seq<(int, int)>, i: int, j: int)
    requires run.Valid() && run.InRange(j, i) && run.Marked(list, marks, i, j)
    ensures forall q :: 0 <= q < |run.rules| ==>
              (run.Failed(q, i, j + 1) <==> run.Failed(q, i, j) || (q == j && run.Fire(j, i).Some?))
    ensures forall q :: 0 <= q < |run.rules| && q != j ==> run.rules[q].id != run.rules[j].id
    ensures run.Failed(j, i, j) || run.Fire(j, i).None? ==> run.Marked(list, marks, i, j + 1)
    ensures !run.Failed(j, i, j) && run.Fire(j, i).Some? ==>
              run.Marked(list + [run.Fire(j, i).value], marks + [(i, j)], i, j + 1)
  {
    forall q | 0 <= q < |run.rules|
      ensures run.Failed(q, i, j + 1) <==> run.Failed(q, i, j) || (q == j && run.Fire(j, i).Some?)
    {
      run.FailedStep(q, i, j);
    }
    forall q | 0 <= q < |run.rules| && q != j ensures run.rules[q].id != run.rules[j].id {
      assert RuleIds(run.rules)[q] != RuleIds(run.rules)[j];
    }
    if run.Failed(j, i, j) || run.Fire(j, i).None? {
      SkipKeepsMarks(run, list, marks, i, j);
    } else {
      RecordKeepsMarks(run, list, marks, i, j);
    }
  }

  lemma FitsLater(run: Run, list: seq<Violation>, marks: seq<(int, int)>, i: int, j: int, i': int, j': int)
    requires run.Valid() && run.Marked(list, marks, i, j)
    requires forall q, k :: run.InRange(q, k) && run.Passed(q, k, i, j) ==> run.Passed(q, k, i', j')
    ensures forall m :: 0 <= m < |marks| ==> run.MarkFits(list[m], marks[m].0, marks[m].1, i', j')
  {
    forall m | 0 <= m < |marks| ensures run.MarkFits(list[m], marks[m].0, marks[m].1, i', j') {
      assert run.MarkFits(list[m], marks[m].0, marks[m].1, i, j);
    }
  }

  lemma SkipKeepsMarks(run: Run, list: seq<Violation>, marks: seq<(int, int)>, i: int, j: int)
    requires run.Valid() && run.InRange(j, i) && run.Marked(list, marks, i, j)
    requires run.Failed(j, i, j) || run.Fire(j, i).None?
    ensures run.Marked(list, marks, i, j + 1)
  {
    FitsLater(run, list, marks, i, j, i, j + 1);
    var next := j + 1;
    forall q | 0 <= q < |run.rules| && run.Failed(q, i, next)
      ensures exists m :: 0 <= m < |marks| && marks[m].1 == q
    {
      run.FailedStep(q, i, j);
    }
  }

  lemma RecordKeepsMarks(run: Run, list: seq<Violation>, marks: seq<(int, int)>, i: int, j: int)
    requires run.Valid() && run.InRange(j, i) && run.Marked(list, marks, i, j)
    requires !run.Failed(j, i, j) && run.Fire(j, i).Some?
    ensures run.Marked(list + [run.Fire(j, i).value], marks + [(i, j)], i, j + 1)
  {
    FitsLater(run, list, marks, i, j, i, j + 1);
    RecordsFirst(run, i, j);
    var marks' := marks + [(i, j)];
    forall m, n | 0 <= m < n < |marks'|
      ensures run.Passed(marks'[m].1, marks'[m].0, marks'[n].0, marks'[n].1)
    {
      assert run.MarkFits(list[m], marks[m].0, marks[m].1, i, j);
    }
    var next := j + 1;
    forall q | 0 <= q < |run.rules| && run.Failed(q, i, next)
      ensures exists m :: 0 <= m < |marks'| && marks'[m].1 == q
    {
      run.FailedStep(q, i, j);
      if q == j {
        assert marks'[|marks|].1 == q;
      } else {
        var m :| 0 <= m < |marks| && marks[m].1 == q;
        assert marks'[m].1 == q;
      }
    }
  }

  lemma RecordsFirst(run: Run, i: int, j: int)
    requires run.Valid() && run.InRange(j, i) && !run.Failed(j, i, j) && run.Fire(j, i).Some?
    ensures run.MarkFits(run.Fire(j, i).value, i, j, i, j + 1)
  {
    forall k | 0 <= k < i ensures run.Fire(j, k).None? {
      assert run.Passed(j, k, i, j);
    }
  }

  lemma AdvanceStep(run: Run, list: seq<Violation>, marks: seq<(int, int)>, i: int)
    requires run.Valid() && 0 <= i < |run.trace.steps| && run.Marked(list, marks, i, |run.rules|)
    ensures run.Marked(list, marks, i + 1, 0)
    ensures forall q :: 0 <= q < |run.rules| ==> (run.Failed(q, i, |run.rules|) <==> run.Failed(q, i + 1, 0))
  {
    forall q | 0 <= q < |run.rules|
      ensures run.Failed(q, i, |run.rules|) <==> run.Failed(q, i + 1, 0)
    {
      run.FailedNextStep(q, i);
    }
    FitsLater(run, list, marks, i, |run.rules|, i + 1, 0);
    var next := i + 1;
    forall q | 0 <= q < |run.rules| && run.Failed(q, next, 0)
      ensures exists m :: 0 <= m < |marks| && marks[m].1 == q
    {
      run.FailedNextStep(q, i);
    }
  }
}
