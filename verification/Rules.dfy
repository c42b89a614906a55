/** One rule against one step of one trace: the evaluator's branch structure and its declarative meaning. */
module Rules {
  import opened Text
  import opened Geometry
  import opened Model
  import Sorting

  datatype Observation =
    | PointObservation(stepIndex: nat, position: Point)
    | SegmentObservation(stepIndex: nat, from: Point, to: Point)

  datatype Violation =
    | RestrictedZoneViolation(scenarioId: Text, ruleId: Text, observation: Observation, zoneId: Text)
    | SiteSpeedViolation(scenarioId: Text, ruleId: Text, observation: Observation, observed: int, limit: int)
    | ZoneSpeedViolation(scenarioId: Text, ruleId: Text, observation: Observation, zoneId: Text, observed: int, limit: int)
    | PayloadViolation(scenarioId: Text, ruleId: Text, observation: Observation, zoneId: Text, observed: int, limit: int)
  {
    function Rank(): nat {
      match this
      case RestrictedZoneViolation(_, _, _, _) => 0
      case SiteSpeedViolation(_, _, _, _, _) => 1
      case ZoneSpeedViolation(_, _, _, _, _, _) => 2
      case PayloadViolation(_, _, _, _, _, _) => 3
    }
  }

  /** The comparator of the final sort: step, then rule family, then rule id. */
  predicate ViolationLess(a: Violation, b: Violation) {
    if a.observation.stepIndex != b.observation.stepIndex then a.observation.stepIndex < b.observation.stepIndex
    else if a.Rank() != b.Rank() then a.Rank() < b.Rank()
    else Less(a.ruleId, b.ruleId)
  }

  lemma ViolationOrderIsStrictWeak()
    ensures Sorting.StrictWeakOrder(ViolationLess)
  {
    forall a ensures !Less(a, a) { LessIrreflexive(a); }
    forall a, b, c | Less(a, b) && Less(b, c) ensures Less(a, c) { LessTransitive(a, b, c); }
    forall a, b, c | !Less(a, b) && !Less(b, c) ensures !Less(a, c) { LessNegativelyTransitive(a, b, c); }
  }

  // ---------- The source's functions ----------

  function ObservationForStep(steps: seq<Step>, k: nat): Observation
    requires k < |steps|
  {
    if k == 0 then PointObservation(k, steps[k].position)
    else SegmentObservation(k, steps[k - 1].position, steps[k].position)
  }

  predicate IntersectsZone(steps: seq<Step>, k: nat, zone: Zone)
    requires k < |steps|
  {
    if k == 0 then PointInside(steps[k].position, zone.bounds)
    else SegmentIntersectsRectangle(steps[k - 1].position, steps[k].position, zone.bounds)
  }

  /** Every rule other than a site speed limit names a zone of the table. */
  predicate ZoneKnown(rule: Rule, zones: map<Text, Zone>) {
    rule.SiteSpeedLimit? || rule.zoneId in zones
  }

  function EvaluateRule(rule: Rule, scenario: Scenario, trace: Trace, k: nat, zones: map<Text, Zone>): Option<Violation>
    requires k < |trace.steps| && ZoneKnown(rule, zones)
  {
    var step := trace.steps[k];
    var observation := ObservationForStep(trace.steps, k);
    if rule.SiteSpeedLimit? then
      if step.speed <= rule.maximum then None
      else Some(SiteSpeedViolation(scenario.id, rule.id, observation, step.speed, rule.maximum))
    else
      var zone := zones[rule.zoneId];
      if !IntersectsZone(trace.steps, k, zone) then None
      else if rule.RestrictedZone? then
        Some(RestrictedZoneViolation(scenario.id, rule.id, observation, rule.zoneId))
      else if rule.ZoneSpeedLimit? then
        if step.speed <= rule.maximum then None
        else Some(ZoneSpeedViolation(scenario.id, rule.id, observation, rule.zoneId, step.speed, rule.maximum))
      else
        if scenario.payload <= rule.threshold then None
        else Some(PayloadViolation(scenario.id, rule.id, observation, rule.zoneId, scenario.payload, rule.threshold))
  }

  // ---------- The declarative meaning ----------

  /** The robot is somewhere in the closed zone during step k: at the start point, or anywhere on the segment that arrives. */
  ghost predicate Touches(steps: seq<Step>, k: nat, bounds: Rectangle)
    requires k < |steps|
  {
    if k == 0 then PathMeets(steps[0].position, steps[0].position, bounds)
    else PathMeets(steps[k - 1].position, steps[k].position, bounds)
  }

  ghost predicate Breaks(rule: Rule, scenario: Scenario, trace: Trace, k: nat, zones: map<Text, Zone>)
    requires k < |trace.steps| && ZoneKnown(rule, zones)
  {
    match rule
    case RestrictedZone(_, z) => Touches(trace.steps, k, zones[z].bounds)
    case SiteSpeedLimit(_, limit) => trace.steps[k].speed > limit
    case ZoneSpeedLimit(_, z, limit) => Touches(trace.steps, k, zones[z].bounds) && trace.steps[k].speed > limit
    case PayloadZoneRestriction(_, z, limit) => Touches(trace.steps, k, zones[z].bounds) && scenario.payload > limit
  }

  ghost predicate PositiveZones(zones: map<Text, Zone>) {
    forall z :: z in zones ==> zones[z].bounds.Positive()
  }

  lemma IntersectsZoneIsTouches(steps: seq<Step>, k: nat, zone: Zone)
    requires k < |steps| && zone.bounds.Positive()
    ensures IntersectsZone(steps, k, zone) <==> Touches(steps, k, zone.bounds)
  {
    if k == 0 {
      StationaryMeets(steps[0].position, zone.bounds);
    } else {
      SegmentTestExact(steps[k - 1].position, steps[k].position, zone.bounds);
    }
  }

  /** A path that does not move meets a rectangle iff its one point is inside. */
  lemma StationaryMeets(p: Point, r: Rectangle)
    ensures PathMeets(p, p, r) <==> PointInside(p, r)
  {
    AtEnds(p.x, p.x);
    AtEnds(p.y, p.y);
    if PointInside(p, r) {
      assert InsideAt(p, p, 0.0, r);
    }
  }

  /** The numbers of a violation: what was observed, above the limit the rule sets, in the rule's own zone. */
  predicate Truthful(v: Violation, rule: Rule, scenario: Scenario, step: Step) {
    && (!v.SiteSpeedViolation? ==> !rule.SiteSpeedLimit? && v.zoneId == rule.zoneId)
    && (!v.RestrictedZoneViolation? ==> v.observed > v.limit)
    && (v.SiteSpeedViolation? ==> rule.SiteSpeedLimit? && v.observed == step.speed && v.limit == rule.maximum)
    && (v.ZoneSpeedViolation? ==> rule.ZoneSpeedLimit? && v.observed == step.speed && v.limit == rule.maximum)
    && (v.PayloadViolation? ==> rule.PayloadZoneRestriction? && v.observed == scenario.payload && v.limit == rule.threshold)
  }

  /** Where the violation was seen: at the start point, or on the way from the position before to this one. */
  predicate SeenAt(o: Observation, steps: seq<Step>, k: nat)
    requires k < |steps|
  {
    && o.stepIndex == k
    && if k == 0 then o.PointObservation? && o.position == steps[0].position
       else o.SegmentObservation? && o.from == steps[k - 1].position && o.to == steps[k].position
  }

  /** The integer evaluator reports a violation iff the real-geometry condition is broken, and reports it truthfully. */
  lemma EvaluateRuleMeaning(rule: Rule, scenario: Scenario, trace: Trace, k: nat, zones: map<Text, Zone>)
    requires k < |trace.steps| && ZoneKnown(rule, zones) && PositiveZones(zones)
    ensures var r := EvaluateRule(rule, scenario, trace, k, zones);
            && (r.Some? <==> Breaks(rule, scenario, trace, k, zones))
            && (r.Some? ==>
                 && r.value.ruleId == rule.id && r.value.scenarioId == scenario.id
                 && r.value.Rank() == rule.Rank() && SeenAt(r.value.observation, trace.steps, k)
                 && Truthful(r.value, rule, scenario, trace.steps[k]))
  {
    if !rule.SiteSpeedLimit? {
      IntersectsZoneIsTouches(trace.steps, k, zones[rule.zoneId]);
    }
  }

  // ---------- The whole polyline ----------

  /** The real point (x, y) lies on the robot's path, drawn through all its positions. */
  ghost predicate OnPolyline(steps: seq<Step>, x: real, y: real) {
    exists k, t: real :: 0 <= k < |steps| && 0.0 <= t <= 1.0 && PassesThrough(steps, k, t, x, y)
  }

  ghost predicate PassesThrough(steps: seq<Step>, k: nat, t: real, x: real, y: real)
    requires k < |steps|
  {
    var from := steps[if k == 0 then 0 else k - 1].position;
    x == At(from.x, steps[k].position.x, t) && y == At(from.y, steps[k].position.y, t)
  }

  ghost predicate RealPointInside(x: real, y: real, r: Rectangle) {
    r.minX as real <= x <= r.maxX as real && r.minY as real <= y <= r.maxY as real
  }

  /** Never touching at any step is the same as no point of the whole polyline lying in the zone. */
  lemma NeverTouchesIsOutsidePolyline(steps: seq<Step>, bounds: Rectangle)
    ensures (forall k :: 0 <= k < |steps| ==> !Touches(steps, k, bounds))
       <==> (forall x, y :: OnPolyline(steps, x, y) ==> !RealPointInside(x, y, bounds))
  {
    forall x, y | OnPolyline(steps, x, y) && RealPointInside(x, y, bounds)
      ensures exists k :: 0 <= k < |steps| && Touches(steps, k, bounds)
    {
      var k, t: real :| 0 <= k < |steps| && 0.0 <= t <= 1.0 && PassesThrough(steps, k, t, x, y);
      assert InsideAt(steps[if k == 0 then 0 else k - 1].position, steps[k].position, t, bounds);
      assert Touches(steps, k, bounds);
    }
    forall k | 0 <= k < |steps| && Touches(steps, k, bounds)
      ensures exists x, y :: OnPolyline(steps, x, y) && RealPointInside(x, y, bounds)
    {
      var from, to := steps[if k == 0 then 0 else k - 1].position, steps[k].position;
      var t: real :| 0.0 <= t <= 1.0 && InsideAt(from, to, t, bounds);
      var x, y := At(from.x, to.x, t), At(from.y, to.y, t);
      assert PassesThrough(steps, k, t, x, y);
      assert OnPolyline(steps, x, y);
      assert RealPointInside(x, y, bounds);
    }
  }
}
