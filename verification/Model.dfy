/** Warehouse, rules, scenarios and traces, and the parsers that bring them into canonical form. */
module Model {
  import opened Text
  import opened Identifiers
  import opened Geometry
  import Sorting

  const MAX_SPEED_MM_PER_SECOND := 1_000_000
  const MAX_PAYLOAD_GRAMS := 1_000_000_000
  const MAX_ZONES := 128
  const MAX_RULES := 16
  const MAX_SCENARIOS := 16
  const MAX_TRACE_STEPS := 32
  const MAX_SEED := 0xffff_ffff

  /** A schema version as the parsers see it: one of the two dialects, or neither. */
  datatype Version = Current | Legacy | Unsupported

  datatype Zone = Zone(id: Text, bounds: Rectangle)

  datatype Rule =
    | RestrictedZone(id: Text, zoneId: Text)
    | SiteSpeedLimit(id: Text, maximum: int)
    | ZoneSpeedLimit(id: Text, zoneId: Text, maximum: int)
    | PayloadZoneRestriction(id: Text, zoneId: Text, threshold: int)
  {
    /** RULE_FAMILY_RANK. */
    function Rank(): nat {
      match this
      case RestrictedZone(_, _) => 0
      case SiteSpeedLimit(_, _) => 1
      case ZoneSpeedLimit(_, _, _) => 2
      case PayloadZoneRestriction(_, _, _) => 3
    }
  }

  datatype Template = Template(id: Text, base: int, variation: int)

  datatype Config = Config(version: Version, seed: int, templates: seq<Template>)

  datatype Envelope = Envelope(
    version: Version,
    siteId: Text,
    safetyEnvelopeId: Text,
    bounds: Rectangle,
    zones: seq<Zone>,
    rules: seq<Rule>,
    generation: Config)

  datatype Scenario = Scenario(id: Text, payload: int)

  datatype Suite = Suite(version: Version, generatorVersion: Version, seed: int, scenarios: seq<Scenario>)

  datatype Step = Step(stepIndex: int, position: Point, speed: int)

  datatype Trace = Trace(scenarioId: Text, steps: seq<Step>)

  // ---------- Sort orders ----------

  predicate ZoneLess(a: Zone, b: Zone) { Less(a.id, b.id) }

  predicate TemplateLess(a: Template, b: Template) { Less(a.id, b.id) }

  predicate TraceLess(a: Trace, b: Trace) { Less(a.scenarioId, b.scenarioId) }

  predicate RuleLess(a: Rule, b: Rule) {
    if a.Rank() != b.Rank() then a.Rank() < b.Rank() else Less(a.id, b.id)
  }

  // ---------- Uniqueness ----------

  predicate Unique(ids: seq<Text>) {
    forall i, j :: 0 <= i < j < |ids| ==> ids[i] != ids[j]
  }

  function ZoneIds(s: seq<Zone>): seq<Text> { seq(|s|, i requires 0 <= i < |s| => s[i].id) }

  function RuleIds(s: seq<Rule>): seq<Text> { seq(|s|, i requires 0 <= i < |s| => s[i].id) }

  function TemplateIds(s: seq<Template>): seq<Text> { seq(|s|, i requires 0 <= i < |s| => s[i].id) }

  function ScenarioIds(s: seq<Scenario>): seq<Text> { seq(|s|, i requires 0 <= i < |s| => s[i].id) }

  function TraceIds(s: seq<Trace>): seq<Text> { seq(|s|, i requires 0 <= i < |s| => s[i].scenarioId) }

  // ---------- Element parsers ----------

  predicate ValidRectangle(r: Rectangle) {
    && Supported(Point(r.minX, r.minY))
    && Supported(Point(r.maxX, r.maxY))
    && r.Positive()
  }

  predicate Contains(outer: Rectangle, inner: Rectangle) {
    && outer.minX <= inner.minX && inner.maxX <= outer.maxX
    && outer.minY <= inner.minY && inner.maxY <= outer.maxY
  }

  predicate ValidZone(z: Zone) {
    ValidIdentifier(ZONE, z.id) && ValidRectangle(z.bounds)
  }

  predicate ValidSpeed(n: int) { 0 <= n <= MAX_SPEED_MM_PER_SECOND }

  predicate ValidPayload(n: int) { 0 <= n <= MAX_PAYLOAD_GRAMS }

  predicate ValidRule(r: Rule) {
    && ValidIdentifier(RULE, r.id)
    && match r
       case RestrictedZone(_, z) => ValidIdentifier(ZONE, z)
       case SiteSpeedLimit(_, m) => ValidSpeed(m)
       case ZoneSpeedLimit(_, z, m) => ValidIdentifier(ZONE, z) && ValidSpeed(m)
       case PayloadZoneRestriction(_, z, p) => ValidIdentifier(ZONE, z) && ValidPayload(p)
  }

  predicate ValidTemplate(t: Template) {
    && ValidIdentifier(SCENARIO, t.id)
    && ValidPayload(t.base)
    && ValidPayload(t.variation)
    && t.variation <= t.base
    && t.base + t.variation <= MAX_PAYLOAD_GRAMS
  }

  predicate ValidSeed(n: int) { 1 <= n <= MAX_SEED }

  predicate ValidScenario(s: Scenario) {
    ValidIdentifier(SCENARIO, s.id) && ValidPayload(s.payload)
  }

  predicate ValidTrace(t: Trace) {
    && ValidIdentifier(SCENARIO, t.scenarioId)
    && 1 <= |t.steps| <= MAX_TRACE_STEPS
    && forall i :: 0 <= i < |t.steps| ==>
         t.steps[i].stepIndex == i && Supported(t.steps[i].position) && ValidSpeed(t.steps[i].speed)
  }

  // ---------- Collection parsers ----------

  function ParseConfig(c: Config, expected: Option<Version>): (r: Option<Config>) {
    if c.version.Unsupported? || (expected.Some? && expected.value != c.version) then None
    else if !(1 <= |c.templates| <= MAX_SCENARIOS) || !(forall t | t in c.templates :: ValidTemplate(t)) then None
    else
      var templates := Sorting.Sort(TemplateLess, c.templates);
      if !Unique(TemplateIds(templates)) || !ValidSeed(c.seed) then None
      else Some(Config(c.version, c.seed, templates))
  }

  predicate RuleZoneKnown(r: Rule, zones: seq<Zone>) {
    r.SiteSpeedLimit? || r.zoneId in ZoneIds(zones)
  }

  function ParseEnvelope(e: Envelope): (r: Option<Envelope>) {
    if e.version.Unsupported? || !ValidRectangle(e.bounds) then None
    else if !(1 <= |e.zones| <= MAX_ZONES) || !(forall z | z in e.zones :: ValidZone(z)) then None
    else
      var zones := Sorting.Sort(ZoneLess, e.zones);
      if !Unique(ZoneIds(zones)) || !(forall z | z in zones :: Contains(e.bounds, z.bounds)) then None
      else if !(1 <= |e.rules| <= MAX_RULES) || !(forall r | r in e.rules :: ValidRule(r)) then None
      else
        var rules := Sorting.Sort(RuleLess, e.rules);
        if !Unique(RuleIds(rules)) || !(forall r | r in rules :: RuleZoneKnown(r, zones)) then None
        else if !ValidIdentifier(SITE, e.siteId) || !ValidIdentifier(SAFETY_ENVELOPE, e.safetyEnvelopeId) then None
        else
          match ParseConfig(e.generation, Some(e.version))
          case None => None
          case Some(generation) =>
            Some(Envelope(e.version, e.siteId, e.safetyEnvelopeId, e.bounds, zones, rules, generation))
  }

  /** Scenarios keep the order of the shuffle: this parser checks and does not sort. */
  function ParseSuite(s: Suite): (r: Option<Suite>) {
    if s.version.Unsupported? || s.generatorVersion.Unsupported? || s.version != s.generatorVersion then None
    else if !(1 <= |s.scenarios| <= MAX_SCENARIOS) || !(forall x | x in s.scenarios :: ValidScenario(x)) then None
    else if !Unique(ScenarioIds(s.scenarios)) || !ValidSeed(s.seed) then None
    else Some(s)
  }

  function ParseTraces(traces: seq<Trace>): (r: Option<seq<Trace>>) {
    if !(1 <= |traces| <= MAX_SCENARIOS) || !(forall t | t in traces :: ValidTrace(t)) then None
    else
      var sorted := Sorting.Sort(TraceLess, traces);
      if !Unique(TraceIds(sorted)) then None else Some(sorted)
  }

  // ---------- The orders are strict weak orders, and unique ids make them decisive ----------

  lemma OrdersAreStrictWeak()
    ensures Sorting.StrictWeakOrder(ZoneLess)
    ensures Sorting.StrictWeakOrder(TemplateLess)
    ensures Sorting.StrictWeakOrder(TraceLess)
    ensures Sorting.StrictWeakOrder(RuleLess)
  {
    forall a ensures !Less(a, a) { LessIrreflexive(a); }
    forall a, b, c | Less(a, b) && Less(b, c) ensures Less(a, c) { LessTransitive(a, b, c); }
    forall a, b, c | !Less(a, b) && !Less(b, c) ensures !Less(a, c) { LessNegativelyTransitive(a, b, c); }
  }

  lemma UniqueIdsDistinguish(ids: seq<Text>, i: nat, j: nat)
    requires Unique(ids) && i < j < |ids|
    ensures Less(ids[i], ids[j]) || Less(ids[j], ids[i])
  {
    LessTotal(ids[i], ids[j]);
  }

  lemma UniqueDistinguishes(zones: seq<Zone>, rules: seq<Rule>, templates: seq<Template>, traces: seq<Trace>)
    ensures Unique(ZoneIds(zones)) ==> Sorting.Distinguished(ZoneLess, zones)
    ensures Unique(RuleIds(rules)) ==> Sorting.Distinguished(RuleLess, rules)
    ensures Unique(TemplateIds(templates)) ==> Sorting.Distinguished(TemplateLess, templates)
    ensures Unique(TraceIds(traces)) ==> Sorting.Distinguished(TraceLess, traces)
  {
    forall i, j | 0 <= i < j < |zones| && Unique(ZoneIds(zones))
      ensures ZoneLess(zones[i], zones[j]) || ZoneLess(zones[j], zones[i])
    {
      UniqueIdsDistinguish(ZoneIds(zones), i, j);
    }
    forall i, j | 0 <= i < j < |rules| && Unique(RuleIds(rules))
      ensures RuleLess(rules[i], rules[j]) || RuleLess(rules[j], rules[i])
    {
      UniqueIdsDistinguish(RuleIds(rules), i, j);
    }
    forall i, j | 0 <= i < j < |templates| && Unique(TemplateIds(templates))
      ensures TemplateLess(templates[i], templates[j]) || TemplateLess(templates[j], templates[i])
    {
      UniqueIdsDistinguish(TemplateIds(templates), i, j);
    }
    forall i, j | 0 <= i < j < |traces| && Unique(TraceIds(traces))
      ensures TraceLess(traces[i], traces[j]) || TraceLess(traces[j], traces[i])
    {
      UniqueIdsDistinguish(TraceIds(traces), i, j);
    }
  }

  // ---------- Parsing is a canonical form ----------

  ghost predicate SameConfigUpToOrder(a: Config, b: Config) {
    && a == b.(templates := a.templates)
    && multiset(a.templates) == multiset(b.templates)
  }

  /** The inputs differ at most in the order of zones, rules and templates. */
  ghost predicate SameUpToOrder(a: Envelope, b: Envelope) {
    && a == b.(zones := a.zones, rules := a.rules, generation := a.generation)
    && multiset(a.zones) == multiset(b.zones)
    && multiset(a.rules) == multiset(b.rules)
    && SameConfigUpToOrder(a.generation, b.generation)
  }

  lemma ConfigOrderIrrelevant(a: Config, b: Config, expected: Option<Version>)
    requires SameConfigUpToOrder(a, b)
    ensures ParseConfig(a, expected) == ParseConfig(b, expected)
  {
    OrdersAreStrictWeak();
    Sorting.SameMembers(a.templates, b.templates);
    var sa, sb := Sorting.Sort(TemplateLess, a.templates), Sorting.Sort(TemplateLess, b.templates);
    UniqueDistinguishes([], [], sa, []);
    UniqueDistinguishes([], [], sb, []);
    if Unique(TemplateIds(sa)) || Unique(TemplateIds(sb)) {
      Sorting.SortCanonical(TemplateLess, a.templates, b.templates);
    }
  }

  /** Any permutation of zones, rules and templates parses to the same value, or is rejected alike. */
  lemma EnvelopeOrderIrrelevant(a: Envelope, b: Envelope)
    requires SameUpToOrder(a, b)
    ensures ParseEnvelope(a) == ParseEnvelope(b)
  {
    OrdersAreStrictWeak();
    Sorting.SameMembers(a.zones, b.zones);
    Sorting.SameMembers(a.rules, b.rules);
    var za, zb := Sorting.Sort(ZoneLess, a.zones), Sorting.Sort(ZoneLess, b.zones);
    var ra, rb := Sorting.Sort(RuleLess, a.rules), Sorting.Sort(RuleLess, b.rules);
    UniqueDistinguishes(za, ra, [], []);
    UniqueDistinguishes(zb, rb, [], []);
    if Unique(ZoneIds(za)) || Unique(ZoneIds(zb)) {
      Sorting.SortCanonical(ZoneLess, a.zones, b.zones);
    }
    if Unique(RuleIds(ra)) || Unique(RuleIds(rb)) {
      Sorting.SortCanonical(RuleLess, a.rules, b.rules);
    }
    ConfigOrderIrrelevant(a.generation, b.generation, Some(a.version));
  }

  lemma TraceOrderIrrelevant(a: seq<Trace>, b: seq<Trace>)
    requires multiset(a) == multiset(b)
    ensures ParseTraces(a) == ParseTraces(b)
  {
    OrdersAreStrictWeak();
    Sorting.SameMembers(a, b);
    var sa, sb := Sorting.Sort(TraceLess, a), Sorting.Sort(TraceLess, b);
    UniqueDistinguishes([], [], [], sa);
    UniqueDistinguishes([], [], [], sb);
    if Unique(TraceIds(sa)) || Unique(TraceIds(sb)) {
      Sorting.SortCanonical(TraceLess, a, b);
    }
  }

  /** A parsed configuration holds the given templates, strictly sorted by id, and parses to itself. */
  lemma ConfigIdempotent(c: Config, expected: Option<Version>, p: Config)
    requires ParseConfig(c, expected) == Some(p)
    ensures multiset(p.templates) == multiset(c.templates)
    ensures Sorting.StrictlySorted(TemplateLess, p.templates)
    ensures ParseConfig(p, expected) == Some(p)
  {
    OrdersAreStrictWeak();
    Sorting.SortPermutes(TemplateLess, c.templates);
    Sorting.SameMembers(c.templates, p.templates);
    UniqueDistinguishes([], [], p.templates, []);
    Sorting.SortIdempotent(TemplateLess, c.templates);
  }

  lemma EnvelopeIdempotent(e: Envelope, p: Envelope)
    requires ParseEnvelope(e) == Some(p)
    ensures multiset(p.zones) == multiset(e.zones) && Sorting.StrictlySorted(ZoneLess, p.zones)
    ensures multiset(p.rules) == multiset(e.rules) && Sorting.StrictlySorted(RuleLess, p.rules)
    ensures ParseEnvelope(p) == Some(p)
  {
    OrdersAreStrictWeak();
    Sorting.SortPermutes(ZoneLess, e.zones);
    Sorting.SortPermutes(RuleLess, e.rules);
    Sorting.SameMembers(e.zones, p.zones);
    Sorting.SameMembers(e.rules, p.rules);
    UniqueDistinguishes(p.zones, p.rules, [], []);
    Sorting.SortIdempotent(ZoneLess, e.zones);
    Sorting.SortIdempotent(RuleLess, e.rules);
    ConfigIdempotent(e.generation, Some(e.version), p.generation);
  }

  lemma TracesIdempotent(traces: seq<Trace>, p: seq<Trace>)
    requires ParseTraces(traces) == Some(p)
    ensures multiset(p) == multiset(traces) && Sorting.StrictlySorted(TraceLess, p)
    ensures ParseTraces(p) == Some(p)
  {
    OrdersAreStrictWeak();
    Sorting.SortPermutes(TraceLess, traces);
    Sorting.SameMembers(traces, p);
    UniqueDistinguishes([], [], [], p);
    Sorting.SortIdempotent(TraceLess, traces);
  }
}
