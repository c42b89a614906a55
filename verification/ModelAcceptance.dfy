/** What the parsers of envelopes and traces accept, said of the input as it stands, before anything is sorted. */
module ModelAcceptance {
  import opened Text
  import opened Identifiers
  import opened Geometry
  import opened Model
  import Sorting

  // ---------- Distinct ids, in any order ----------

  lemma SameIds<T(!new)>(less: (T, T) -> bool, id: T -> Text, a: seq<T>, b: seq<T>)
    requires forall x, y :: less(x, y) <==> Less(id(x), id(y))
    requires multiset(a) == multiset(b)
    ensures |a| == |b|
    ensures (forall i, j :: 0 <= i < j < |a| ==> id(a[i]) != id(a[j])) <==> (forall i, j :: 0 <= i < j < |b| ==> id(b[i]) != id(b[j]))
  {
    assert |a| == |multiset(a)| == |multiset(b)| == |b|;
    IdOrder(less, id);
    DistinctExactly(less, id, a);
    DistinctExactly(less, id, b);
    if Sorting.Distinguished(less, a) {
      Sorting.DistinguishedPermutes(less, a, b);
    }
    if Sorting.Distinguished(less, b) {
      Sorting.DistinguishedPermutes(less, b, a);
    }
  }

  lemma IdOrder<T(!new)>(less: (T, T) -> bool, id: T -> Text)
    requires forall x, y :: less(x, y) <==> Less(id(x), id(y))
    ensures Sorting.StrictWeakOrder(less)
  {
    forall x ensures !less(x, x) { LessIrreflexive(id(x)); }
    forall x, y, z | less(x, y) && less(y, z) ensures less(x, z) { LessTransitive(id(x), id(y), id(z)); }
    forall x, y, z | !less(x, y) && !less(y, z) ensures !less(x, z) { LessNegativelyTransitive(id(x), id(y), id(z)); }
  }

  lemma DistinctExactly<T(!new)>(less: (T, T) -> bool, id: T -> Text, s: seq<T>)
    requires forall x, y :: less(x, y) <==> Less(id(x), id(y))
    ensures Sorting.Distinguished(less, s) <==> forall i, j :: 0 <= i < j < |s| ==> id(s[i]) != id(s[j])
  {
    forall i, j | 0 <= i < j < |s| ensures less(s[i], s[j]) || less(s[j], s[i]) <==> id(s[i]) != id(s[j]) {
      LessTotal(id(s[i]), id(s[j]));
      LessIrreflexive(id(s[i]));
    }
  }

  predicate DistinctZones(s: seq<Zone>) { forall i, j :: 0 <= i < j < |s| ==> s[i].id != s[j].id }

  predicate DistinctRules(s: seq<Rule>) { forall i, j :: 0 <= i < j < |s| ==> s[i].id != s[j].id }

  predicate DistinctTemplates(s: seq<Template>) { forall i, j :: 0 <= i < j < |s| ==> s[i].id != s[j].id }

  predicate DistinctTraces(s: seq<Trace>) { forall i, j :: 0 <= i < j < |s| ==> s[i].scenarioId != s[j].scenarioId }

  lemma SortedZones(s: seq<Zone>)
    ensures var sorted := Sorting.Sort(ZoneLess, s);
            && (Unique(ZoneIds(sorted)) <==> DistinctZones(s)) && forall z :: z in sorted <==> z in s
  {
    var sorted := Sorting.Sort(ZoneLess, s);
    Sorting.SortPermutes(ZoneLess, s);
    Sorting.SameMembers(sorted, s);
    var id := (z: Zone) => z.id;
    SameIds(ZoneLess, id, s, sorted);
    assert DistinctZones(s) <==> forall i, j :: 0 <= i < j < |s| ==> id(s[i]) != id(s[j]);
    assert DistinctZones(sorted) <==> forall i, j :: 0 <= i < j < |sorted| ==> id(sorted[i]) != id(sorted[j]);
    assert forall i :: 0 <= i < |sorted| ==> ZoneIds(sorted)[i] == sorted[i].id;
    assert Unique(ZoneIds(sorted)) <==> DistinctZones(sorted);
  }

  lemma SortedRules(s: seq<Rule>)
    ensures var sorted := Sorting.Sort(RuleLess, s);
            && (Unique(RuleIds(sorted)) <==> DistinctRules(s)) && forall r :: r in sorted <==> r in s
  {
    var sorted := Sorting.Sort(RuleLess, s);
    Sorting.SortPermutes(RuleLess, s);
    Sorting.SameMembers(sorted, s);
    var id := (r: Rule) => r.id;
    SameIds((a: Rule, b: Rule) => Less(a.id, b.id), id, s, sorted);
    assert DistinctRules(s) <==> forall i, j :: 0 <= i < j < |s| ==> id(s[i]) != id(s[j]);
    assert DistinctRules(sorted) <==> forall i, j :: 0 <= i < j < |sorted| ==> id(sorted[i]) != id(sorted[j]);
    assert forall i :: 0 <= i < |sorted| ==> RuleIds(sorted)[i] == sorted[i].id;
    assert Unique(RuleIds(sorted)) <==> DistinctRules(sorted);
  }

  lemma SortedTemplates(s: seq<Template>)
    ensures var sorted := Sorting.Sort(TemplateLess, s);
            && (Unique(TemplateIds(sorted)) <==> DistinctTemplates(s)) && forall t :: t in sorted <==> t in s
  {
    var sorted := Sorting.Sort(TemplateLess, s);
    Sorting.SortPermutes(TemplateLess, s);
    Sorting.SameMembers(sorted, s);
    var id := (t: Template) => t.id;
    SameIds(TemplateLess, id, s, sorted);
    assert DistinctTemplates(s) <==> forall i, j :: 0 <= i < j < |s| ==> id(s[i]) != id(s[j]);
    assert DistinctTemplates(sorted) <==> forall i, j :: 0 <= i < j < |sorted| ==> id(sorted[i]) != id(sorted[j]);
    assert forall i :: 0 <= i < |sorted| ==> TemplateIds(sorted)[i] == sorted[i].id;
    assert Unique(TemplateIds(sorted)) <==> DistinctTemplates(sorted);
  }

  lemma SortedTraces(s: seq<Trace>)
    ensures var sorted := Sorting.Sort(TraceLess, s);
            && (Unique(TraceIds(sorted)) <==> DistinctTraces(s)) && forall t :: t in sorted <==> t in s
  {
    var sorted := Sorting.Sort(TraceLess, s);
    Sorting.SortPermutes(TraceLess, s);
    Sorting.SameMembers(sorted, s);
    var id := (t: Trace) => t.scenarioId;
    SameIds(TraceLess, id, s, sorted);
    assert DistinctTraces(s) <==> forall i, j :: 0 <= i < j < |s| ==> id(s[i]) != id(s[j]);
    assert DistinctTraces(sorted) <==> forall i, j :: 0 <= i < j < |sorted| ==> id(sorted[i]) != id(sorted[j]);
    assert forall i :: 0 <= i < |sorted| ==> TraceIds(sorted)[i] == sorted[i].scenarioId;
    assert Unique(TraceIds(sorted)) <==> DistinctTraces(sorted);
  }

  // ---------- Configurations ----------

  /** A supported version, a seed in range, and up to the maximum of valid templates with distinct ids. */
  predicate GoodConfig(c: Config) {
    && !c.version.Unsupported? && 1 <= c.seed <= MAX_SEED && 1 <= |c.templates| <= MAX_SCENARIOS
    && DistinctTemplates(c.templates)
    && forall i :: 0 <= i < |c.templates| ==>
         && ValidIdentifier(SCENARIO, c.templates[i].id)
         && 0 <= c.templates[i].variation <= c.templates[i].base && c.templates[i].base + c.templates[i].variation <= MAX_PAYLOAD_GRAMS
  }

  lemma ConfigAcceptedExactly(c: Config, expected: Option<Version>)
    ensures ParseConfig(c, expected).Some? <==> GoodConfig(c) && (expected.None? || expected == Some(c.version))
  {
    SortedTemplates(c.templates);
    assert (forall t | t in c.templates :: ValidTemplate(t)) <==> forall i :: 0 <= i < |c.templates| ==> ValidTemplate(c.templates[i]);
  }

  // ---------- Envelopes ----------

  /** Each zone is a valid rectangle inside the warehouse, under an id of its own. */
  predicate GoodZones(e: Envelope) {
    && 1 <= |e.zones| <= MAX_ZONES && DistinctZones(e.zones)
    && forall i :: 0 <= i < |e.zones| ==>
         ValidIdentifier(ZONE, e.zones[i].id) && ValidRectangle(e.zones[i].bounds) && Contains(e.bounds, e.zones[i].bounds)
  }

  /** The zone of the rule, where it has one, is a zone of the envelope. */
  predicate InZones(r: Rule, zones: seq<Zone>) {
    r.SiteSpeedLimit? || exists i :: 0 <= i < |zones| && zones[i].id == r.zoneId
  }

  /** Each rule is in range and about a zone of the envelope, under an id of its own. */
  predicate GoodRules(e: Envelope) {
    && 1 <= |e.rules| <= MAX_RULES && DistinctRules(e.rules)
    && forall i :: 0 <= i < |e.rules| ==> ValidRule(e.rules[i]) && InZones(e.rules[i], e.zones)
  }

  predicate GoodEnvelope(e: Envelope) {
    && !e.version.Unsupported? && ValidRectangle(e.bounds)
    && ValidIdentifier(SITE, e.siteId) && ValidIdentifier(SAFETY_ENVELOPE, e.safetyEnvelopeId)
    && GoodZones(e) && GoodRules(e) && GoodConfig(e.generation) && e.generation.version == e.version
  }

  lemma ZonesExactly(e: Envelope)
    ensures var zones := Sorting.Sort(ZoneLess, e.zones);
            GoodZones(e) <==>
              && 1 <= |e.zones| <= MAX_ZONES && (forall z | z in e.zones :: ValidZone(z))
              && Unique(ZoneIds(zones)) && (forall z | z in zones :: Contains(e.bounds, z.bounds))
  {
    SortedZones(e.zones);
    if forall z | z in e.zones :: ValidZone(z) && Contains(e.bounds, z.bounds) {
      forall i | 0 <= i < |e.zones| ensures ValidZone(e.zones[i]) && Contains(e.bounds, e.zones[i].bounds) {
        assert e.zones[i] in e.zones;
      }
    }
  }

  lemma KnownExactly(r: Rule, zones: seq<Zone>, sorted: seq<Zone>)
    requires forall z :: z in sorted <==> z in zones
    ensures RuleZoneKnown(r, sorted) <==> InZones(r, zones)
  {
    if !r.SiteSpeedLimit? {
      if r.zoneId in ZoneIds(sorted) {
        var i :| 0 <= i < |sorted| && ZoneIds(sorted)[i] == r.zoneId;
        assert sorted[i] in zones;
        var j :| 0 <= j < |zones| && zones[j] == sorted[i];
      }
      if InZones(r, zones) {
        var i :| 0 <= i < |zones| && zones[i].id == r.zoneId;
        assert zones[i] in sorted;
        var j :| 0 <= j < |sorted| && sorted[j] == zones[i];
        assert ZoneIds(sorted)[j] == r.zoneId;
      }
    }
  }

  lemma RulesExactly(e: Envelope)
    ensures var zones, rules := Sorting.Sort(ZoneLess, e.zones), Sorting.Sort(RuleLess, e.rules);
            GoodRules(e) <==>
              && 1 <= |e.rules| <= MAX_RULES && (forall r | r in e.rules :: ValidRule(r))
              && Unique(RuleIds(rules)) && (forall r | r in rules :: RuleZoneKnown(r, zones))
  {
    var zones, rules := Sorting.Sort(ZoneLess, e.zones), Sorting.Sort(RuleLess, e.rules);
    SortedZones(e.zones);
    SortedRules(e.rules);
    forall r ensures RuleZoneKnown(r, zones) <==> InZones(r, e.zones) {
      KnownExactly(r, e.zones, zones);
    }
    if forall r | r in e.rules :: ValidRule(r) && InZones(r, e.zones) {
      forall i | 0 <= i < |e.rules| ensures ValidRule(e.rules[i]) && InZones(e.rules[i], e.zones) {
        assert e.rules[i] in e.rules;
      }
    }
  }

  /** An envelope is accepted exactly when its zones, rules, configuration and ids are in order as they stand. */
  lemma EnvelopeAcceptedExactly(e: Envelope)
    ensures ParseEnvelope(e).Some? <==> GoodEnvelope(e)
  {
    ZonesExactly(e);
    RulesExactly(e);
    ConfigAcceptedExactly(e.generation, Some(e.version));
  }

  // ---------- Traces ----------

  /** Up to the maximum of traces with distinct ids, each numbered from zero, within the coordinate and speed limits. */
  predicate GoodTraces(traces: seq<Trace>) {
    && 1 <= |traces| <= MAX_SCENARIOS && DistinctTraces(traces)
    && forall i :: 0 <= i < |traces| ==> ValidTrace(traces[i])
  }

  lemma TracesAcceptedExactly(traces: seq<Trace>)
    ensures ParseTraces(traces).Some? <==> GoodTraces(traces)
  {
    SortedTraces(traces);
    assert (forall t | t in traces :: ValidTrace(t)) <==> forall i :: 0 <= i < |traces| ==> ValidTrace(traces[i]);
  }
}
