/** The members of an envelope commitment, by name and in the order in which the canonical text writes them. */
module CommitmentTexts {
  import opened Text
  import opened Unicode
  import opened Values
  import opened Digests
  import opened Schemas
  import opened Geometry
  import opened Commitments
  import opened RecordTexts
  import M = Model

  const RECTANGLE_NAMES: seq<Text> := [Ascii("maxXmm"), Ascii("maxYmm"), Ascii("minXmm"), Ascii("minYmm")]
  const RECTANGLE_ORDER: seq<nat> := [2, 3, 0, 1]

  lemma RectangleNamesArranged()
    ensures Orders(RECTANGLE_NAMES, RECTANGLE_KEYS, RECTANGLE_ORDER)
  {
    var o := RECTANGLE_ORDER;
    RectangleKeysDistinct();
    InOrderBy(RECTANGLE_NAMES, [0, 3, 1, 3]);
    assert o[2] == 0 && o[3] == 1 && o[0] == 2 && o[1] == 3;
  }

  /** The bounds of a zone or a warehouse. */
  lemma RectangleMembers(r: Rectangle)
    ensures Normal(RectangleData(r)) == Zip(RECTANGLE_NAMES, [Int(r.maxX), Int(r.maxY), Int(r.minX), Int(r.minY)])
  {
    RectangleNamesArranged();
    NormalZip(RECTANGLE_KEYS, [Int(r.minX), Int(r.minY), Int(r.maxX), Int(r.maxY)], RECTANGLE_NAMES, RECTANGLE_ORDER,
              [Int(r.maxX), Int(r.maxY), Int(r.minX), Int(r.minY)]);
  }

  const ZONE_NAMES: seq<Text> := [Ascii("bounds"), Ascii("zoneId")]
  const TEMPLATE_NAMES: seq<Text> := [Ascii("basePayloadGrams"), Ascii("payloadVariationGrams"), Ascii("scenarioId")]

  lemma ZoneNamesArranged()
    ensures Orders(ZONE_NAMES, ZONE_KEYS, [1, 0]) && Orders(TEMPLATE_NAMES, TEMPLATE_KEYS, [1, 2, 0])
  {
    var z, t: seq<nat> := [1, 0], [1, 2, 0];
    Records.KeysDiffer(ZONE_KEYS, 0);
    Records.KeysDiffer(TEMPLATE_KEYS, 0);
    InOrderBy(ZONE_NAMES, [0, 0]);
    InOrderBy(TEMPLATE_NAMES, [0, 0, 0]);
    assert z[1] == 0 && z[0] == 1 && t[2] == 0 && t[0] == 1 && t[1] == 2;
  }

  lemma ZoneMembers(z: M.Zone)
    ensures Normal(ZoneData(z)) == Zip(ZONE_NAMES, [Normal(RectangleData(z.bounds)), Str(z.id)])
  {
    ZoneNamesArranged();
    NormalZip(ZONE_KEYS, [Str(z.id), RectangleData(z.bounds)], ZONE_NAMES, [1, 0], [Normal(RectangleData(z.bounds)), Str(z.id)]);
  }

  lemma TemplateMembers(t: M.Template)
    ensures Normal(TemplateData(t)) == Zip(TEMPLATE_NAMES, [Int(t.base), Int(t.variation), Str(t.id)])
  {
    ZoneNamesArranged();
    NormalZip(TEMPLATE_KEYS, [Str(t.id), Int(t.base), Int(t.variation)], TEMPLATE_NAMES, [1, 2, 0], [Int(t.base), Int(t.variation), Str(t.id)]);
  }

  // ---------- Rules ----------

  const RESTRICTED_NAMES: seq<Text> := [Ascii("ruleId"), Ascii("type"), Ascii("zoneId")]
  const SITE_SPEED_NAMES: seq<Text> := [Ascii("maximumMmPerSecond"), Ascii("ruleId"), Ascii("type")]
  const ZONE_SPEED_NAMES: seq<Text> := [Ascii("maximumMmPerSecond"), Ascii("ruleId"), Ascii("type"), Ascii("zoneId")]
  const PAYLOAD_ZONE_NAMES: seq<Text> := [Ascii("payloadGreaterThanGrams"), Ascii("ruleId"), Ascii("type"), Ascii("zoneId")]

  lemma RuleNamesArranged()
    ensures Orders(RESTRICTED_NAMES, RuleKeys(0), [1, 0, 2]) && Orders(SITE_SPEED_NAMES, RuleKeys(1), [2, 1, 0])
  {
    var a, b: seq<nat> := [1, 0, 2], [2, 1, 0];
    RuleKeysDistinct(0);
    RuleKeysDistinct(1);
    InOrderBy(RESTRICTED_NAMES, [0, 0, 0]);
    InOrderBy(SITE_SPEED_NAMES, [0, 0, 0]);
    assert a[1] == 0 && a[0] == 1 && a[2] == 2 && b[2] == 0 && b[1] == 1 && b[0] == 2;
  }

  lemma ZoneRuleNamesArranged()
    ensures Orders(ZONE_SPEED_NAMES, RuleKeys(2), [3, 1, 0, 2]) && Orders(PAYLOAD_ZONE_NAMES, RuleKeys(3), [3, 1, 0, 2])
  {
    var o: seq<nat> := [3, 1, 0, 2];
    RuleKeysDistinct(2);
    RuleKeysDistinct(3);
    InOrderBy(ZONE_SPEED_NAMES, [0, 0, 0, 0]);
    InOrderBy(PAYLOAD_ZONE_NAMES, [0, 0, 0, 0]);
    assert o[2] == 0 && o[1] == 1 && o[3] == 2 && o[0] == 3;
  }

  /** The four types of rule, each under its name and with its own members. */
  lemma RuleMembers(r: M.Rule)
    ensures Normal(RuleData(r)) ==
              match r
              case RestrictedZone(id, zone) => Zip(RESTRICTED_NAMES, [Str(id), Str(Ascii("restricted-zone")), Str(zone)])
              case SiteSpeedLimit(id, maximum) => Zip(SITE_SPEED_NAMES, [Int(maximum), Str(id), Str(Ascii("site-speed-limit"))])
              case ZoneSpeedLimit(id, zone, maximum) =>
                Zip(ZONE_SPEED_NAMES, [Int(maximum), Str(id), Str(Ascii("zone-speed-limit")), Str(zone)])
              case PayloadZoneRestriction(id, zone, threshold) =>
                Zip(PAYLOAD_ZONE_NAMES, [Int(threshold), Str(id), Str(Ascii("payload-zone-restriction")), Str(zone)])
  {
    var keys, v := RuleKeys(r.Rank()), RuleValues(r);
    match r
    case RestrictedZone(id, zone) =>
      RuleNamesArranged();
      NormalZip(keys, v, RESTRICTED_NAMES, [1, 0, 2], [Str(id), Str(Ascii("restricted-zone")), Str(zone)]);
    case SiteSpeedLimit(id, maximum) =>
      RuleNamesArranged();
      NormalZip(keys, v, SITE_SPEED_NAMES, [2, 1, 0], [Int(maximum), Str(id), Str(Ascii("site-speed-limit"))]);
    case ZoneSpeedLimit(id, zone, maximum) =>
      ZoneRuleNamesArranged();
      NormalZip(keys, v, ZONE_SPEED_NAMES, [3, 1, 0, 2], [Int(maximum), Str(id), Str(Ascii("zone-speed-limit")), Str(zone)]);
    case PayloadZoneRestriction(id, zone, threshold) =>
      ZoneRuleNamesArranged();
      NormalZip(keys, v, PAYLOAD_ZONE_NAMES, [3, 1, 0, 2], [Int(threshold), Str(id), Str(Ascii("payload-zone-restriction")), Str(zone)]);
  }

  // ---------- The commitment ----------

  const CONFIG_NAMES: seq<Text> := [Ascii("generatorVersion"), Ascii("seed"), Ascii("templates")]

  const PAYLOAD_NAMES: seq<Text> := [
    Ascii("rules"), Ascii("scenarioGeneration"), Ascii("schemaVersion"), Ascii("warehouseBounds"), Ascii("zones")]

  lemma PayloadNamesArranged()
    ensures Orders(CONFIG_NAMES, CONFIG_KEYS, [0, 1, 2]) && Orders(PAYLOAD_NAMES, PAYLOAD_KEYS, [3, 4, 0, 1, 2])
  {
    var c, p: seq<nat> := [0, 1, 2], [3, 4, 0, 1, 2];
    Records.KeysDiffer(CONFIG_KEYS, 0);
    Records.KeysDiffer(PAYLOAD_KEYS, 0);
    InOrderBy(CONFIG_NAMES, [0, 0, 0]);
    InOrderBy(PAYLOAD_NAMES, [0, 0, 2, 0, 0]);
    assert c[0] == 0 && c[1] == 1 && c[2] == 2;
    assert p[2] == 0 && p[3] == 1 && p[4] == 2 && p[0] == 3 && p[1] == 4;
  }

  lemma ConfigMembers(c: M.Config)
    ensures Normal(ConfigData(c)) == Zip(CONFIG_NAMES, [
              Str(Version(DialectOf(c.version), GENERATOR_SCHEMA)), Int(c.seed), Normal(Listed(TemplateData, c.templates))])
  {
    PayloadNamesArranged();
    NormalZip(CONFIG_KEYS, ConfigValues(c), CONFIG_NAMES, [0, 1, 2], [
              Str(Version(DialectOf(c.version), GENERATOR_SCHEMA)), Int(c.seed), Normal(Listed(TemplateData, c.templates))]);
  }

  lemma PayloadMembers(e: M.Envelope)
    ensures Normal(PayloadData(e)) == Zip(PAYLOAD_NAMES, [
              Normal(Listed(RuleData, e.rules)), Normal(ConfigData(e.generation)), Str(Version(DialectOf(e.version), ENVELOPE_SCHEMA)),
              Normal(RectangleData(e.bounds)), Normal(Listed(ZoneData, e.zones))])
  {
    PayloadNamesArranged();
    NormalZip(PAYLOAD_KEYS, PayloadValues(e), PAYLOAD_NAMES, [3, 4, 0, 1, 2], [
              Normal(Listed(RuleData, e.rules)), Normal(ConfigData(e.generation)), Str(Version(DialectOf(e.version), ENVELOPE_SCHEMA)),
              Normal(RectangleData(e.bounds)), Normal(Listed(ZoneData, e.zones))]);
  }

  const COMMITMENT_NAMES: seq<Text> := [
    Ascii("blindingSecret"), Ascii("confidentialPayload"), Ascii("safetyEnvelopeId"), Ascii("schemaVersion"), Ascii("siteId")]

  lemma CommitmentNamesArranged()
    ensures Orders(COMMITMENT_NAMES, COMMITMENT_KEYS, [4, 3, 2, 0, 1])
  {
    var o: seq<nat> := [4, 3, 2, 0, 1];
    Records.KeysDiffer(COMMITMENT_KEYS, 0);
    InOrderBy(COMMITMENT_NAMES, [0, 0, 0, 1, 1]);
    assert o[3] == 0 && o[4] == 1 && o[2] == 2 && o[1] == 3 && o[0] == 4;
  }

  /** What a commitment is taken of: the blind in hexadecimal, the payload, and the two public identifiers. */
  lemma CommitmentMembers(e: M.Envelope, blind: seq<Byte>)
    ensures Normal(CommitmentData(e, blind)) == Zip(COMMITMENT_NAMES, [
              Str(Hex(blind)), Normal(PayloadData(e)), Str(e.safetyEnvelopeId),
              Str(Version(DialectOf(e.version), COMMITMENT_SCHEMA)), Str(e.siteId)])
  {
    CommitmentNamesArranged();
    NormalZip(COMMITMENT_KEYS, CommitmentValues(e, blind), COMMITMENT_NAMES, [4, 3, 2, 0, 1], [
              Str(Hex(blind)), Normal(PayloadData(e)), Str(e.safetyEnvelopeId),
              Str(Version(DialectOf(e.version), COMMITMENT_SCHEMA)), Str(e.siteId)]);
  }

  /** A commitment is hashed in its own domain. */
  lemma CommitmentHashed(h: Hashing, e: M.Envelope, blind: seq<Byte>)
    requires Commitment(h, e, blind).Some?
    ensures |blind| == 32
    ensures HashesAs(h, Commitment(h, e, blind), "digest.safety-envelope-commitment/v1", DialectOf(e.version), CommitmentData(e, blind))
  {
    KindHashes(h, SafetyEnvelopeCommitment, "digest.safety-envelope-commitment/v1", DialectOf(e.version), CommitmentData(e, blind));
  }
}
