/** The public commitment to a confidential envelope: what is digested of it, and that it names the envelope. */
module Commitments {
  import opened Text
  import opened Unicode
  import opened Values
  import opened Digests
  import opened Schemas
  import opened Geometry
  import Records
  import M = Model

  // ---------- Normal forms of records and lists ----------

  lemma SameZip(keys: seq<Text>, v: seq<Data>, w: seq<Data>)
    requires |keys| == |v| == |w| && DistinctTexts(keys)
    requires forall i :: 0 <= i < |v| ==> Proper(v[i]) && Proper(w[i])
    requires Normal(Zip(keys, v)) == Normal(Zip(keys, w))
    ensures forall i :: 0 <= i < |v| ==> Normal(v[i]) == Normal(w[i])
  {
    ZipNormalRead(keys, v);
    ZipNormalRead(keys, w);
    forall i | 0 <= i < |v| ensures Normal(v[i]) == Normal(w[i]) {
      assert Normal(v[i]) == NormalItems(v)[i] == NormalItems(w)[i] == Normal(w[i]);
    }
  }

  function Listed<T>(write: T -> Data, s: seq<T>): Data {
    List(seq(|s|, i requires 0 <= i < |s| => write(s[i])))
  }

  /** A printer that names its argument, up to the order of members. */
  ghost predicate Names<T(!new)>(write: T -> Data) {
    && (forall x :: Proper(write(x)))
    && (forall x, y :: Normal(write(x)) == Normal(write(y)) ==> x == y)
  }

  lemma ListedNames<T(!new)>(write: T -> Data, a: seq<T>, b: seq<T>)
    requires Names(write)
    ensures Proper(Listed(write, a))
    ensures Normal(Listed(write, a)) == Normal(Listed(write, b)) ==> a == b
  {
    var x, y := Listed(write, a).items, Listed(write, b).items;
    if NormalItems(x) == NormalItems(y) {
      assert |a| == |NormalItems(x)| == |NormalItems(y)| == |b|;
      forall i | 0 <= i < |a| ensures a[i] == b[i] {
        assert Normal(write(a[i])) == NormalItems(x)[i] == NormalItems(y)[i] == Normal(write(b[i]));
      }
    }
  }

  function Int(n: int): Data {
    Num(Integral(n))
  }

  // ---------- The parts of an envelope ----------

  const RECTANGLE_KEYS: seq<Text> := [Ascii("minXmm"), Ascii("minYmm"), Ascii("maxXmm"), Ascii("maxYmm")]

  function RectangleData(r: Rectangle): Data {
    Zip(RECTANGLE_KEYS, [Int(r.minX), Int(r.minY), Int(r.maxX), Int(r.maxY)])
  }

  lemma RectangleKeysDistinct()
    ensures DistinctTexts(RECTANGLE_KEYS)
  {
    var k := RECTANGLE_KEYS;
    assert k[0][1] == k[1][1] == 0x69 && k[2][1] == k[3][1] == 0x61;
    assert k[0][3] == k[2][3] == 0x58 && k[1][3] == k[3][3] == 0x59;
  }

  lemma RectangleNames()
    ensures Names(RectangleData)
  {
    RectangleKeysDistinct();
    forall r ensures Proper(RectangleData(r)) {
      ZipProper(RECTANGLE_KEYS, [Int(r.minX), Int(r.minY), Int(r.maxX), Int(r.maxY)]);
    }
    forall a, b | Normal(RectangleData(a)) == Normal(RectangleData(b)) ensures a == b {
      var v, w := [Int(a.minX), Int(a.minY), Int(a.maxX), Int(a.maxY)], [Int(b.minX), Int(b.minY), Int(b.maxX), Int(b.maxY)];
      SameZip(RECTANGLE_KEYS, v, w);
      assert Normal(v[0]) == Normal(w[0]) && Normal(v[1]) == Normal(w[1]) && Normal(v[2]) == Normal(w[2]) && Normal(v[3]) == Normal(w[3]);
    }
  }

  const ZONE_KEYS: seq<Text> := [Ascii("zoneId"), Ascii("bounds")]

  function ZoneData(z: M.Zone): Data {
    Zip(ZONE_KEYS, [Str(z.id), RectangleData(z.bounds)])
  }

  lemma ZoneNames()
    ensures Names(ZoneData)
  {
    RectangleNames();
    Records.KeysDiffer(ZONE_KEYS, 0);
    forall z ensures Proper(ZoneData(z)) {
      ZipProper(ZONE_KEYS, [Str(z.id), RectangleData(z.bounds)]);
    }
    forall a, b | Normal(ZoneData(a)) == Normal(ZoneData(b)) ensures a == b {
      var v, w := [Str(a.id), RectangleData(a.bounds)], [Str(b.id), RectangleData(b.bounds)];
      SameZip(ZONE_KEYS, v, w);
      assert Normal(v[0]) == Normal(w[0]) && Normal(v[1]) == Normal(w[1]);
    }
  }

  const TEMPLATE_KEYS: seq<Text> := [Ascii("scenarioId"), Ascii("basePayloadGrams"), Ascii("payloadVariationGrams")]

  function TemplateData(t: M.Template): Data {
    Zip(TEMPLATE_KEYS, [Str(t.id), Int(t.base), Int(t.variation)])
  }

  lemma TemplateNames()
    ensures Names(TemplateData)
  {
    Records.KeysDiffer(TEMPLATE_KEYS, 0);
    forall t ensures Proper(TemplateData(t)) {
      ZipProper(TEMPLATE_KEYS, [Str(t.id), Int(t.base), Int(t.variation)]);
    }
    forall a, b | Normal(TemplateData(a)) == Normal(TemplateData(b)) ensures a == b {
      var v, w := [Str(a.id), Int(a.base), Int(a.variation)], [Str(b.id), Int(b.base), Int(b.variation)];
      SameZip(TEMPLATE_KEYS, v, w);
      assert Normal(v[0]) == Normal(w[0]) && Normal(v[1]) == Normal(w[1]) && Normal(v[2]) == Normal(w[2]);
    }
  }

  const RULE_TYPE: Text := Ascii("type")
  const RULE_ID: Text := Ascii("ruleId")
  const ZONE_ID: Text := Ascii("zoneId")
  const MAXIMUM: Text := Ascii("maximumMmPerSecond")
  const THRESHOLD: Text := Ascii("payloadGreaterThanGrams")

  function RuleKeys(rank: nat): seq<Text> {
    if rank == 0 then [RULE_TYPE, RULE_ID, ZONE_ID]
    else if rank == 1 then [RULE_TYPE, RULE_ID, MAXIMUM]
    else if rank == 2 then [RULE_TYPE, RULE_ID, ZONE_ID, MAXIMUM]
    else [RULE_TYPE, RULE_ID, ZONE_ID, THRESHOLD]
  }

  /** The type of a rule, as it is written. */
  function RuleType(rank: nat): Text {
    if rank == 0 then Ascii("restricted-zone")
    else if rank == 1 then Ascii("site-speed-limit")
    else if rank == 2 then Ascii("zone-speed-limit")
    else Ascii("payload-zone-restriction")
  }

  function RuleValues(r: M.Rule): (v: seq<Data>)
    ensures |v| == |RuleKeys(r.Rank())| && v[0] == Str(RuleType(r.Rank()))
  {
    [Str(RuleType(r.Rank())), Str(r.id)]
    + match r
      case RestrictedZone(_, zone) => [Str(zone)]
      case SiteSpeedLimit(_, maximum) => [Int(maximum)]
      case ZoneSpeedLimit(_, zone, maximum) => [Str(zone), Int(maximum)]
      case PayloadZoneRestriction(_, zone, threshold) => [Str(zone), Int(threshold)]
  }

  function RuleData(r: M.Rule): Data {
    Zip(RuleKeys(r.Rank()), RuleValues(r))
  }

  lemma RuleKeysDistinct(rank: nat)
    ensures DistinctTexts(RuleKeys(rank))
  {
    Records.KeysDiffer(RuleKeys(rank), 0);
  }

  /** The normal form still names the type of the rule. */
  lemma RuleTypeRead(r: M.Rule)
    ensures Proper(RuleData(r))
    ensures Normal(RuleData(r)).Record? && HasName(Normal(RuleData(r)).fields, RULE_TYPE)
    ensures Lookup(Normal(RuleData(r)).fields, RULE_TYPE) == Str(RuleType(r.Rank()))
  {
    var keys, v := RuleKeys(r.Rank()), RuleValues(r);
    RuleKeysDistinct(r.Rank());
    ZipProper(keys, v);
    ZipNormalRead(keys, v);
    assert ExactValues(Normal(RuleData(r)), keys).value[0] == NormalItems(v)[0] == Normal(v[0]);
    assert HasName(Normal(RuleData(r)).fields, keys[0]);
  }

  lemma RuleTypesDiffer(a: nat, b: nat)
    requires a < 4 && b < 4 && RuleType(a) == RuleType(b)
    ensures a == b
  {
    assert RuleType(1)[0] == 0x73 && RuleType(2)[0] == 0x7a;
  }

  lemma RuleOfValues(a: M.Rule, b: M.Rule)
    requires a.Rank() == b.Rank()
    requires forall i :: 0 <= i < |RuleValues(a)| ==> Normal(RuleValues(a)[i]) == Normal(RuleValues(b)[i])
    ensures a == b
  {
    var v, w := RuleValues(a), RuleValues(b);
    assert Normal(v[1]) == Normal(w[1]) && Normal(v[2]) == Normal(w[2]);
    if a.Rank() >= 2 {
      assert Normal(v[3]) == Normal(w[3]);
    }
  }

  lemma RuleNamed(a: M.Rule, b: M.Rule)
    requires Normal(RuleData(a)) == Normal(RuleData(b))
    ensures a == b
  {
    RuleTypeRead(a);
    RuleTypeRead(b);
    RuleTypesDiffer(a.Rank(), b.Rank());
    RuleKeysDistinct(a.Rank());
    SameZip(RuleKeys(a.Rank()), RuleValues(a), RuleValues(b));
    RuleOfValues(a, b);
  }

  lemma RuleNames()
    ensures Names(RuleData)
  {
    forall r ensures Proper(RuleData(r)) {
      RuleTypeRead(r);
    }
    forall a, b | Normal(RuleData(a)) == Normal(RuleData(b)) ensures a == b {
      RuleNamed(a, b);
    }
  }

  // ---------- The payload ----------

  /** The dialect of an accepted version. */
  function DialectOf(v: M.Version): Dialect {
    if v == M.Legacy then Legacy else Current
  }

  const ENVELOPE_SCHEMA: Text := Ascii("confidential-evaluation-envelope/v1")
  const GENERATOR_SCHEMA: Text := Ascii("xorshift32-scenarios/v1")
  const COMMITMENT_SCHEMA: Text := Ascii("safety-envelope-commitment/v1")

  const CONFIG_KEYS: seq<Text> := [Ascii("generatorVersion"), Ascii("seed"), Ascii("templates")]

  function ConfigValues(c: M.Config): (v: seq<Data>)
    ensures |v| == 3
  {
    [Str(Version(DialectOf(c.version), GENERATOR_SCHEMA)), Int(c.seed), Listed(TemplateData, c.templates)]
  }

  function ConfigData(c: M.Config): Data {
    Zip(CONFIG_KEYS, ConfigValues(c))
  }

  lemma VersionNames(a: Dialect, b: Dialect, suffix: Text)
    ensures Version(a, suffix) == Version(b, suffix) ==> a == b
  {
    VersionResolved(a, suffix);
    VersionResolved(b, suffix);
  }

  lemma ConfigProper(c: M.Config)
    ensures Proper(ConfigData(c)) && forall i :: 0 <= i < 3 ==> Proper(ConfigValues(c)[i])
  {
    Records.KeysDiffer(CONFIG_KEYS, 0);
    TemplateNames();
    ListedNames(TemplateData, c.templates, c.templates);
    ZipProper(CONFIG_KEYS, ConfigValues(c));
  }

  lemma ConfigNamed(a: M.Config, b: M.Config)
    requires !a.version.Unsupported? && !b.version.Unsupported? && Normal(ConfigData(a)) == Normal(ConfigData(b))
    ensures a == b
  {
    var v, w := ConfigValues(a), ConfigValues(b);
    Records.KeysDiffer(CONFIG_KEYS, 0);
    ConfigProper(a);
    ConfigProper(b);
    SameZip(CONFIG_KEYS, v, w);
    assert Normal(v[0]) == Normal(w[0]) && Normal(v[1]) == Normal(w[1]) && Normal(v[2]) == Normal(w[2]);
    VersionNames(DialectOf(a.version), DialectOf(b.version), GENERATOR_SCHEMA);
    TemplateNames();
    ListedNames(TemplateData, a.templates, b.templates);
  }

  const PAYLOAD_KEYS: seq<Text> := [
    Ascii("schemaVersion"), Ascii("warehouseBounds"), Ascii("zones"), Ascii("rules"), Ascii("scenarioGeneration")]

  function PayloadValues(e: M.Envelope): (v: seq<Data>)
    ensures |v| == 5
  {
    [Str(Version(DialectOf(e.version), ENVELOPE_SCHEMA)), RectangleData(e.bounds), Listed(ZoneData, e.zones),
     Listed(RuleData, e.rules), ConfigData(e.generation)]
  }

  /** The confidential payload, without the two public identifiers. */
  function PayloadData(e: M.Envelope): Data {
    Zip(PAYLOAD_KEYS, PayloadValues(e))
  }

  lemma PayloadProper(e: M.Envelope)
    ensures DistinctTexts(PAYLOAD_KEYS) && Proper(PayloadData(e)) && forall i :: 0 <= i < 5 ==> Proper(PayloadValues(e)[i])
  {
    Records.KeysDiffer(PAYLOAD_KEYS, 0);
    RectangleNames();
    ZoneNames();
    RuleNames();
    ListedNames(ZoneData, e.zones, e.zones);
    ListedNames(RuleData, e.rules, e.rules);
    ConfigProper(e.generation);
    ZipProper(PAYLOAD_KEYS, PayloadValues(e));
  }

  /** Equal up to the two public identifiers. */
  predicate SamePayload(a: M.Envelope, b: M.Envelope) {
    && a.version == b.version && a.bounds == b.bounds && a.zones == b.zones && a.rules == b.rules && a.generation == b.generation
  }

  predicate Supported(e: M.Envelope) {
    !e.version.Unsupported? && !e.generation.version.Unsupported?
  }

  lemma PayloadOfValues(a: M.Envelope, b: M.Envelope)
    requires Supported(a) && Supported(b)
    requires forall i :: 0 <= i < 5 ==> Normal(PayloadValues(a)[i]) == Normal(PayloadValues(b)[i])
    ensures SamePayload(a, b)
  {
    var v, w := PayloadValues(a), PayloadValues(b);
    assert Normal(v[0]) == Normal(w[0]) && Normal(v[1]) == Normal(w[1]) && Normal(v[2]) == Normal(w[2]);
    assert Normal(v[3]) == Normal(w[3]) && Normal(v[4]) == Normal(w[4]);
    VersionNames(DialectOf(a.version), DialectOf(b.version), ENVELOPE_SCHEMA);
    RectangleNames();
    ZoneNames();
    RuleNames();
    ListedNames(ZoneData, a.zones, b.zones);
    ListedNames(RuleData, a.rules, b.rules);
    ConfigNamed(a.generation, b.generation);
  }

  lemma PayloadNamed(a: M.Envelope, b: M.Envelope)
    requires Supported(a) && Supported(b) && Normal(PayloadData(a)) == Normal(PayloadData(b))
    ensures SamePayload(a, b)
  {
    PayloadProper(a);
    PayloadProper(b);
    SameZip(PAYLOAD_KEYS, PayloadValues(a), PayloadValues(b));
    PayloadOfValues(a, b);
  }

  // ---------- The commitment ----------

  const COMMITMENT_KEYS: seq<Text> := [
    Ascii("schemaVersion"), Ascii("siteId"), Ascii("safetyEnvelopeId"), Ascii("confidentialPayload"), Ascii("blindingSecret")]

  const BLIND_OCTETS: nat := 32

  function CommitmentValues(e: M.Envelope, blind: seq<Byte>): (v: seq<Data>)
    ensures |v| == 5
  {
    [Str(Version(DialectOf(e.version), COMMITMENT_SCHEMA)), Str(e.siteId), Str(e.safetyEnvelopeId), PayloadData(e), Str(Hex(blind))]
  }

  function CommitmentData(e: M.Envelope, blind: seq<Byte>): Data {
    Zip(COMMITMENT_KEYS, CommitmentValues(e, blind))
  }

  function CommitmentBytes(h: Hashing, e: M.Envelope, blind: seq<Byte>): Option<seq<Byte>> {
    FrameBytes(h, Domain(SafetyEnvelopeCommitment, DialectOf(e.version)), ProtocolVersion(DialectOf(e.version)), CommitmentData(e, blind))
  }

  /** digestSafetyEnvelopeCommitment: refused without a blind of 32 octets. */
  function Commitment(h: Hashing, e: M.Envelope, blind: seq<Byte>): Option<Text> {
    if |blind| != BLIND_OCTETS then None
    else Digest(h, Domain(SafetyEnvelopeCommitment, DialectOf(e.version)), ProtocolVersion(DialectOf(e.version)), CommitmentData(e, blind))
  }

  lemma CommitmentProper(e: M.Envelope, blind: seq<Byte>)
    ensures DistinctTexts(COMMITMENT_KEYS) && Proper(CommitmentData(e, blind))
    ensures forall i :: 0 <= i < 5 ==> Proper(CommitmentValues(e, blind)[i])
  {
    Records.KeysDiffer(COMMITMENT_KEYS, 0);
    PayloadProper(e);
    ZipProper(COMMITMENT_KEYS, CommitmentValues(e, blind));
  }

  lemma CommitmentDataNames(a: M.Envelope, x: seq<Byte>, b: M.Envelope, y: seq<Byte>)
    requires Supported(a) && Supported(b) && Same(CommitmentData(a, x), CommitmentData(b, y))
    ensures a == b && x == y
  {
    var v, w := CommitmentValues(a, x), CommitmentValues(b, y);
    CommitmentProper(a, x);
    CommitmentProper(b, y);
    NormalFormDecides(CommitmentData(a, x), CommitmentData(b, y));
    SameZip(COMMITMENT_KEYS, v, w);
    assert Normal(v[1]) == Normal(w[1]) && Normal(v[2]) == Normal(w[2]) && Normal(v[3]) == Normal(w[3]) && Normal(v[4]) == Normal(w[4]);
    PayloadNamed(a, b);
    HexInjective(x, y);
  }

  /** A commitment names one envelope and one blind, or exhibits a collision. */
  lemma CommitmentNames(h: Hashing, a: M.Envelope, x: seq<Byte>, b: M.Envelope, y: seq<Byte>)
    requires Supported(a) && Supported(b)
    requires Commitment(h, a, x).Some? && Commitment(h, a, x) == Commitment(h, b, y)
    ensures (a == b && x == y) || Collision(h, CommitmentBytes(h, a, x).value, CommitmentBytes(h, b, y).value)
  {
    CommitmentProper(a, x);
    CommitmentProper(b, y);
    DigestDecides(h, Domain(SafetyEnvelopeCommitment, DialectOf(a.version)), ProtocolVersion(DialectOf(a.version)), CommitmentData(a, x),
                  Domain(SafetyEnvelopeCommitment, DialectOf(b.version)), ProtocolVersion(DialectOf(b.version)), CommitmentData(b, y));
    if Same(CommitmentData(a, x), CommitmentData(b, y)) {
      CommitmentDataNames(a, x, b, y);
    }
  }
}
