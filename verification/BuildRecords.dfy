/** Build descriptors, build evidence and the behaviour digest: what is stored of a build, and what is digested of it. */
module BuildRecords {
  import opened Text
  import opened Unicode
  import opened Values
  import opened Digests
  import opened Schemas
  import opened Timestamps
  import opened Records
  import Base32
  import Identifiers

  // ---------- Records of texts ----------

  function ReadTexts(d: Data, keys: seq<Text>): (r: Option<seq<Text>>)
    ensures r.Some? ==> |r.value| == |keys|
  {
    match ExactValues(d, keys)
    case None => None
    case Some(v) => if AllStrings(v) then Some(seq(|v|, i requires 0 <= i < |v| => v[i].text)) else None
  }

  lemma TextsReadBack(keys: seq<Text>, ts: seq<Text>)
    requires |keys| == |ts| && DistinctTexts(keys)
    ensures Proper(Zip(keys, Strings(ts)))
    ensures ReadTexts(Zip(keys, Strings(ts)), keys) == Some(ts)
    ensures ReadTexts(Normal(Zip(keys, Strings(ts))), keys) == Some(ts)
  {
    NormalStrings(ts);
    ZipProper(keys, Strings(ts));
    ZipRead(keys, Strings(ts));
    ZipNormalRead(keys, Strings(ts));
    var v := Strings(ts);
    assert seq(|v|, i requires 0 <= i < |v| => v[i].text) == ts;
  }

  // ---------- Descriptors ----------

  /** A build of an existing artifact (version 1), or one built from source and bound to its evidence (version 2). */
  datatype Descriptor =
    | ExistingBuild(dialect: Dialect, robotId: Text, robotBuildId: Text, artifactDigest: Text)
    | SourceBuild(robotId: Text, robotBuildId: Text, artifactDigest: Text, buildIntegrityDigest: Text)

  const ROBOT_BUILD_SCHEMA: Text := Ascii("robot-build/v1")
  const SOURCE_BUILD_SCHEMA: Text := Ascii("robot-build/v2")

  const EXISTING_KEYS: seq<Text> := [Ascii("schemaVersion"), Ascii("robotId"), Ascii("robotBuildId"), Ascii("artifactDigest")]
  const SOURCE_KEYS: seq<Text> := EXISTING_KEYS + [Ascii("buildIntegrityDigest")]

  predicate ValidDescriptor(d: Descriptor) {
    && Identifiers.ValidIdentifier(Identifiers.ROBOT, d.robotId)
    && Identifiers.ValidIdentifier(Identifiers.ROBOT_BUILD, d.robotBuildId)
    && IsSha256Digest(d.artifactDigest)
    && (d.SourceBuild? ==> IsSha256Digest(d.buildIntegrityDigest))
  }

  function DescriptorKeys(source: bool): seq<Text> {
    if source then SOURCE_KEYS else EXISTING_KEYS
  }

  function DescriptorTexts(d: Descriptor): (ts: seq<Text>)
    ensures |ts| == |DescriptorKeys(d.SourceBuild?)|
  {
    match d
    case ExistingBuild(dialect, robot, build, artifact) => [Version(dialect, ROBOT_BUILD_SCHEMA), robot, build, artifact]
    case SourceBuild(robot, build, artifact, integrity) => [Version(Current, SOURCE_BUILD_SCHEMA), robot, build, artifact, integrity]
  }

  function DescriptorData(d: Descriptor): Data {
    Zip(DescriptorKeys(d.SourceBuild?), Strings(DescriptorTexts(d)))
  }

  /** The version decides which keys are asked for. */
  predicate NamesSourceBuild(d: Data) {
    d.Record? && HasName(d.fields, SOURCE_KEYS[0])
    && Lookup(d.fields, SOURCE_KEYS[0]) == Str(Version(Current, SOURCE_BUILD_SCHEMA))
  }

  function DescriptorOf(source: bool, ts: seq<Text>): Option<Descriptor>
    requires |ts| == |DescriptorKeys(source)|
  {
    var d :=
      if source then Some(SourceBuild(ts[1], ts[2], ts[3], ts[4]))
      else
        match ResolveVersion(ts[0], ROBOT_BUILD_SCHEMA)
        case None => None
        case Some(dialect) => Some(ExistingBuild(dialect, ts[1], ts[2], ts[3]));
    if d.Some? && ValidDescriptor(d.value) then d else None
  }

  function ParseDescriptor(d: Data): Option<Descriptor> {
    match ReadTexts(d, DescriptorKeys(NamesSourceBuild(d)))
    case None => None
    case Some(ts) => DescriptorOf(NamesSourceBuild(d), ts)
  }

  lemma DescriptorKeysDistinct(source: bool)
    ensures DistinctTexts(DescriptorKeys(source))
  {
    KeysDiffer(DescriptorKeys(source), 1);
  }

  lemma BuildSchemasDiffer(dialect: Dialect)
    ensures Version(dialect, ROBOT_BUILD_SCHEMA) != Version(Current, SOURCE_BUILD_SCHEMA)
  {
    var a, b := Version(dialect, ROBOT_BUILD_SCHEMA), Version(Current, SOURCE_BUILD_SCHEMA);
    if dialect == Current {
      assert a[|a| - 1] == 0x31 && b[|b| - 1] == 0x32;
    } else {
      assert a[0] != b[0];
    }
  }

  /** The texts of a record say of themselves which version it is. */
  lemma VersionNamed(d: Data, descriptor: Descriptor)
    requires ReadTexts(d, DescriptorKeys(descriptor.SourceBuild?)) == Some(DescriptorTexts(descriptor))
    ensures NamesSourceBuild(d) <==> descriptor.SourceBuild?
  {
    var keys, ts := DescriptorKeys(descriptor.SourceBuild?), DescriptorTexts(descriptor);
    var v := ExactValues(d, keys).value;
    assert keys[0] == SOURCE_KEYS[0] && HasName(d.fields, keys[0]);
    assert v[0] == Lookup(d.fields, keys[0]) && v[0].text == ts[0];
    if descriptor.ExistingBuild? {
      BuildSchemasDiffer(descriptor.dialect);
    }
  }

  lemma DescriptorOfTexts(d: Descriptor)
    requires ValidDescriptor(d)
    ensures DescriptorOf(d.SourceBuild?, DescriptorTexts(d)) == Some(d)
  {
    if d.ExistingBuild? {
      VersionResolved(d.dialect, ROBOT_BUILD_SCHEMA);
    }
  }

  /** The parser reads the descriptor back, whatever the order of its keys. */
  lemma DescriptorReadBack(d: Descriptor)
    requires ValidDescriptor(d)
    ensures Proper(DescriptorData(d)) && ParseDescriptor(DescriptorData(d)) == Some(d)
    ensures ParseDescriptor(Normal(DescriptorData(d))) == Some(d)
  {
    DescriptorKeysDistinct(d.SourceBuild?);
    TextsReadBack(DescriptorKeys(d.SourceBuild?), DescriptorTexts(d));
    VersionNamed(DescriptorData(d), d);
    VersionNamed(Normal(DescriptorData(d)), d);
    DescriptorOfTexts(d);
  }

  // ---------- Evidence ----------

  datatype Source = Source(repository: Text, revision: Text, command: Text, runtime: Text)

  /** What the build runner attests of a successful build. */
  datatype Evidence = Evidence(
    buildId: Text, source: Source, sourceSnapshotDigest: Text, artifactDigest: Text, lockfileDigest: Text,
    builderId: Text, builderVersion: Text, runtimeVersion: Text, runtimeImage: Text, provenance: NormalData)

  /** The URL and command patterns, and every check of the provenance statement against the evidence. */
  datatype Checks = Checks(isRepository: Text -> bool, isCommand: Text -> bool, provenanceHolds: Evidence -> bool)

  const BUILD_INTEGRITY_SCHEMA: Text := Ascii("build-integrity/v1")
  const BUILD_SUCCEEDED: Text := Ascii("BUILD_SUCCEEDED")

  const EVIDENCE_KEYS: seq<Text> := [
    Ascii("schemaVersion"), Ascii("buildId"), Ascii("sourceRepository"), Ascii("sourceRevision"),
    Ascii("sourceSnapshotDigest"), Ascii("artifactDigest"), Ascii("buildCommand"), Ascii("lockfileDigest"),
    Ascii("buildStatus"), Ascii("builder"), Ascii("runtime"), Ascii("provenance")]

  const BUILDER_KEYS: seq<Text> := [Ascii("id"), Ascii("version")]
  const RUNTIME_KEYS: seq<Text> := [Ascii("name"), Ascii("version"), Ascii("image")]

  predicate Bounded(t: Text, maximum: nat) {
    1 <= |t| <= maximum
  }

  /** 40 or 64 lower-case hexadecimal digits. */
  predicate IsRevision(t: Text) {
    (|t| == 40 || |t| == 64) && LowerHexDigits(t)
  }

  predicate ValidSource(k: Checks, s: Source) {
    && Bounded(s.repository, 2048) && k.isRepository(s.repository)
    && IsRevision(s.revision)
    && Bounded(s.command, 200) && k.isCommand(s.command)
    && (s.runtime == Ascii("bun") || s.runtime == Ascii("node"))
  }

  predicate ValidEvidence(k: Checks, e: Evidence) {
    && Identifiers.ValidIdentifier(Identifiers.ROBOT_BUILD, e.buildId)
    && ValidSource(k, e.source)
    && IsSha256Digest(e.sourceSnapshotDigest) && IsSha256Digest(e.artifactDigest) && IsSha256Digest(e.lockfileDigest)
    && Bounded(e.builderId, 512) && Bounded(e.builderVersion, 128)
    && Bounded(e.runtimeVersion, 128) && Bounded(e.runtimeImage, 512)
    && k.provenanceHolds(e)
  }

  /** The members that are texts. */
  function EvidenceTexts(e: Evidence): (ts: seq<Text>)
    ensures |ts| == 9
  {
    [Version(Current, BUILD_INTEGRITY_SCHEMA), e.buildId, e.source.repository, e.source.revision, e.sourceSnapshotDigest,
     e.artifactDigest, e.source.command, e.lockfileDigest, BUILD_SUCCEEDED]
  }

  function BuilderTexts(e: Evidence): (ts: seq<Text>)
    ensures |ts| == 2
  {
    [e.builderId, e.builderVersion]
  }

  function RuntimeTexts(e: Evidence): (ts: seq<Text>)
    ensures |ts| == 3
  {
    [e.source.runtime, e.runtimeVersion, e.runtimeImage]
  }

  function EvidenceValues(e: Evidence): (v: seq<Data>)
    ensures |v| == 12
  {
    Strings(EvidenceTexts(e))
    + [Zip(BUILDER_KEYS, Strings(BuilderTexts(e))), Zip(RUNTIME_KEYS, Strings(RuntimeTexts(e))), e.provenance]
  }

  function EvidenceData(e: Evidence): Data {
    Zip(EVIDENCE_KEYS, EvidenceValues(e))
  }

  function EvidenceFrom(ts: seq<Text>, builder: seq<Text>, runtime: seq<Text>, provenance: NormalData): Evidence
    requires |ts| == 9 && |builder| == 2 && |runtime| == 3
  {
    Evidence(ts[1], Source(ts[2], ts[3], ts[6], runtime[0]), ts[4], ts[5], ts[7],
             builder[0], builder[1], runtime[1], runtime[2], provenance)
  }

  function EvidenceOf(k: Checks, v: seq<Data>): (r: Option<Evidence>)
    requires |v| == 12
    ensures r.Some? ==> ValidEvidence(k, r.value)
  {
    if AllStrings(v[..9]) && v[0] == Str(Version(Current, BUILD_INTEGRITY_SCHEMA)) && v[8] == Str(BUILD_SUCCEEDED) && Proper(v[11]) then
      match (ReadTexts(v[9], BUILDER_KEYS), ReadTexts(v[10], RUNTIME_KEYS))
      case (Some(builder), Some(runtime)) =>
        NormalIsNormal(v[11]);
        var e := EvidenceFrom(seq(9, i requires 0 <= i < 9 => v[..9][i].text), builder, runtime, Normal(v[11]));
        if ValidEvidence(k, e) then Some(e) else None
      case _ => None
    else None
  }

  function ParseEvidence(k: Checks, d: Data): (r: Option<Evidence>)
    ensures r.Some? ==> ValidEvidence(k, r.value)
  {
    match ExactValues(d, EVIDENCE_KEYS)
    case None => None
    case Some(v) => EvidenceOf(k, v)
  }

  lemma EvidenceKeysDistinct()
    ensures DistinctTexts(EVIDENCE_KEYS) && DistinctTexts(BUILDER_KEYS) && DistinctTexts(RUNTIME_KEYS)
  {
    KeysDiffer(EVIDENCE_KEYS, 5);
    KeysDiffer(BUILDER_KEYS, 1);
    KeysDiffer(RUNTIME_KEYS, 1);
  }

  /** The members of evidence, the three nested ones perhaps in normal form. */
  predicate EvidenceListed(v: seq<Data>, e: Evidence) {
    && |v| == 12 && v[..9] == Strings(EvidenceTexts(e))
    && ReadTexts(v[9], BUILDER_KEYS) == Some(BuilderTexts(e)) && ReadTexts(v[10], RUNTIME_KEYS) == Some(RuntimeTexts(e))
    && v[11] == e.provenance
  }

  lemma ListedEvidence(k: Checks, v: seq<Data>, e: Evidence)
    requires ValidEvidence(k, e) && EvidenceListed(v, e)
    ensures EvidenceOf(k, v) == Some(e)
  {
    var ts := seq(9, i requires 0 <= i < 9 => v[..9][i].text);
    assert v[0] == v[..9][0] && v[8] == v[..9][8];
    assert ts == EvidenceTexts(e);
    assert EvidenceFrom(ts, BuilderTexts(e), RuntimeTexts(e), e.provenance) == e;
  }

  lemma EvidenceNested(e: Evidence)
    ensures Proper(Zip(BUILDER_KEYS, Strings(BuilderTexts(e)))) && Proper(Zip(RUNTIME_KEYS, Strings(RuntimeTexts(e))))
    ensures ReadTexts(Normal(Zip(BUILDER_KEYS, Strings(BuilderTexts(e)))), BUILDER_KEYS) == Some(BuilderTexts(e))
    ensures ReadTexts(Normal(Zip(RUNTIME_KEYS, Strings(RuntimeTexts(e)))), RUNTIME_KEYS) == Some(RuntimeTexts(e))
  {
    EvidenceKeysDistinct();
    TextsReadBack(BUILDER_KEYS, BuilderTexts(e));
    TextsReadBack(RUNTIME_KEYS, RuntimeTexts(e));
  }

  /** Nine texts and three more values, normalised one by one. */
  lemma NormalTail(ts: seq<Text>, a: Data, b: Data, c: Data)
    requires |ts| == 9
    ensures NormalItems(Strings(ts) + [a, b, c]) == Strings(ts) + [Normal(a), Normal(b), Normal(c)]
    ensures Proper(a) && Proper(b) && Proper(c) ==> forall i :: 0 <= i < 12 ==> Proper((Strings(ts) + [a, b, c])[i])
  {
    NormalStrings(ts);
    var v := Strings(ts) + [a, b, c];
    assert forall i :: 0 <= i < 9 ==> v[i] == Strings(ts)[i];
  }

  lemma EvidenceMembers(e: Evidence)
    ensures EvidenceListed(NormalItems(EvidenceValues(e)), e)
    ensures forall i :: 0 <= i < 12 ==> Proper(EvidenceValues(e)[i])
  {
    EvidenceNested(e);
    NormalTail(EvidenceTexts(e), Zip(BUILDER_KEYS, Strings(BuilderTexts(e))), Zip(RUNTIME_KEYS, Strings(RuntimeTexts(e))), e.provenance);
    assert NormalItems(EvidenceValues(e))[..9] == Strings(EvidenceTexts(e));
  }

  /** The parser reads evidence back, whatever the order of its keys at any depth. */
  lemma EvidenceReadBack(k: Checks, e: Evidence)
    requires ValidEvidence(k, e)
    ensures Proper(EvidenceData(e)) && ParseEvidence(k, Normal(EvidenceData(e))) == Some(e)
  {
    EvidenceKeysDistinct();
    EvidenceMembers(e);
    ZipProper(EVIDENCE_KEYS, EvidenceValues(e));
    ZipNormalRead(EVIDENCE_KEYS, EvidenceValues(e));
    ListedEvidence(k, NormalItems(EvidenceValues(e)), e);
  }

  // ---------- Digests ----------

  /** The version of a descriptor, as digestDialect reads it. */
  function DialectOf(d: Descriptor): Dialect {
    if d.ExistingBuild? then d.dialect else Current
  }

  function DigestRobotBuild(h: Hashing, d: Descriptor): Option<Text> {
    if ValidDescriptor(d) then Digest(h, Domain(RobotBuild, DialectOf(d)), ProtocolVersion(DialectOf(d)), DescriptorData(d)) else None
  }

  function DigestBuildIntegrity(h: Hashing, e: Evidence): Option<Text> {
    Digest(h, Domain(BuildIntegrity, Current), ProtocolVersion(Current), EvidenceData(e))
  }

  // ---------- The behaviour digest ----------

  const PUBLIC_REQUEST_SCHEMA: Text := Ascii("cre-public-evaluation-request/v1")
  const BEHAVIOR_DOMAIN: Text := Ascii("digest.cre-behavior-input/v1")
  const TRACE_PROVENANCE: Text := Ascii("SYNTHETIC_CALLER_SUPPLIED")

  const BEHAVIOR_KEYS: seq<Text> := [
    Ascii("schemaVersion"), Ascii("protocolVersion"), Ascii("confidentialInputSecretId"), Ascii("request"),
    Ascii("robotBuild"), Ascii("behaviorTraces"), Ascii("traceProvenance"), Ascii("evaluatedAt")]

  /** What an executor is asked to evaluate. */
  datatype Behavior = Behavior(request: EvaluationRequest, descriptor: Descriptor, traces: NormalData, evaluatedAt: UnixTimestamp)

  predicate ValidBehavior(b: Behavior) {
    ValidRequest(b.request) && ValidDescriptor(b.descriptor)
  }

  function BehaviorValues(selector: Text, b: Behavior): (v: seq<Data>)
    ensures |v| == 8
  {
    [Str(Version(Current, PUBLIC_REQUEST_SCHEMA)), Str(ProtocolVersion(Current)), Str(selector), RequestData(b.request),
     DescriptorData(b.descriptor), b.traces, Str(TRACE_PROVENANCE), Str(b.evaluatedAt)]
  }

  function BehaviorData(selector: Text, b: Behavior): Data {
    Zip(BEHAVIOR_KEYS, BehaviorValues(selector, b))
  }

  /** The octets digested, framed in the domain of behaviour digests. */
  function BehaviorBytes(h: Hashing, b: Behavior): Option<seq<Byte>> {
    match Base32.SiteSecretId(b.request.inputs.siteId)
    case None => None
    case Some(selector) =>
      FrameBytes(h, Namespace(Current) + BEHAVIOR_DOMAIN, ProtocolVersion(Current), BehaviorData(selector, b))
  }

  function DigestBehavior(h: Hashing, b: Behavior): Option<Text> {
    var bytes := BehaviorBytes(h, b);
    if bytes.Some? then Some(DigestText(h.sha256(bytes.value))) else None
  }

  lemma BehaviorKeysDistinct()
    ensures DistinctTexts(BEHAVIOR_KEYS)
  {
    KeysDiffer(BEHAVIOR_KEYS, 0);
  }

  lemma DescriptorProper(d: Descriptor)
    requires ValidDescriptor(d)
    ensures Proper(DescriptorData(d))
  {
    DescriptorReadBack(d);
  }

  lemma BehaviorProper(selector: Text, b: Behavior)
    requires ValidBehavior(b)
    ensures forall i :: 0 <= i < 8 ==> Proper(BehaviorValues(selector, b)[i])
  {
    RequestProper(b.request);
    DescriptorProper(b.descriptor);
  }

  lemma BehaviorReads(selector: Text, b: Behavior)
    requires ValidBehavior(b)
    ensures Proper(BehaviorData(selector, b))
    ensures ExactValues(Normal(BehaviorData(selector, b)), BEHAVIOR_KEYS) == Some(NormalItems(BehaviorValues(selector, b)))
  {
    BehaviorKeysDistinct();
    BehaviorProper(selector, b);
    ZipProper(BEHAVIOR_KEYS, BehaviorValues(selector, b));
    ZipNormalRead(BEHAVIOR_KEYS, BehaviorValues(selector, b));
  }

  lemma NormalRequestNames(a: EvaluationRequest, b: EvaluationRequest)
    requires ValidRequest(a) && ValidRequest(b) && Normal(RequestData(a)) == Normal(RequestData(b))
    ensures a == b
  {
    RequestReadBack(a);
    RequestReadBack(b);
  }

  lemma NormalDescriptorNames(a: Descriptor, b: Descriptor)
    requires ValidDescriptor(a) && ValidDescriptor(b) && Normal(DescriptorData(a)) == Normal(DescriptorData(b))
    ensures a == b
  {
    DescriptorReadBack(a);
    DescriptorReadBack(b);
  }

  lemma NormalMembers(v: seq<Data>, w: seq<Data>, i: nat)
    requires i < |v| && NormalItems(v) == NormalItems(w)
    ensures |v| == |w| && Normal(v[i]) == Normal(w[i])
  {
    assert |v| == |NormalItems(v)| == |NormalItems(w)| == |w|;
    assert Normal(v[i]) == NormalItems(v)[i] == NormalItems(w)[i] == Normal(w[i]);
  }

  lemma SameNested(s: Text, a: Behavior, t: Text, b: Behavior)
    requires ValidBehavior(a) && ValidBehavior(b)
    requires NormalItems(BehaviorValues(s, a)) == NormalItems(BehaviorValues(t, b))
    ensures a.request == b.request && a.descriptor == b.descriptor
  {
    NormalMembers(BehaviorValues(s, a), BehaviorValues(t, b), 3);
    NormalMembers(BehaviorValues(s, a), BehaviorValues(t, b), 4);
    NormalRequestNames(a.request, b.request);
    NormalDescriptorNames(a.descriptor, b.descriptor);
  }

  lemma SameLeaves(s: Text, a: Behavior, t: Text, b: Behavior)
    requires NormalItems(BehaviorValues(s, a)) == NormalItems(BehaviorValues(t, b))
    ensures a.traces == b.traces && a.evaluatedAt == b.evaluatedAt
  {
    NormalMembers(BehaviorValues(s, a), BehaviorValues(t, b), 5);
    NormalMembers(BehaviorValues(s, a), BehaviorValues(t, b), 7);
    assert BehaviorValues(s, a)[7] == Str(a.evaluatedAt) && BehaviorValues(t, b)[7] == Str(b.evaluatedAt);
  }

  lemma BehaviorDataNames(s: Text, a: Behavior, t: Text, b: Behavior)
    requires ValidBehavior(a) && ValidBehavior(b) && Same(BehaviorData(s, a), BehaviorData(t, b))
    ensures a == b
  {
    BehaviorReads(s, a);
    BehaviorReads(t, b);
    NormalFormDecides(BehaviorData(s, a), BehaviorData(t, b));
    SameNested(s, a, t, b);
    SameLeaves(s, a, t, b);
  }

  /** A behaviour digest names the request, the descriptor, the traces and the time, or exhibits a collision. */
  lemma BehaviorDigestNames(h: Hashing, a: Behavior, b: Behavior)
    requires ValidBehavior(a) && ValidBehavior(b)
    requires DigestBehavior(h, a).Some? && DigestBehavior(h, a) == DigestBehavior(h, b)
    ensures a == b || Collision(h, BehaviorBytes(h, a).value, BehaviorBytes(h, b).value)
  {
    var s, t := Base32.SiteSecretId(a.request.inputs.siteId).value, Base32.SiteSecretId(b.request.inputs.siteId).value;
    var domain, version := Namespace(Current) + BEHAVIOR_DOMAIN, ProtocolVersion(Current);
    BehaviorReads(s, a);
    BehaviorReads(t, b);
    DigestDecides(h, domain, version, BehaviorData(s, a), domain, version, BehaviorData(t, b));
    if Same(BehaviorData(s, a), BehaviorData(t, b)) {
      BehaviorDataNames(s, a, t, b);
    }
  }
}
