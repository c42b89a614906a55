/** The members of each digested record, by name and in the order in which the canonical text writes them. */
module RecordTexts {
  import opened Text
  import opened Unicode
  import opened Sorting
  import opened Values
  import opened Canonical
  import opened Digests
  import opened Schemas
  import opened Records
  import opened BuildRecords
  import opened AsciiRecords
  import Base32
  import G = JsonGrammar
  import Serializer

  // ---------- Records with their members in order ----------

  /** Each name precedes the next. */
  predicate InOrder(names: seq<Text>) {
    forall j :: 0 < j < |names| ==> Less(names[j - 1], names[j])
  }

  lemma {:induction false} OrderedNames(names: seq<Text>, i: nat, j: nat)
    requires InOrder(names) && i < j < |names|
    ensures Less(names[i], names[j])
    decreases j
  {
    if i + 1 < j {
      OrderedNames(names, i, j - 1);
      LessTransitive(names[i], names[j - 1], names[j]);
    }
  }

  /** The names are the keys in another order: name j is key order[j]. */
  predicate Arranges(names: seq<Text>, keys: seq<Text>, order: seq<nat>) {
    && |names| == |order| == |keys|
    && (forall k :: 0 <= k < |keys| ==> k in order)
    && forall j :: 0 <= j < |order| ==> order[j] < |keys| && names[j] == keys[order[j]]
  }

  /** The names are the keys, arranged so that each precedes the next. */
  predicate Orders(names: seq<Text>, keys: seq<Text>, order: seq<nat>) {
    DistinctTexts(keys) && InOrder(names) && Arranges(names, keys, order)
  }

  /** A record with its names in order, and the normal forms of its values in that order, is the normal form. */
  lemma NormalZip(keys: seq<Text>, values: seq<Data>, names: seq<Text>, order: seq<nat>, sorted: seq<Data>)
    requires |keys| == |values| == |sorted| && Orders(names, keys, order)
    requires forall j :: 0 <= j < |sorted| ==> sorted[j] == Normal(values[order[j]])
    ensures Normal(Zip(keys, values)) == Zip(names, sorted)
  {
    var listed, fs := Zip(keys, values).fields, Zip(names, sorted).fields;
    var normal := SortFields(NormalFields(listed));
    ByNameOrder();
    NormalFieldsDistinct(listed);
    SortFieldsStrict(NormalFields(listed));
    forall i, j | 0 <= i < j < |fs| ensures BY_NAME(fs[i], fs[j]) {
      OrderedNames(names, i, j);
    }
    forall f ensures f in normal <==> f in fs {
      NormalFieldsMembers(listed, f);
      if f in normal {
        var k :| 0 <= k < |listed| && NormalField(listed[k]) == f;
        assert k in order;
        var j :| 0 <= j < |order| && order[j] == k;
        assert fs[j] == f;
      }
      if f in fs {
        var j :| 0 <= j < |fs| && fs[j] == f;
        assert NormalField(listed[order[j]]) == f;
      }
    }
    SortedBySet(BY_NAME, normal, fs);
  }

  /** a and b share k units, and then a has the smaller one, or ends. */
  predicate Precedes(a: Text, b: Text, k: nat) {
    k <= |a| && k < |b| && a[..k] == b[..k] && (k < |a| ==> a[k] < b[k])
  }

  lemma InOrderBy(names: seq<Text>, common: seq<nat>)
    requires |common| == |names|
    requires forall j :: 0 < j < |names| ==> Precedes(names[j - 1], names[j], common[j])
    ensures InOrder(names)
  {
    forall j | 0 < j < |names| ensures Less(names[j - 1], names[j]) {
      LessAt(names[j - 1], names[j], common[j]);
    }
  }

  /** A record of texts. */
  lemma NormalTexts(keys: seq<Text>, texts: seq<Text>, names: seq<Text>, order: seq<nat>, sorted: seq<Text>)
    requires |keys| == |texts| == |sorted| && Orders(names, keys, order)
    requires forall j :: 0 <= j < |sorted| ==> sorted[j] == texts[order[j]]
    ensures Normal(Zip(keys, Strings(texts))) == Zip(names, Strings(sorted))
  {
    NormalZip(keys, Strings(texts), names, order, Strings(sorted));
  }

  // ---------- The records ----------

  const FRAME_NAMES: seq<Text> := [Ascii("domain"), Ascii("payload"), Ascii("protocolVersion")]
  const FRAME_ORDER: seq<nat> := [0, 2, 1]

  lemma FrameNames()
    ensures Orders(FRAME_NAMES, FRAME_KEYS, FRAME_ORDER)
  {
    KeysDiffer(FRAME_KEYS, 1);
    InOrderBy(FRAME_NAMES, [0, 0, 1]);
    assert FRAME_ORDER[0] == 0 && FRAME_ORDER[2] == 1 && FRAME_ORDER[1] == 2;
  }

  const INPUTS_NAMES: seq<Text> := [
    Ascii("evaluatorVersion"), Ascii("robotBuildDigest"), Ascii("robotBuildId"), Ascii("robotId"),
    Ascii("safetyEnvelopeCommitment"), Ascii("safetyEnvelopeId"), Ascii("schemaVersion"), Ascii("siteId")]
  const INPUTS_ORDER: seq<nat> := [7, 4, 3, 2, 6, 5, 0, 1]

  lemma InputsNamesInOrder()
    ensures InOrder(INPUTS_NAMES)
  {
    InOrderBy(INPUTS_NAMES, [0, 0, 10, 5, 0, 14, 1, 1]);
  }

  lemma InputsNames()
    ensures Orders(INPUTS_NAMES, INPUTS_KEYS, INPUTS_ORDER)
  {
    var o := INPUTS_ORDER;
    InputsKeysDistinct();
    InputsNamesInOrder();
    assert o[6] == 0 && o[7] == 1 && o[3] == 2 && o[2] == 3 && o[1] == 4 && o[5] == 5 && o[4] == 6 && o[0] == 7;
  }

  /** The members of evaluation inputs. */
  lemma InputsMembers(r: Inputs)
    ensures Normal(InputsData(r)) == Zip(INPUTS_NAMES, Strings([
              r.evaluatorVersion, r.robotBuildDigest, r.robotBuildId, r.robotId,
              r.safetyEnvelopeCommitment, r.safetyEnvelopeId, Version(r.dialect, INPUTS_SCHEMA), r.siteId]))
  {
    InputsNames();
    NormalTexts(INPUTS_KEYS, InputsTexts(r), INPUTS_NAMES, INPUTS_ORDER, [
              r.evaluatorVersion, r.robotBuildDigest, r.robotBuildId, r.robotId,
              r.safetyEnvelopeCommitment, r.safetyEnvelopeId, Version(r.dialect, INPUTS_SCHEMA), r.siteId]);
  }

  const REQUEST_NAMES: seq<Text> := [Ascii("evaluationId"), Ascii("inputs"), Ascii("requestedAt"), Ascii("schemaVersion")]
  const REQUEST_ORDER: seq<nat> := [1, 2, 3, 0]

  lemma RequestNames()
    ensures Orders(REQUEST_NAMES, REQUEST_KEYS, REQUEST_ORDER)
  {
    var o := REQUEST_ORDER;
    KeysDiffer(REQUEST_KEYS, 1);
    InOrderBy(REQUEST_NAMES, [0, 0, 0, 0]);
    assert o[3] == 0 && o[0] == 1 && o[1] == 2 && o[2] == 3;
  }

  /** The members of an evaluation request. */
  lemma RequestMembers(r: EvaluationRequest)
    ensures Normal(RequestData(r)) == Zip(REQUEST_NAMES, [
              Str(r.evaluationId), Normal(InputsData(r.inputs)), Str(r.requestedAt), Str(Version(r.dialect, REQUEST_SCHEMA))])
  {
    RequestNames();
    NormalZip(REQUEST_KEYS, RequestValues(r), REQUEST_NAMES, REQUEST_ORDER, [
              Str(r.evaluationId), Normal(InputsData(r.inputs)), Str(r.requestedAt), Str(Version(r.dialect, REQUEST_SCHEMA))]);
  }

  const EXISTING_NAMES: seq<Text> := [Ascii("artifactDigest"), Ascii("robotBuildId"), Ascii("robotId"), Ascii("schemaVersion")]
  const EXISTING_ORDER: seq<nat> := [3, 2, 1, 0]
  const SOURCE_NAMES: seq<Text> := [
    Ascii("artifactDigest"), Ascii("buildIntegrityDigest"), Ascii("robotBuildId"), Ascii("robotId"), Ascii("schemaVersion")]
  const SOURCE_ORDER: seq<nat> := [3, 4, 2, 1, 0]

  lemma DescriptorNames()
    ensures Orders(EXISTING_NAMES, EXISTING_KEYS, EXISTING_ORDER) && Orders(SOURCE_NAMES, SOURCE_KEYS, SOURCE_ORDER)
  {
    var o, p := EXISTING_ORDER, SOURCE_ORDER;
    DescriptorKeysDistinct(false);
    DescriptorKeysDistinct(true);
    InOrderBy(EXISTING_NAMES, [0, 0, 5, 0]);
    InOrderBy(SOURCE_NAMES, [0, 0, 0, 5, 0]);
    assert o[3] == 0 && o[2] == 1 && o[1] == 2 && o[0] == 3;
    assert p[4] == 0 && p[3] == 1 && p[2] == 2 && p[0] == 3 && p[1] == 4;
  }

  /** The members of a build descriptor, in its two versions. */
  lemma DescriptorMembers(d: Descriptor)
    ensures Normal(DescriptorData(d)) ==
              if d.SourceBuild? then
                Zip(SOURCE_NAMES, Strings([d.artifactDigest, d.buildIntegrityDigest, d.robotBuildId, d.robotId, Version(Current, SOURCE_BUILD_SCHEMA)]))
              else Zip(EXISTING_NAMES, Strings([d.artifactDigest, d.robotBuildId, d.robotId, Version(d.dialect, ROBOT_BUILD_SCHEMA)]))
  {
    DescriptorNames();
    if d.SourceBuild? {
      NormalTexts(SOURCE_KEYS, DescriptorTexts(d), SOURCE_NAMES, SOURCE_ORDER,
                  [d.artifactDigest, d.buildIntegrityDigest, d.robotBuildId, d.robotId, Version(Current, SOURCE_BUILD_SCHEMA)]);
    } else {
      NormalTexts(EXISTING_KEYS, DescriptorTexts(d), EXISTING_NAMES, EXISTING_ORDER,
                  [d.artifactDigest, d.robotBuildId, d.robotId, Version(d.dialect, ROBOT_BUILD_SCHEMA)]);
    }
  }

  const CLEARANCE_NAMES: seq<Text> := [
    Ascii("clearanceId"), Ascii("evaluationId"), Ascii("evaluationInputsDigest"), Ascii("expiresAt"), Ascii("inputs"),
    Ascii("issuedAt"), Ascii("schemaVersion"), Ascii("verdict")]
  const CLEARANCE_ORDER: seq<nat> := [1, 2, 4, 7, 3, 6, 0, 5]

  lemma ClearanceNamesInOrder()
    ensures InOrder(CLEARANCE_NAMES)
  {
    InOrderBy(CLEARANCE_NAMES, [0, 0, 11, 1, 0, 1, 0, 0]);
  }

  lemma ClearanceNames()
    ensures Orders(CLEARANCE_NAMES, CLEARANCE_KEYS, CLEARANCE_ORDER)
  {
    var o := CLEARANCE_ORDER;
    ClearanceKeysDistinct();
    ClearanceNamesInOrder();
    assert o[6] == 0 && o[0] == 1 && o[1] == 2 && o[4] == 3 && o[2] == 4 && o[7] == 5 && o[5] == 6 && o[3] == 7;
  }

  /** The members of a clearance. */
  lemma ClearanceMembers(c: ClearanceRecord)
    ensures Normal(ClearanceData(c)) == Zip(CLEARANCE_NAMES, [
              Str(c.clearanceId), Str(c.evaluationId), Str(c.evaluationInputsDigest), Str(c.expiresAt), Normal(InputsData(c.inputs)),
              Str(c.issuedAt), Str(Version(c.dialect, CLEARANCE_SCHEMA)), Str(CLEAR)])
  {
    ClearanceNames();
    NormalZip(CLEARANCE_KEYS, ClearanceValues(c), CLEARANCE_NAMES, CLEARANCE_ORDER, [
              Str(c.clearanceId), Str(c.evaluationId), Str(c.evaluationInputsDigest), Str(c.expiresAt), Normal(InputsData(c.inputs)),
              Str(c.issuedAt), Str(Version(c.dialect, CLEARANCE_SCHEMA)), Str(CLEAR)]);
  }

  const INTENT_NAMES: seq<Text> := [
    Ascii("action"), Ascii("clearanceDigest"), Ascii("clearanceId"), Ascii("expiresAt"), Ascii("issuedAt"), Ascii("nonce"),
    Ascii("robotBuildDigest"), Ascii("robotBuildId"), Ascii("robotId"), Ascii("schemaVersion"), Ascii("siteId"),
    Ascii("targetEnvironment")]

  const INTENT_ORDER: seq<nat> := [1, 7, 6, 11, 10, 9, 5, 4, 3, 0, 2, 8]

  lemma IntentNamesInOrder()
    ensures InOrder(INTENT_NAMES)
  {
    InOrderBy(INTENT_NAMES, [0, 0, 9, 0, 0, 0, 0, 10, 5, 0, 1, 0]);
  }

  lemma IntentNames()
    ensures Orders(INTENT_NAMES, INTENT_KEYS, INTENT_ORDER)
  {
    var o := INTENT_ORDER;
    IntentKeysDistinct();
    IntentNamesInOrder();
    assert o[9] == 0 && o[0] == 1 && o[10] == 2 && o[8] == 3 && o[7] == 4 && o[6] == 5;
    assert o[2] == 6 && o[1] == 7 && o[11] == 8 && o[5] == 9 && o[4] == 10 && o[3] == 11;
  }

  /** The members of an intent. */
  lemma IntentMembers(i: Intent)
    ensures Normal(IntentData(i)) == Zip(INTENT_NAMES, Strings([
              ACTION, i.clearanceDigest, i.clearanceId, i.expiresAt, i.issuedAt, i.nonce, i.robotBuildDigest, i.robotBuildId,
              i.robotId, Version(i.dialect, INTENT_SCHEMA), i.siteId, SEPOLIA]))
  {
    IntentNames();
    NormalTexts(INTENT_KEYS, IntentTexts(i), INTENT_NAMES, INTENT_ORDER, [
              ACTION, i.clearanceDigest, i.clearanceId, i.expiresAt, i.issuedAt, i.nonce, i.robotBuildDigest, i.robotBuildId,
              i.robotId, Version(i.dialect, INTENT_SCHEMA), i.siteId, SEPOLIA]);
  }

  const BEHAVIOR_NAMES: seq<Text> := [
    Ascii("behaviorTraces"), Ascii("confidentialInputSecretId"), Ascii("evaluatedAt"), Ascii("protocolVersion"),
    Ascii("request"), Ascii("robotBuild"), Ascii("schemaVersion"), Ascii("traceProvenance")]
  const BEHAVIOR_ORDER: seq<nat> := [5, 2, 7, 1, 3, 4, 0, 6]

  lemma BehaviorNamesInOrder()
    ensures InOrder(BEHAVIOR_NAMES)
  {
    InOrderBy(BEHAVIOR_NAMES, [0, 0, 0, 0, 0, 1, 0, 0]);
  }

  lemma BehaviorNames()
    ensures Orders(BEHAVIOR_NAMES, BEHAVIOR_KEYS, BEHAVIOR_ORDER)
  {
    var o := BEHAVIOR_ORDER;
    BehaviorKeysDistinct();
    BehaviorNamesInOrder();
    assert o[6] == 0 && o[3] == 1 && o[1] == 2 && o[4] == 3 && o[5] == 4 && o[0] == 5 && o[7] == 6 && o[2] == 7;
  }

  /** The members of what a behaviour digest is taken of. */
  lemma BehaviorMembers(selector: Text, b: Behavior)
    ensures Normal(BehaviorData(selector, b)) == Zip(BEHAVIOR_NAMES, [
              b.traces, Str(selector), Str(b.evaluatedAt), Str(ProtocolVersion(Current)), Normal(RequestData(b.request)),
              Normal(DescriptorData(b.descriptor)), Str(Version(Current, PUBLIC_REQUEST_SCHEMA)), Str(TRACE_PROVENANCE)])
  {
    BehaviorNames();
    NormalZip(BEHAVIOR_KEYS, BehaviorValues(selector, b), BEHAVIOR_NAMES, BEHAVIOR_ORDER, [
              b.traces, Str(selector), Str(b.evaluatedAt), Str(ProtocolVersion(Current)), Normal(RequestData(b.request)),
              Normal(DescriptorData(b.descriptor)), Str(Version(Current, PUBLIC_REQUEST_SCHEMA)), Str(TRACE_PROVENANCE)]);
  }

  // ---------- What is hashed ----------

  /** The text of a record whose normal form is known: its members between braces, separated by commas. */
  lemma MembersText(d: Data, names: seq<Text>, values: seq<Data>)
    requires |names| == |values| > 0 && Normal(d) == Zip(names, values)
    ensures CanonicalText(d) == [G.OPEN_BRACE]
              + Serializer.Join(seq(|names|, i requires 0 <= i < |names| => Quoted(names[i]) + [G.COLON] + G.PrintValue(Tree(values[i]))))
              + [G.CLOSE_BRACE]
  {
    Serializer.JoinMembers(Zip(names, values).fields,
      seq(|names|, i requires 0 <= i < |names| => Quoted(names[i]) + [G.COLON] + G.PrintValue(Tree(values[i]))));
  }

  lemma JoinThree(parts: seq<Text>)
    requires |parts| == 3
    ensures Serializer.Join(parts) == parts[0] + [G.COMMA] + parts[1] + [G.COMMA] + parts[2]
  {
    assert parts[1..][1..] == [parts[2]];
    assert Serializer.Join(parts[1..]) == parts[1] + [G.COMMA] + Serializer.Join(parts[1..][1..]);
  }

  function Named(name: Text, text: Text): Text {
    Quoted(name) + [G.COLON] + text
  }

  lemma FrameMembers(domain: Text, version: Text, payload: Data)
    ensures Normal(Frame(domain, version, payload)) == Zip(FRAME_NAMES, [Str(domain), Normal(payload), Str(version)])
  {
    FrameNames();
    FrameZip(domain, version, payload);
    NormalZip(FRAME_KEYS, [Str(domain), Str(version), payload], FRAME_NAMES, FRAME_ORDER, [Str(domain), Normal(payload), Str(version)]);
  }

  lemma ThreeMembers(d: Data, names: seq<Text>, values: seq<Data>)
    requires |names| == |values| == 3 && Normal(d) == Zip(names, values)
    ensures CanonicalText(d) ==
              [G.OPEN_BRACE] + (Named(names[0], G.PrintValue(Tree(values[0]))) + [G.COMMA] + Named(names[1], G.PrintValue(Tree(values[1])))
                                + [G.COMMA] + Named(names[2], G.PrintValue(Tree(values[2])))) + [G.CLOSE_BRACE]
  {
    MembersText(d, names, values);
    JoinThree(seq(|names|, i requires 0 <= i < |names| => Quoted(names[i]) + [G.COLON] + G.PrintValue(Tree(values[i]))));
  }

  /** The frame of a digest: domain, payload and protocol version, in this order and under these names. */
  lemma FrameText(domain: Text, version: Text, payload: Data)
    ensures CanonicalText(Frame(domain, version, payload)) ==
              [G.OPEN_BRACE] + (Named(Ascii("domain"), Quoted(domain)) + [G.COMMA] + Named(Ascii("payload"), CanonicalText(payload))
                                + [G.COMMA] + Named(Ascii("protocolVersion"), Quoted(version))) + [G.CLOSE_BRACE]
  {
    FrameMembers(domain, version, payload);
    ThreeMembers(Frame(domain, version, payload), FRAME_NAMES, [Str(domain), Normal(payload), Str(version)]);
  }

  /** The text of a frame around the text of a payload. */
  function FrameAround(domain: Text, version: Text, payload: Text): Text {
    [G.OPEN_BRACE] + (Named(Ascii("domain"), Quoted(domain)) + [G.COMMA] + Named(Ascii("payload"), payload)
                      + [G.COMMA] + Named(Ascii("protocolVersion"), Quoted(version))) + [G.CLOSE_BRACE]
  }

  /** The digest is the SHA-256, in hexadecimal, of the UTF-8 octets of the text. */
  predicate Hashes(h: Hashing, digest: Text, text: Text) {
    WellFormed(text) && digest == Ascii("sha256:") + Hex(h.sha256(Octets(text)))
  }

  /** Every digest is the hash of the frame around the canonical text of its payload. */
  lemma DigestHashes(h: Hashing, domain: Text, version: Text, payload: Data)
    requires Digest(h, domain, version, payload).Some?
    ensures Hashes(h, Digest(h, domain, version, payload).value, FrameAround(domain, version, CanonicalText(payload)))
  {
    FrameText(domain, version, payload);
    CanonicalTextWellFormed(Frame(domain, version, payload), h.nfc);
  }

  /** The domain of a kind of record, written out. */
  predicate HashesAs(h: Hashing, digest: Option<Text>, name: string, dialect: Dialect, payload: Data) {
    digest.Some? ==>
      Hashes(h, digest.value, FrameAround(Namespace(dialect) + Ascii(name), Namespace(dialect) + Ascii("protocol/v1"), CanonicalText(payload)))
  }

  lemma KindHashes(h: Hashing, kind: Kind, name: string, dialect: Dialect, payload: Data)
    requires DomainSuffix(kind) == Ascii(name)
    ensures HashesAs(h, Digest(h, Domain(kind, dialect), ProtocolVersion(dialect), payload), name, dialect, payload)
  {
    if Digest(h, Domain(kind, dialect), ProtocolVersion(dialect), payload).Some? {
      DigestHashes(h, Domain(kind, dialect), ProtocolVersion(dialect), payload);
    }
  }

  /** A descriptor is hashed in its own domain, under its own dialect. */
  lemma DescriptorHashed(h: Hashing, d: Descriptor)
    ensures HashesAs(h, DigestRobotBuild(h, d), "digest.robot-build/v1", if d.ExistingBuild? then d.dialect else Current, DescriptorData(d))
  {
    KindHashes(h, RobotBuild, "digest.robot-build/v1", if d.ExistingBuild? then d.dialect else Current, DescriptorData(d));
  }

  /** So is evidence. */
  lemma EvidenceHashed(h: Hashing, e: Evidence)
    ensures HashesAs(h, DigestBuildIntegrity(h, e), "digest.build-integrity/v1", Current, EvidenceData(e))
  {
    KindHashes(h, BuildIntegrity, "digest.build-integrity/v1", Current, EvidenceData(e));
  }

  /** So are evaluation inputs. */
  lemma InputsHashed(h: Hashing, r: Inputs)
    ensures HashesAs(h, DigestInputs(h, r), "digest.evaluation-inputs/v1", r.dialect, InputsData(r))
  {
    KindHashes(h, EvaluationInputs, "digest.evaluation-inputs/v1", r.dialect, InputsData(r));
  }

  /** So is a clearance. */
  lemma ClearanceHashed(h: Hashing, c: ClearanceRecord)
    ensures HashesAs(h, DigestClearance(h, c), "digest.clearance/v1", c.dialect, ClearanceData(c))
  {
    KindHashes(h, Kind.Clearance, "digest.clearance/v1", c.dialect, ClearanceData(c));
  }

  /** So is an intent. */
  lemma IntentHashed(h: Hashing, i: Intent)
    ensures HashesAs(h, DigestIntent(h, i), "digest.deployment-intent/v1", i.dialect, IntentData(i))
  {
    KindHashes(h, DeploymentIntent, "digest.deployment-intent/v1", i.dialect, IntentData(i));
  }

  /** A behaviour is hashed with the selector of its own site. */
  lemma BehaviorHashed(h: Hashing, b: Behavior)
    requires DigestBehavior(h, b).Some?
    ensures Base32.SiteSecretId(b.request.inputs.siteId).Some?
    ensures HashesAs(h, DigestBehavior(h, b), "digest.cre-behavior-input/v1", Current,
                     BehaviorData(Base32.SiteSecretId(b.request.inputs.siteId).value, b))
  {
    var payload := BehaviorData(Base32.SiteSecretId(b.request.inputs.siteId).value, b);
    assert DigestBehavior(h, b) == Digest(h, Namespace(Current) + BEHAVIOR_DOMAIN, ProtocolVersion(Current), payload);
    DigestHashes(h, Namespace(Current) + BEHAVIOR_DOMAIN, ProtocolVersion(Current), payload);
  }
}
