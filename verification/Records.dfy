/** Evaluation inputs, clearance records and deployment intents: what their parsers accept, and their digests. */
module Records {
  import opened Text
  import opened Unicode
  import opened Values
  import opened Digests
  import opened Schemas
  import opened Timestamps
  import Identifiers

  // ---------- Evaluation inputs ----------

  datatype Inputs = Inputs(
    dialect: Dialect, siteId: Text, robotId: Text, robotBuildId: Text, robotBuildDigest: Text,
    safetyEnvelopeId: Text, safetyEnvelopeCommitment: Text, evaluatorVersion: Text)

  const INPUTS_SCHEMA: Text := Ascii("evaluation-inputs/v1")

  const INPUTS_KEYS: seq<Text> := [
    Ascii("schemaVersion"), Ascii("siteId"), Ascii("robotId"), Ascii("robotBuildId"), Ascii("robotBuildDigest"),
    Ascii("safetyEnvelopeId"), Ascii("safetyEnvelopeCommitment"), Ascii("evaluatorVersion")]

  /** The one evaluator there is. */
  const EVALUATOR: Text := Ascii("evaluator-version:warehouse-rules-v1")

  predicate ValidInputs(r: Inputs) {
    && Identifiers.ValidIdentifier(Identifiers.SITE, r.siteId)
    && Identifiers.ValidIdentifier(Identifiers.ROBOT, r.robotId)
    && Identifiers.ValidIdentifier(Identifiers.ROBOT_BUILD, r.robotBuildId)
    && IsSha256Digest(r.robotBuildDigest)
    && Identifiers.ValidIdentifier(Identifiers.SAFETY_ENVELOPE, r.safetyEnvelopeId)
    && IsSha256Digest(r.safetyEnvelopeCommitment)
    && Identifiers.ValidIdentifier(Identifiers.EVALUATOR_VERSION, r.evaluatorVersion)
  }

  function InputsTexts(r: Inputs): (ts: seq<Text>)
    ensures |ts| == 8
  {
    [Version(r.dialect, INPUTS_SCHEMA), r.siteId, r.robotId, r.robotBuildId, r.robotBuildDigest,
     r.safetyEnvelopeId, r.safetyEnvelopeCommitment, r.evaluatorVersion]
  }

  function InputsData(r: Inputs): Data {
    Zip(INPUTS_KEYS, Strings(InputsTexts(r)))
  }

  function InputsOf(v: seq<Data>): Option<Inputs>
    requires |v| == 8
  {
    if AllStrings(v) then
      match ResolveVersion(v[0].text, INPUTS_SCHEMA)
      case None => None
      case Some(dialect) =>
        var r := Inputs(dialect, v[1].text, v[2].text, v[3].text, v[4].text, v[5].text, v[6].text, v[7].text);
        if ValidInputs(r) then Some(r) else None
    else None
  }

  function ParseInputs(d: Data): Option<Inputs> {
    match ExactValues(d, INPUTS_KEYS)
    case None => None
    case Some(v) => InputsOf(v)
  }

  /** Keys of one length differ in the unit at k. */
  lemma KeysDiffer(keys: seq<Text>, k: nat)
    requires forall i :: 0 <= i < |keys| ==> |keys[i]| > k
    requires forall i, j :: 0 <= i < j < |keys| ==> |keys[i]| != |keys[j]| || keys[i][k] != keys[j][k]
    ensures DistinctTexts(keys)
  {
  }

  lemma InputsKeysDistinct()
    ensures DistinctTexts(INPUTS_KEYS)
  {
    KeysDiffer(INPUTS_KEYS, 1);
  }

  lemma InputsOfTexts(r: Inputs)
    requires ValidInputs(r)
    ensures InputsOf(Strings(InputsTexts(r))) == Some(r)
  {
    VersionResolved(r.dialect, INPUTS_SCHEMA);
  }

  /** The parser reads the record back, whatever the order of its keys. */
  lemma InputsReadBack(r: Inputs)
    requires ValidInputs(r)
    ensures Proper(InputsData(r)) && ParseInputs(InputsData(r)) == Some(r)
    ensures ParseInputs(Normal(InputsData(r))) == Some(r)
  {
    InputsKeysDistinct();
    NormalStrings(InputsTexts(r));
    ZipProper(INPUTS_KEYS, Strings(InputsTexts(r)));
    ZipRead(INPUTS_KEYS, Strings(InputsTexts(r)));
    ZipNormalRead(INPUTS_KEYS, Strings(InputsTexts(r)));
    InputsOfTexts(r);
  }

  lemma InputsProper(r: Inputs)
    ensures Proper(InputsData(r))
  {
    InputsKeysDistinct();
    NormalStrings(InputsTexts(r));
    ZipProper(INPUTS_KEYS, Strings(InputsTexts(r)));
  }

  // ---------- Evaluation requests ----------

  datatype EvaluationRequest = EvaluationRequest(dialect: Dialect, evaluationId: Text, inputs: Inputs, requestedAt: UnixTimestamp)

  const REQUEST_SCHEMA: Text := Ascii("evaluation-request/v1")

  const REQUEST_KEYS: seq<Text> := [Ascii("schemaVersion"), Ascii("evaluationId"), Ascii("inputs"), Ascii("requestedAt")]

  predicate ValidRequest(r: EvaluationRequest) {
    Identifiers.ValidIdentifier(Identifiers.EVALUATION, r.evaluationId) && ValidInputs(r.inputs)
  }

  function RequestValues(r: EvaluationRequest): (v: seq<Data>)
    ensures |v| == 4
  {
    [Str(Version(r.dialect, REQUEST_SCHEMA)), Str(r.evaluationId), InputsData(r.inputs), Str(r.requestedAt)]
  }

  function RequestData(r: EvaluationRequest): Data {
    Zip(REQUEST_KEYS, RequestValues(r))
  }

  function RequestOf(v: seq<Data>): Option<EvaluationRequest>
    requires |v| == 4
  {
    if v[0].Str? && v[1].Str? && v[3].Str? && IsUnixTimestamp(v[3].text) then
      match (ResolveVersion(v[0].text, REQUEST_SCHEMA), ParseInputs(v[2]))
      case (Some(dialect), Some(inputs)) =>
        var r := EvaluationRequest(dialect, v[1].text, inputs, v[3].text);
        if ValidRequest(r) then Some(r) else None
      case _ => None
    else None
  }

  function ParseRequest(d: Data): Option<EvaluationRequest> {
    match ExactValues(d, REQUEST_KEYS)
    case None => None
    case Some(v) => RequestOf(v)
  }

  lemma RequestOfValues(r: EvaluationRequest)
    requires ValidRequest(r)
    ensures RequestOf(RequestValues(r)) == Some(r)
    ensures RequestOf(RequestValues(r)[2 := Normal(InputsData(r.inputs))]) == Some(r)
  {
    VersionResolved(r.dialect, REQUEST_SCHEMA);
    InputsReadBack(r.inputs);
  }

  lemma RequestReads(r: EvaluationRequest)
    ensures Proper(RequestData(r))
    ensures ExactValues(RequestData(r), REQUEST_KEYS) == Some(RequestValues(r))
    ensures ExactValues(Normal(RequestData(r)), REQUEST_KEYS) == Some(RequestValues(r)[2 := Normal(InputsData(r.inputs))])
  {
    KeysDiffer(REQUEST_KEYS, 1);
    InputsProper(r.inputs);
    NestedRead(REQUEST_KEYS, RequestValues(r), 2);
  }

  lemma RequestProper(r: EvaluationRequest)
    ensures Proper(RequestData(r))
  {
    RequestReads(r);
  }

  /** The parser reads the request back, whatever the order of its keys. */
  lemma RequestReadBack(r: EvaluationRequest)
    requires ValidRequest(r)
    ensures Proper(RequestData(r)) && ParseRequest(RequestData(r)) == Some(r)
    ensures ParseRequest(Normal(RequestData(r))) == Some(r)
  {
    RequestReads(r);
    RequestOfValues(r);
  }

  // ---------- Clearance records ----------

  /** The verdict of a clearance record is always CLEAR. */
  datatype ClearanceRecord = ClearanceRecord(
    dialect: Dialect, clearanceId: Text, evaluationId: Text, inputs: Inputs, evaluationInputsDigest: Text,
    issuedAt: UnixTimestamp, expiresAt: UnixTimestamp)

  const CLEARANCE_SCHEMA: Text := Ascii("clearance-record/v1")
  const CLEAR: Text := Ascii("CLEAR")

  const CLEARANCE_KEYS: seq<Text> := [
    Ascii("schemaVersion"), Ascii("clearanceId"), Ascii("evaluationId"), Ascii("inputs"),
    Ascii("evaluationInputsDigest"), Ascii("verdict"), Ascii("issuedAt"), Ascii("expiresAt")]

  predicate ValidClearance(c: ClearanceRecord) {
    && Identifiers.ValidIdentifier(Identifiers.CLEARANCE, c.clearanceId)
    && Identifiers.ValidIdentifier(Identifiers.EVALUATION, c.evaluationId)
    && ValidInputs(c.inputs)
    && IsSha256Digest(c.evaluationInputsDigest)
    && CompareUnixTimestamps(c.expiresAt, c.issuedAt) > 0
  }

  function ClearanceValues(c: ClearanceRecord): (v: seq<Data>)
    ensures |v| == 8
  {
    [Str(Version(c.dialect, CLEARANCE_SCHEMA)), Str(c.clearanceId), Str(c.evaluationId), InputsData(c.inputs),
     Str(c.evaluationInputsDigest), Str(CLEAR), Str(c.issuedAt), Str(c.expiresAt)]
  }

  function ClearanceData(c: ClearanceRecord): Data {
    Zip(CLEARANCE_KEYS, ClearanceValues(c))
  }

  function ClearanceOf(v: seq<Data>): Option<ClearanceRecord>
    requires |v| == 8
  {
    if v[0].Str? && v[1].Str? && v[2].Str? && v[4].Str? && v[5] == Str(CLEAR) && v[6].Str? && v[7].Str?
       && IsUnixTimestamp(v[6].text) && IsUnixTimestamp(v[7].text) then
      match (ResolveVersion(v[0].text, CLEARANCE_SCHEMA), ParseInputs(v[3]))
      case (Some(dialect), Some(inputs)) =>
        var c := ClearanceRecord(dialect, v[1].text, v[2].text, inputs, v[4].text, v[6].text, v[7].text);
        if ValidClearance(c) then Some(c) else None
      case _ => None
    else None
  }

  function ParseClearance(d: Data): Option<ClearanceRecord> {
    match ExactValues(d, CLEARANCE_KEYS)
    case None => None
    case Some(v) => ClearanceOf(v)
  }

  lemma ParsedClearanceValid(d: Data)
    ensures ParseClearance(d).Some? ==> ValidClearance(ParseClearance(d).value)
  {
  }

  lemma ClearanceKeysDistinct()
    ensures DistinctTexts(CLEARANCE_KEYS)
  {
    KeysDiffer(CLEARANCE_KEYS, 1);
  }

  lemma ClearanceOfValues(c: ClearanceRecord)
    requires ValidClearance(c)
    ensures ClearanceOf(ClearanceValues(c)) == Some(c)
    ensures ClearanceOf(ClearanceValues(c)[3 := Normal(InputsData(c.inputs))]) == Some(c)
  {
    VersionResolved(c.dialect, CLEARANCE_SCHEMA);
    InputsReadBack(c.inputs);
  }

  lemma ClearanceLeaves(c: ClearanceRecord)
    ensures LeavesBut(ClearanceValues(c), 3)
  {
  }

  lemma ClearanceReads(c: ClearanceRecord)
    requires ValidClearance(c)
    ensures Proper(ClearanceData(c))
    ensures ExactValues(ClearanceData(c), CLEARANCE_KEYS) == Some(ClearanceValues(c))
    ensures ExactValues(Normal(ClearanceData(c)), CLEARANCE_KEYS) == Some(ClearanceValues(c)[3 := Normal(InputsData(c.inputs))])
  {
    ClearanceKeysDistinct();
    ClearanceLeaves(c);
    InputsProper(c.inputs);
    NestedRead(CLEARANCE_KEYS, ClearanceValues(c), 3);
  }

  lemma ClearanceReadBack(c: ClearanceRecord)
    requires ValidClearance(c)
    ensures Proper(ClearanceData(c)) && ParseClearance(ClearanceData(c)) == Some(c)
    ensures ParseClearance(Normal(ClearanceData(c))) == Some(c)
  {
    ClearanceReads(c);
    ClearanceOfValues(c);
  }

  lemma ClearancesDecide(a: ClearanceRecord, b: ClearanceRecord)
    requires ValidClearance(a) && ValidClearance(b) && Same(ClearanceData(a), ClearanceData(b))
    ensures a == b
  {
    ClearanceReadBack(a);
    ClearanceReadBack(b);
    NormalFormDecides(ClearanceData(a), ClearanceData(b));
  }

  // ---------- Deployment intents ----------

  /** The action is always ACTIVATE_DEPLOYMENT and the target environment always sepolia. */
  datatype Intent = Intent(
    dialect: Dialect, siteId: Text, robotId: Text, robotBuildId: Text, robotBuildDigest: Text,
    clearanceId: Text, clearanceDigest: Text, nonce: Text, issuedAt: UnixTimestamp, expiresAt: UnixTimestamp)

  const INTENT_SCHEMA: Text := Ascii("deployment-intent/v2")
  const ACTION: Text := Ascii("ACTIVATE_DEPLOYMENT")
  const SEPOLIA: Text := Ascii("sepolia")

  const INTENT_KEYS: seq<Text> := [
    Ascii("schemaVersion"), Ascii("action"), Ascii("siteId"), Ascii("robotId"), Ascii("robotBuildId"),
    Ascii("robotBuildDigest"), Ascii("clearanceId"), Ascii("clearanceDigest"), Ascii("targetEnvironment"),
    Ascii("nonce"), Ascii("issuedAt"), Ascii("expiresAt")]

  predicate ValidIntent(i: Intent) {
    && Identifiers.ValidIdentifier(Identifiers.SITE, i.siteId)
    && Identifiers.ValidIdentifier(Identifiers.ROBOT, i.robotId)
    && Identifiers.ValidIdentifier(Identifiers.ROBOT_BUILD, i.robotBuildId)
    && IsSha256Digest(i.robotBuildDigest)
    && Identifiers.ValidIdentifier(Identifiers.CLEARANCE, i.clearanceId)
    && IsSha256Digest(i.clearanceDigest)
    && IsNonce(i.nonce)
    && CompareUnixTimestamps(i.expiresAt, i.issuedAt) > 0
  }

  function IntentTexts(i: Intent): (ts: seq<Text>)
    ensures |ts| == 12
  {
    [Version(i.dialect, INTENT_SCHEMA), ACTION, i.siteId, i.robotId, i.robotBuildId, i.robotBuildDigest,
     i.clearanceId, i.clearanceDigest, SEPOLIA, i.nonce, i.issuedAt, i.expiresAt]
  }

  function IntentData(i: Intent): Data {
    Zip(INTENT_KEYS, Strings(IntentTexts(i)))
  }

  function IntentOf(v: seq<Data>): Option<Intent>
    requires |v| == 12
  {
    if AllStrings(v) && v[1].text == ACTION && v[8].text == SEPOLIA
       && IsUnixTimestamp(v[10].text) && IsUnixTimestamp(v[11].text) then
      match ResolveVersion(v[0].text, INTENT_SCHEMA)
      case None => None
      case Some(dialect) =>
        var i := Intent(dialect, v[2].text, v[3].text, v[4].text, v[5].text, v[6].text, v[7].text, v[9].text,
                        v[10].text, v[11].text);
        if ValidIntent(i) then Some(i) else None
    else None
  }

  function ParseIntent(d: Data): Option<Intent> {
    match ExactValues(d, INTENT_KEYS)
    case None => None
    case Some(v) => IntentOf(v)
  }

  lemma ParsedIntentValid(d: Data)
    ensures ParseIntent(d).Some? ==> ValidIntent(ParseIntent(d).value)
  {
  }

  lemma IntentKeysDistinct()
    ensures DistinctTexts(INTENT_KEYS)
  {
    KeysDiffer(INTENT_KEYS, 1);
  }

  lemma IntentOfTexts(i: Intent)
    requires ValidIntent(i)
    ensures IntentOf(Strings(IntentTexts(i))) == Some(i)
  {
    VersionResolved(i.dialect, INTENT_SCHEMA);
  }

  lemma IntentProper(i: Intent)
    ensures Proper(IntentData(i))
  {
    IntentKeysDistinct();
    NormalStrings(IntentTexts(i));
    ZipProper(INTENT_KEYS, Strings(IntentTexts(i)));
  }

  lemma IntentReadBack(i: Intent)
    requires ValidIntent(i)
    ensures Proper(IntentData(i)) && ParseIntent(IntentData(i)) == Some(i)
    ensures ParseIntent(Normal(IntentData(i))) == Some(i)
  {
    IntentKeysDistinct();
    NormalStrings(IntentTexts(i));
    ZipProper(INTENT_KEYS, Strings(IntentTexts(i)));
    ZipRead(INTENT_KEYS, Strings(IntentTexts(i)));
    ZipNormalRead(INTENT_KEYS, Strings(IntentTexts(i)));
    IntentOfTexts(i);
  }

  lemma IntentsDecide(a: Intent, b: Intent)
    requires ValidIntent(a) && ValidIntent(b) && Same(IntentData(a), IntentData(b))
    ensures a == b
  {
    IntentReadBack(a);
    IntentReadBack(b);
    NormalFormDecides(IntentData(a), IntentData(b));
  }

  // ---------- Digests of records ----------

  function DigestInputs(h: Hashing, r: Inputs): Option<Text> {
    Digest(h, Domain(EvaluationInputs, r.dialect), ProtocolVersion(r.dialect), InputsData(r))
  }

  /** Refused when the record does not carry the digest of its own inputs. */
  function DigestClearance(h: Hashing, c: ClearanceRecord): Option<Text> {
    if Some(c.evaluationInputsDigest) == DigestInputs(h, c.inputs) then
      Digest(h, Domain(Kind.Clearance, c.dialect), ProtocolVersion(c.dialect), ClearanceData(c))
    else None
  }

  function DigestIntent(h: Hashing, i: Intent): Option<Text> {
    Digest(h, Domain(DeploymentIntent, i.dialect), ProtocolVersion(i.dialect), IntentData(i))
  }

  function ClearanceBytes(h: Hashing, c: ClearanceRecord): Option<seq<Byte>> {
    FrameBytes(h, Domain(Kind.Clearance, c.dialect), ProtocolVersion(c.dialect), ClearanceData(c))
  }

  function IntentBytes(h: Hashing, i: Intent): Option<seq<Byte>> {
    FrameBytes(h, Domain(DeploymentIntent, i.dialect), ProtocolVersion(i.dialect), IntentData(i))
  }

  /** A clearance digest names one clearance record, or exhibits a collision. */
  lemma ClearanceDigestNames(h: Hashing, a: ClearanceRecord, b: ClearanceRecord)
    requires ValidClearance(a) && ValidClearance(b)
    requires DigestClearance(h, a).Some? && DigestClearance(h, a) == DigestClearance(h, b)
    ensures ClearanceBytes(h, a).Some? && ClearanceBytes(h, b).Some?
    ensures a == b || Collision(h, ClearanceBytes(h, a).value, ClearanceBytes(h, b).value)
  {
    ClearanceReadBack(a);
    ClearanceReadBack(b);
    DigestDecides(h, Domain(Kind.Clearance, a.dialect), ProtocolVersion(a.dialect), ClearanceData(a),
                  Domain(Kind.Clearance, b.dialect), ProtocolVersion(b.dialect), ClearanceData(b));
    if Same(ClearanceData(a), ClearanceData(b)) {
      ClearancesDecide(a, b);
    }
  }

  /** An intent digest names one intent, or exhibits a collision. */
  lemma IntentDigestNames(h: Hashing, a: Intent, b: Intent)
    requires ValidIntent(a) && ValidIntent(b)
    requires DigestIntent(h, a).Some? && DigestIntent(h, a) == DigestIntent(h, b)
    ensures IntentBytes(h, a).Some? && IntentBytes(h, b).Some?
    ensures a == b || Collision(h, IntentBytes(h, a).value, IntentBytes(h, b).value)
  {
    IntentReadBack(a);
    IntentReadBack(b);
    DigestDecides(h, Domain(DeploymentIntent, a.dialect), ProtocolVersion(a.dialect), IntentData(a),
                  Domain(DeploymentIntent, b.dialect), ProtocolVersion(b.dialect), IntentData(b));
    if Same(IntentData(a), IntentData(b)) {
      IntentsDecide(a, b);
    }
  }
}
