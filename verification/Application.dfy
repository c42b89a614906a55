/** The application store: builds, source builds, and evaluations, one function for each transaction. */
module Application {
  import opened Text
  import opened Values
  import opened Digests
  import opened Timestamps
  import opened Records
  import opened BuildRecords
  import Identifiers

  // ---------- Values ----------

  datatype Verdict = Clear | Hold | Escalate

  datatype EvaluationResult = EvaluationResult(
    evaluationId: Text, inputs: Inputs, evaluationInputsDigest: Text, verdict: Verdict, evaluatedAt: UnixTimestamp)

  datatype Response = Reject(code: Text) | Result(behaviorInputDigest: Text, result: EvaluationResult)

  datatype Callback = Callback(evaluationId: Text, response: Response)

  /** Printers, parsers, digests and ciphers of other modules. Nothing stands for a refusal. */
  datatype Codec = Codec(
    printDescriptor: Descriptor -> Option<Text>,
    parseDescriptor: Text -> Option<Descriptor>,
    readEvidence: Data -> Option<Evidence>,
    printEvidence: Evidence -> Option<Text>,
    parseEvidence: Text -> Option<Evidence>,
    digestEvidence: Evidence -> Option<Text>,
    digestBuild: Descriptor -> Option<Text>,
    digestInputs: Inputs -> Option<Text>,
    digestBehavior: (EvaluationRequest, Descriptor, Text, UnixTimestamp) -> Option<Text>,
    digestCallback: Callback -> Text,
    buildTraces: (Descriptor, Text) -> Option<Text>,
    decrypts: Text -> bool,
    artifactPathOf: Text -> Text)

  // ---------- Tables ----------

  datatype Site = Site(accountId: Text, safetyEnvelopeId: Text, safetyEnvelopeCommitment: Text, policyCiphertext: Text)

  datatype Robot = Robot(accountId: Text, siteId: Text)

  datatype Build = Build(accountId: Text, siteId: Text, robotId: Text, descriptorJson: Text, traceJson: Text, routeJson: Text)

  datatype BuildStatus = Building | Succeeded | Failed

  datatype Integrity = Integrity(
    accountId: Text, siteId: Text, robotId: Text, source: Source, status: BuildStatus,
    artifactPath: Option<Text>, integrityJson: Option<Text>, errorCode: Option<Text>, errorMessage: Option<Text>)

  datatype Pending = Pending(
    accountId: Text, siteId: Text, robotId: Text, buildId: Text, behaviorInputDigest: Text, requestedAt: UnixTimestamp)

  datatype Evaluation = Evaluation(
    accountId: Text, siteId: Text, robotId: Text, buildId: Text, evaluationId: Text, inputs: Inputs,
    evaluationInputsDigest: Text, verdict: Verdict, evaluatedAt: UnixTimestamp)

  datatype Rejection = Rejection(accountId: Text, code: Text, callbackDigest: Text)

  datatype Tables = Tables(
    sites: map<Text, Site>, robots: map<Text, Robot>, builds: map<Text, Build>, integrity: map<Text, Integrity>,
    pending: map<Text, Pending>, evaluations: seq<Evaluation>, rejections: map<Text, Rejection>)

  const EMPTY: Tables := Tables(map[], map[], map[], map[], map[], [], map[])

  function SiteRow(t: Tables, accountId: Text, siteId: Text): Option<Site> {
    if siteId in t.sites && t.sites[siteId].accountId == accountId then Some(t.sites[siteId]) else None
  }

  function RobotRow(t: Tables, accountId: Text, siteId: Text, robotId: Text): Option<Robot> {
    if robotId in t.robots && t.robots[robotId] == Robot(accountId, siteId) then Some(t.robots[robotId]) else None
  }

  function BuildRow(t: Tables, accountId: Text, siteId: Text, robotId: Text, buildId: Text): Option<Build> {
    if buildId in t.builds && t.builds[buildId].accountId == accountId && t.builds[buildId].siteId == siteId
       && t.builds[buildId].robotId == robotId
    then Some(t.builds[buildId]) else None
  }

  function IntegrityRow(t: Tables, accountId: Text, buildId: Text): Option<Integrity> {
    if buildId in t.integrity && t.integrity[buildId].accountId == accountId then Some(t.integrity[buildId]) else None
  }

  // ---------- Builds ----------

  function CreateSite(t: Tables, siteId: Text, site: Site): Option<Tables> {
    if siteId in t.sites then None else Some(t.(sites := t.sites[siteId := site]))
  }

  function CreateRobot(t: Tables, accountId: Text, siteId: Text, robotId: Text): Option<Tables> {
    if SiteRow(t, accountId, siteId).None? || robotId in t.robots then None
    else Some(t.(robots := t.robots[robotId := Robot(accountId, siteId)]))
  }

  /** The row of a new build; refused when its descriptor or its traces are. */
  function NewBuild(c: Codec, accountId: Text, siteId: Text, d: Descriptor, route: Text): Option<Build> {
    match (c.printDescriptor(d), c.buildTraces(d, route))
    case (Some(descriptor), Some(traces)) => Some(Build(accountId, siteId, d.robotId, descriptor, traces, route))
    case _ => None
  }

  /** A build of an existing artifact, under a fresh identifier. */
  function CreateBuild(c: Codec, t: Tables, accountId: Text, siteId: Text, robotId: Text, buildId: Text,
                       artifactDigest: Text, route: Text): Option<Tables>
  {
    if SiteRow(t, accountId, siteId).None? || RobotRow(t, accountId, siteId, robotId).None? || buildId in t.builds then None
    else
      match NewBuild(c, accountId, siteId, ExistingBuild(Current, robotId, buildId, artifactDigest), route)
      case None => None
      case Some(build) => Some(t.(builds := t.builds[buildId := build]))
  }

  const MAX_BUILDING: nat := 2

  function BuildingOf(integrity: map<Text, Integrity>, accountId: Text): set<Text> {
    set b | b in integrity && integrity[b].accountId == accountId && integrity[b].status == Building
  }

  const PLACEHOLDER_DIGEST: Text := Ascii("sha256:0000000000000000000000000000000000000000000000000000000000000000")

  /** A build from source starts with a placeholder descriptor and a BUILDING row, in one transaction. */
  function CreateSourceBuild(c: Codec, t: Tables, accountId: Text, siteId: Text, robotId: Text, buildId: Text,
                             source: Source, route: Text): Option<Tables>
  {
    if SiteRow(t, accountId, siteId).None? || RobotRow(t, accountId, siteId, robotId).None? then None
    else if |BuildingOf(t.integrity, accountId)| >= MAX_BUILDING then None
    else if buildId in t.builds || buildId in t.integrity then None
    else
      match NewBuild(c, accountId, siteId, ExistingBuild(Current, robotId, buildId, PLACEHOLDER_DIGEST), route)
      case None => None
      case Some(build) =>
        var row := Integrity(accountId, siteId, robotId, source, Building, None, None, None, None);
        Some(t.(builds := t.builds[buildId := build], integrity := t.integrity[buildId := row]))
  }

  /** The runner's answer, its evidence not yet parsed. */
  datatype RunnerResult = RunnerResult(evidence: Data, artifactDigest: Text, artifactPath: Text)

  /** What completeSourceBuild holds while the stored artifact is hashed. */
  datatype Completing = Completing(accountId: Text, buildId: Text, build: Build, integrity: Integrity, evidence: Evidence, artifactPath: Text)

  predicate EvidenceMatches(e: Evidence, buildId: Text, row: Integrity) {
    e.buildId == buildId && e.source == row.source
  }

  function BeginComplete(c: Codec, t: Tables, accountId: Text, buildId: Text, r: RunnerResult): Option<Completing> {
    match IntegrityRow(t, accountId, buildId)
    case None => None
    case Some(row) =>
      match (BuildRow(t, accountId, row.siteId, row.robotId, buildId), c.readEvidence(r.evidence))
      case (Some(build), Some(evidence)) =>
        if row.status != Building then None
        else if !EvidenceMatches(evidence, buildId, row) || evidence.artifactDigest != r.artifactDigest then None
        else if r.artifactPath != c.artifactPathOf(buildId) then None
        else Some(Completing(accountId, buildId, build, row, evidence, r.artifactPath))
      case _ => None
  }

  /** The texts a completed source build is given. */
  datatype Promotion = Promotion(descriptorJson: Text, traceJson: Text, integrityJson: Text)

  function Promote(c: Codec, w: Completing): Option<Promotion> {
    match c.digestEvidence(w.evidence)
    case None => None
    case Some(digest) =>
      var d := SourceBuild(w.build.robotId, w.buildId, w.evidence.artifactDigest, digest);
      match (c.printDescriptor(d), c.buildTraces(d, w.build.routeJson), c.printEvidence(w.evidence))
      case (Some(descriptor), Some(traces), Some(evidence)) => Some(Promotion(descriptor, traces, evidence))
      case _ => None
  }

  function CompletedIntegrity(w: Completing, p: Promotion): Integrity {
    w.integrity.(status := Succeeded, artifactPath := Some(w.artifactPath), integrityJson := Some(p.integrityJson),
                 errorCode := None, errorMessage := None)
  }

  /** UPDATE of the two columns; the rest of the row is left as it is now. */
  function PromotedBuild(p: Promotion, now: Build): Build {
    now.(descriptorJson := p.descriptorJson, traceJson := p.traceJson)
  }

  /** Both updates or neither, and only while the row is still BUILDING. */
  function FinishComplete(c: Codec, t: Tables, w: Completing, storedDigest: Text): Option<Tables> {
    if storedDigest != w.evidence.artifactDigest then None
    else
      match (Promote(c, w), IntegrityRow(t, w.accountId, w.buildId))
      case (Some(p), Some(row)) =>
        if row.status != Building || w.buildId !in t.builds || t.builds[w.buildId].accountId != w.accountId then None
        else
          Some(t.(integrity := t.integrity[w.buildId := UpdatedBy(row, CompletedIntegrity(w, p))],
                  builds := t.builds[w.buildId := PromotedBuild(p, t.builds[w.buildId])]))
      case _ => None
  }

  /** UPDATE of status, artifact, evidence and error columns. */
  function UpdatedBy(row: Integrity, next: Integrity): Integrity {
    row.(status := next.status, artifactPath := next.artifactPath, integrityJson := next.integrityJson,
         errorCode := next.errorCode, errorMessage := next.errorMessage)
  }

  function Clip(t: Text, limit: nat): Text {
    if |t| <= limit then t else t[..limit]
  }

  /** A running build fails; a finished one is left as it is. */
  function FailSourceBuild(t: Tables, accountId: Text, buildId: Text, code: Text, message: Text): Option<Tables> {
    match IntegrityRow(t, accountId, buildId)
    case None => None
    case Some(row) =>
      if BuildRow(t, accountId, row.siteId, row.robotId, buildId).None? then None
      else if row.status != Building then Some(t)
      else Some(t.(integrity := t.integrity[buildId :=
             row.(status := Failed, errorCode := Some(Clip(code, 80)), errorMessage := Some(Clip(message, 240)))]))
  }

  // ---------- Submitting an evaluation ----------

  datatype Submission = Submission(
    accountId: Text, siteId: Text, robotId: Text, buildId: Text, evaluationId: Text, requestedAt: Text, evaluatedAt: Text)

  /** What evaluateBuild holds while the executor runs. */
  datatype Waiting = Waiting(
    accountId: Text, siteId: Text, robotId: Text, buildId: Text, request: EvaluationRequest, evaluatedAt: UnixTimestamp)

  /** The request as it is made from rows, at submission and again at completion. */
  function RequestFrom(c: Codec, siteId: Text, site: Site, robotId: Text, d: Descriptor,
                       evaluationId: Text, requestedAt: Text): Option<EvaluationRequest>
  {
    match c.digestBuild(d)
    case None => None
    case Some(digest) =>
      var inputs := Inputs(Current, siteId, robotId, d.robotBuildId, digest, site.safetyEnvelopeId, site.safetyEnvelopeCommitment, EVALUATOR);
      if Identifiers.ValidIdentifier(Identifiers.EVALUATION, evaluationId) && ValidInputs(inputs) && IsUnixTimestamp(requestedAt) then
        Some(EvaluationRequest(Current, evaluationId, inputs, requestedAt))
      else None
  }

  /** The cross-check of stored evidence against the descriptor, when a source build is read. */
  predicate SourceBuildReads(c: Codec, buildId: Text, build: Build, row: Integrity) {
    && row.integrityJson.Some? && c.parseEvidence(row.integrityJson.value).Some?
    && c.parseDescriptor(build.descriptorJson).Some?
    && var e := c.parseEvidence(row.integrityJson.value).value;
       var d := c.parseDescriptor(build.descriptorJson).value;
       && EvidenceMatches(e, buildId, row)
       && d.robotId == build.robotId && d.robotBuildId == buildId
       && d.SourceBuild? && c.digestEvidence(e) == Some(d.buildIntegrityDigest) && d.artifactDigest == e.artifactDigest
  }

  /** A build may be evaluated: it is not from source, or its source build succeeded and reads back. */
  predicate Evaluable(c: Codec, t: Tables, accountId: Text, buildId: Text, build: Build) {
    match IntegrityRow(t, accountId, buildId)
    case None => true
    case Some(row) => row.status == Succeeded && SourceBuildReads(c, buildId, build, row)
  }

  function FindEvaluation(evaluations: seq<Evaluation>, accountId: Text, evaluationId: Text): Option<Evaluation> {
    if evaluations == [] then None
    else if evaluations[0].accountId == accountId && evaluations[0].evaluationId == evaluationId then Some(evaluations[0])
    else FindEvaluation(evaluations[1..], accountId, evaluationId)
  }

  function FindAnyEvaluation(evaluations: seq<Evaluation>, evaluationId: Text): Option<Evaluation> {
    if evaluations == [] then None
    else if evaluations[0].evaluationId == evaluationId then Some(evaluations[0])
    else FindAnyEvaluation(evaluations[1..], evaluationId)
  }

  /** Inserts a pending row, unless the same one is there or the evaluation is done; a changed one is refused. */
  function RecordPending(t: Tables, evaluationId: Text, p: Pending): Option<Tables> {
    if evaluationId in t.pending then
      if t.pending[evaluationId] == p then Some(t) else None
    else if FindEvaluation(t.evaluations, p.accountId, evaluationId).Some? then Some(t)
    else Some(t.(pending := t.pending[evaluationId := p]))
  }

  /** The segment of evaluateBuild up to the executor. */
  function Submit(c: Codec, t: Tables, s: Submission): Option<(Tables, Waiting)> {
    match (SiteRow(t, s.accountId, s.siteId), RobotRow(t, s.accountId, s.siteId, s.robotId),
           BuildRow(t, s.accountId, s.siteId, s.robotId, s.buildId))
    case (Some(site), Some(_), Some(build)) =>
      if !Evaluable(c, t, s.accountId, s.buildId, build) || !c.decrypts(site.policyCiphertext) then None
      else SubmitBuild(c, t, s, site, build)
    case _ => None
  }

  function SubmitBuild(c: Codec, t: Tables, s: Submission, site: Site, build: Build): Option<(Tables, Waiting)> {
    match c.parseDescriptor(build.descriptorJson)
    case None => None
    case Some(d) =>
      if d.robotId != s.robotId || d.robotBuildId != s.buildId || !IsUnixTimestamp(s.evaluatedAt) then None
      else
        match RequestFrom(c, s.siteId, site, s.robotId, d, s.evaluationId, s.requestedAt)
        case None => None
        case Some(request) => SubmitRequest(c, t, s, d, build.traceJson, request)
  }

  function SubmitRequest(c: Codec, t: Tables, s: Submission, d: Descriptor, traceJson: Text, request: EvaluationRequest): Option<(Tables, Waiting)>
    requires IsUnixTimestamp(s.evaluatedAt) && IsUnixTimestamp(s.requestedAt)
  {
    match c.digestBehavior(request, d, traceJson, s.evaluatedAt)
    case None => None
    case Some(digest) =>
      match RecordPending(t, s.evaluationId, Pending(s.accountId, s.siteId, s.robotId, s.buildId, digest, s.requestedAt))
      case None => None
      case Some(next) => Some((next, Waiting(s.accountId, s.siteId, s.robotId, s.buildId, request, s.evaluatedAt)))
  }

  // ---------- The executor answers ----------

  /** The executor threw: the pending row stays only for a callback that is still to come. */
  function ExecutorFailed(t: Tables, w: Waiting, stillPending: bool): Tables {
    if FindEvaluation(t.evaluations, w.accountId, w.request.evaluationId).Some? || stillPending then t
    else t.(pending := t.pending - {w.request.evaluationId})
  }

  /** Seven bindings; the schema version of the inputs is not among them. */
  predicate SameInputs(a: Inputs, b: Inputs) {
    && a.siteId == b.siteId && a.robotId == b.robotId && a.robotBuildId == b.robotBuildId
    && a.robotBuildDigest == b.robotBuildDigest && a.safetyEnvelopeId == b.safetyEnvelopeId
    && a.safetyEnvelopeCommitment == b.safetyEnvelopeCommitment && a.evaluatorVersion == b.evaluatorVersion
  }

  predicate ResultBindings(c: Codec, result: EvaluationResult, request: EvaluationRequest) {
    && result.evaluationId == request.evaluationId
    && SameInputs(result.inputs, request.inputs)
    && c.digestInputs(request.inputs) == Some(result.evaluationInputsDigest)
    && CompareUnixTimestamps(result.evaluatedAt, request.requestedAt) >= 0
  }

  function EvaluationOf(accountId: Text, siteId: Text, robotId: Text, buildId: Text, r: EvaluationResult): Evaluation {
    Evaluation(accountId, siteId, robotId, buildId, r.evaluationId, r.inputs, r.evaluationInputsDigest, r.verdict, r.evaluatedAt)
  }

  /** The executor answered at once: the evaluation is inserted whatever happened meanwhile. */
  function ExecutorSucceeded(c: Codec, t: Tables, w: Waiting, result: EvaluationResult): Option<Tables> {
    if !ResultBindings(c, result, w.request) then None
    else
      Some(t.(evaluations := t.evaluations + [EvaluationOf(w.accountId, w.siteId, w.robotId, w.buildId, result)],
              pending := t.pending - {w.request.evaluationId}))
  }

  // ---------- The callback ----------

  datatype Outcome =
    | Completed(evaluation: Evaluation)
    | AlreadyCompleted(evaluation: Evaluation)
    | Rejected(code: Text)
    | Conflict
    | NotFound
    | Refused

  /** The request rebuilt from the rows a pending evaluation names. */
  function Rebuilt(c: Codec, t: Tables, evaluationId: Text, p: Pending): Option<EvaluationRequest> {
    match (SiteRow(t, p.accountId, p.siteId), RobotRow(t, p.accountId, p.siteId, p.robotId),
           BuildRow(t, p.accountId, p.siteId, p.robotId, p.buildId))
    case (Some(site), Some(_), Some(build)) =>
      (match c.parseDescriptor(build.descriptorJson)
       case None => None
       case Some(d) => RequestFrom(c, p.siteId, site, p.robotId, d, evaluationId, p.requestedAt))
    case _ => None
  }

  function RejectionOutcome(c: Codec, r: Rejection, cb: Callback): Outcome {
    if r.callbackDigest == c.digestCallback(cb) then Rejected(r.code) else Conflict
  }

  function CompleteCreEvaluation(c: Codec, t: Tables, cb: Callback): (Tables, Outcome) {
    var id := cb.evaluationId;
    if id !in t.pending then
      match FindAnyEvaluation(t.evaluations, id)
      case Some(e) => (t, AlreadyCompleted(e))
      case None => (t, if id in t.rejections then RejectionOutcome(c, t.rejections[id], cb) else NotFound)
    else if id in t.rejections then (t, RejectionOutcome(c, t.rejections[id], cb))
    else AnswerPending(c, t, cb, t.pending[id])
  }

  function AnswerPending(c: Codec, t: Tables, cb: Callback, p: Pending): (Tables, Outcome) {
    var id := cb.evaluationId;
    match cb.response
    case Reject(code) =>
      (t.(rejections := t.rejections[id := Rejection(p.accountId, code, c.digestCallback(cb))], pending := t.pending - {id}),
       Rejected(code))
    case Result(digest, result) =>
      if digest != p.behaviorInputDigest then (t, Conflict) else StoreResult(c, t, p, result, Rebuilt(c, t, id, p))
  }

  /** The result is stored only when it is bound to the rebuilt request. */
  function StoreResult(c: Codec, t: Tables, p: Pending, result: EvaluationResult, request: Option<EvaluationRequest>): (Tables, Outcome) {
    if request.None? || !ResultBindings(c, result, request.value) then (t, Refused)
    else
      var e := EvaluationOf(p.accountId, p.siteId, p.robotId, p.buildId, result);
      (t.(evaluations := t.evaluations + [e], pending := t.pending - {request.value.evaluationId}), Completed(e))
  }

  datatype EvaluationStatus = Done(evaluation: Evaluation) | StillPending(pending: Pending) | Unknown

  function GetEvaluationStatus(t: Tables, accountId: Text, evaluationId: Text): EvaluationStatus {
    match FindEvaluation(t.evaluations, accountId, evaluationId)
    case Some(e) => Done(e)
    case None =>
      if evaluationId in t.pending && t.pending[evaluationId].accountId == accountId then StillPending(t.pending[evaluationId])
      else Unknown
  }
}
