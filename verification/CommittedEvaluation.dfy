/** evaluateSimulation on its unparsed input: the request, what it commits to, and the report. */
module CommittedEvaluation {
  import opened Text
  import opened Unicode
  import opened Values
  import opened Digests
  import opened Schemas
  import opened Timestamps
  import opened Records
  import opened BuildRecords
  import opened AsciiRecords
  import opened Commitments
  import Identifiers
  import M = Model
  import S = Simulation

  // ---------- Inputs ----------

  /** A suite of behaviour traces; its header names the build the traces are claimed of. */
  datatype TraceSuite = TraceSuite(version: M.Version, robotId: Text, robotBuildId: Text, robotBuildDigest: Text, traces: seq<M.Trace>)

  datatype Input = Input(
    request: Data, robotBuild: Data, envelope: M.Envelope, blind: seq<Byte>, behavior: TraceSuite, evaluatedAt: Text)

  /** The parsed parts of an input. */
  datatype Parts = Parts(
    request: EvaluationRequest, robotBuild: Descriptor, envelope: M.Envelope, traces: seq<M.Trace>, evaluatedAt: UnixTimestamp)

  function ParseTraceSuite(s: TraceSuite): Option<seq<M.Trace>> {
    if !s.version.Unsupported? && Identifiers.ValidIdentifier(Identifiers.ROBOT, s.robotId)
       && Identifiers.ValidIdentifier(Identifiers.ROBOT_BUILD, s.robotBuildId) && IsSha256Digest(s.robotBuildDigest)
    then M.ParseTraces(s.traces)
    else None
  }

  function ParseInput(i: Input): Option<Parts> {
    if !IsUnixTimestamp(i.evaluatedAt) then None
    else
      match (ParseRequest(i.request), ParseDescriptor(i.robotBuild), M.ParseEnvelope(i.envelope), ParseTraceSuite(i.behavior))
      case (Some(request), Some(build), Some(envelope), Some(traces)) => Some(Parts(request, build, envelope, traces, i.evaluatedAt))
      case _ => None
  }

  // ---------- What the public request binds ----------

  /** Envelope and blind are committed to, the build is digested, the traces claim that build, and the evaluator is this one. */
  predicate Bound(h: Hashing, p: Parts, blind: seq<Byte>, behavior: TraceSuite) {
    var inputs := p.request.inputs;
    && inputs.evaluatorVersion == EVALUATOR
    && Commitment(h, p.envelope, blind) == Some(inputs.safetyEnvelopeCommitment)
    && inputs.robotId == p.robotBuild.robotId && inputs.robotBuildId == p.robotBuild.robotBuildId
    && DigestRobotBuild(h, p.robotBuild) == Some(inputs.robotBuildDigest)
    && inputs.siteId == p.envelope.siteId && inputs.safetyEnvelopeId == p.envelope.safetyEnvelopeId
    && behavior.robotId == inputs.robotId && behavior.robotBuildId == inputs.robotBuildId
    && behavior.robotBuildDigest == inputs.robotBuildDigest
  }

  /** The result names the request and does not precede it. */
  predicate Concludes(h: Hashing, p: Parts) {
    DigestInputs(h, p.request.inputs).Some? && Seconds(p.request.requestedAt) <= Seconds(p.evaluatedAt)
  }

  // ---------- The report ----------

  datatype PublicReport = PublicReport(
    dialect: Dialect, evaluationId: Text, inputs: Inputs, evaluationInputsDigest: Text, evaluatedAt: UnixTimestamp, report: S.Report)

  datatype Refusal = Malformed | Unbound | NotEvaluable(reason: S.Reason) | ResultRefused

  datatype Result = Rejected(refusal: Refusal) | Evaluated(report: PublicReport)

  /** The report on parsed parts: the verdict of the evaluator under the identity of the request. */
  ghost predicate ReportsOn(h: Hashing, p: Parts, r: PublicReport) {
    && S.Evaluable(p.envelope, p.traces)
    && S.IsReport(p.envelope, p.traces, S.SuiteOf(p.envelope), r.report)
    && r.dialect == p.request.dialect && r.evaluationId == p.request.evaluationId && r.inputs == p.request.inputs
    && DigestInputs(h, p.request.inputs) == Some(r.evaluationInputsDigest) && r.evaluatedAt == p.evaluatedAt
  }

  ghost predicate Accepted(h: Hashing, i: Input) {
    && ParseInput(i).Some?
    && var p := ParseInput(i).value;
       Bound(h, p, i.blind, i.behavior) && S.Evaluable(p.envelope, p.traces) && Concludes(h, p)
  }

  /** What evaluateSimulation answers: a report on accepted inputs, a refusal on all others, never for a missing trace. */
  ghost predicate Answers(h: Hashing, i: Input, r: Result) {
    && (r.Evaluated? <==> Accepted(h, i))
    && (r.Evaluated? ==> ReportsOn(h, ParseInput(i).value, r.report))
    && r != Rejected(NotEvaluable(S.MissingTrace))
  }

  ghost predicate IsSafe(p: Parts)
    requires S.Evaluable(p.envelope, p.traces)
  {
    S.AllMatched(p.envelope, p.traces, S.SuiteOf(p.envelope)) && S.AllSafe(p.envelope, p.traces, S.SuiteOf(p.envelope))
  }

  method EvaluateSimulation(h: Hashing, input: Input) returns (r: Result)
    ensures Answers(h, input, r)
    ensures r.Evaluated? ==> (r.report.report.verdict == S.Clear <==> IsSafe(ParseInput(input).value))
  {
    var parsed := ParseInput(input);
    if parsed.None? { return Rejected(Malformed); }
    var p := parsed.value;
    if !Bound(h, p, input.blind, input.behavior) { return Rejected(Unbound); }
    M.EnvelopeIdempotent(input.envelope, p.envelope);
    M.TracesIdempotent(input.behavior.traces, p.traces);
    var evaluated := S.EvaluateTraces(p.envelope, p.traces);
    if evaluated.Rejected? { return Rejected(NotEvaluable(evaluated.reason)); }
    var digest := DigestInputs(h, p.request.inputs);
    CompareIsNumeric(p.evaluatedAt, p.request.requestedAt);
    if digest.None? || CompareUnixTimestamps(p.evaluatedAt, p.request.requestedAt) < 0 { return Rejected(ResultRefused); }
    r := Evaluated(PublicReport(p.request.dialect, p.request.evaluationId, p.request.inputs, digest.value, p.evaluatedAt, evaluated.report));
  }

  // ---------- When an input is evaluated ----------

  /** The public inputs name this envelope under this blind of 32 octets, and this build by its real digest. */
  predicate RequestNames(h: Hashing, inputs: Inputs, d: Descriptor, e: M.Envelope, blind: seq<Byte>) {
    && inputs.evaluatorVersion == EVALUATOR
    && inputs.siteId == e.siteId && inputs.safetyEnvelopeId == e.safetyEnvelopeId
    && |blind| == 32 && Some(inputs.safetyEnvelopeCommitment) == Commitment(h, e, blind)
    && inputs.robotId == d.robotId && inputs.robotBuildId == d.robotBuildId
    && Some(inputs.robotBuildDigest) == DigestRobotBuild(h, d)
  }

  /** The traces claim to be of this build, by its real digest. */
  predicate HeaderNames(h: Hashing, header: TraceSuite, d: Descriptor) {
    && header.robotId == d.robotId && header.robotBuildId == d.robotBuildId
    && Some(header.robotBuildDigest) == DigestRobotBuild(h, d)
  }

  /** The traces are of a known dialect and cover the scenarios of the envelope, which is of the current one. */
  ghost predicate TracesCover(header: TraceSuite, e: M.Envelope) {
    !header.version.Unsupported? && M.ParseTraces(header.traces).Some? && S.Evaluable(e, M.ParseTraces(header.traces).value)
  }

  lemma HeaderParses(h: Hashing, header: TraceSuite, d: Descriptor)
    requires ValidDescriptor(d) && HeaderNames(h, header, d) && !header.version.Unsupported?
    ensures ParseTraceSuite(header) == M.ParseTraces(header.traces)
  {
    var dialect := BuildRecords.DialectOf(d);
    DigestShape(h, Domain(RobotBuild, dialect), ProtocolVersion(dialect), DescriptorData(d));
  }

  lemma ParsedInputsValid(d: Data)
    ensures ParseRequest(d).Some? ==> ValidInputs(ParseRequest(d).value.inputs)
  {
  }

  lemma ParsedDescriptorValid(d: Data)
    ensures ParseDescriptor(d).Some? ==> ValidDescriptor(ParseDescriptor(d).value)
  {
  }

  /** The parsed parts are bound together exactly when request and header name the build and the envelope. */
  lemma BoundExactly(h: Hashing, p: Parts, blind: seq<Byte>, header: TraceSuite)
    ensures Bound(h, p, blind, header) <==> RequestNames(h, p.request.inputs, p.robotBuild, p.envelope, blind) && HeaderNames(h, header, p.robotBuild)
  {
  }

  lemma PartsExactly(i: Input, request: EvaluationRequest, d: Descriptor, e: M.Envelope)
    requires ParseRequest(i.request) == Some(request) && ParseDescriptor(i.robotBuild) == Some(d)
    requires M.ParseEnvelope(i.envelope) == Some(e) && IsUnixTimestamp(i.evaluatedAt)
    ensures ParseInput(i).Some? <==> ParseTraceSuite(i.behavior).Some?
    ensures ParseInput(i).Some? ==> ParseInput(i).value == Parts(request, d, e, ParseTraceSuite(i.behavior).value, i.evaluatedAt)
  {
  }

  /**
   * An input with readable request, build, envelope and time is evaluated exactly when the request names that
   * envelope and build, the header of the traces names the same build by its real digest, the traces cover the
   * scenarios, and the times are in order. Every other input is refused.
   */
  lemma EvaluatedExactly(h: Hashing, i: Input, request: EvaluationRequest, d: Descriptor, e: M.Envelope, r: Result)
    requires KeepsAscii(h.nfc) && Answers(h, i, r)
    requires ParseRequest(i.request) == Some(request) && ParseDescriptor(i.robotBuild) == Some(d)
    requires M.ParseEnvelope(i.envelope) == Some(e) && IsUnixTimestamp(i.evaluatedAt)
    ensures r.Evaluated? <==>
              && RequestNames(h, request.inputs, d, e, i.blind) && HeaderNames(h, i.behavior, d)
              && TracesCover(i.behavior, e) && Seconds(request.requestedAt) <= Seconds(i.evaluatedAt)
  {
    ParsedInputsValid(i.request);
    ParsedDescriptorValid(i.robotBuild);
    InputsDigest(h, request.inputs);
    PartsExactly(i, request, d, e);
    if HeaderNames(h, i.behavior, d) && !i.behavior.version.Unsupported? {
      HeaderParses(h, i.behavior, d);
    }
    if ParseTraceSuite(i.behavior).Some? {
      BoundExactly(h, ParseInput(i).value, i.blind, i.behavior);
    }
  }

  // ---------- What determines the report ----------

  lemma ReportDetermined(h: Hashing, p: Parts, a: PublicReport, b: PublicReport)
    requires ReportsOn(h, p, a) && ReportsOn(h, p, b)
    ensures a == b
  {
    S.ReportIsUnique(p.envelope, p.traces, S.SuiteOf(p.envelope), a.report, b.report);
  }

  /** The same input, its zones, rules, templates and traces in any order. */
  predicate SameInputUpToOrder(a: Input, b: Input) {
    && a.request == b.request && a.robotBuild == b.robotBuild && a.blind == b.blind && a.evaluatedAt == b.evaluatedAt
    && b.behavior == a.behavior.(traces := b.behavior.traces) && multiset(a.behavior.traces) == multiset(b.behavior.traces)
  }

  /** Permuting zones, rules, templates or traces changes neither acceptance nor the report. */
  lemma OutcomeIgnoresInputOrder(h: Hashing, a: Input, b: Input, ra: Result, rb: Result)
    requires SameInputUpToOrder(a, b) && M.SameUpToOrder(a.envelope, b.envelope)
    requires Answers(h, a, ra) && Answers(h, b, rb)
    ensures ra.Evaluated? <==> rb.Evaluated?
    ensures ra.Evaluated? ==> ra == rb
  {
    M.EnvelopeOrderIrrelevant(a.envelope, b.envelope);
    M.TraceOrderIrrelevant(a.behavior.traces, b.behavior.traces);
    assert ParseInput(a) == ParseInput(b);
    if ra.Evaluated? {
      ReportDetermined(h, ParseInput(a).value, ra.report, rb.report);
    }
  }

  lemma PartsParsed(i: Input)
    requires ParseInput(i).Some?
    ensures var p := ParseInput(i).value;
            && ParseRequest(i.request) == Some(p.request) && M.ParseEnvelope(i.envelope) == Some(p.envelope)
            && M.ParseTraces(i.behavior.traces) == Some(p.traces)
  {
  }

  lemma ParsedEnvelopeSupported(e: M.Envelope)
    ensures M.ParseEnvelope(e).Some? ==> Supported(M.ParseEnvelope(e).value)
  {
  }

  /** What an evaluation says of its request, its commitment and its traces. */
  lemma EvaluatedCommitment(h: Hashing, i: Input, r: Result)
    requires Answers(h, i, r) && r.Evaluated?
    ensures ParseInput(i).Some? && ParseRequest(i.request).Some?
    ensures var p := ParseInput(i).value;
            && Supported(p.envelope) && S.Evaluable(p.envelope, p.traces) && M.ParseTraces(i.behavior.traces) == Some(p.traces)
            && Commitment(h, p.envelope, i.blind) == Some(ParseRequest(i.request).value.inputs.safetyEnvelopeCommitment)
            && S.IsReport(p.envelope, p.traces, S.SuiteOf(p.envelope), r.report.report)
  {
    PartsParsed(i);
    ParsedEnvelopeSupported(i.envelope);
  }

  /**
   * The public request commits the verdict: two evaluations of one request on the same traces give the same
   * findings, whatever confidential envelopes and blinds they were given, or the two commitments collide.
   */
  lemma VerdictIsCommitted(h: Hashing, a: Input, b: Input, ra: Result, rb: Result)
    requires Answers(h, a, ra) && Answers(h, b, rb) && ra.Evaluated? && rb.Evaluated?
    requires ParseRequest(a.request) == ParseRequest(b.request)
    requires multiset(a.behavior.traces) == multiset(b.behavior.traces)
    ensures var p, q := ParseInput(a).value, ParseInput(b).value;
            && CommitmentBytes(h, p.envelope, a.blind).Some? && CommitmentBytes(h, q.envelope, b.blind).Some?
            && ((p.envelope == q.envelope && ra.report.report == rb.report.report)
                || Collision(h, CommitmentBytes(h, p.envelope, a.blind).value, CommitmentBytes(h, q.envelope, b.blind).value))
  {
    var p, q := ParseInput(a).value, ParseInput(b).value;
    EvaluatedCommitment(h, a, ra);
    EvaluatedCommitment(h, b, rb);
    M.TraceOrderIrrelevant(a.behavior.traces, b.behavior.traces);
    CommitmentNames(h, p.envelope, a.blind, q.envelope, b.blind);
    if p.envelope == q.envelope {
      S.ReportIsUnique(p.envelope, p.traces, S.SuiteOf(p.envelope), ra.report.report, rb.report.report);
    }
  }
}
