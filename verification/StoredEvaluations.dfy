/** The evaluator behind the store: what a waiting call hands out, when it is evaluated, and that the answer is stored. */
module StoredEvaluations {
  import opened Text
  import opened Values
  import opened Digests
  import opened Timestamps
  import opened Records
  import opened BuildRecords
  import opened AsciiRecords
  import opened Application
  import opened ApplicationCodec
  import opened Lifecycle
  import opened Evaluations
  import Commitments
  import CE = CommittedEvaluation
  import M = Model
  import Provenance
  import S = Simulation

  // ---------- The request of a waiting call ----------

  /** The request names the rows it was made from; they are still there and final. */
  predicate NamesRows(c: Codec, t: Tables, w: Waiting) {
    && w.siteId in t.sites && t.sites[w.siteId].accountId == w.accountId
    && w.robotId in t.robots && t.robots[w.robotId] == Robot(w.accountId, w.siteId)
    && w.buildId in t.builds && Settled(t, w.buildId)
    && var site, build := t.sites[w.siteId], t.builds[w.buildId];
       && build.accountId == w.accountId && build.siteId == w.siteId && build.robotId == w.robotId
       && c.parseDescriptor(build.descriptorJson).Some?
       && var d, inputs := c.parseDescriptor(build.descriptorJson).value, w.request.inputs;
          && d.robotId == w.robotId && d.robotBuildId == w.buildId
          && inputs.siteId == w.siteId && inputs.robotId == w.robotId && inputs.robotBuildId == w.buildId
          && Some(inputs.robotBuildDigest) == c.digestBuild(d)
          && inputs.safetyEnvelopeId == site.safetyEnvelopeId
          && inputs.safetyEnvelopeCommitment == site.safetyEnvelopeCommitment
          && inputs.evaluatorVersion == EVALUATOR
          && inputs.dialect == Current && w.request.dialect == Current && ValidRequest(w.request)
  }

  predicate RowsNamed(c: Codec, t: Tables, waiting: map<nat, Waiting>) {
    forall call :: call in waiting ==> NamesRows(c, t, waiting[call])
  }

  predicate AllNameRows(c: Codec, s: State) {
    RowsNamed(c, s.t, s.waiting)
  }

  lemma RowsNamedMore(c: Codec, t: Tables, waiting: map<nat, Waiting>, call: nat, w: Waiting)
    requires RowsNamed(c, t, waiting) && NamesRows(c, t, w)
    ensures RowsNamed(c, t, waiting[call := w])
  {
  }

  lemma SubmittedNamesRows(c: Codec, t: Tables, s: Submission)
    requires OwnIntegrity(t) && Submit(c, t, s).Some?
    ensures NamesRows(c, t, Submit(c, t, s).value.1)
  {
    var p := SubmitReads(c, t, s);
    RebuiltValid(c, t, s.evaluationId, p);
  }

  lemma NamesRowsKept(c: Codec, t: Tables, u: Tables, w: Waiting)
    requires NamesRows(c, t, w) && Kept(t, u)
    ensures NamesRows(c, u, w)
  {
    assert SettledKept(t, u, w.buildId);
  }

  lemma RowsNamedKept(c: Codec, t: Tables, u: Tables, waiting: map<nat, Waiting>, less: map<nat, Waiting>)
    requires RowsNamed(c, t, waiting) && Kept(t, u)
    requires forall call :: call in less ==> call in waiting && less[call] == waiting[call]
    ensures RowsNamed(c, u, less)
  {
    forall call | call in less ensures NamesRows(c, u, less[call]) {
      NamesRowsKept(c, t, u, waiting[call]);
    }
  }

  lemma SubmittedRowsNamed(c: Codec, t: Tables, s: Submission, waiting: map<nat, Waiting>, call: nat)
    requires RowsNamed(c, t, waiting) && OwnIntegrity(t) && Submit(c, t, s).Some?
    ensures RowsNamed(c, Submit(c, t, s).value.0, waiting[call := Submit(c, t, s).value.1])
  {
    var (u, w) := Submit(c, t, s).value;
    OwnHasBuild(t);
    SubmitMoves(c, t, s);
    OnlyEvaluationsKeeps(t, u);
    SubmittedNamesRows(c, t, s);
    NamesRowsKept(c, t, u, w);
    RowsNamedKept(c, t, u, waiting, waiting);
    RowsNamedMore(c, u, waiting, call, w);
  }

  lemma SubmitStepWaits(c: Codec, s: State, call: nat, submission: Submission)
    requires Submit(c, s.t, submission).Some? && call !in s.waiting
    ensures var u := Step(c, s, SubmitEvaluation(call, submission));
            u.t == Submit(c, s.t, submission).value.0 && u.waiting == s.waiting[call := Submit(c, s.t, submission).value.1]
  {
  }

  lemma StepNamesRows(c: Codec, s: State, e: Event)
    requires AllNameRows(c, s) && OwnIntegrity(s.t)
    ensures AllNameRows(c, Step(c, s, e))
  {
    if e.SubmitEvaluation? {
      if Submit(c, s.t, e.submission).Some? && e.call !in s.waiting {
        SubmittedRowsNamed(c, s.t, e.submission, s.waiting, e.call);
        SubmitStepWaits(c, s, e.call, e.submission);
      }
    } else {
      OwnHasBuild(s.t);
      StepKeeps(c, s, e);
      Provenance.OtherWaiting(c, s, e);
      RowsNamedKept(c, s.t, Step(c, s, e).t, s.waiting, Step(c, s, e).waiting);
    }
  }

  /** In every run, the request of each waiting call names the rows of its site, robot and build. */
  lemma {:induction false} RunNamesRows(c: Codec, s: State, events: seq<Event>)
    requires AllNameRows(c, s) && Sound(c, s)
    ensures AllNameRows(c, After(c, s, events))
    decreases |events|
  {
    if events != [] {
      StepNamesRows(c, s, events[0]);
      StepSound(c, s, events[0]);
      RunNamesRows(c, Step(c, s, events[0]), events[1..]);
    }
  }

  // ---------- What the executor evaluates ----------

  /**
   * The executor is handed the request, the stored descriptor and the time of the call, with an envelope and a
   * blind the site was registered with. The header of the traces and the traces are left open.
   */
  predicate HandedOut(l: Libraries, t: Tables, w: Waiting, i: CE.Input) {
    && w.buildId in t.builds && w.siteId in t.sites
    && ParseRequest(i.request) == Some(w.request)
    && ParseDescriptor(i.robotBuild).Some? && ParseDescriptor(i.robotBuild) == ReadDescriptor(t.builds[w.buildId].descriptorJson)
    && i.evaluatedAt == w.evaluatedAt
    && M.ParseEnvelope(i.envelope).Some?
    && var e := M.ParseEnvelope(i.envelope).value;
       && e.siteId == w.siteId && e.safetyEnvelopeId == t.sites[w.siteId].safetyEnvelopeId
       && |i.blind| == 32 && Commitments.Commitment(l.hashing, e, i.blind) == Some(t.sites[w.siteId].safetyEnvelopeCommitment)
  }

  lemma HandedOutNames(l: Libraries, t: Tables, w: Waiting, i: CE.Input)
    requires NamesRows(CodecOf(l), t, w) && HandedOut(l, t, w, i)
    ensures CE.RequestNames(l.hashing, w.request.inputs, ParseDescriptor(i.robotBuild).value, M.ParseEnvelope(i.envelope).value, i.blind)
  {
  }

  function VerdictOf(v: S.Verdict): Verdict {
    match v
    case Clear => Verdict.Clear
    case Hold => Hold
  }

  /** The result part of a report. */
  function ResultOf(r: CE.PublicReport): EvaluationResult {
    EvaluationResult(r.evaluationId, r.inputs, r.evaluationInputsDigest, VerdictOf(r.report.verdict), r.evaluatedAt)
  }

  /** The header names the build of the call by the digest of its stored descriptor, and traces and times are in order. */
  ghost predicate InOrder(l: Libraries, t: Tables, w: Waiting, i: CE.Input)
    requires HandedOut(l, t, w, i)
  {
    && i.behavior.robotId == w.robotId && i.behavior.robotBuildId == w.buildId
    && Some(i.behavior.robotBuildDigest) == DigestRobotBuild(l.hashing, ReadDescriptor(t.builds[w.buildId].descriptorJson).value)
    && CE.TracesCover(i.behavior, M.ParseEnvelope(i.envelope).value)
    && Seconds(w.request.requestedAt) <= Seconds(w.evaluatedAt)
  }

  /**
   * What a waiting call hands out is evaluated exactly when the header of the traces names the build by the digest
   * of its stored descriptor, the traces cover the scenarios, and the times are in order.
   */
  lemma HandedOutEvaluatedExactly(l: Libraries, t: Tables, w: Waiting, i: CE.Input, r: CE.Result)
    requires KeepsAscii(l.hashing.nfc) && NamesRows(CodecOf(l), t, w) && HandedOut(l, t, w, i) && CE.Answers(l.hashing, i, r)
    ensures r.Evaluated? <==> InOrder(l, t, w, i)
  {
    HandedOutNames(l, t, w, i);
    CE.EvaluatedExactly(l.hashing, i, w.request, ParseDescriptor(i.robotBuild).value, M.ParseEnvelope(i.envelope).value, r);
  }

  lemma ReportAnswers(l: Libraries, i: CE.Input, r: CE.Result, request: EvaluationRequest)
    requires CE.Answers(l.hashing, i, r) && r.Evaluated? && ParseRequest(i.request) == Some(request)
    ensures Provenance.ResultFor(CodecOf(l), ResultOf(r.report), request)
  {
    CE.PartsParsed(i);
  }

  lemma ReportedVerdict(h: Hashing, i: CE.Input, r: CE.Result)
    requires CE.Answers(h, i, r) && r.Evaluated?
    ensures CE.ParseInput(i).Some?
    ensures var p := CE.ParseInput(i).value;
            && S.Evaluable(p.envelope, p.traces) && r.report.evaluatedAt == i.evaluatedAt
            && (ResultOf(r.report).verdict == Verdict.Clear <==> CE.IsSafe(p))
  {
    CE.EvaluatedCommitment(h, i, r);
    var p := CE.ParseInput(i).value;
    S.EvaluableVerdict(p.envelope, p.traces, r.report.report);
  }

  /** The last evaluation is this result, under the names of the call. */
  predicate StoresLast(t: Tables, u: Tables, w: Waiting, result: EvaluationResult) {
    && |u.evaluations| == |t.evaluations| + 1
    && var e := u.evaluations[|t.evaluations|];
       && e.verdict == result.verdict && e.evaluatedAt == result.evaluatedAt && e.evaluationId == w.request.evaluationId
       && e.accountId == w.accountId && e.siteId == w.siteId && e.robotId == w.robotId && e.buildId == w.buildId
  }

  lemma AnswerStep(c: Codec, s: State, call: nat, answer: EvaluationResult)
    requires call in s.waiting && Provenance.ResultFor(c, answer, s.waiting[call].request)
    ensures StoresLast(s.t, Step(c, s, ExecutorAnswered(call, answer)).t, s.waiting[call], answer)
  {
    Provenance.AnswerStoresExactly(c, s.t, s.waiting[call], answer);
  }

  /** The verdict stored last is CLEAR exactly when the traces are safe. */
  ghost predicate StoresVerdict(t: Tables, i: CE.Input) {
    && |t.evaluations| > 0 && CE.ParseInput(i).Some?
    && S.Evaluable(CE.ParseInput(i).value.envelope, CE.ParseInput(i).value.traces)
    && t.evaluations[|t.evaluations| - 1].evaluatedAt == i.evaluatedAt
    && (t.evaluations[|t.evaluations| - 1].verdict == Verdict.Clear <==> CE.IsSafe(CE.ParseInput(i).value))
  }

  lemma EvaluatedAnswers(l: Libraries, t: Tables, w: Waiting, i: CE.Input, r: CE.Result)
    requires HandedOut(l, t, w, i) && CE.Answers(l.hashing, i, r) && r.Evaluated?
    ensures Provenance.ResultFor(CodecOf(l), ResultOf(r.report), w.request)
  {
    ReportAnswers(l, i, r, w.request);
  }

  lemma LastVerdict(h: Hashing, i: CE.Input, r: CE.Result, t: Tables, u: Tables, w: Waiting)
    requires CE.Answers(h, i, r) && r.Evaluated? && StoresLast(t, u, w, ResultOf(r.report))
    ensures StoresVerdict(u, i)
  {
    ReportedVerdict(h, i, r);
  }

  /** Whatever is evaluated for a waiting call, the store takes as its answer: CLEAR exactly when the traces are safe. */
  lemma EvaluatedIsStored(l: Libraries, s: State, call: nat, i: CE.Input, r: CE.Result)
    requires call in s.waiting && HandedOut(l, s.t, s.waiting[call], i) && CE.Answers(l.hashing, i, r) && r.Evaluated?
    ensures var t := Step(CodecOf(l), s, ExecutorAnswered(call, ResultOf(r.report))).t;
            StoresLast(s.t, t, s.waiting[call], ResultOf(r.report)) && StoresVerdict(t, i)
  {
    EvaluatedAnswers(l, s.t, s.waiting[call], i, r);
    AnswerStep(CodecOf(l), s, call, ResultOf(r.report));
    LastVerdict(l.hashing, i, r, s.t, Step(CodecOf(l), s, ExecutorAnswered(call, ResultOf(r.report))).t, s.waiting[call]);
  }
}
