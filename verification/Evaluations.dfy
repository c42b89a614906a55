/** Evaluations over every run: what a callback completes, and when an evaluation has one outcome only. */
module Evaluations {
  import opened Text
  import opened Digests
  import opened Timestamps
  import opened Records
  import opened BuildRecords
  import opened Application
  import opened ApplicationCodec
  import opened Lifecycle

  // ---------- The request rebuilt at completion is the one submitted ----------

  /** The digest of the pending row is that of the submitted request with the descriptor and traces of its build. */
  predicate DigestedAs(c: Codec, t: Tables, p: Pending, w: Waiting) {
    && p.buildId in t.builds && c.parseDescriptor(t.builds[p.buildId].descriptorJson).Some?
    && c.digestBehavior(w.request, c.parseDescriptor(t.builds[p.buildId].descriptorJson).value,
                        t.builds[p.buildId].traceJson, w.evaluatedAt) == Some(p.behaviorInputDigest)
  }

  /** A pending evaluation names a settled build; its rows rebuild the submitted request, and its digest is of that request. */
  predicate PendingReads(c: Codec, s: State, id: Text) {
    && id in s.t.pending && id in s.submitted
    && Settled(s.t, s.t.pending[id].buildId)
    && Rebuilt(c, s.t, id, s.t.pending[id]) == Some(s.submitted[id].request)
    && DigestedAs(c, s.t, s.t.pending[id], s.submitted[id])
  }

  predicate AllPendingRead(c: Codec, s: State) {
    forall id :: id in s.t.pending ==> PendingReads(c, s, id)
  }

  /** What one set of rows rebuilds and digests to, every later one does, as long as the build is settled. */
  lemma RebuiltKept(c: Codec, t: Tables, u: Tables, id: Text, p: Pending, w: Waiting)
    requires Kept(t, u) && Settled(t, p.buildId) && Rebuilt(c, t, id, p).Some? && DigestedAs(c, t, p, w)
    ensures Settled(u, p.buildId) && Rebuilt(c, u, id, p) == Rebuilt(c, t, id, p) && DigestedAs(c, u, p, w)
  {
    assert SettledKept(t, u, p.buildId);
    assert SiteRow(u, p.accountId, p.siteId) == SiteRow(t, p.accountId, p.siteId);
    assert RobotRow(u, p.accountId, p.siteId, p.robotId) == RobotRow(t, p.accountId, p.siteId, p.robotId);
    assert BuildRow(u, p.accountId, p.siteId, p.robotId, p.buildId) == BuildRow(t, p.accountId, p.siteId, p.robotId, p.buildId);
  }

  predicate OwnIntegrity(t: Tables) {
    forall b :: b in t.integrity ==> b in t.builds && t.builds[b].accountId == t.integrity[b].accountId
  }

  lemma OwnHasBuild(t: Tables)
    requires OwnIntegrity(t)
    ensures IntegrityHasBuild(t)
  {
  }

  lemma CreateOwn(c: Codec, t: Tables, accountId: Text, siteId: Text, robotId: Text, buildId: Text, digest: Text, source: Source, route: Text)
    requires OwnIntegrity(t)
    ensures var u := CreateBuild(c, t, accountId, siteId, robotId, buildId, digest, route); u.Some? ==> OwnIntegrity(u.value)
    ensures var u := CreateSourceBuild(c, t, accountId, siteId, robotId, buildId, source, route); u.Some? ==> OwnIntegrity(u.value)
  {
  }

  lemma FinishOwn(c: Codec, t: Tables, w: Completing, storedDigest: Text)
    requires OwnIntegrity(t)
    ensures var u := FinishComplete(c, t, w, storedDigest); u.Some? ==> OwnIntegrity(u.value)
  {
  }

  /** Every step leaves each source row with the account of its build. */
  lemma StepOwn(c: Codec, s: State, e: Event)
    requires OwnIntegrity(s.t)
    ensures OwnIntegrity(Step(c, s, e).t)
  {
    if e.SubmitEvaluation? || e.ExecutorThrew? || e.ExecutorAnswered? || e.CallbackArrived? {
      EvaluationStepMoves(c, s, e);
    } else if e.AddBuild? {
      CreateOwn(c, s.t, e.accountId, e.siteId, e.robotId, e.buildId, e.artifactDigest, Source([], [], [], []), e.route);
    } else if e.AddSourceBuild? {
      CreateOwn(c, s.t, e.accountId, e.siteId, e.robotId, e.buildId, [], e.source, e.route);
    } else if e.EndCompletion? && e.call in s.completing {
      FinishOwn(c, s.t, s.completing[e.call], e.storedDigest);
    }
  }

  /** What a submission that is let through leaves behind. */
  lemma SubmitReads(c: Codec, t: Tables, s: Submission) returns (p: Pending)
    requires Submit(c, t, s).Some? && OwnIntegrity(t)
    ensures p.buildId == s.buildId && p.accountId == s.accountId && Settled(t, s.buildId)
    ensures var (u, w) := Submit(c, t, s).value;
            && RecordPending(t, s.evaluationId, p) == Some(u)
            && Rebuilt(c, t, s.evaluationId, p) == Some(w.request)
            && w.request.evaluationId == s.evaluationId
            && DigestedAs(c, t, p, w)
  {
    var build := BuildRow(t, s.accountId, s.siteId, s.robotId, s.buildId).value;
    var d := c.parseDescriptor(build.descriptorJson).value;
    var w := Submit(c, t, s).value.1;
    p := Pending(s.accountId, s.siteId, s.robotId, s.buildId, c.digestBehavior(w.request, d, build.traceJson, s.evaluatedAt).value, s.requestedAt);
  }

  /** No pending row is new, and none was submitted anew. */
  predicate PendingShrinks(s: State, u: State) {
    forall id :: id in u.t.pending ==> id in s.t.pending && u.t.pending[id] == s.t.pending[id]
                                       && (id in s.submitted ==> id in u.submitted && u.submitted[id] == s.submitted[id])
  }

  lemma ShrunkPendingRead(c: Codec, s: State, u: State)
    requires AllPendingRead(c, s) && Kept(s.t, u.t) && PendingShrinks(s, u)
    ensures AllPendingRead(c, u)
  {
    forall id | id in u.t.pending ensures PendingReads(c, u, id) {
      assert PendingReads(c, s, id);
      OtherPendingRead(c, s, u, id);
    }
  }

  lemma OtherPendingShrinks(c: Codec, s: State, e: Event)
    requires !e.SubmitEvaluation?
    ensures PendingShrinks(s, Step(c, s, e))
  {
    if e.CallbackArrived? {
      CallbackPending(c, s.t, e.callback);
    } else if e.ExecutorThrew? || e.ExecutorAnswered? {
    } else {
      BuildPending(c, s, e);
    }
  }

  lemma CallbackPending(c: Codec, t: Tables, cb: Callback)
    ensures var u := CompleteCreEvaluation(c, t, cb).0;
            u.pending == t.pending || u.pending == t.pending - {cb.evaluationId}
  {
    var id := cb.evaluationId;
    if id in t.pending && id !in t.rejections && cb.response.Result? {
      StoredPending(c, t, id, t.pending[id], cb.response.result);
    }
  }

  lemma StoredPending(c: Codec, t: Tables, id: Text, p: Pending, result: EvaluationResult)
    ensures var (u, o) := StoreResult(c, t, p, result, Rebuilt(c, t, id, p));
            if o.Completed? then
              && Rebuilt(c, t, id, p).Some? && ResultBindings(c, result, Rebuilt(c, t, id, p).value)
              && o.evaluation == EvaluationOf(p.accountId, p.siteId, p.robotId, p.buildId, result)
              && o.evaluation.evaluationId == id
              && u == t.(evaluations := t.evaluations + [o.evaluation], pending := t.pending - {id})
            else u == t && o == Refused
  {
  }

  lemma BuildPending(c: Codec, s: State, e: Event)
    requires !(e.SubmitEvaluation? || e.ExecutorThrew? || e.ExecutorAnswered? || e.CallbackArrived?)
    ensures Step(c, s, e).t.pending == s.t.pending && Step(c, s, e).submitted == s.submitted
  {
  }

  lemma SubmitPendingRead(c: Codec, s: State, call: nat, submission: Submission)
    requires AllPendingRead(c, s) && OwnIntegrity(s.t)
    ensures AllPendingRead(c, Step(c, s, SubmitEvaluation(call, submission)))
  {
    if Submit(c, s.t, submission).Some? && call !in s.waiting {
      var (t, w) := Submit(c, s.t, submission).value;
      var p := SubmitReads(c, s.t, submission);
      SubmitMoves(c, s.t, submission);
      OnlyEvaluationsKeeps(s.t, t);
      SubmittedPendingRead(c, s, t, submission.evaluationId, p, w, s.waiting[call := w]);
    }
  }

  lemma RecordedPending(t: Tables, id: Text, p: Pending, u: Tables)
    requires RecordPending(t, id, p) == Some(u)
    ensures id in u.pending ==> u.pending[id] == p
    ensures forall x :: x in u.pending && x != id ==> x in t.pending && u.pending[x] == t.pending[x]
  {
  }

  lemma SubmittedPendingRead(c: Codec, s: State, t: Tables, id: Text, p: Pending, w: Waiting, waiting: map<nat, Waiting>)
    requires AllPendingRead(c, s) && Kept(s.t, t) && Settled(s.t, p.buildId)
    requires RecordPending(s.t, id, p) == Some(t) && Rebuilt(c, s.t, id, p) == Some(w.request) && DigestedAs(c, s.t, p, w)
    ensures AllPendingRead(c, State(t, s.completing, waiting, s.submitted[id := w]))
  {
    var u := State(t, s.completing, waiting, s.submitted[id := w]);
    RecordedPending(s.t, id, p, t);
    RebuiltKept(c, s.t, t, id, p, w);
    OthersPendingRead(c, s, u, id);
    assert id in t.pending ==> PendingReads(c, u, id);
  }

  /** Every other pending row reads as it did. */
  lemma OthersPendingRead(c: Codec, s: State, u: State, id: Text)
    requires AllPendingRead(c, s) && Kept(s.t, u.t)
    requires forall x :: x in u.t.pending && x != id ==> x in s.t.pending && u.t.pending[x] == s.t.pending[x]
    requires forall x :: x in s.submitted && x != id ==> x in u.submitted && u.submitted[x] == s.submitted[x]
    ensures forall x :: x in u.t.pending && x != id ==> PendingReads(c, u, x)
  {
    forall x | x in u.t.pending && x != id ensures PendingReads(c, u, x) {
      assert PendingReads(c, s, x);
      OtherPendingRead(c, s, u, x);
    }
  }

  lemma OtherPendingRead(c: Codec, s: State, u: State, x: Text)
    requires PendingReads(c, s, x) && Kept(s.t, u.t)
    requires x in u.t.pending && u.t.pending[x] == s.t.pending[x] && x in u.submitted && u.submitted[x] == s.submitted[x]
    ensures PendingReads(c, u, x)
  {
    RebuiltKept(c, s.t, u.t, x, s.t.pending[x], s.submitted[x]);
  }

  predicate Sound(c: Codec, s: State) {
    OwnIntegrity(s.t) && AllPendingRead(c, s)
  }

  lemma StepSound(c: Codec, s: State, e: Event)
    requires Sound(c, s)
    ensures Sound(c, Step(c, s, e))
  {
    OwnHasBuild(s.t);
    StepOwn(c, s, e);
    if e.SubmitEvaluation? {
      SubmitPendingRead(c, s, e.call, e.submission);
    } else {
      StepKeeps(c, s, e);
      OtherPendingShrinks(c, s, e);
      ShrunkPendingRead(c, s, Step(c, s, e));
    }
  }

  lemma {:induction false} RunSound(c: Codec, s: State, events: seq<Event>)
    requires Sound(c, s)
    ensures Sound(c, After(c, s, events))
    decreases |events|
  {
    if events != [] {
      StepSound(c, s, events[0]);
      RunSound(c, Step(c, s, events[0]), events[1..]);
    }
  }

  /** The row of the build is the same; the submitted request is still the one rebuilt, and the one digested. */
  predicate Frozen(c: Codec, s: State, u: Tables, id: Text) {
    && id in s.t.pending && id in s.submitted
    && var p := s.t.pending[id];
       && p.buildId in s.t.builds && p.buildId in u.builds && u.builds[p.buildId] == s.t.builds[p.buildId]
       && Rebuilt(c, u, id, p) == Some(s.submitted[id].request)
       && DigestedAs(c, u, p, s.submitted[id])
  }

  /** Once an evaluation is pending, the rows of its build are never written again, in any continuation. */
  lemma PendingBuildFrozen(c: Codec, events: seq<Event>, later: seq<Event>, id: Text)
    requires id in After(c, START, events).t.pending
    ensures Frozen(c, After(c, START, events), After(c, After(c, START, events), later).t, id)
  {
    var s := After(c, START, events);
    RunSound(c, START, events);
    OwnHasBuild(s.t);
    RunKeeps(c, s, later);
    assert PendingReads(c, s, id);
    KeptFreezes(c, s, After(c, s, later).t, id);
  }

  lemma KeptFreezes(c: Codec, s: State, u: Tables, id: Text)
    requires PendingReads(c, s, id) && Kept(s.t, u)
    ensures Frozen(c, s, u, id)
  {
    assert SettledKept(s.t, u, s.t.pending[id].buildId);
    RebuiltKept(c, s.t, u, id, s.t.pending[id], s.submitted[id]);
  }

  // ---------- What a callback completes ----------

  /** The completed evaluation is bound to a request and to the account and build of its pending row. */
  predicate BoundTo(c: Codec, e: Evaluation, p: Pending, request: EvaluationRequest) {
    && e.evaluationId == request.evaluationId && SameInputs(e.inputs, request.inputs)
    && c.digestInputs(request.inputs) == Some(e.evaluationInputsDigest)
    && Seconds(request.requestedAt) <= Seconds(e.evaluatedAt)
    && e.accountId == p.accountId && e.siteId == p.siteId && e.robotId == p.robotId && e.buildId == p.buildId
  }

  lemma StoredBound(c: Codec, p: Pending, result: EvaluationResult, request: EvaluationRequest)
    requires ResultBindings(c, result, request)
    ensures BoundTo(c, EvaluationOf(p.accountId, p.siteId, p.robotId, p.buildId, result), p, request)
  {
    CompareIsNumeric(result.evaluatedAt, request.requestedAt);
    CompareIsNumeric(request.requestedAt, result.evaluatedAt);
  }

  /** The callback carries the digest of what was submitted, and its evaluation is bound to it. */
  predicate CompletesSubmitted(c: Codec, s: State, cb: Callback) {
    var id := cb.evaluationId;
    && id in s.submitted && id in s.t.pending && cb.response.Result?
    && cb.response.behaviorInputDigest == s.t.pending[id].behaviorInputDigest
    && DigestedAs(c, s.t, s.t.pending[id], s.submitted[id])
    && CompleteCreEvaluation(c, s.t, cb).1.Completed?
    && BoundTo(c, CompleteCreEvaluation(c, s.t, cb).1.evaluation, s.t.pending[id], s.submitted[id].request)
  }

  /** A callback that completes answers a pending row with its digest, and its result is bound to the rebuilt request. */
  lemma CompletedCallback(c: Codec, t: Tables, cb: Callback)
    requires CompleteCreEvaluation(c, t, cb).1.Completed?
    ensures cb.evaluationId in t.pending && cb.response.Result?
    ensures var p := t.pending[cb.evaluationId];
            && cb.response.behaviorInputDigest == p.behaviorInputDigest
            && Rebuilt(c, t, cb.evaluationId, p).Some? && ResultBindings(c, cb.response.result, Rebuilt(c, t, cb.evaluationId, p).value)
            && CompleteCreEvaluation(c, t, cb).1.evaluation == EvaluationOf(p.accountId, p.siteId, p.robotId, p.buildId, cb.response.result)
  {
  }

  lemma CompletedIsBound(c: Codec, s: State, cb: Callback)
    requires AllPendingRead(c, s) && CompleteCreEvaluation(c, s.t, cb).1.Completed?
    ensures CompletesSubmitted(c, s, cb)
  {
    CompletedCallback(c, s.t, cb);
    assert PendingReads(c, s, cb.evaluationId);
    StoredBound(c, s.t.pending[cb.evaluationId], cb.response.result, s.submitted[cb.evaluationId].request);
  }

  /**
   * In every run, what a callback completes was submitted under its id: the callback carries the digest taken
   * then, and the stored evaluation is bound to the submitted request.
   */
  lemma CompletionIsBound(c: Codec, events: seq<Event>, cb: Callback)
    requires CompleteCreEvaluation(c, After(c, START, events).t, cb).1.Completed?
    ensures CompletesSubmitted(c, After(c, START, events), cb)
  {
    RunSound(c, START, events);
    CompletedIsBound(c, After(c, START, events), cb);
  }

  // ---------- What the executor evaluated ----------

  /** What was submitted, with the descriptor and traces its build holds. */
  function SubmittedBehavior(l: Libraries, t: Tables, p: Pending, w: Waiting): Behavior
    requires DigestedAs(CodecOf(l), t, p, w)
  {
    Behavior(w.request, ReadDescriptor(t.builds[p.buildId].descriptorJson).value,
             l.parseTraces(t.builds[p.buildId].traceJson).value, w.evaluatedAt)
  }

  lemma RequestFromValid(c: Codec, siteId: Text, site: Site, robotId: Text, d: Descriptor, evaluationId: Text, requestedAt: Text)
    ensures var r := RequestFrom(c, siteId, site, robotId, d, evaluationId, requestedAt); r.Some? ==> ValidRequest(r.value)
  {
  }

  lemma RebuiltValid(c: Codec, t: Tables, id: Text, p: Pending)
    requires Rebuilt(c, t, id, p).Some?
    ensures ValidRequest(Rebuilt(c, t, id, p).value)
  {
    var build := BuildRow(t, p.accountId, p.siteId, p.robotId, p.buildId).value;
    RequestFromValid(c, p.siteId, SiteRow(t, p.accountId, p.siteId).value, p.robotId,
                     c.parseDescriptor(build.descriptorJson).value, id, p.requestedAt);
  }

  lemma ParsedDescriptorValid(t: Text)
    ensures ReadDescriptor(t).Some? ==> ValidDescriptor(ReadDescriptor(t).value)
  {
  }

  /** The pending digest is that of a valid behaviour. */
  lemma SubmittedDigest(l: Libraries, t: Tables, id: Text, p: Pending, w: Waiting)
    requires DigestedAs(CodecOf(l), t, p, w) && Rebuilt(CodecOf(l), t, id, p) == Some(w.request)
    ensures ValidBehavior(SubmittedBehavior(l, t, p, w))
    ensures DigestBehavior(l.hashing, SubmittedBehavior(l, t, p, w)) == Some(p.behaviorInputDigest)
  {
    RebuiltValid(CodecOf(l), t, id, p);
    ParsedDescriptorValid(t.builds[p.buildId].descriptorJson);
  }

  /**
   * An executor that digests what it evaluates, and whose callback completes, has evaluated exactly what was
   * submitted: request, descriptor, traces and time. Otherwise its input and the submitted one collide.
   */
  lemma EvaluatedAsSubmitted(l: Libraries, events: seq<Event>, cb: Callback, evaluated: Behavior)
    requires CompleteCreEvaluation(CodecOf(l), After(CodecOf(l), START, events).t, cb).1.Completed?
    requires cb.response.Result? && ValidBehavior(evaluated)
    requires DigestBehavior(l.hashing, evaluated) == Some(cb.response.behaviorInputDigest)
    ensures var s := After(CodecOf(l), START, events);
            && CompletesSubmitted(CodecOf(l), s, cb)
            && var submitted := SubmittedBehavior(l, s.t, s.t.pending[cb.evaluationId], s.submitted[cb.evaluationId]);
               && ValidBehavior(submitted) && DigestBehavior(l.hashing, submitted).Some?
               && (evaluated == submitted
                   || Collision(l.hashing, BehaviorBytes(l.hashing, evaluated).value, BehaviorBytes(l.hashing, submitted).value))
  {
    var c, id := CodecOf(l), cb.evaluationId;
    var s := After(c, START, events);
    RunSound(c, START, events);
    CompletedIsBound(c, s, cb);
    assert PendingReads(c, s, id);
    SubmittedDigest(l, s.t, id, s.t.pending[id], s.submitted[id]);
    BehaviorDigestNames(l.hashing, evaluated, SubmittedBehavior(l, s.t, s.t.pending[id], s.submitted[id]));
  }
}
