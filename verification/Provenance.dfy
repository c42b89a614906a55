/** Where the rows of the store come from: in every run each one holds, field by field, what its events brought. */
module Provenance {
  import opened Text
  import opened Timestamps
  import opened Records
  import opened BuildRecords
  import opened Application
  import opened ApplicationCodec
  import opened Lifecycle
  import opened Evaluations
  import Outcomes

  // ---------- What one event brings ----------

  /** The evaluation repeats every field of the result. */
  predicate Repeats(e: Evaluation, r: EvaluationResult) {
    && e.verdict == r.verdict && e.evaluatedAt == r.evaluatedAt && e.inputs == r.inputs
    && e.evaluationId == r.evaluationId && e.evaluationInputsDigest == r.evaluationInputsDigest
  }

  /** The result answers the request: same id, same inputs but for their version, their digest, and not before it was made. */
  predicate ResultFor(c: Codec, r: EvaluationResult, request: EvaluationRequest) {
    && r.evaluationId == request.evaluationId
    && r.inputs.(dialect := request.inputs.dialect) == request.inputs
    && c.digestInputs(request.inputs) == Some(r.evaluationInputsDigest)
    && Seconds(request.requestedAt) <= Seconds(r.evaluatedAt)
  }

  lemma ResultForExact(c: Codec, r: EvaluationResult, request: EvaluationRequest)
    ensures ResultBindings(c, r, request) <==> ResultFor(c, r, request)
  {
    CompareIsNumeric(r.evaluatedAt, request.requestedAt);
  }

  /** The callback brings a result for what was submitted and is pending under its id, with the digest taken then. */
  predicate Brings(c: Codec, s: State, cb: Callback) {
    var id := cb.evaluationId;
    && id in s.t.pending && id !in s.t.rejections && id in s.submitted && cb.response.Result?
    && cb.response.behaviorInputDigest == s.t.pending[id].behaviorInputDigest
    && ResultFor(c, cb.response.result, s.submitted[id].request)
  }

  lemma StoreGuards(c: Codec, t: Tables, p: Pending, result: EvaluationResult, request: Option<EvaluationRequest>)
    ensures StoreResult(c, t, p, result, request).1.Completed? <==> request.Some? && ResultBindings(c, result, request.value)
  {
  }

  lemma CompletionGuards(c: Codec, t: Tables, cb: Callback)
    ensures CompleteCreEvaluation(c, t, cb).1.Completed? <==>
              && cb.evaluationId in t.pending && cb.evaluationId !in t.rejections && cb.response.Result?
              && cb.response.behaviorInputDigest == t.pending[cb.evaluationId].behaviorInputDigest
              && var p := t.pending[cb.evaluationId];
                 StoreResult(c, t, p, cb.response.result, Rebuilt(c, t, cb.evaluationId, p)).1.Completed?
  {
  }

  lemma RebuiltSubmitted(c: Codec, s: State, id: Text)
    requires AllPendingRead(c, s) && id in s.t.pending
    ensures id in s.submitted && Rebuilt(c, s.t, id, s.t.pending[id]) == Some(s.submitted[id].request)
  {
    assert PendingReads(c, s, id);
  }

  lemma BringsExact(c: Codec, s: State, cb: Callback)
    requires AllPendingRead(c, s)
    ensures CompleteCreEvaluation(c, s.t, cb).1.Completed? <==> Brings(c, s, cb)
  {
    var id := cb.evaluationId;
    CompletionGuards(c, s.t, cb);
    if id in s.t.pending && cb.response.Result? {
      RebuiltSubmitted(c, s, id);
      ResultForExact(c, cb.response.result, s.submitted[id].request);
      StoreGuards(c, s.t, s.t.pending[id], cb.response.result, Rebuilt(c, s.t, id, s.t.pending[id]));
    }
  }

  /** One evaluation is added at the end, with the result's fields and the names of its pending row, and the row is gone. */
  predicate StoredBy(t: Tables, u: Tables, id: Text, e: Evaluation, r: EvaluationResult, p: Pending) {
    && u.evaluations == t.evaluations + [e] && Repeats(e, r)
    && e.accountId == p.accountId && e.siteId == p.siteId && e.robotId == p.robotId && e.buildId == p.buildId
    && u == t.(evaluations := u.evaluations, pending := t.pending - {id})
  }

  /**
   * In every run a callback completes exactly when it brings a result for what was submitted, under the digest of
   * what was submitted; then its own verdict, time, inputs and digest are stored and answered.
   */
  lemma CallbackCompletesExactly(c: Codec, events: seq<Event>, cb: Callback)
    ensures var s := After(c, START, events);
            var (u, o) := CompleteCreEvaluation(c, s.t, cb);
            && (o.Completed? <==> Brings(c, s, cb))
            && (o.Completed? ==> StoredBy(s.t, u, cb.evaluationId, o.evaluation, cb.response.result, s.t.pending[cb.evaluationId]))
  {
    var s := After(c, START, events);
    RunSound(c, START, events);
    BringsExact(c, s, cb);
    if CompleteCreEvaluation(c, s.t, cb).1.Completed? {
      StoredPending(c, s.t, cb.evaluationId, s.t.pending[cb.evaluationId], cb.response.result);
    }
  }

  /** The callback is answered by what was decided before: by the rejection, if there is one and no evaluation came first. */
  predicate DecidedByRejection(t: Tables, id: Text) {
    id in t.rejections && (id in t.pending || !Outcomes.HasEvaluation(t.evaluations, id))
  }

  /** The callback is the one that decides: its id is pending and not yet rejected. */
  predicate Decides(t: Tables, id: Text) {
    id in t.pending && id !in t.rejections
  }

  /** Every answer, and exactly when it is given. */
  ghost predicate AnsweredAs(c: Codec, s: State, cb: Callback, o: Outcome) {
    var t, id, digest := s.t, cb.evaluationId, c.digestCallback(cb);
    match o
    case Completed(_) => Brings(c, s, cb)
    case AlreadyCompleted(e) => id !in t.pending && Outcomes.FirstWith(t.evaluations, None, id, e)
    case Rejected(code) =>
      || (Decides(t, id) && cb.response == Reject(code))
      || (DecidedByRejection(t, id) && t.rejections[id].callbackDigest == digest && t.rejections[id].code == code)
    case Conflict =>
      || (Decides(t, id) && cb.response.Result? && cb.response.behaviorInputDigest != t.pending[id].behaviorInputDigest)
      || (DecidedByRejection(t, id) && t.rejections[id].callbackDigest != digest)
    case NotFound => id !in t.pending && id !in t.rejections && !Outcomes.HasEvaluation(t.evaluations, id)
    case Refused =>
      Decides(t, id) && cb.response.Result? && cb.response.behaviorInputDigest == t.pending[id].behaviorInputDigest && !Brings(c, s, cb)
  }

  lemma ResultAnswered(c: Codec, s: State, cb: Callback)
    requires AllPendingRead(c, s) && Decides(s.t, cb.evaluationId) && cb.response.Result?
    ensures var (u, o) := CompleteCreEvaluation(c, s.t, cb);
            AnsweredAs(c, s, cb, o) && (!o.Completed? ==> u == s.t)
  {
    BringsExact(c, s, cb);
    StoredPending(c, s.t, cb.evaluationId, s.t.pending[cb.evaluationId], cb.response.result);
  }

  lemma RejectAnswered(c: Codec, s: State, cb: Callback)
    requires Decides(s.t, cb.evaluationId) && cb.response.Reject?
    ensures var (u, o) := CompleteCreEvaluation(c, s.t, cb);
            && AnsweredAs(c, s, cb, o)
            && RejectedBy(c, s.t, u, cb)
  {
  }

  /** The rejection is filed for the account of the pending row, and the row is gone. */
  predicate RejectedBy(c: Codec, t: Tables, u: Tables, cb: Callback)
    requires cb.evaluationId in t.pending && cb.response.Reject?
  {
    var id := cb.evaluationId;
    && id in u.rejections && u.rejections[id].code == cb.response.code
    && u.rejections[id].accountId == t.pending[id].accountId && u.rejections[id].callbackDigest == c.digestCallback(cb)
    && u == t.(rejections := t.rejections[id := u.rejections[id]], pending := t.pending - {id})
  }

  lemma DecidedAnswered(c: Codec, s: State, cb: Callback)
    requires !Decides(s.t, cb.evaluationId)
    ensures var (u, o) := CompleteCreEvaluation(c, s.t, cb);
            AnsweredAs(c, s, cb, o) && u == s.t && !o.Completed?
  {
    var t, id := s.t, cb.evaluationId;
    Outcomes.FindMeaning(t.evaluations, [], id);
    if FindAnyEvaluation(t.evaluations, id).Some? {
      Outcomes.ScansFindFirst(t.evaluations, [], id, FindAnyEvaluation(t.evaluations, id).value);
    }
  }

  /** In every run each callback gets the answer its case calls for; only a result brought or a fresh rejection changes the tables. */
  lemma CallbackAnswered(c: Codec, events: seq<Event>, cb: Callback)
    ensures var s := After(c, START, events);
            var (u, o) := CompleteCreEvaluation(c, s.t, cb);
            && AnsweredAs(c, s, cb, o)
            && (Decides(s.t, cb.evaluationId) && cb.response.Reject? ==> RejectedBy(c, s.t, u, cb))
            && (!o.Completed? && !(Decides(s.t, cb.evaluationId) && cb.response.Reject?) ==> u == s.t)
  {
    var s := After(c, START, events);
    RunSound(c, START, events);
    if !Decides(s.t, cb.evaluationId) {
      DecidedAnswered(c, s, cb);
    } else if cb.response.Result? {
      ResultAnswered(c, s, cb);
    } else {
      RejectAnswered(c, s, cb);
    }
  }

  /** The synchronous answer is stored exactly when it is for the request the call was made with, in any state. */
  lemma AnswerStoresExactly(c: Codec, t: Tables, w: Waiting, answer: EvaluationResult)
    ensures var u := ExecutorSucceeded(c, t, w, answer);
            && (u.Some? <==> ResultFor(c, answer, w.request))
            && (u.Some? ==>
                 && |u.value.evaluations| == |t.evaluations| + 1
                 && StoredFor(t, u.value, u.value.evaluations[|t.evaluations|], answer, w))
  {
    ResultForExact(c, answer, w.request);
  }

  predicate StoredFor(t: Tables, u: Tables, e: Evaluation, r: EvaluationResult, w: Waiting) {
    && u.evaluations == t.evaluations + [e] && Repeats(e, r)
    && e.accountId == w.accountId && e.siteId == w.siteId && e.robotId == w.robotId && e.buildId == w.buildId
    && u == t.(evaluations := u.evaluations, pending := t.pending - {w.request.evaluationId})
  }

  // ---------- Which event, and which submission ----------

  /** The event brings this evaluation: a callback for its pending row, or the answer of the call that waits for it. */
  predicate Answers(c: Codec, s: State, event: Event, e: Evaluation) {
    match event
    case CallbackArrived(cb) =>
      Brings(c, s, cb) && Repeats(e, cb.response.result)
      && var p := s.t.pending[cb.evaluationId];
         e.accountId == p.accountId && e.siteId == p.siteId && e.robotId == p.robotId && e.buildId == p.buildId
    case ExecutorAnswered(call, answer) =>
      call in s.waiting && ResultFor(c, answer, s.waiting[call].request) && Repeats(e, answer)
      && var w := s.waiting[call];
         e.accountId == w.accountId && e.siteId == w.siteId && e.robotId == w.robotId && e.buildId == w.buildId
    case _ => false
  }

  /** A step adds no evaluation, or the one its event brings. */
  lemma StepAdds(c: Codec, s: State, event: Event) returns (e: Option<Evaluation>)
    requires AllPendingRead(c, s)
    ensures e.None? ==> Step(c, s, event).t.evaluations == s.t.evaluations
    ensures e.Some? ==> Step(c, s, event).t.evaluations == s.t.evaluations + [e.value] && Answers(c, s, event, e.value)
  {
    e := None;
    match event
    case CallbackArrived(cb) =>
      BringsExact(c, s, cb);
      if Brings(c, s, cb) {
        StoredPending(c, s.t, cb.evaluationId, s.t.pending[cb.evaluationId], cb.response.result);
        e := Some(CompleteCreEvaluation(c, s.t, cb).1.evaluation);
      } else {
        NotCompletedKeeps(c, s.t, cb);
      }
    case ExecutorAnswered(call, answer) =>
      if call in s.waiting {
        AnswerStoresExactly(c, s.t, s.waiting[call], answer);
        if ResultFor(c, answer, s.waiting[call].request) {
          e := Some(ExecutorSucceeded(c, s.t, s.waiting[call], answer).value.evaluations[|s.t.evaluations|]);
        }
      }
    case SubmitEvaluation(_, submission) =>
      if Submit(c, s.t, submission).Some? {
        SubmitAddsNone(c, s.t, submission);
      }
    case ExecutorThrew(_, _) =>
    case _ => Outcomes.EvaluationsUntouched(c, s, event);
  }

  lemma NotCompletedKeeps(c: Codec, t: Tables, cb: Callback)
    requires !CompleteCreEvaluation(c, t, cb).1.Completed?
    ensures CompleteCreEvaluation(c, t, cb).0.evaluations == t.evaluations
  {
    if cb.evaluationId in t.pending && cb.response.Result? {
      StoredPending(c, t, cb.evaluationId, t.pending[cb.evaluationId], cb.response.result);
    }
  }

  lemma SubmitAddsNone(c: Codec, t: Tables, s: Submission)
    requires Submit(c, t, s).Some?
    ensures Submit(c, t, s).value.0.evaluations == t.evaluations
  {
  }

  /** The row repeats the submission. */
  predicate PendingRepeats(s: Submission, id: Text, p: Pending) {
    && s.evaluationId == id && s.requestedAt == p.requestedAt
    && s.accountId == p.accountId && s.siteId == p.siteId && s.robotId == p.robotId && s.buildId == p.buildId
  }

  predicate WaitingRepeats(s: Submission, w: Waiting) {
    && s.evaluationId == w.request.evaluationId && s.requestedAt == w.request.requestedAt && s.evaluatedAt == w.evaluatedAt
    && s.accountId == w.accountId && s.siteId == w.siteId && s.robotId == w.robotId && s.buildId == w.buildId
  }

  lemma SubmitRepeats(c: Codec, t: Tables, s: Submission)
    requires Submit(c, t, s).Some? && IsUnixTimestamp(s.requestedAt) && IsUnixTimestamp(s.evaluatedAt)
    ensures var (u, w) := Submit(c, t, s).value;
            && WaitingRepeats(s, w)
            && (s.evaluationId in u.pending ==> PendingRepeats(s, s.evaluationId, u.pending[s.evaluationId]))
            && (forall x :: x in u.pending && x != s.evaluationId ==> x in t.pending && u.pending[x] == t.pending[x])
  {
  }

  lemma SubmitTimes(c: Codec, t: Tables, s: Submission)
    requires Submit(c, t, s).Some?
    ensures IsUnixTimestamp(s.requestedAt) && IsUnixTimestamp(s.evaluatedAt)
  {
  }

  /** Some submission of the history is repeated by the pending row of the id. */
  predicate PendingFrom(events: seq<Event>, id: Text, p: Pending) {
    exists j :: 0 <= j < |events| && events[j].SubmitEvaluation? && PendingRepeats(events[j].submission, id, p)
  }

  predicate WaitingFrom(events: seq<Event>, call: nat, w: Waiting) {
    exists j :: 0 <= j < |events| && events[j].SubmitEvaluation? && events[j].call == call && WaitingRepeats(events[j].submission, w)
  }

  predicate AllFrom(events: seq<Event>, s: State) {
    && (forall id :: id in s.t.pending ==> PendingFrom(events, id, s.t.pending[id]))
    && (forall call :: call in s.waiting ==> WaitingFrom(events, call, s.waiting[call]))
  }

  lemma PendingFromMore(events: seq<Event>, e: Event, id: Text, p: Pending)
    requires PendingFrom(events, id, p)
    ensures PendingFrom(events + [e], id, p)
  {
    var j :| 0 <= j < |events| && events[j].SubmitEvaluation? && PendingRepeats(events[j].submission, id, p);
    assert (events + [e])[j] == events[j];
  }

  lemma WaitingFromMore(events: seq<Event>, e: Event, call: nat, w: Waiting)
    requires WaitingFrom(events, call, w)
    ensures WaitingFrom(events + [e], call, w)
  {
    var j :| 0 <= j < |events| && events[j].SubmitEvaluation? && events[j].call == call && WaitingRepeats(events[j].submission, w);
    assert (events + [e])[j] == events[j];
  }

  /** Rows and calls that were there before come from where they came. */
  lemma OldFrom(events: seq<Event>, e: Event, s: State, u: State)
    requires AllFrom(events, s)
    requires forall id :: id in u.t.pending ==> id in s.t.pending && u.t.pending[id] == s.t.pending[id]
    requires forall call :: call in u.waiting ==> call in s.waiting && u.waiting[call] == s.waiting[call]
    ensures AllFrom(events + [e], u)
  {
    forall id | id in u.t.pending ensures PendingFrom(events + [e], id, u.t.pending[id]) {
      PendingFromMore(events, e, id, s.t.pending[id]);
    }
    forall call | call in u.waiting ensures WaitingFrom(events + [e], call, u.waiting[call]) {
      WaitingFromMore(events, e, call, s.waiting[call]);
    }
  }

  lemma SubmittedFrom(c: Codec, events: seq<Event>, s: State, call: nat, submission: Submission)
    requires AllFrom(events, s) && call !in s.waiting && Submit(c, s.t, submission).Some?
    ensures AllFrom(events + [SubmitEvaluation(call, submission)], Step(c, s, SubmitEvaluation(call, submission)))
  {
    var e := SubmitEvaluation(call, submission);
    var u := Step(c, s, e);
    var all := events + [e];
    SubmitTimes(c, s.t, submission);
    SubmitRepeats(c, s.t, submission);
    assert all[|events|] == e;
    forall id | id in u.t.pending ensures PendingFrom(all, id, u.t.pending[id]) {
      if id != submission.evaluationId {
        PendingFromMore(events, e, id, s.t.pending[id]);
      }
    }
    forall x | x in u.waiting ensures WaitingFrom(all, x, u.waiting[x]) {
      if x != call {
        WaitingFromMore(events, e, x, s.waiting[x]);
      }
    }
  }

  lemma OtherWaiting(c: Codec, s: State, e: Event)
    requires !e.SubmitEvaluation?
    ensures forall call :: call in Step(c, s, e).waiting ==> call in s.waiting && Step(c, s, e).waiting[call] == s.waiting[call]
  {
  }

  lemma StepFrom(c: Codec, events: seq<Event>, s: State, e: Event)
    requires AllFrom(events, s)
    ensures AllFrom(events + [e], Step(c, s, e))
  {
    if e.SubmitEvaluation? && Submit(c, s.t, e.submission).Some? && e.call !in s.waiting {
      SubmittedFrom(c, events, s, e.call, e.submission);
    } else {
      if !e.SubmitEvaluation? {
        OtherPendingShrinks(c, s, e);
        OtherWaiting(c, s, e);
      }
      OldFrom(events, e, s, Step(c, s, e));
    }
  }

  lemma {:induction false} RunFrom(c: Codec, events: seq<Event>)
    ensures AllFrom(events, After(c, START, events))
    decreases |events|
  {
    if events != [] {
      var before, e := events[..|events| - 1], events[|events| - 1];
      assert events == before + [e];
      RunFrom(c, before);
      Outcomes.AfterOne(c, START, before, e);
      StepFrom(c, before, After(c, START, before), e);
    }
  }

  /** The evaluation is filed under the names and the id of the submission. */
  predicate FiledAs(event: Event, e: Evaluation) {
    && event.SubmitEvaluation?
    && var s := event.submission;
       && e.evaluationId == s.evaluationId
       && e.accountId == s.accountId && e.siteId == s.siteId && e.robotId == s.robotId && e.buildId == s.buildId
  }

  /** Event k brought the evaluation when i others were stored. */
  ghost predicate BroughtAt(c: Codec, events: seq<Event>, k: int, i: int, e: Evaluation) {
    && 0 <= k < |events|
    && |After(c, START, events[..k]).t.evaluations| == i && Answers(c, After(c, START, events[..k]), events[k], e)
  }

  predicate FiledAt(events: seq<Event>, j: int, e: Evaluation) {
    0 <= j < |events| && FiledAs(events[j], e)
  }

  ghost predicate Originates(c: Codec, events: seq<Event>, i: int, e: Evaluation) {
    exists j, k :: j < k && FiledAt(events, j, e) && BroughtAt(c, events, k, i, e)
  }

  lemma BroughtBefore(c: Codec, events: seq<Event>, last: Event, k: int, i: int, e: Evaluation)
    requires BroughtAt(c, events, k, i, e)
    ensures BroughtAt(c, events + [last], k, i, e)
  {
    assert (events + [last])[..k] == events[..k];
    assert (events + [last])[k] == events[k];
  }

  lemma FiledBefore(events: seq<Event>, last: Event, j: int, e: Evaluation)
    requires FiledAt(events, j, e)
    ensures FiledAt(events + [last], j, e)
  {
    assert (events + [last])[j] == events[j];
  }

  lemma OriginatesMore(c: Codec, events: seq<Event>, last: Event, i: int, e: Evaluation)
    requires Originates(c, events, i, e)
    ensures Originates(c, events + [last], i, e)
  {
    var j, k :| j < k && FiledAt(events, j, e) && BroughtAt(c, events, k, i, e);
    FiledBefore(events, last, j, e);
    BroughtBefore(c, events, last, k, i, e);
  }

  lemma AnsweredWasFiled(c: Codec, events: seq<Event>, s: State, event: Event, e: Evaluation) returns (j: int)
    requires AllPendingRead(c, s) && AllFrom(events, s) && Answers(c, s, event, e)
    ensures FiledAt(events, j, e)
  {
    if event.CallbackArrived? {
      var id := event.callback.evaluationId;
      assert PendingReads(c, s, id);
      assert PendingFrom(events, id, s.t.pending[id]);
      j :| 0 <= j < |events| && events[j].SubmitEvaluation? && PendingRepeats(events[j].submission, id, s.t.pending[id]);
      PendingRequestId(c, s, id);
    } else {
      assert WaitingFrom(events, event.call, s.waiting[event.call]);
      j :| 0 <= j < |events| && events[j].SubmitEvaluation? && events[j].call == event.call
           && WaitingRepeats(events[j].submission, s.waiting[event.call]);
    }
  }

  lemma PendingRequestId(c: Codec, s: State, id: Text)
    requires PendingReads(c, s, id)
    ensures s.submitted[id].request.evaluationId == id
  {
  }

  /**
   * In every run, each stored evaluation was brought by one event, when it became the next in line, and carries that
   * event's own verdict, time, inputs and digest; and it is filed under what an earlier submission named.
   */
  lemma {:induction false} EvaluationsOriginate(c: Codec, events: seq<Event>, i: nat)
    requires i < |After(c, START, events).t.evaluations|
    ensures Originates(c, events, i, After(c, START, events).t.evaluations[i])
    decreases |events|
  {
    if events != [] {
      var before, last := events[..|events| - 1], events[|events| - 1];
      assert events == before + [last];
      var s := After(c, START, before);
      RunSound(c, START, before);
      Outcomes.AfterOne(c, START, before, last);
      var e := StepAdds(c, s, last);
      if i < |s.t.evaluations| {
        EvaluationsOriginate(c, before, i);
        OriginatesMore(c, before, last, i, s.t.evaluations[i]);
      } else {
        RunFrom(c, before);
        var j := AnsweredWasFiled(c, before, s, last, e.value);
        assert events[..|before|] == before && events[j] == before[j];
        assert FiledAt(events, j, e.value) && BroughtAt(c, events, |before|, i, e.value);
      }
    }
  }

  // ---------- Rejections ----------

  /** The callback rejects the id with this code, and the row keeps its digest. */
  predicate Rejects(c: Codec, event: Event, id: Text, r: Rejection) {
    && event.CallbackArrived? && event.callback.evaluationId == id && event.callback.response.Reject?
    && r.code == event.callback.response.code && r.callbackDigest == c.digestCallback(event.callback)
  }

  predicate SubmittedBy(event: Event, id: Text, accountId: Text) {
    event.SubmitEvaluation? && event.submission.evaluationId == id && event.submission.accountId == accountId
  }

  /** An account submitted the id, and a later callback rejected it. */
  predicate RejectedIn(c: Codec, events: seq<Event>, id: Text, r: Rejection) {
    exists j, k :: 0 <= j < k < |events| && SubmittedBy(events[j], id, r.accountId) && Rejects(c, events[k], id, r)
  }

  lemma RejectedInMore(c: Codec, events: seq<Event>, e: Event, id: Text, r: Rejection)
    requires RejectedIn(c, events, id, r)
    ensures RejectedIn(c, events + [e], id, r)
  {
    var j, k :| 0 <= j < k < |events| && SubmittedBy(events[j], id, r.accountId) && Rejects(c, events[k], id, r);
    assert (events + [e])[j] == events[j] && (events + [e])[k] == events[k];
  }

  /** A rejection row is old, or its event rejects a pending id of that account. */
  predicate OldOrRejected(c: Codec, s: State, u: Tables, e: Event, id: Text) {
    id in u.rejections ==>
      || (id in s.t.rejections && s.t.rejections[id] == u.rejections[id])
      || (id in s.t.pending && Rejects(c, e, id, u.rejections[id]) && u.rejections[id].accountId == s.t.pending[id].accountId)
  }

  lemma CallbackRejects(c: Codec, s: State, cb: Callback, id: Text)
    ensures OldOrRejected(c, s, CompleteCreEvaluation(c, s.t, cb).0, CallbackArrived(cb), id)
  {
    if Decides(s.t, cb.evaluationId) && cb.response.Reject? {
      RejectAnswered(c, s, cb);
    } else if Decides(s.t, cb.evaluationId) {
      StoredPending(c, s.t, cb.evaluationId, s.t.pending[cb.evaluationId], cb.response.result);
    } else {
      DecidedAnswered(c, s, cb);
    }
  }

  lemma SubmitRejectsNone(c: Codec, t: Tables, s: Submission)
    requires Submit(c, t, s).Some?
    ensures Submit(c, t, s).value.0.rejections == t.rejections
  {
  }

  lemma StepRejects(c: Codec, s: State, e: Event, id: Text)
    ensures OldOrRejected(c, s, Step(c, s, e).t, e, id)
  {
    match e
    case CallbackArrived(cb) =>
      CallbackRejects(c, s, cb, id);
      Outcomes.CallbackStep(c, s, cb);
    case SubmitEvaluation(_, submission) =>
      if Submit(c, s.t, submission).Some? {
        SubmitRejectsNone(c, s.t, submission);
      }
    case ExecutorThrew(_, _) =>
    case ExecutorAnswered(_, _) =>
    case _ => Outcomes.EvaluationsUntouched(c, s, e);
  }

  /** In every run, each rejection was brought by a callback for an id its account had submitted before. */
  lemma {:induction false} RejectionsOriginate(c: Codec, events: seq<Event>, id: Text)
    requires id in After(c, START, events).t.rejections
    ensures RejectedIn(c, events, id, After(c, START, events).t.rejections[id])
    decreases |events|
  {
    if events != [] {
      var before, last := events[..|events| - 1], events[|events| - 1];
      assert events == before + [last];
      var s := After(c, START, before);
      Outcomes.AfterOne(c, START, before, last);
      StepRejects(c, s, last, id);
      if id in s.t.rejections && s.t.rejections[id] == After(c, START, events).t.rejections[id] {
        RejectionsOriginate(c, before, id);
        RejectedInMore(c, before, last, id, s.t.rejections[id]);
      } else {
        RunFrom(c, before);
        assert PendingFrom(before, id, s.t.pending[id]);
        var j :| 0 <= j < |before| && before[j].SubmitEvaluation? && PendingRepeats(before[j].submission, id, s.t.pending[id]);
        assert events[j] == before[j];
      }
    }
  }

  // ---------- How a pending evaluation ends ----------

  /** A rejection, a result for the submitted request, or an executor that failed for good before anything was stored. */
  predicate Ends(c: Codec, s: State, e: Event, id: Text) {
    match e
    case CallbackArrived(cb) => cb.evaluationId == id && id !in s.t.rejections && (cb.response.Reject? || Brings(c, s, cb))
    case ExecutorAnswered(call, answer) =>
      call in s.waiting && s.waiting[call].request.evaluationId == id && ResultFor(c, answer, s.waiting[call].request)
    case ExecutorThrew(call, stillPending) =>
      call in s.waiting && s.waiting[call].request.evaluationId == id && !stillPending && !Outcomes.HasOwn(s.t.evaluations, s.waiting[call].accountId, id)
    case _ => false
  }

  lemma ResultEnds(c: Codec, t: Tables, cb: Callback)
    requires cb.evaluationId in t.pending && cb.response.Result?
    ensures cb.evaluationId !in CompleteCreEvaluation(c, t, cb).0.pending <==> CompleteCreEvaluation(c, t, cb).1.Completed?
  {
    StoredPending(c, t, cb.evaluationId, t.pending[cb.evaluationId], cb.response.result);
  }

  lemma RejectEnds(c: Codec, t: Tables, cb: Callback)
    requires cb.evaluationId in t.pending && cb.response.Reject?
    ensures cb.evaluationId !in CompleteCreEvaluation(c, t, cb).0.pending <==> cb.evaluationId !in t.rejections
  {
  }

  lemma OtherKept(c: Codec, t: Tables, cb: Callback, id: Text)
    requires id in t.pending && cb.evaluationId != id
    ensures id in CompleteCreEvaluation(c, t, cb).0.pending
  {
    CallbackPending(c, t, cb);
  }

  lemma CallbackEnds(c: Codec, s: State, cb: Callback, id: Text)
    requires AllPendingRead(c, s) && id in s.t.pending
    ensures id !in CompleteCreEvaluation(c, s.t, cb).0.pending <==> Ends(c, s, CallbackArrived(cb), id)
  {
    if cb.evaluationId != id {
      OtherKept(c, s.t, cb, id);
    } else if cb.response.Result? {
      BringsExact(c, s, cb);
      ResultEnds(c, s.t, cb);
    } else {
      RejectEnds(c, s.t, cb);
    }
  }

  lemma ThrewEnds(t: Tables, w: Waiting, stillPending: bool, id: Text)
    requires id in t.pending
    ensures id !in ExecutorFailed(t, w, stillPending).pending <==>
              w.request.evaluationId == id && !stillPending && !Outcomes.HasOwn(t.evaluations, w.accountId, id)
  {
    Outcomes.FindOwnMeaning(t.evaluations, w.accountId, w.request.evaluationId);
  }

  lemma AnsweredEnds(c: Codec, t: Tables, w: Waiting, answer: EvaluationResult, id: Text)
    requires id in t.pending
    ensures ExecutorSucceeded(c, t, w, answer).Some? ==>
              (id !in ExecutorSucceeded(c, t, w, answer).value.pending <==> w.request.evaluationId == id)
  {
  }

  lemma SubmitKeepsPending(c: Codec, t: Tables, s: Submission, id: Text)
    requires Submit(c, t, s).Some? && id in t.pending
    ensures id in Submit(c, t, s).value.0.pending
  {
  }

  lemma CallbackStepEnds(c: Codec, s: State, cb: Callback, id: Text)
    requires AllPendingRead(c, s) && id in s.t.pending
    ensures id !in Step(c, s, CallbackArrived(cb)).t.pending <==> Ends(c, s, CallbackArrived(cb), id)
  {
    CallbackEnds(c, s, cb, id);
    Outcomes.CallbackStep(c, s, cb);
  }

  lemma AnsweredStepEnds(c: Codec, s: State, call: nat, answer: EvaluationResult, id: Text)
    requires id in s.t.pending
    ensures id !in Step(c, s, ExecutorAnswered(call, answer)).t.pending <==> Ends(c, s, ExecutorAnswered(call, answer), id)
  {
    if call in s.waiting {
      AnswerStoresExactly(c, s.t, s.waiting[call], answer);
      AnsweredEnds(c, s.t, s.waiting[call], answer, id);
    }
  }

  lemma OtherStepEnds(c: Codec, s: State, e: Event, id: Text)
    requires id in s.t.pending && !e.CallbackArrived? && !e.ExecutorAnswered?
    ensures id !in Step(c, s, e).t.pending <==> Ends(c, s, e, id)
  {
    match e
    case ExecutorThrew(call, stillPending) =>
      if call in s.waiting {
        ThrewEnds(s.t, s.waiting[call], stillPending, id);
      }
    case SubmitEvaluation(_, submission) =>
      if Submit(c, s.t, submission).Some? {
        SubmitKeepsPending(c, s.t, submission, id);
      }
    case _ => BuildPending(c, s, e);
  }

  /** In every run, an event ends a pending evaluation exactly in these cases. */
  lemma PendingEndsExactly(c: Codec, events: seq<Event>, e: Event, id: Text)
    requires id in After(c, START, events).t.pending
    ensures id !in After(c, START, events + [e]).t.pending <==> Ends(c, After(c, START, events), e, id)
  {
    var s := After(c, START, events);
    RunSound(c, START, events);
    Outcomes.AfterOne(c, START, events, e);
    match e
    case CallbackArrived(cb) => CallbackStepEnds(c, s, cb, id);
    case ExecutorAnswered(call, answer) => AnsweredStepEnds(c, s, call, answer, id);
    case _ => OtherStepEnds(c, s, e, id);
  }
}
