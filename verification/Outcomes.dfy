/** The outcomes of an evaluation: pending, completed or rejected, one at a time and the last two for good. */
module Outcomes {
  import opened Text
  import opened Application
  import opened Lifecycle
  import Evaluations

  predicate HasEvaluation(evaluations: seq<Evaluation>, id: Text) {
    exists i :: 0 <= i < |evaluations| && evaluations[i].evaluationId == id
  }

  /** No id is pending, completed and rejected in more than one way, and none is completed twice. */
  predicate Exclusive(t: Tables) {
    && (forall id :: id in t.pending ==> id !in t.rejections && !HasEvaluation(t.evaluations, id))
    && (forall id :: id in t.rejections ==> !HasEvaluation(t.evaluations, id))
    && (forall i, j :: 0 <= i < j < |t.evaluations| ==> t.evaluations[i].evaluationId != t.evaluations[j].evaluationId)
  }

  lemma {:induction false} FindMeaning(evaluations: seq<Evaluation>, accountId: Text, id: Text)
    ensures FindAnyEvaluation(evaluations, id).Some? <==> HasEvaluation(evaluations, id)
    ensures FindEvaluation(evaluations, accountId, id).Some? ==> HasEvaluation(evaluations, id)
  {
    if evaluations != [] {
      FindMeaning(evaluations[1..], accountId, id);
      if HasEvaluation(evaluations[1..], id) {
        var i :| 0 <= i < |evaluations[1..]| && evaluations[1..][i].evaluationId == id;
        assert evaluations[i + 1].evaluationId == id;
      }
      if HasEvaluation(evaluations, id) && evaluations[0].evaluationId != id {
        var i :| 0 <= i < |evaluations| && evaluations[i].evaluationId == id;
        assert evaluations[1..][i - 1].evaluationId == id;
      }
    }
  }

  /** The evaluation is the first with the id, of the account where one is named. */
  ghost predicate FirstWith(evaluations: seq<Evaluation>, accountId: Option<Text>, id: Text, e: Evaluation) {
    exists i :: FirstAt(evaluations, accountId, id, i) && evaluations[i] == e
  }

  predicate Carries(e: Evaluation, accountId: Option<Text>, id: Text) {
    e.evaluationId == id && (accountId.None? || accountId == Some(e.accountId))
  }

  predicate FirstAt(evaluations: seq<Evaluation>, accountId: Option<Text>, id: Text, i: int) {
    && 0 <= i < |evaluations| && Carries(evaluations[i], accountId, id)
    && forall j :: 0 <= j < i ==> !Carries(evaluations[j], accountId, id)
  }

  lemma FirstShifts(evaluations: seq<Evaluation>, accountId: Option<Text>, id: Text, e: Evaluation)
    requires evaluations != []
    ensures FirstWith(evaluations, accountId, id, e) <==>
              if Carries(evaluations[0], accountId, id) then e == evaluations[0] else FirstWith(evaluations[1..], accountId, id, e)
  {
    var rest := evaluations[1..];
    if Carries(evaluations[0], accountId, id) {
      assert FirstAt(evaluations, accountId, id, 0);
    } else {
      forall i | FirstAt(rest, accountId, id, i) ensures FirstAt(evaluations, accountId, id, i + 1) && evaluations[i + 1] == rest[i] {
        assert forall j :: 1 <= j < i + 1 ==> evaluations[j] == rest[j - 1];
      }
      forall i | FirstAt(evaluations, accountId, id, i) ensures FirstAt(rest, accountId, id, i - 1) && evaluations[i] == rest[i - 1] {
        assert forall j :: 0 <= j < i - 1 ==> rest[j] == evaluations[j + 1];
      }
    }
  }

  /** The scans give the first evaluation with the id, over all accounts or of one. */
  lemma {:induction false} ScansFindFirst(evaluations: seq<Evaluation>, accountId: Text, id: Text, e: Evaluation)
    ensures FindAnyEvaluation(evaluations, id) == Some(e) <==> FirstWith(evaluations, None, id, e)
    ensures FindEvaluation(evaluations, accountId, id) == Some(e) <==> FirstWith(evaluations, Some(accountId), id, e)
  {
    if evaluations != [] {
      FirstShifts(evaluations, None, id, e);
      FirstShifts(evaluations, Some(accountId), id, e);
      ScansFindFirst(evaluations[1..], accountId, id, e);
    }
  }

  /** The first evaluation found stays the first one found when others are added. */
  lemma {:induction false} FoundStaysFound(a: seq<Evaluation>, b: seq<Evaluation>, id: Text)
    requires a <= b && FindAnyEvaluation(a, id).Some?
    ensures FindAnyEvaluation(b, id) == FindAnyEvaluation(a, id)
    decreases |a|
  {
    assert a[0] == b[0];
    if a[0].evaluationId != id {
      assert a[1..] <= b[1..];
      FoundStaysFound(a[1..], b[1..], id);
    }
  }

  lemma HasAppended(evaluations: seq<Evaluation>, e: Evaluation, id: Text)
    ensures HasEvaluation(evaluations + [e], id) <==> HasEvaluation(evaluations, id) || e.evaluationId == id
  {
    var all := evaluations + [e];
    assert all[|evaluations|] == e;
    if HasEvaluation(evaluations, id) {
      var i :| 0 <= i < |evaluations| && evaluations[i].evaluationId == id;
      assert all[i].evaluationId == id;
    }
  }

  // ---------- One transaction ----------

  /** Completing an id keeps the outcomes exclusive exactly when it had no outcome yet. */
  lemma StoredExclusive(t: Tables, e: Evaluation)
    requires Exclusive(t)
    ensures var u := t.(evaluations := t.evaluations + [e], pending := t.pending - {e.evaluationId});
            Exclusive(u) <==> !HasEvaluation(t.evaluations, e.evaluationId) && e.evaluationId !in t.rejections
  {
    var id := e.evaluationId;
    var u := t.(evaluations := t.evaluations + [e], pending := t.pending - {id});
    HasAppended(t.evaluations, e, id);
    if HasEvaluation(t.evaluations, id) {
      var i :| 0 <= i < |t.evaluations| && t.evaluations[i].evaluationId == id;
      assert u.evaluations[i].evaluationId == u.evaluations[|t.evaluations|].evaluationId;
    } else if id !in t.rejections {
      forall x | x in u.pending || x in u.rejections ensures HasEvaluation(u.evaluations, x) <==> HasEvaluation(t.evaluations, x) {
        HasAppended(t.evaluations, e, x);
      }
    }
  }

  /** A pending row may be written for an id that is pending already, done for the account, or without outcome. */
  predicate MayRecord(t: Tables, id: Text, accountId: Text) {
    || id in t.pending
    || FindEvaluation(t.evaluations, accountId, id).Some?
    || (id !in t.rejections && !HasEvaluation(t.evaluations, id))
  }

  lemma RecordedExclusive(t: Tables, id: Text, p: Pending, u: Tables)
    requires Exclusive(t) && RecordPending(t, id, p) == Some(u)
    ensures Exclusive(u) <==> MayRecord(t, id, p.accountId)
  {
    if id !in t.pending && FindEvaluation(t.evaluations, p.accountId, id).None? {
      assert u == t.(pending := t.pending[id := p]);
      assert id in u.pending;
    }
  }

  lemma CallbackExclusive(c: Codec, t: Tables, cb: Callback)
    requires Exclusive(t)
    ensures Exclusive(CompleteCreEvaluation(c, t, cb).0)
  {
    var id := cb.evaluationId;
    if id in t.pending && id !in t.rejections {
      if cb.response.Result? {
        Evaluations.StoredPending(c, t, id, t.pending[id], cb.response.result);
        if cb.response.behaviorInputDigest == t.pending[id].behaviorInputDigest
           && StoreResult(c, t, t.pending[id], cb.response.result, Rebuilt(c, t, id, t.pending[id])).1.Completed? {
          StoredExclusive(t, StoreResult(c, t, t.pending[id], cb.response.result, Rebuilt(c, t, id, t.pending[id])).1.evaluation);
        }
      } else {
        RejectedExclusive(t, id, Rejection(t.pending[id].accountId, cb.response.code, c.digestCallback(cb)));
      }
    }
  }

  lemma RejectedExclusive(t: Tables, id: Text, r: Rejection)
    requires Exclusive(t) && id in t.pending
    ensures Exclusive(t.(rejections := t.rejections[id := r], pending := t.pending - {id}))
  {
  }

  // ---------- Any step ----------

  /** What an event must find for the outcomes to stay exclusive. */
  predicate Guard(c: Codec, s: State, e: Event) {
    match e
    case SubmitEvaluation(call, submission) =>
      call !in s.waiting && Submit(c, s.t, submission).Some? ==> MayRecord(s.t, submission.evaluationId, submission.accountId)
    case ExecutorAnswered(call, answer) =>
      call in s.waiting && ResultBindings(c, answer, s.waiting[call].request) ==>
        !HasEvaluation(s.t.evaluations, answer.evaluationId) && answer.evaluationId !in s.t.rejections
    case _ => true
  }

  lemma SubmitExclusive(c: Codec, s: State, call: nat, submission: Submission)
    requires Exclusive(s.t) && Evaluations.OwnIntegrity(s.t)
    ensures Exclusive(Step(c, s, SubmitEvaluation(call, submission)).t) <==> Guard(c, s, SubmitEvaluation(call, submission))
  {
    if Submit(c, s.t, submission).Some? {
      var u := Submit(c, s.t, submission).value.0;
      var p := Evaluations.SubmitReads(c, s.t, submission);
      RecordedExclusive(s.t, submission.evaluationId, p, u);
    }
  }

  lemma AnswerExclusive(c: Codec, s: State, call: nat, answer: EvaluationResult)
    requires Exclusive(s.t)
    ensures Exclusive(Step(c, s, ExecutorAnswered(call, answer)).t) <==> Guard(c, s, ExecutorAnswered(call, answer))
  {
    if call in s.waiting && ResultBindings(c, answer, s.waiting[call].request) {
      var w := s.waiting[call];
      StoredExclusive(s.t, EvaluationOf(w.accountId, w.siteId, w.robotId, w.buildId, answer));
    }
  }

  lemma ThrewExclusive(t: Tables, w: Waiting, stillPending: bool)
    requires Exclusive(t)
    ensures Exclusive(ExecutorFailed(t, w, stillPending))
  {
  }

  /** A step keeps the outcomes exclusive exactly when its guard holds. */
  lemma StepExclusiveExactly(c: Codec, s: State, e: Event)
    requires Exclusive(s.t) && Evaluations.OwnIntegrity(s.t)
    ensures Exclusive(Step(c, s, e).t) <==> Guard(c, s, e)
  {
    match e
    case SubmitEvaluation(call, submission) => SubmitExclusive(c, s, call, submission);
    case ExecutorAnswered(call, answer) => AnswerExclusive(c, s, call, answer);
    case ExecutorThrew(call, stillPending) =>
      if call in s.waiting {
        ThrewExclusive(s.t, s.waiting[call], stillPending);
      }
    case CallbackArrived(callback) => CallbackExclusive(c, s.t, callback);
    case _ => BuildExclusive(c, s, e);
  }

  lemma BuildExclusive(c: Codec, s: State, e: Event)
    requires Exclusive(s.t)
    requires !(e.SubmitEvaluation? || e.ExecutorThrew? || e.ExecutorAnswered? || e.CallbackArrived?)
    ensures Exclusive(Step(c, s, e).t)
  {
    Evaluations.BuildPending(c, s, e);
    EvaluationsUntouched(c, s, e);
  }

  lemma EvaluationsUntouched(c: Codec, s: State, e: Event)
    requires !(e.SubmitEvaluation? || e.ExecutorThrew? || e.ExecutorAnswered? || e.CallbackArrived?)
    ensures Step(c, s, e).t.evaluations == s.t.evaluations && Step(c, s, e).t.rejections == s.t.rejections
  {
  }

  // ---------- Whole runs ----------

  /** Each id is submitted at most once, and results come by callback only. */
  predicate FreshCallbacks(seen: set<Text>, events: seq<Event>)
    decreases |events|
  {
    events == []
    || match events[0]
       case SubmitEvaluation(_, submission) =>
         submission.evaluationId !in seen && FreshCallbacks(seen + {submission.evaluationId}, events[1..])
       case ExecutorAnswered(_, _) => false
       case _ => FreshCallbacks(seen, events[1..])
  }

  function SeenAfter(seen: set<Text>, e: Event): set<Text> {
    if e.SubmitEvaluation? then seen + {e.submission.evaluationId} else seen
  }

  /** Only ids submitted so far have an outcome. */
  predicate Within(t: Tables, seen: set<Text>) {
    && t.pending.Keys <= seen && t.rejections.Keys <= seen
    && forall i :: 0 <= i < |t.evaluations| ==> t.evaluations[i].evaluationId in seen
  }

  lemma FreshMayRecord(t: Tables, seen: set<Text>, id: Text, accountId: Text)
    requires Within(t, seen) && id !in seen
    ensures MayRecord(t, id, accountId)
  {
  }

  lemma StoredWithin(t: Tables, e: Evaluation, seen: set<Text>)
    requires Within(t, seen) && e.evaluationId in seen
    ensures Within(t.(evaluations := t.evaluations + [e], pending := t.pending - {e.evaluationId}), seen)
  {
  }

  lemma CallbackWithin(c: Codec, t: Tables, cb: Callback, seen: set<Text>)
    requires Within(t, seen)
    ensures Within(CompleteCreEvaluation(c, t, cb).0, seen)
  {
    var id := cb.evaluationId;
    if id in t.pending && id !in t.rejections && cb.response.Result? {
      Evaluations.StoredPending(c, t, id, t.pending[id], cb.response.result);
      var o := StoreResult(c, t, t.pending[id], cb.response.result, Rebuilt(c, t, id, t.pending[id])).1;
      if o.Completed? {
        StoredWithin(t, o.evaluation, seen);
      }
    }
  }

  lemma SubmitWithin(c: Codec, t: Tables, s: Submission, seen: set<Text>)
    requires Within(t, seen) && Submit(c, t, s).Some? && Evaluations.OwnIntegrity(t)
    ensures Within(Submit(c, t, s).value.0, seen + {s.evaluationId})
  {
    var p := Evaluations.SubmitReads(c, t, s);
    RecordedWithin(t, s.evaluationId, p, Submit(c, t, s).value.0, seen);
  }

  lemma RecordedWithin(t: Tables, id: Text, p: Pending, u: Tables, seen: set<Text>)
    requires Within(t, seen) && RecordPending(t, id, p) == Some(u)
    ensures Within(u, seen + {id})
  {
  }

  lemma StepWithin(c: Codec, s: State, e: Event, seen: set<Text>)
    requires Within(s.t, seen) && !e.ExecutorAnswered? && Evaluations.OwnIntegrity(s.t)
    ensures Within(Step(c, s, e).t, SeenAfter(seen, e))
  {
    match e
    case SubmitEvaluation(call, submission) =>
      if Submit(c, s.t, submission).Some? {
        SubmitWithin(c, s.t, submission, seen);
      }
    case CallbackArrived(callback) => CallbackWithin(c, s.t, callback, seen);
    case ExecutorThrew(_, _) =>
    case _ =>
      Evaluations.BuildPending(c, s, e);
      EvaluationsUntouched(c, s, e);
  }

  lemma FreshGuard(c: Codec, s: State, e: Event, seen: set<Text>)
    requires Within(s.t, seen) && !e.ExecutorAnswered?
    requires e.SubmitEvaluation? ==> e.submission.evaluationId !in seen
    ensures Guard(c, s, e)
  {
    if e.SubmitEvaluation? {
      FreshMayRecord(s.t, seen, e.submission.evaluationId, e.submission.accountId);
    }
  }

  /** With fresh ids and callbacks only, every run keeps pending, completed and rejected apart. */
  lemma {:induction false} RunExclusive(c: Codec, s: State, events: seq<Event>, seen: set<Text>)
    requires Evaluations.Sound(c, s)
    requires Exclusive(s.t) && Within(s.t, seen) && FreshCallbacks(seen, events)
    ensures Exclusive(After(c, s, events).t)
    decreases |events|
  {
    if events != [] {
      FreshGuard(c, s, events[0], seen);
      StepExclusiveExactly(c, s, events[0]);
      StepWithin(c, s, events[0], seen);
      Evaluations.StepSound(c, s, events[0]);
      RunExclusive(c, Step(c, s, events[0]), events[1..], SeenAfter(seen, events[0]));
    }
  }

  lemma {:induction false} FreshPrefix(seen: set<Text>, events: seq<Event>, later: seq<Event>)
    requires FreshCallbacks(seen, events + later)
    ensures FreshCallbacks(seen, events)
    decreases |events|
  {
    if events != [] {
      assert (events + later)[1..] == events[1..] + later;
      FreshPrefix(SeenAfter(seen, events[0]), events[1..], later);
    }
  }

  lemma {:induction false} AfterConcat(c: Codec, s: State, a: seq<Event>, b: seq<Event>)
    ensures After(c, s, a + b) == After(c, After(c, s, a), b)
    decreases |a|
  {
    if a == [] {
      assert a + b == b;
    } else {
      assert (a + b)[1..] == a[1..] + b;
      AfterConcat(c, Step(c, s, a[0]), a[1..], b);
    }
  }

  /** A completed or rejected id keeps that one outcome in every continuation. */
  lemma TerminalForever(c: Codec, events: seq<Event>, later: seq<Event>, id: Text)
    requires FreshCallbacks({}, events + later)
    ensures var t := After(c, START, events).t;
            var u := After(c, START, events + later).t;
            && (HasEvaluation(t.evaluations, id) ==>
                 && FindAnyEvaluation(u.evaluations, id) == FindAnyEvaluation(t.evaluations, id)
                 && id !in u.pending && id !in u.rejections)
            && (id in t.rejections ==>
                 && id in u.rejections && u.rejections[id] == t.rejections[id]
                 && id !in u.pending && !HasEvaluation(u.evaluations, id))
  {
    var s := After(c, START, events);
    var u := After(c, START, events + later).t;
    AfterConcat(c, START, events, later);
    RunKeeps(c, START, events);
    RunKeeps(c, s, later);
    RunExclusive(c, START, events + later, {});
    FindMeaning(s.t.evaluations, [], id);
    if HasEvaluation(s.t.evaluations, id) {
      FoundStaysFound(s.t.evaluations, u.evaluations, id);
      FindMeaning(u.evaluations, [], id);
    }
  }

  // ---------- Where it fails ----------

  /** The callback completes the evaluation the call is still waiting for, with a result the call will accept too. */
  predicate AnsweredTwice(c: Codec, s: State, call: nat, cb: Callback) {
    && CompleteCreEvaluation(c, s.t, cb).1.Completed? && cb.response.Result?
    && call in s.waiting && s.waiting[call].request.evaluationId == cb.evaluationId
    && ResultBindings(c, cb.response.result, s.waiting[call].request)
  }

  /** After the callback the id is completed, and the call still waits. */
  lemma CompletedByCallback(c: Codec, t: Tables, cb: Callback)
    requires Exclusive(t) && CompleteCreEvaluation(c, t, cb).1.Completed? && cb.response.Result?
    ensures HasEvaluation(CompleteCreEvaluation(c, t, cb).0.evaluations, cb.evaluationId)
  {
    Evaluations.StoredPending(c, t, cb.evaluationId, t.pending[cb.evaluationId], cb.response.result);
    HasAppended(t.evaluations, CompleteCreEvaluation(c, t, cb).1.evaluation, cb.evaluationId);
  }

  lemma AnsweredAgain(c: Codec, s: State, call: nat, answer: EvaluationResult)
    requires Exclusive(s.t) && HasEvaluation(s.t.evaluations, answer.evaluationId)
    requires call in s.waiting && ResultBindings(c, answer, s.waiting[call].request)
    ensures !Exclusive(Step(c, s, ExecutorAnswered(call, answer)).t)
  {
    AnswerExclusive(c, s, call, answer);
  }

  lemma LateAnswer(c: Codec, s: State, t: Tables, call: nat, cb: Callback)
    requires Exclusive(s.t) && AnsweredTwice(c, s, call, cb) && t == CompleteCreEvaluation(c, s.t, cb).0
    ensures Exclusive(t) && !Exclusive(Step(c, s.(t := t), ExecutorAnswered(call, cb.response.result)).t)
  {
    CallbackExclusive(c, s.t, cb);
    CompletedByCallback(c, s.t, cb);
    AnsweredAgain(c, s.(t := t), call, cb.response.result);
  }

  lemma CallbackStep(c: Codec, s: State, cb: Callback)
    ensures Step(c, s, CallbackArrived(cb)) == s.(t := CompleteCreEvaluation(c, s.t, cb).0)
  {
  }

  /** A run that goes on with that callback and then with the executor's own answer completes the id twice. */
  lemma LateAnswerCompletesTwice(c: Codec, events: seq<Event>, call: nat, cb: Callback)
    requires Exclusive(After(c, START, events).t) && AnsweredTwice(c, After(c, START, events), call, cb)
    ensures Exclusive(After(c, START, events + [CallbackArrived(cb)]).t)
    ensures !Exclusive(After(c, START, events + [CallbackArrived(cb), ExecutorAnswered(call, cb.response.result)]).t)
  {
    var answer := ExecutorAnswered(call, cb.response.result);
    AfterOne(c, START, events, CallbackArrived(cb));
    AfterOne(c, START, events + [CallbackArrived(cb)], answer);
    assert events + [CallbackArrived(cb)] + [answer] == events + [CallbackArrived(cb), answer];
    CallbackStep(c, After(c, START, events), cb);
    LateAnswer(c, After(c, START, events), After(c, START, events + [CallbackArrived(cb)]).t, call, cb);
  }

  /** The call waits for an evaluation that is pending as it submitted it. */
  predicate WaitsPending(c: Codec, s: State, call: nat) {
    && call in s.waiting
    && var w := s.waiting[call];
       && w.request.evaluationId in s.t.pending && w.request.evaluationId in s.submitted
       && s.submitted[w.request.evaluationId] == w && c.digestInputs(w.request.inputs).Some?
  }

  /** A result for the submitted request, under the pending digest. */
  function OwnResult(c: Codec, s: State, call: nat): Callback
    requires WaitsPending(c, s, call)
  {
    var r := s.waiting[call].request;
    Callback(r.evaluationId, Response.Result(
      s.t.pending[r.evaluationId].behaviorInputDigest,
      EvaluationResult(r.evaluationId, r.inputs, c.digestInputs(r.inputs).value, Verdict.Clear, r.requestedAt)))
  }

  lemma OwnResultCompletes(c: Codec, s: State, call: nat)
    requires WaitsPending(c, s, call) && Exclusive(s.t) && Evaluations.PendingReads(c, s, s.waiting[call].request.evaluationId)
    ensures AnsweredTwice(c, s, call, OwnResult(c, s, call))
  {
    var r, cb := s.waiting[call].request, OwnResult(c, s, call);
    Evaluations.StoredPending(c, s.t, r.evaluationId, s.t.pending[r.evaluationId], cb.response.result);
  }

  /** Every waiting call whose evaluation is pending can be answered twice: the two events are there to be made. */
  lemma WaitingAnsweredTwice(c: Codec, events: seq<Event>, call: nat)
    requires Exclusive(After(c, START, events).t) && WaitsPending(c, After(c, START, events), call)
    ensures var cb := OwnResult(c, After(c, START, events), call);
            !Exclusive(After(c, START, events + [CallbackArrived(cb), ExecutorAnswered(call, cb.response.result)]).t)
  {
    var s := After(c, START, events);
    Evaluations.RunSound(c, START, events);
    OwnResultCompletes(c, s, call);
    LateAnswerCompletesTwice(c, events, call, OwnResult(c, s, call));
  }

  lemma RejectedRecorded(t: Tables, id: Text, p: Pending)
    requires Exclusive(t) && id in t.rejections && RecordPending(t, id, p).Some?
    ensures id in RecordPending(t, id, p).value.pending && RecordPending(t, id, p).value.rejections == t.rejections
  {
    FindMeaning(t.evaluations, p.accountId, id);
  }

  lemma RejectedResubmitted(c: Codec, t: Tables, submission: Submission)
    requires Exclusive(t) && Evaluations.OwnIntegrity(t) && submission.evaluationId in t.rejections
    requires Submit(c, t, submission).Some?
    ensures var u := Submit(c, t, submission).value.0;
            submission.evaluationId in u.pending && submission.evaluationId in u.rejections
  {
    var p := Evaluations.SubmitReads(c, t, submission);
    RejectedRecorded(t, submission.evaluationId, p);
  }

  lemma SubmitStep(c: Codec, s: State, call: nat, submission: Submission)
    requires call !in s.waiting && Submit(c, s.t, submission).Some?
    ensures Step(c, s, SubmitEvaluation(call, submission)).t == Submit(c, s.t, submission).value.0
  {
  }

  /** Pending and rejected at once. */
  lemma NotExclusive(t: Tables, id: Text)
    requires id in t.pending && id in t.rejections
    ensures !Exclusive(t)
  {
  }

  /** A rejected id that is submitted again, and let through, is pending and rejected at once. */
  lemma ResubmissionRevives(c: Codec, events: seq<Event>, call: nat, submission: Submission)
    requires Exclusive(After(c, START, events).t) && submission.evaluationId in After(c, START, events).t.rejections
    requires call !in After(c, START, events).waiting && Submit(c, After(c, START, events).t, submission).Some?
    ensures var t := After(c, START, events + [SubmitEvaluation(call, submission)]).t;
            && submission.evaluationId in t.pending && submission.evaluationId in t.rejections && !Exclusive(t)
  {
    AfterOne(c, START, events, SubmitEvaluation(call, submission));
    Evaluations.RunSound(c, START, events);
    SubmitStep(c, After(c, START, events), call, submission);
    RejectedResubmitted(c, After(c, START, events).t, submission);
    NotExclusive(After(c, START, events + [SubmitEvaluation(call, submission)]).t, submission.evaluationId);
  }

  lemma AfterOne(c: Codec, s: State, events: seq<Event>, e: Event)
    ensures After(c, s, events + [e]) == Step(c, After(c, s, events), e)
  {
    AfterConcat(c, s, events, [e]);
    assert After(c, After(c, s, events), [e]) == After(c, Step(c, After(c, s, events), e), []);
  }

  // ---------- Redelivery ----------

  /** Delivering a callback again changes nothing and reports the outcome of the first delivery. */
  lemma RedeliveryIdempotent(c: Codec, t: Tables, cb: Callback)
    requires Exclusive(t)
    ensures var (u, o) := CompleteCreEvaluation(c, t, cb);
            CompleteCreEvaluation(c, u, cb) == (u, if o.Completed? then AlreadyCompleted(o.evaluation) else o)
  {
    var id := cb.evaluationId;
    var (u, o) := CompleteCreEvaluation(c, t, cb);
    FindMeaning(t.evaluations, [], id);
    if id in t.pending {
      assert FindAnyEvaluation(t.evaluations, id).None?;
      if cb.response.Result? {
        Evaluations.StoredPending(c, t, id, t.pending[id], cb.response.result);
        if o.Completed? {
          FoundAppended(t.evaluations, o.evaluation, id);
        }
      }
    }
  }

  lemma {:induction false} FoundAppended(evaluations: seq<Evaluation>, e: Evaluation, id: Text)
    requires FindAnyEvaluation(evaluations, id).None? && e.evaluationId == id
    ensures FindAnyEvaluation(evaluations + [e], id) == Some(e)
  {
    if evaluations != [] {
      assert (evaluations + [e])[1..] == evaluations[1..] + [e];
      FoundAppended(evaluations[1..], e, id);
    }
  }

  /** After a rejection any other callback is refused and changes nothing; the same one gives the same code. */
  lemma RejectionStands(c: Codec, t: Tables, cb: Callback)
    requires Exclusive(t) && cb.evaluationId in t.rejections
    ensures var r := t.rejections[cb.evaluationId];
            CompleteCreEvaluation(c, t, cb) == (t, if r.callbackDigest == c.digestCallback(cb) then Outcome.Rejected(r.code) else Conflict)
  {
    FindMeaning(t.evaluations, [], cb.evaluationId);
  }

  /** The account has an evaluation with the id. */
  predicate HasOwn(evaluations: seq<Evaluation>, accountId: Text, id: Text) {
    exists i :: 0 <= i < |evaluations| && evaluations[i].accountId == accountId && evaluations[i].evaluationId == id
  }

  lemma {:induction false} FindOwnMeaning(evaluations: seq<Evaluation>, accountId: Text, id: Text)
    ensures FindEvaluation(evaluations, accountId, id).Some? <==> HasOwn(evaluations, accountId, id)
  {
    if evaluations != [] {
      var rest := evaluations[1..];
      FindOwnMeaning(rest, accountId, id);
      if HasOwn(rest, accountId, id) {
        var i :| 0 <= i < |rest| && rest[i].accountId == accountId && rest[i].evaluationId == id;
        assert evaluations[i + 1] == rest[i];
      }
      if HasOwn(evaluations, accountId, id) && FindEvaluation(evaluations, accountId, id) != Some(evaluations[0]) {
        var i :| 0 <= i < |evaluations| && evaluations[i].accountId == accountId && evaluations[i].evaluationId == id;
        assert rest[i - 1] == evaluations[i];
      }
    }
  }

  /** The status an account reads: done, pending, or nothing for a rejected or foreign id. */
  lemma StatusMeaning(t: Tables, accountId: Text, id: Text)
    requires Exclusive(t)
    ensures var status := GetEvaluationStatus(t, accountId, id);
            && (status.StillPending? <==> id in t.pending && t.pending[id].accountId == accountId)
            && (id in t.rejections ==> status == Unknown)
            && (status.Done? <==> HasOwn(t.evaluations, accountId, id))
            && (status.Done? ==> status.evaluation in t.evaluations && status.evaluation.evaluationId == id
                                 && status.evaluation.accountId == accountId && id !in t.pending)
  {
    FindMeaning(t.evaluations, accountId, id);
    FindOwnMeaning(t.evaluations, accountId, id);
    FoundIsListed(t.evaluations, accountId, id);
  }

  lemma {:induction false} FoundIsListed(evaluations: seq<Evaluation>, accountId: Text, id: Text)
    ensures var e := FindEvaluation(evaluations, accountId, id);
            e.Some? ==> e.value in evaluations && e.value.evaluationId == id && e.value.accountId == accountId
  {
    if evaluations != [] {
      FoundIsListed(evaluations[1..], accountId, id);
    }
  }
}
