/** Every run of the application store: transactions of source builds and evaluations in any interleaving. */
module Lifecycle {
  import opened Text
  import opened Records
  import opened BuildRecords
  import opened Application

  // ---------- The machine ----------

  datatype Event =
    | AddSite(siteId: Text, site: Site)
    | AddRobot(accountId: Text, siteId: Text, robotId: Text)
    | AddBuild(accountId: Text, siteId: Text, robotId: Text, buildId: Text, artifactDigest: Text, route: Text)
    | AddSourceBuild(accountId: Text, siteId: Text, robotId: Text, buildId: Text, source: Source, route: Text)
    | StartCompletion(call: nat, accountId: Text, buildId: Text, result: RunnerResult)
    | EndCompletion(call: nat, storedDigest: Text)
    | FailBuild(accountId: Text, buildId: Text, code: Text, message: Text)
    | SubmitEvaluation(call: nat, submission: Submission)
    | ExecutorThrew(call: nat, stillPending: bool)
    | ExecutorAnswered(call: nat, answer: EvaluationResult)
    | CallbackArrived(callback: Callback)

  /** The tables, the calls waiting for a hash or an executor, and what was last submitted under each id. */
  datatype State = State(
    t: Tables, completing: map<nat, Completing>, waiting: map<nat, Waiting>, submitted: map<Text, Waiting>)

  const START: State := State(EMPTY, map[], map[], map[])

  function WithTables(s: State, t: Option<Tables>): State {
    if t.Some? then s.(t := t.value) else s
  }

  function Step(c: Codec, s: State, e: Event): State {
    match e
    case AddSite(siteId, site) => WithTables(s, CreateSite(s.t, siteId, site))
    case AddRobot(accountId, siteId, robotId) => WithTables(s, CreateRobot(s.t, accountId, siteId, robotId))
    case AddBuild(accountId, siteId, robotId, buildId, artifactDigest, route) =>
      WithTables(s, CreateBuild(c, s.t, accountId, siteId, robotId, buildId, artifactDigest, route))
    case AddSourceBuild(accountId, siteId, robotId, buildId, source, route) =>
      WithTables(s, CreateSourceBuild(c, s.t, accountId, siteId, robotId, buildId, source, route))
    case StartCompletion(call, accountId, buildId, result) =>
      (match BeginComplete(c, s.t, accountId, buildId, result)
       case None => s
       case Some(w) => if call in s.completing then s else s.(completing := s.completing[call := w]))
    case EndCompletion(call, storedDigest) =>
      if call !in s.completing then s
      else WithTables(s.(completing := s.completing - {call}), FinishComplete(c, s.t, s.completing[call], storedDigest))
    case FailBuild(accountId, buildId, code, message) =>
      WithTables(s, FailSourceBuild(s.t, accountId, buildId, code, message))
    case SubmitEvaluation(call, submission) =>
      (match Submit(c, s.t, submission)
       case None => s
       case Some((t, w)) =>
         if call in s.waiting then s
         else State(t, s.completing, s.waiting[call := w], s.submitted[submission.evaluationId := w]))
    case ExecutorThrew(call, stillPending) =>
      if call !in s.waiting then s
      else s.(t := ExecutorFailed(s.t, s.waiting[call], stillPending), waiting := s.waiting - {call})
    case ExecutorAnswered(call, answer) =>
      if call !in s.waiting then s
      else WithTables(s.(waiting := s.waiting - {call}), ExecutorSucceeded(c, s.t, s.waiting[call], answer))
    case CallbackArrived(callback) => s.(t := CompleteCreEvaluation(c, s.t, callback).0)
  }

  function After(c: Codec, s: State, events: seq<Event>): State
    decreases |events|
  {
    if events == [] then s else After(c, Step(c, s, events[0]), events[1..])
  }

  // ---------- What no step undoes ----------

  /** The build is not from source, or its source build has ended. */
  predicate Settled(t: Tables, buildId: Text) {
    buildId in t.builds && (buildId in t.integrity ==> t.integrity[buildId].status != Building)
  }

  predicate SettledKept(t: Tables, u: Tables, buildId: Text) {
    && Settled(t, buildId) && Settled(u, buildId) && u.builds[buildId] == t.builds[buildId]
    && (buildId in t.integrity <==> buildId in u.integrity)
    && (buildId in t.integrity ==> u.integrity[buildId] == t.integrity[buildId])
  }

  /** Sites, robots, settled builds, evaluations and rejections stay exactly as they are. */
  predicate Kept(t: Tables, u: Tables) {
    && (forall x :: x in t.sites ==> x in u.sites && u.sites[x] == t.sites[x])
    && (forall x :: x in t.robots ==> x in u.robots && u.robots[x] == t.robots[x])
    && (forall b :: b in t.builds && Settled(t, b) ==> SettledKept(t, u, b))
    && t.evaluations <= u.evaluations
    && (forall x :: x in t.rejections ==> x in u.rejections && u.rejections[x] == t.rejections[x])
  }

  lemma KeptTransitive(t: Tables, u: Tables, v: Tables)
    requires Kept(t, u) && Kept(u, v)
    ensures Kept(t, v)
  {
    forall b | b in t.builds && Settled(t, b) ensures SettledKept(t, v, b) {
      assert SettledKept(t, u, b) && SettledKept(u, v, b);
    }
  }

  predicate IntegrityHasBuild(t: Tables) {
    t.integrity.Keys <= t.builds.Keys
  }

  /** Only the three evaluation tables move, and two of them only grow. */
  predicate OnlyEvaluations(t: Tables, u: Tables) {
    && u.sites == t.sites && u.robots == t.robots && u.builds == t.builds && u.integrity == t.integrity
    && t.evaluations <= u.evaluations
    && (forall x :: x in t.rejections ==> x in u.rejections && u.rejections[x] == t.rejections[x])
  }

  lemma OnlyEvaluationsKeeps(t: Tables, u: Tables)
    requires OnlyEvaluations(t, u) && IntegrityHasBuild(t)
    ensures Kept(t, u) && IntegrityHasBuild(u)
  {
    forall b | b in t.builds && Settled(t, b) ensures SettledKept(t, u, b) {
    }
  }

  lemma SubmitMoves(c: Codec, t: Tables, s: Submission)
    requires Submit(c, t, s).Some?
    ensures OnlyEvaluations(t, Submit(c, t, s).value.0)
  {
    var u := Submit(c, t, s).value.0;
    assert u == t || u == t.(pending := u.pending);
  }

  lemma StoreMoves(c: Codec, t: Tables, p: Pending, result: EvaluationResult, request: Option<EvaluationRequest>)
    ensures OnlyEvaluations(t, StoreResult(c, t, p, result, request).0)
  {
  }

  lemma AnswerMoves(c: Codec, t: Tables, cb: Callback, p: Pending)
    requires cb.evaluationId !in t.rejections
    ensures OnlyEvaluations(t, AnswerPending(c, t, cb, p).0)
  {
    if cb.response.Result? {
      StoreMoves(c, t, p, cb.response.result, Rebuilt(c, t, cb.evaluationId, p));
    }
  }

  lemma CallbackMoves(c: Codec, t: Tables, cb: Callback)
    ensures OnlyEvaluations(t, CompleteCreEvaluation(c, t, cb).0)
  {
    var id := cb.evaluationId;
    if id in t.pending && id !in t.rejections {
      AnswerMoves(c, t, cb, t.pending[id]);
      assert CompleteCreEvaluation(c, t, cb) == AnswerPending(c, t, cb, t.pending[id]);
    } else {
      assert CompleteCreEvaluation(c, t, cb).0 == t;
    }
  }

  lemma ExecutorMoves(c: Codec, t: Tables, w: Waiting, stillPending: bool, result: EvaluationResult)
    ensures OnlyEvaluations(t, ExecutorFailed(t, w, stillPending))
    ensures var u := ExecutorSucceeded(c, t, w, result); u.Some? ==> OnlyEvaluations(t, u.value)
  {
  }

  /** One build and its integrity row change; that build was not settled. */
  predicate OnlyBuild(t: Tables, u: Tables, buildId: Text) {
    && !Settled(t, buildId) && buildId in u.builds
    && u == t.(builds := u.builds, integrity := u.integrity)
    && u.builds == t.builds[buildId := u.builds[buildId]]
    && (forall b :: b in t.integrity ==> b in u.integrity)
    && (forall b :: b in u.integrity && b != buildId ==> b in t.integrity && u.integrity[b] == t.integrity[b])
  }

  lemma OnlyBuildKeeps(t: Tables, u: Tables, buildId: Text)
    requires OnlyBuild(t, u, buildId) && IntegrityHasBuild(t)
    ensures Kept(t, u) && IntegrityHasBuild(u)
  {
    forall b | b in t.builds && Settled(t, b) ensures SettledKept(t, u, b) {
      assert b != buildId;
    }
  }

  lemma SitesKeep(t: Tables, siteId: Text, site: Site, accountId: Text, robotId: Text)
    requires IntegrityHasBuild(t)
    ensures var u := CreateSite(t, siteId, site); u.Some? ==> Kept(t, u.value) && IntegrityHasBuild(u.value)
    ensures var u := CreateRobot(t, accountId, siteId, robotId); u.Some? ==> Kept(t, u.value) && IntegrityHasBuild(u.value)
  {
    var u, v := CreateSite(t, siteId, site), CreateRobot(t, accountId, siteId, robotId);
    forall b | b in t.builds && Settled(t, b)
      ensures (u.Some? ==> SettledKept(t, u.value, b)) && (v.Some? ==> SettledKept(t, v.value, b))
    {
    }
  }

  lemma CreateMoves(c: Codec, t: Tables, accountId: Text, siteId: Text, robotId: Text, buildId: Text, digest: Text, source: Source, route: Text)
    requires IntegrityHasBuild(t)
    ensures var u := CreateBuild(c, t, accountId, siteId, robotId, buildId, digest, route);
            u.Some? ==> OnlyBuild(t, u.value, buildId)
    ensures var u := CreateSourceBuild(c, t, accountId, siteId, robotId, buildId, source, route);
            u.Some? ==> OnlyBuild(t, u.value, buildId)
  {
  }

  lemma FinishMoves(c: Codec, t: Tables, w: Completing, storedDigest: Text)
    ensures var u := FinishComplete(c, t, w, storedDigest); u.Some? ==> OnlyBuild(t, u.value, w.buildId)
  {
  }

  lemma FailMoves(t: Tables, accountId: Text, buildId: Text, code: Text, message: Text)
    ensures var u := FailSourceBuild(t, accountId, buildId, code, message);
            u.Some? ==> u.value == t || OnlyBuild(t, u.value, buildId)
  {
  }

  lemma KeptItself(t: Tables)
    ensures Kept(t, t)
  {
  }

  lemma BuildStepKeeps(c: Codec, s: State, e: Event)
    requires IntegrityHasBuild(s.t) && !(e.SubmitEvaluation? || e.ExecutorThrew? || e.ExecutorAnswered? || e.CallbackArrived?)
    ensures Kept(s.t, Step(c, s, e).t) && IntegrityHasBuild(Step(c, s, e).t)
  {
    var u := Step(c, s, e).t;
    KeptItself(s.t);
    match e
    case AddSite(siteId, site) => SitesKeep(s.t, siteId, site, [], []);
    case AddRobot(accountId, siteId, robotId) => SitesKeep(s.t, siteId, Site([], [], [], []), accountId, robotId);
    case AddBuild(accountId, siteId, robotId, buildId, digest, route) =>
      CreateMoves(c, s.t, accountId, siteId, robotId, buildId, digest, Source([], [], [], []), route);
      if u != s.t {
        OnlyBuildKeeps(s.t, u, buildId);
      }
    case AddSourceBuild(accountId, siteId, robotId, buildId, source, route) =>
      CreateMoves(c, s.t, accountId, siteId, robotId, buildId, [], source, route);
      if u != s.t {
        OnlyBuildKeeps(s.t, u, buildId);
      }
    case StartCompletion(_, _, _, _) =>
    case EndCompletion(call, storedDigest) =>
      if u != s.t {
        FinishMoves(c, s.t, s.completing[call], storedDigest);
        OnlyBuildKeeps(s.t, u, s.completing[call].buildId);
      }
    case FailBuild(accountId, buildId, code, message) =>
      FailMoves(s.t, accountId, buildId, code, message);
      if u != s.t {
        OnlyBuildKeeps(s.t, u, buildId);
      }
  }

  lemma EvaluationStepMoves(c: Codec, s: State, e: Event)
    requires e.SubmitEvaluation? || e.ExecutorThrew? || e.ExecutorAnswered? || e.CallbackArrived?
    ensures OnlyEvaluations(s.t, Step(c, s, e).t)
  {
    match e
    case SubmitEvaluation(_, submission) =>
      if Submit(c, s.t, submission).Some? {
        SubmitMoves(c, s.t, submission);
      }
    case ExecutorThrew(call, stillPending) =>
      if call in s.waiting {
        ExecutorMoves(c, s.t, s.waiting[call], stillPending, AnyResult(s.waiting[call]));
      }
    case ExecutorAnswered(call, answer) =>
      if call in s.waiting {
        ExecutorMoves(c, s.t, s.waiting[call], true, answer);
      }
    case CallbackArrived(callback) => CallbackMoves(c, s.t, callback);
  }

  function AnyResult(w: Waiting): EvaluationResult {
    EvaluationResult(w.request.evaluationId, w.request.inputs, [], Hold, w.request.requestedAt)
  }

  lemma StepKeeps(c: Codec, s: State, e: Event)
    requires IntegrityHasBuild(s.t)
    ensures Kept(s.t, Step(c, s, e).t) && IntegrityHasBuild(Step(c, s, e).t)
  {
    if e.SubmitEvaluation? || e.ExecutorThrew? || e.ExecutorAnswered? || e.CallbackArrived? {
      EvaluationStepMoves(c, s, e);
      OnlyEvaluationsKeeps(s.t, Step(c, s, e).t);
    } else {
      BuildStepKeeps(c, s, e);
    }
  }

  /** A settled build is never rewritten, in any run: its statuses are absorbing, its descriptor and traces final. */
  lemma {:induction false} RunKeeps(c: Codec, s: State, events: seq<Event>)
    requires IntegrityHasBuild(s.t)
    ensures Kept(s.t, After(c, s, events).t) && IntegrityHasBuild(After(c, s, events).t)
    decreases |events|
  {
    KeptItself(s.t);
    if events != [] {
      var u := Step(c, s, events[0]);
      StepKeeps(c, s, events[0]);
      RunKeeps(c, u, events[1..]);
      KeptTransitive(s.t, u.t, After(c, u, events[1..]).t);
    }
  }

  /** BUILD_SUCCEEDED and BUILD_FAILED are absorbing: the row of a finished source build and its build stay as they are. */
  lemma FinishedForever(c: Codec, events: seq<Event>, later: seq<Event>, buildId: Text)
    requires buildId in After(c, START, events).t.integrity
    requires After(c, START, events).t.integrity[buildId].status != Building
    ensures var t := After(c, START, events).t;
            var u := After(c, After(c, START, events), later).t;
            && buildId in t.builds && buildId in u.builds && u.builds[buildId] == t.builds[buildId]
            && buildId in u.integrity && u.integrity[buildId] == t.integrity[buildId]
  {
    var s := After(c, START, events);
    RunKeeps(c, START, events);
    RunKeeps(c, s, later);
    assert Settled(s.t, buildId);
    assert SettledKept(s.t, After(c, s, later).t, buildId);
  }
}
