/** The store itself: its tables as fields, its methods as the transactions. */
module ApplicationStore {
  import opened Text
  import opened Digests
  import opened Records
  import opened BuildRecords
  import opened Application
  import Spec = Application

  /** The new tables when a transaction commits; the old ones when it throws. */
  function Committed(before: Tables, after: Option<Tables>): Tables {
    if after.Some? then after.value else before
  }

  class Store {
    const codec: Codec
    var sites: map<Text, Site>
    var robots: map<Text, Robot>
    var builds: map<Text, Build>
    var integrity: map<Text, Integrity>
    var pending: map<Text, Pending>
    var evaluations: seq<Evaluation>
    var rejections: map<Text, Rejection>

    function Rows(): Tables
      reads this
    {
      Tables(sites, robots, builds, integrity, pending, evaluations, rejections)
    }

    constructor (codec: Codec)
      ensures this.codec == codec && Rows() == EMPTY
    {
      this.codec := codec;
      sites, robots, builds, integrity := map[], map[], map[], map[];
      pending, evaluations, rejections := map[], [], map[];
    }

    /** Both rows of a source build, unless the account has too many running. */
    method CreateSourceBuild(accountId: Text, siteId: Text, robotId: Text, buildId: Text, source: Source, route: Text)
      returns (ok: bool)
      modifies this
      ensures ok <==> Spec.CreateSourceBuild(codec, old(Rows()), accountId, siteId, robotId, buildId, source, route).Some?
      ensures Rows() == Committed(old(Rows()), Spec.CreateSourceBuild(codec, old(Rows()), accountId, siteId, robotId, buildId, source, route))
    {
      if SiteRow(Rows(), accountId, siteId).None? || RobotRow(Rows(), accountId, siteId, robotId).None? {
        return false;
      }
      var build := NewBuild(codec, accountId, siteId, ExistingBuild(Current, robotId, buildId, PLACEHOLDER_DIGEST), route);
      if build.None? {
        return false;
      }
      var active := |BuildingOf(integrity, accountId)|;
      if active >= MAX_BUILDING {
        return false;
      }
      if buildId in builds || buildId in integrity {
        return false;
      }
      builds := builds[buildId := build.value];
      integrity := integrity[buildId := Integrity(accountId, siteId, robotId, source, Building, None, None, None, None)];
      return true;
    }

    /** Compare-and-set of the status, then the promoted descriptor and traces. */
    method FinishComplete(w: Completing, storedDigest: Text) returns (ok: bool)
      modifies this`integrity, this`builds
      ensures ok <==> Spec.FinishComplete(codec, old(Rows()), w, storedDigest).Some?
      ensures Rows() == Committed(old(Rows()), Spec.FinishComplete(codec, old(Rows()), w, storedDigest))
    {
      if storedDigest != w.evidence.artifactDigest {
        return false;
      }
      var promotion := Promote(codec, w);
      if promotion.None? {
        return false;
      }
      if w.buildId !in integrity || integrity[w.buildId].accountId != w.accountId || integrity[w.buildId].status != Building {
        return false;
      }
      if w.buildId !in builds || builds[w.buildId].accountId != w.accountId {
        return false;
      }
      integrity := integrity[w.buildId := UpdatedBy(integrity[w.buildId], CompletedIntegrity(w, promotion.value))];
      builds := builds[w.buildId := PromotedBuild(promotion.value, builds[w.buildId])];
      return true;
    }

    method FailSourceBuild(accountId: Text, buildId: Text, code: Text, message: Text) returns (ok: bool)
      modifies this`integrity
      ensures ok <==> Spec.FailSourceBuild(old(Rows()), accountId, buildId, code, message).Some?
      ensures Rows() == Committed(old(Rows()), Spec.FailSourceBuild(old(Rows()), accountId, buildId, code, message))
    {
      var row := IntegrityRow(Rows(), accountId, buildId);
      if row.None? || BuildRow(Rows(), accountId, row.value.siteId, row.value.robotId, buildId).None? {
        return false;
      }
      if row.value.status == Building {
        integrity := integrity[buildId :=
          row.value.(status := Failed, errorCode := Some(Clip(code, 80)), errorMessage := Some(Clip(message, 240)))];
      }
      return true;
    }

    /** rows.find over the whole table. */
    method FindByEvaluationId(accountId: Text, evaluationId: Text) returns (r: Option<Evaluation>)
      ensures r == FindEvaluation(evaluations, accountId, evaluationId)
    {
      var i := 0;
      assert evaluations[0..] == evaluations;
      while i < |evaluations|
        invariant 0 <= i <= |evaluations|
        invariant FindEvaluation(evaluations[i..], accountId, evaluationId) == FindEvaluation(evaluations, accountId, evaluationId)
      {
        assert evaluations[i..][0] == evaluations[i] && evaluations[i..][1..] == evaluations[i + 1..];
        if evaluations[i].accountId == accountId && evaluations[i].evaluationId == evaluationId {
          return Some(evaluations[i]);
        }
        i := i + 1;
      }
      return None;
    }

    method FindAnyByEvaluationId(evaluationId: Text) returns (r: Option<Evaluation>)
      ensures r == FindAnyEvaluation(evaluations, evaluationId)
    {
      var i := 0;
      assert evaluations[0..] == evaluations;
      while i < |evaluations|
        invariant 0 <= i <= |evaluations|
        invariant FindAnyEvaluation(evaluations[i..], evaluationId) == FindAnyEvaluation(evaluations, evaluationId)
      {
        assert evaluations[i..][0] == evaluations[i] && evaluations[i..][1..] == evaluations[i + 1..];
        if evaluations[i].evaluationId == evaluationId {
          return Some(evaluations[i]);
        }
        i := i + 1;
      }
      return None;
    }

    method RecordPendingEvaluation(evaluationId: Text, p: Pending) returns (ok: bool)
      modifies this`pending
      ensures ok <==> RecordPending(old(Rows()), evaluationId, p).Some?
      ensures Rows() == Committed(old(Rows()), RecordPending(old(Rows()), evaluationId, p))
    {
      if evaluationId in pending {
        return pending[evaluationId] == p;
      }
      var existing := FindByEvaluationId(p.accountId, evaluationId);
      if existing.None? {
        pending := pending[evaluationId := p];
      }
      return true;
    }

    method DeletePendingEvaluation(evaluationId: Text)
      modifies this`pending
      ensures pending == old(pending) - {evaluationId}
    {
      pending := pending - {evaluationId};
    }

    /** The catch branch of evaluateBuild. */
    method ExecutorFailed(w: Waiting, stillPending: bool) returns (existing: Option<Evaluation>)
      modifies this`pending
      ensures Rows() == Spec.ExecutorFailed(old(Rows()), w, stillPending)
      ensures existing == FindEvaluation(old(evaluations), w.accountId, w.request.evaluationId)
    {
      existing := FindByEvaluationId(w.accountId, w.request.evaluationId);
      if existing.None? && !stillPending {
        DeletePendingEvaluation(w.request.evaluationId);
      }
    }

    /** The end of evaluateBuild. */
    method ExecutorSucceeded(w: Waiting, result: EvaluationResult) returns (ok: bool)
      modifies this`pending, this`evaluations
      ensures ok <==> Spec.ExecutorSucceeded(codec, old(Rows()), w, result).Some?
      ensures Rows() == Committed(old(Rows()), Spec.ExecutorSucceeded(codec, old(Rows()), w, result))
    {
      if !ResultBindings(codec, result, w.request) {
        return false;
      }
      evaluations := evaluations + [EvaluationOf(w.accountId, w.siteId, w.robotId, w.buildId, result)];
      DeletePendingEvaluation(w.request.evaluationId);
      return true;
    }

    /** The transaction of a callback. */
    method CompleteCreEvaluation(cb: Callback) returns (outcome: Outcome)
      modifies this`pending, this`evaluations, this`rejections
      ensures (Rows(), outcome) == Spec.CompleteCreEvaluation(codec, old(Rows()), cb)
    {
      if cb.evaluationId !in pending {
        var existing := FindAnyByEvaluationId(cb.evaluationId);
        if existing.Some? {
          return AlreadyCompleted(existing.value);
        }
        if cb.evaluationId in rejections {
          return RejectionOutcome(codec, rejections[cb.evaluationId], cb);
        }
        return NotFound;
      }
      if cb.evaluationId in rejections {
        return RejectionOutcome(codec, rejections[cb.evaluationId], cb);
      }
      outcome := AnswerPendingRow(cb, pending[cb.evaluationId]);
    }

    method AnswerPendingRow(cb: Callback, p: Pending) returns (outcome: Outcome)
      modifies this`pending, this`evaluations, this`rejections
      ensures (Rows(), outcome) == AnswerPending(codec, old(Rows()), cb, p)
    {
      if cb.response.Reject? {
        rejections := rejections[cb.evaluationId := Rejection(p.accountId, cb.response.code, codec.digestCallback(cb))];
        DeletePendingEvaluation(cb.evaluationId);
        return Rejected(cb.response.code);
      }
      if cb.response.behaviorInputDigest != p.behaviorInputDigest {
        return Conflict;
      }
      var request := Rebuilt(codec, Rows(), cb.evaluationId, p);
      if request.None? || !ResultBindings(codec, cb.response.result, request.value) {
        return Refused;
      }
      var evaluation := EvaluationOf(p.accountId, p.siteId, p.robotId, p.buildId, cb.response.result);
      evaluations := evaluations + [evaluation];
      DeletePendingEvaluation(cb.evaluationId);
      return Completed(evaluation);
    }

    method EvaluationStatus(accountId: Text, evaluationId: Text) returns (r: EvaluationStatus)
      ensures r == GetEvaluationStatus(Rows(), accountId, evaluationId)
    {
      var completed := FindByEvaluationId(accountId, evaluationId);
      if completed.Some? {
        return Done(completed.value);
      }
      if evaluationId in pending && pending[evaluationId].accountId == accountId {
        return StillPending(pending[evaluationId]);
      }
      return Unknown;
    }
  }
}
