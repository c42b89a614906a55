/** Source builds over every run: at most two running, and a finished one reads back consistently. */
module SourceBuilds {
  import opened Text
  import opened Digests
  import opened BuildRecords
  import opened Application
  import opened ApplicationCodec
  import opened Lifecycle

  // ---------- At most two running per account ----------

  lemma SubsetCardinality<T>(a: set<T>, b: set<T>)
    requires a <= b
    ensures |a| <= |b|
  {
    assert b == a + (b - a);
  }

  lemma BuildingUpdated(integrity: map<Text, Integrity>, buildId: Text, row: Integrity, accountId: Text)
    ensures BuildingOf(integrity[buildId := row], accountId)
            <= BuildingOf(integrity, accountId) + (if row.status == Building && row.accountId == accountId then {buildId} else {})
  {
  }

  /** Every account has at most two running source builds. */
  ghost predicate FewBuilding(t: Tables) {
    forall accountId :: |BuildingOf(t.integrity, accountId)| <= MAX_BUILDING
  }

  lemma CreateFewBuilding(c: Codec, t: Tables, accountId: Text, siteId: Text, robotId: Text, buildId: Text, source: Source, route: Text)
    requires FewBuilding(t)
    ensures var u := CreateSourceBuild(c, t, accountId, siteId, robotId, buildId, source, route);
            u.Some? ==> FewBuilding(u.value)
  {
    var u := CreateSourceBuild(c, t, accountId, siteId, robotId, buildId, source, route);
    if u.Some? {
      forall a ensures |BuildingOf(u.value.integrity, a)| <= MAX_BUILDING {
        var before, after := BuildingOf(t.integrity, a), BuildingOf(u.value.integrity, a);
        BuildingUpdated(t.integrity, buildId, u.value.integrity[buildId], a);
        if a == accountId {
          SubsetCardinality(after, before + {buildId});
        } else {
          SubsetCardinality(after, before);
        }
      }
    }
  }

  /** A row that stops running can only lower the count. */
  lemma StoppedFewBuilding(t: Tables, buildId: Text, row: Integrity, u: Tables)
    requires FewBuilding(t) && row.status != Building && u.integrity == t.integrity[buildId := row]
    ensures FewBuilding(u)
  {
    forall a ensures |BuildingOf(u.integrity, a)| <= MAX_BUILDING {
      BuildingUpdated(t.integrity, buildId, row, a);
      SubsetCardinality(BuildingOf(u.integrity, a), BuildingOf(t.integrity, a));
    }
  }

  lemma StepFewBuilding(c: Codec, s: State, e: Event)
    requires FewBuilding(s.t)
    ensures FewBuilding(Step(c, s, e).t)
  {
    var u := Step(c, s, e).t;
    if e.SubmitEvaluation? || e.ExecutorThrew? || e.ExecutorAnswered? || e.CallbackArrived? {
      EvaluationStepMoves(c, s, e);
    } else if e.AddSourceBuild? {
      CreateFewBuilding(c, s.t, e.accountId, e.siteId, e.robotId, e.buildId, e.source, e.route);
    } else if e.EndCompletion? && e.call in s.completing && u.integrity != s.t.integrity {
      var w := s.completing[e.call];
      StoppedFewBuilding(s.t, w.buildId, u.integrity[w.buildId], u);
    } else if e.FailBuild? && u.integrity != s.t.integrity {
      StoppedFewBuilding(s.t, e.buildId, u.integrity[e.buildId], u);
    }
  }

  /** In every run, no account ever has more than two running source builds. */
  lemma {:induction false} RunFewBuilding(c: Codec, s: State, events: seq<Event>, accountId: Text)
    requires FewBuilding(s.t)
    ensures |BuildingOf(After(c, s, events).t.integrity, accountId)| <= MAX_BUILDING
    decreases |events|
  {
    if events != [] {
      StepFewBuilding(c, s, events[0]);
      RunFewBuilding(c, Step(c, s, events[0]), events[1..], accountId);
    }
  }

  // ---------- Finished builds read back ----------

  /** The descriptor of a build names its robot and itself, and its traces are those built for that descriptor on its route. */
  predicate BuildReads(c: Codec, buildId: Text, build: Build) {
    && c.parseDescriptor(build.descriptorJson).Some?
    && var d := c.parseDescriptor(build.descriptorJson).value;
       && d.robotId == build.robotId && d.robotBuildId == buildId
       && c.buildTraces(d, build.routeJson) == Some(build.traceJson)
  }

  /** The two rows of a source build agree, and evidence is stored exactly when it succeeded. */
  predicate SourceReads(c: Codec, t: Tables, buildId: Text, row: Integrity) {
    && buildId in t.builds
    && t.builds[buildId].accountId == row.accountId && t.builds[buildId].siteId == row.siteId
    && t.builds[buildId].robotId == row.robotId
    && (row.status == Succeeded ==> SourceBuildReads(c, buildId, t.builds[buildId], row))
  }

  predicate BuildsRead(c: Codec, t: Tables) {
    && (forall b :: b in t.builds ==> BuildReads(c, b, t.builds[b]))
    && (forall b :: b in t.integrity ==> SourceReads(c, t, b, t.integrity[b]))
  }

  /** A waiting completion holds evidence for the source row it loaded. */
  predicate CompletionReads(c: Codec, t: Tables, w: Completing) {
    && EvidenceRound(c, w.evidence)
    && w.buildId in t.integrity && w.buildId in t.builds
    && EvidenceMatches(w.evidence, w.buildId, t.integrity[w.buildId])
    && w.build.robotId == t.builds[w.buildId].robotId && w.build.routeJson == t.builds[w.buildId].routeJson
  }

  predicate CompletionsRead(c: Codec, t: Tables, completing: map<nat, Completing>) {
    forall call :: call in completing ==> CompletionReads(c, t, completing[call])
  }

  lemma BeginReads(c: Codec, t: Tables, accountId: Text, buildId: Text, r: RunnerResult)
    requires RoundTrips(c) && BeginComplete(c, t, accountId, buildId, r).Some?
    ensures CompletionReads(c, t, BeginComplete(c, t, accountId, buildId, r).value)
  {
  }

  lemma NewBuildReads(c: Codec, accountId: Text, siteId: Text, d: Descriptor, route: Text)
    requires RoundTrips(c) && NewBuild(c, accountId, siteId, d, route).Some?
    ensures BuildReads(c, d.robotBuildId, NewBuild(c, accountId, siteId, d, route).value)
  {
    assert c.parseDescriptor(c.printDescriptor(d).value) == Some(d);
  }

  lemma CreateReads(c: Codec, t: Tables, accountId: Text, siteId: Text, robotId: Text, buildId: Text, digest: Text, route: Text)
    requires RoundTrips(c) && BuildsRead(c, t)
    ensures var u := CreateBuild(c, t, accountId, siteId, robotId, buildId, digest, route); u.Some? ==> BuildsRead(c, u.value)
  {
    var u := CreateBuild(c, t, accountId, siteId, robotId, buildId, digest, route);
    if u.Some? {
      NewBuildReads(c, accountId, siteId, ExistingBuild(Current, robotId, buildId, digest), route);
      forall b | b in u.value.integrity ensures SourceReads(c, u.value, b, u.value.integrity[b]) {
        assert SourceReads(c, t, b, t.integrity[b]);
      }
    }
  }

  lemma CreateSourceReads(c: Codec, t: Tables, accountId: Text, siteId: Text, robotId: Text, buildId: Text, source: Source, route: Text)
    requires RoundTrips(c) && BuildsRead(c, t)
    ensures var u := CreateSourceBuild(c, t, accountId, siteId, robotId, buildId, source, route); u.Some? ==> BuildsRead(c, u.value)
  {
    var u := CreateSourceBuild(c, t, accountId, siteId, robotId, buildId, source, route);
    if u.Some? {
      NewBuildReads(c, accountId, siteId, ExistingBuild(Current, robotId, buildId, PLACEHOLDER_DIGEST), route);
      forall b | b in u.value.integrity ensures SourceReads(c, u.value, b, u.value.integrity[b]) {
        assert b == buildId || SourceReads(c, t, b, t.integrity[b]);
      }
    }
  }

  lemma PromotedReads(c: Codec, t: Tables, w: Completing)
    requires RoundTrips(c) && CompletionReads(c, t, w) && SourceReads(c, t, w.buildId, t.integrity[w.buildId])
    requires Promote(c, w).Some?
    ensures var build := PromotedBuild(Promote(c, w).value, t.builds[w.buildId]);
            var row := UpdatedBy(t.integrity[w.buildId], CompletedIntegrity(w, Promote(c, w).value));
            BuildReads(c, w.buildId, build) && SourceBuildReads(c, w.buildId, build, row)
  {
    var d := SourceBuild(w.build.robotId, w.buildId, w.evidence.artifactDigest, c.digestEvidence(w.evidence).value);
    assert c.parseDescriptor(c.printDescriptor(d).value) == Some(d);
    assert c.parseEvidence(c.printEvidence(w.evidence).value) == Some(w.evidence);
  }

  lemma FinishReads(c: Codec, t: Tables, w: Completing, storedDigest: Text)
    requires RoundTrips(c) && BuildsRead(c, t) && CompletionReads(c, t, w)
    ensures var u := FinishComplete(c, t, w, storedDigest); u.Some? ==> BuildsRead(c, u.value)
  {
    var u := FinishComplete(c, t, w, storedDigest);
    if u.Some? {
      assert SourceReads(c, t, w.buildId, t.integrity[w.buildId]);
      PromotedReads(c, t, w);
      forall b | b in u.value.integrity ensures SourceReads(c, u.value, b, u.value.integrity[b]) {
        assert SourceReads(c, t, b, t.integrity[b]);
      }
    }
  }

  lemma FailReads(c: Codec, t: Tables, accountId: Text, buildId: Text, code: Text, message: Text)
    requires BuildsRead(c, t)
    ensures var u := FailSourceBuild(t, accountId, buildId, code, message); u.Some? ==> BuildsRead(c, u.value)
  {
    var u := FailSourceBuild(t, accountId, buildId, code, message);
    if u.Some? {
      forall b | b in u.value.integrity ensures SourceReads(c, u.value, b, u.value.integrity[b]) {
        assert SourceReads(c, t, b, t.integrity[b]);
      }
    }
  }

  /** Rows keep the columns a waiting completion was checked against. */
  predicate ColumnsKept(t: Tables, u: Tables) {
    && (forall b :: b in t.integrity ==> b in u.integrity && u.integrity[b].source == t.integrity[b].source
                                             && u.integrity[b].accountId == t.integrity[b].accountId)
    && (forall b :: b in t.builds ==> b in u.builds && u.builds[b].robotId == t.builds[b].robotId
                                       && u.builds[b].routeJson == t.builds[b].routeJson)
  }

  lemma FinishColumns(c: Codec, t: Tables, w: Completing, storedDigest: Text)
    ensures var u := FinishComplete(c, t, w, storedDigest); u.Some? ==> ColumnsKept(t, u.value)
  {
  }

  lemma CreateColumns(c: Codec, t: Tables, accountId: Text, siteId: Text, robotId: Text, buildId: Text, digest: Text, source: Source, route: Text)
    ensures var u := CreateBuild(c, t, accountId, siteId, robotId, buildId, digest, route); u.Some? ==> ColumnsKept(t, u.value)
    ensures var u := CreateSourceBuild(c, t, accountId, siteId, robotId, buildId, source, route); u.Some? ==> ColumnsKept(t, u.value)
  {
  }

  lemma FailColumns(t: Tables, accountId: Text, buildId: Text, code: Text, message: Text)
    ensures var u := FailSourceBuild(t, accountId, buildId, code, message); u.Some? ==> ColumnsKept(t, u.value)
  {
  }

  lemma StepColumns(c: Codec, s: State, e: Event)
    ensures ColumnsKept(s.t, Step(c, s, e).t)
  {
    if e.SubmitEvaluation? || e.ExecutorThrew? || e.ExecutorAnswered? || e.CallbackArrived? {
      EvaluationStepMoves(c, s, e);
    } else if e.AddBuild? {
      CreateColumns(c, s.t, e.accountId, e.siteId, e.robotId, e.buildId, e.artifactDigest, Source([], [], [], []), e.route);
    } else if e.AddSourceBuild? {
      CreateColumns(c, s.t, e.accountId, e.siteId, e.robotId, e.buildId, [], e.source, e.route);
    } else if e.EndCompletion? && e.call in s.completing {
      FinishColumns(c, s.t, s.completing[e.call], e.storedDigest);
    } else if e.FailBuild? {
      FailColumns(s.t, e.accountId, e.buildId, e.code, e.message);
    }
  }

  lemma EndBuildsRead(c: Codec, s: State, call: nat, storedDigest: Text)
    requires RoundTrips(c) && BuildsRead(c, s.t) && CompletionsRead(c, s.t, s.completing)
    ensures BuildsRead(c, Step(c, s, EndCompletion(call, storedDigest)).t)
  {
    if call in s.completing {
      FinishReads(c, s.t, s.completing[call], storedDigest);
    }
  }

  lemma StepBuildsRead(c: Codec, s: State, e: Event)
    requires RoundTrips(c) && BuildsRead(c, s.t) && CompletionsRead(c, s.t, s.completing)
    ensures BuildsRead(c, Step(c, s, e).t)
  {
    match e
    case AddBuild(accountId, siteId, robotId, buildId, digest, route) => CreateReads(c, s.t, accountId, siteId, robotId, buildId, digest, route);
    case AddSourceBuild(accountId, siteId, robotId, buildId, source, route) =>
      CreateSourceReads(c, s.t, accountId, siteId, robotId, buildId, source, route);
    case EndCompletion(call, storedDigest) => EndBuildsRead(c, s, call, storedDigest);
    case FailBuild(accountId, buildId, code, message) => FailReads(c, s.t, accountId, buildId, code, message);
    case _ => OtherBuildsRead(c, s, e);
  }

  lemma OtherBuildsRead(c: Codec, s: State, e: Event)
    requires BuildsRead(c, s.t) && !(e.AddBuild? || e.AddSourceBuild? || e.EndCompletion? || e.FailBuild?)
    ensures BuildsRead(c, Step(c, s, e).t)
  {
    if e.SubmitEvaluation? || e.ExecutorThrew? || e.ExecutorAnswered? || e.CallbackArrived? {
      EvaluationStepMoves(c, s, e);
    }
    SameBuildsRead(c, s.t, Step(c, s, e).t);
  }

  lemma SameBuildsRead(c: Codec, t: Tables, u: Tables)
    requires BuildsRead(c, t) && u.builds == t.builds && u.integrity == t.integrity
    ensures BuildsRead(c, u)
  {
    forall b | b in u.integrity ensures SourceReads(c, u, b, u.integrity[b]) {
      assert SourceReads(c, t, b, t.integrity[b]);
    }
  }

  lemma StepCompleting(c: Codec, s: State, e: Event)
    requires RoundTrips(c) && CompletionsRead(c, s.t, s.completing)
    ensures CompletionsRead(c, s.t, Step(c, s, e).completing)
  {
    if e.StartCompletion? && BeginComplete(c, s.t, e.accountId, e.buildId, e.result).Some? {
      BeginReads(c, s.t, e.accountId, e.buildId, e.result);
    }
  }

  lemma CompletionsKept(c: Codec, t: Tables, u: Tables, completing: map<nat, Completing>)
    requires ColumnsKept(t, u) && CompletionsRead(c, t, completing)
    ensures CompletionsRead(c, u, completing)
  {
    forall call | call in completing ensures CompletionReads(c, u, completing[call]) {
      assert CompletionReads(c, t, completing[call]);
    }
  }

  lemma StepCompletionsRead(c: Codec, s: State, e: Event)
    requires RoundTrips(c) && CompletionsRead(c, s.t, s.completing)
    ensures CompletionsRead(c, Step(c, s, e).t, Step(c, s, e).completing)
  {
    StepColumns(c, s, e);
    StepCompleting(c, s, e);
    CompletionsKept(c, s.t, Step(c, s, e).t, Step(c, s, e).completing);
  }

  lemma {:induction false} RunBuildsRead(c: Codec, s: State, events: seq<Event>)
    requires RoundTrips(c) && BuildsRead(c, s.t) && CompletionsRead(c, s.t, s.completing)
    ensures BuildsRead(c, After(c, s, events).t)
    decreases |events|
  {
    if events != [] {
      StepBuildsRead(c, s, events[0]);
      StepCompletionsRead(c, s, events[0]);
      RunBuildsRead(c, Step(c, s, events[0]), events[1..]);
    }
  }

  lemma {:induction false} RunCompletionsRead(c: Codec, s: State, events: seq<Event>)
    requires RoundTrips(c) && CompletionsRead(c, s.t, s.completing)
    ensures CompletionsRead(c, After(c, s, events).t, After(c, s, events).completing)
    decreases |events|
  {
    if events != [] {
      StepCompletionsRead(c, s, events[0]);
      RunCompletionsRead(c, Step(c, s, events[0]), events[1..]);
    }
  }

  /**
   * In every run of the program, whatever its patterns, ciphers and hashes, a build is refused for evaluation
   * exactly while its source build runs or after it failed.
   */
  lemma EvaluableExactly(l: Libraries, events: seq<Event>, buildId: Text)
    requires buildId in After(CodecOf(l), START, events).t.builds
    ensures var t := After(CodecOf(l), START, events).t;
            Evaluable(CodecOf(l), t, t.builds[buildId].accountId, buildId, t.builds[buildId]) <==>
            (buildId in t.integrity ==> t.integrity[buildId].status == Succeeded)
  {
    StoredRecordsReadBack(l);
    EvaluableByCodec(CodecOf(l), events, buildId);
  }

  lemma EvaluableByCodec(c: Codec, events: seq<Event>, buildId: Text)
    requires RoundTrips(c) && buildId in After(c, START, events).t.builds
    ensures var t := After(c, START, events).t;
            Evaluable(c, t, t.builds[buildId].accountId, buildId, t.builds[buildId]) <==>
            (buildId in t.integrity ==> t.integrity[buildId].status == Succeeded)
  {
    RunBuildsRead(c, START, events);
    var t := After(c, START, events).t;
    if buildId in t.integrity {
      assert SourceReads(c, t, buildId, t.integrity[buildId]);
    }
  }

  /**
   * In every run of the program, new and promoted builds alike hold the traces built for the descriptor they hold
   * now, on their own route.
   */
  lemma TracesOfDescriptor(l: Libraries, events: seq<Event>, buildId: Text)
    requires buildId in After(CodecOf(l), START, events).t.builds
    ensures var build := After(CodecOf(l), START, events).t.builds[buildId];
            && ReadDescriptor(build.descriptorJson).Some?
            && l.buildTraces(ReadDescriptor(build.descriptorJson).value, build.routeJson) == Some(build.traceJson)
            && ReadDescriptor(build.descriptorJson).value.robotId == build.robotId
            && ReadDescriptor(build.descriptorJson).value.robotBuildId == buildId
  {
    StoredRecordsReadBack(l);
    RunBuildsRead(CodecOf(l), START, events);
    assert BuildReads(CodecOf(l), buildId, After(CodecOf(l), START, events).t.builds[buildId]);
  }
}
