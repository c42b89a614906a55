/** When each transaction of the store goes through: every refusal has one of the stated reasons, and no other. */
module StoreProgress {
  import opened Text
  import opened Digests
  import opened Timestamps
  import opened Records
  import opened BuildRecords
  import opened Application
  import opened ApplicationCodec
  import opened Lifecycle
  import Identifiers
  import SourceBuilds

  // ---------- Builds ----------

  /** The robot belongs to the site, and the site to the account. */
  predicate Owns(t: Tables, accountId: Text, siteId: Text, robotId: Text) {
    && siteId in t.sites && t.sites[siteId].accountId == accountId
    && robotId in t.robots && t.robots[robotId] == Robot(accountId, siteId)
  }

  /** A site is registered exactly under a fresh id, a robot exactly under a fresh id at a site of the account; other rows stay. */
  lemma RegisteredExactly(t: Tables, siteId: Text, site: Site, accountId: Text, robotId: Text)
    ensures CreateSite(t, siteId, site) == if siteId in t.sites then None else Some(t.(sites := t.sites[siteId := site]))
    ensures CreateRobot(t, accountId, siteId, robotId).Some? <==>
              siteId in t.sites && t.sites[siteId].accountId == accountId && robotId !in t.robots
    ensures var u := CreateRobot(t, accountId, siteId, robotId);
            u.Some? ==> u.value == t.(robots := t.robots[robotId := Robot(accountId, siteId)])
  {
  }

  /** A descriptor that is written and traced on its route. */
  predicate Buildable(c: Codec, d: Descriptor, route: Text) {
    c.printDescriptor(d).Some? && c.buildTraces(d, route).Some?
  }

  /** A build of an artifact is created exactly for a robot of the account, under a fresh id, when it can be written. */
  lemma CreateBuildExactly(c: Codec, t: Tables, accountId: Text, siteId: Text, robotId: Text, buildId: Text, artifactDigest: Text, route: Text)
    ensures CreateBuild(c, t, accountId, siteId, robotId, buildId, artifactDigest, route).Some? <==>
              && Owns(t, accountId, siteId, robotId) && buildId !in t.builds
              && Buildable(c, ExistingBuild(Current, robotId, buildId, artifactDigest), route)
  {
  }

  /** The account has at most one source build running. */
  predicate MayBuild(t: Tables, accountId: Text) {
    forall a, b :: a in t.integrity && b in t.integrity && Runs(t, accountId, a) && Runs(t, accountId, b) ==> a == b
  }

  predicate Runs(t: Tables, accountId: Text, buildId: Text)
    requires buildId in t.integrity
  {
    t.integrity[buildId].accountId == accountId && t.integrity[buildId].status == Building
  }

  lemma FewerThanTwo(s: set<Text>)
    ensures |s| < 2 <==> forall a, b :: a in s && b in s ==> a == b
  {
    if |s| < 2 {
      forall a, b | a in s && b in s ensures a == b {
        SourceBuilds.SubsetCardinality({a, b}, s);
        assert a != b ==> |{a, b}| == 2;
      }
    } else {
      var a :| a in s;
      assert |s - {a}| >= 1;
      var b :| b in s - {a};
      assert a != b;
    }
  }

  lemma MayBuildCounted(t: Tables, accountId: Text)
    ensures MayBuild(t, accountId) <==> |BuildingOf(t.integrity, accountId)| < 2
  {
    var s := BuildingOf(t.integrity, accountId);
    assert forall a :: a in s <==> a in t.integrity && Runs(t, accountId, a);
    FewerThanTwo(s);
  }

  /** A source build is created exactly for a robot of the account, while at most one other runs, under a fresh id. */
  lemma CreateSourceBuildExactly(c: Codec, t: Tables, accountId: Text, siteId: Text, robotId: Text, buildId: Text, source: Source, route: Text)
    ensures CreateSourceBuild(c, t, accountId, siteId, robotId, buildId, source, route).Some? <==>
              && Owns(t, accountId, siteId, robotId) && MayBuild(t, accountId)
              && buildId !in t.builds && buildId !in t.integrity
              && Buildable(c, ExistingBuild(Current, robotId, buildId, PLACEHOLDER_DIGEST), route)
  {
    MayBuildCounted(t, accountId);
  }

  /** Evidence is taken exactly for a running build of the account, when the answer agrees with it in every respect. */
  lemma BeginCompleteExactly(c: Codec, events: seq<Event>, accountId: Text, buildId: Text, r: RunnerResult)
    requires RoundTrips(c)
    ensures var t := After(c, START, events).t;
            BeginComplete(c, t, accountId, buildId, r).Some? <==>
              && buildId in t.integrity && Runs(t, accountId, buildId) && c.readEvidence(r.evidence).Some?
              && var e := c.readEvidence(r.evidence).value;
                 && e.buildId == buildId && e.source == t.integrity[buildId].source
                 && e.artifactDigest == r.artifactDigest && r.artifactPath == c.artifactPathOf(buildId)
  {
    var t := After(c, START, events).t;
    SourceBuilds.RunBuildsRead(c, START, events);
    if buildId in t.integrity {
      assert SourceBuilds.SourceReads(c, t, buildId, t.integrity[buildId]);
    }
  }

  /** The texts of the promotion can be made. */
  predicate Promotable(c: Codec, w: Completing) {
    && c.digestEvidence(w.evidence).Some? && c.printEvidence(w.evidence).Some?
    && Buildable(c, SourceBuild(w.build.robotId, w.buildId, w.evidence.artifactDigest, c.digestEvidence(w.evidence).value), w.build.routeJson)
  }

  lemma FinishGuards(c: Codec, t: Tables, w: Completing, storedDigest: Text)
    ensures FinishComplete(c, t, w, storedDigest).Some? <==>
              && storedDigest == w.evidence.artifactDigest && Promotable(c, w)
              && w.buildId in t.integrity && Runs(t, w.accountId, w.buildId)
              && w.buildId in t.builds && t.builds[w.buildId].accountId == w.accountId
  {
  }

  /** A waiting completion succeeds exactly when the stored artifact has the digest of the evidence and the build still runs. */
  lemma FinishCompleteExactly(c: Codec, events: seq<Event>, call: nat, storedDigest: Text)
    requires RoundTrips(c) && call in After(c, START, events).completing
    ensures var s := After(c, START, events);
            var w := s.completing[call];
            && w.buildId in s.t.integrity
            && (FinishComplete(c, s.t, w, storedDigest).Some? <==>
                  storedDigest == w.evidence.artifactDigest && Runs(s.t, w.accountId, w.buildId) && Promotable(c, w))
  {
    var s := After(c, START, events);
    var w := s.completing[call];
    SourceBuilds.RunBuildsRead(c, START, events);
    SourceBuilds.RunCompletionsRead(c, START, events);
    assert SourceBuilds.CompletionReads(c, s.t, w);
    assert SourceBuilds.SourceReads(c, s.t, w.buildId, s.t.integrity[w.buildId]);
    FinishGuards(c, s.t, w, storedDigest);
  }

  /** In every run a source build of the account fails when it is told to while it runs, and otherwise stays as it is. */
  lemma FailExactly(c: Codec, events: seq<Event>, accountId: Text, buildId: Text, code: Text, message: Text)
    requires RoundTrips(c)
    ensures var t := After(c, START, events).t;
            var u := FailSourceBuild(t, accountId, buildId, code, message);
            && (u.Some? <==> buildId in t.integrity && t.integrity[buildId].accountId == accountId)
            && (u.Some? ==> buildId in u.value.integrity
                            && u.value.integrity[buildId].status == (if Runs(t, accountId, buildId) then Failed else t.integrity[buildId].status))
  {
    var t := After(c, START, events).t;
    SourceBuilds.RunBuildsRead(c, START, events);
    if buildId in t.integrity {
      assert SourceBuilds.SourceReads(c, t, buildId, t.integrity[buildId]);
    }
  }

  // ---------- Evaluations ----------

  /** What a request for these rows holds. */
  function InputsFor(s: Submission, site: Site, digest: Text): Inputs {
    Inputs(Current, s.siteId, s.robotId, s.buildId, digest, site.safetyEnvelopeId, site.safetyEnvelopeCommitment, EVALUATOR)
  }

  /** The rows, the ids and the times of the submission are in order. */
  predicate WellSubmitted(c: Codec, t: Tables, s: Submission) {
    && Owns(t, s.accountId, s.siteId, s.robotId)
    && s.buildId in t.builds && t.builds[s.buildId].accountId == s.accountId && t.builds[s.buildId].siteId == s.siteId
    && t.builds[s.buildId].robotId == s.robotId
    && (s.buildId in t.integrity ==> t.integrity[s.buildId].status == Succeeded)
    && c.decrypts(t.sites[s.siteId].policyCiphertext)
    && IsUnixTimestamp(s.requestedAt) && IsUnixTimestamp(s.evaluatedAt)
    && Identifiers.ValidIdentifier(Identifiers.EVALUATION, s.evaluationId)
  }

  /** The request can be made, and what is sent can be digested. */
  predicate Digestible(c: Codec, t: Tables, s: Submission)
    requires WellSubmitted(c, t, s)
  {
    var build, site := t.builds[s.buildId], t.sites[s.siteId];
    && c.parseDescriptor(build.descriptorJson).Some?
    && var d := c.parseDescriptor(build.descriptorJson).value;
       && c.digestBuild(d).Some? && ValidInputs(InputsFor(s, site, c.digestBuild(d).value))
       && BehaviorDigest(c, s, d, build.traceJson, InputsFor(s, site, c.digestBuild(d).value)).Some?
  }

  function BehaviorDigest(c: Codec, s: Submission, d: Descriptor, traceJson: Text, inputs: Inputs): Option<Text>
    requires IsUnixTimestamp(s.requestedAt) && IsUnixTimestamp(s.evaluatedAt)
  {
    c.digestBehavior(EvaluationRequest(Current, s.evaluationId, inputs, s.requestedAt), d, traceJson, s.evaluatedAt)
  }

  /** Nothing else is pending under the id. */
  predicate SamePending(c: Codec, t: Tables, s: Submission)
    requires WellSubmitted(c, t, s) && Digestible(c, t, s)
  {
    var build, site := t.builds[s.buildId], t.sites[s.siteId];
    var d := c.parseDescriptor(build.descriptorJson).value;
    s.evaluationId in t.pending ==>
      t.pending[s.evaluationId] == Pending(s.accountId, s.siteId, s.robotId, s.buildId,
        BehaviorDigest(c, s, d, build.traceJson, InputsFor(s, site, c.digestBuild(d).value)).value, s.requestedAt)
  }

  lemma RowsExactly(t: Tables, s: Submission)
    ensures SiteRow(t, s.accountId, s.siteId).Some? && RobotRow(t, s.accountId, s.siteId, s.robotId).Some? <==>
              Owns(t, s.accountId, s.siteId, s.robotId)
    ensures BuildRow(t, s.accountId, s.siteId, s.robotId, s.buildId).Some? <==>
              && s.buildId in t.builds && t.builds[s.buildId].accountId == s.accountId && t.builds[s.buildId].siteId == s.siteId
              && t.builds[s.buildId].robotId == s.robotId
  {
  }

  lemma RecordExactly(t: Tables, id: Text, p: Pending)
    ensures RecordPending(t, id, p).Some? <==> (id in t.pending ==> t.pending[id] == p)
  {
  }

  lemma SubmitBuildExactly(c: Codec, t: Tables, s: Submission)
    requires WellSubmitted(c, t, s) && SourceBuilds.BuildReads(c, s.buildId, t.builds[s.buildId])
    ensures SubmitBuild(c, t, s, t.sites[s.siteId], t.builds[s.buildId]).Some? <==> Digestible(c, t, s) && SamePending(c, t, s)
  {
    var build, site := t.builds[s.buildId], t.sites[s.siteId];
    var d := c.parseDescriptor(build.descriptorJson).value;
    if c.digestBuild(d).Some? && ValidInputs(InputsFor(s, site, c.digestBuild(d).value)) {
      var digest := BehaviorDigest(c, s, d, build.traceJson, InputsFor(s, site, c.digestBuild(d).value));
      if digest.Some? {
        RecordExactly(t, s.evaluationId, Pending(s.accountId, s.siteId, s.robotId, s.buildId, digest.value, s.requestedAt));
      }
    }
  }

  lemma SubmitGuards(c: Codec, t: Tables, s: Submission)
    requires IsUnixTimestamp(s.requestedAt) && IsUnixTimestamp(s.evaluatedAt) && Identifiers.ValidIdentifier(Identifiers.EVALUATION, s.evaluationId)
    ensures Submit(c, t, s).Some? <==>
              && Owns(t, s.accountId, s.siteId, s.robotId) && BuildRow(t, s.accountId, s.siteId, s.robotId, s.buildId).Some?
              && Evaluable(c, t, s.accountId, s.buildId, t.builds[s.buildId]) && c.decrypts(t.sites[s.siteId].policyCiphertext)
              && SubmitBuild(c, t, s, t.sites[s.siteId], t.builds[s.buildId]).Some?
  {
    RowsExactly(t, s);
  }

  lemma SubmittedIsWell(c: Codec, t: Tables, s: Submission)
    requires Submit(c, t, s).Some?
    ensures IsUnixTimestamp(s.requestedAt) && IsUnixTimestamp(s.evaluatedAt) && Identifiers.ValidIdentifier(Identifiers.EVALUATION, s.evaluationId)
  {
  }

  /**
   * In every run of the program a submission goes through exactly when its rows are the account's, its build was
   * built elsewhere or succeeded, its policy decrypts, its request and behaviour can be digested, and nothing else
   * is pending under its id.
   */
  lemma SubmitExactly(l: Libraries, events: seq<Event>, s: Submission)
    ensures var c, t := CodecOf(l), After(CodecOf(l), START, events).t;
            Submit(c, t, s).Some? <==> WellSubmitted(c, t, s) && Digestible(c, t, s) && SamePending(c, t, s)
  {
    var c, t := CodecOf(l), After(CodecOf(l), START, events).t;
    StoredRecordsReadBack(l);
    SourceBuilds.RunBuildsRead(c, START, events);
    if Submit(c, t, s).Some? {
      SubmittedIsWell(c, t, s);
    }
    if IsUnixTimestamp(s.requestedAt) && IsUnixTimestamp(s.evaluatedAt) && Identifiers.ValidIdentifier(Identifiers.EVALUATION, s.evaluationId) {
      SubmitGuards(c, t, s);
      RowsExactly(t, s);
      if s.buildId in t.builds && t.builds[s.buildId].accountId == s.accountId {
        SourceBuilds.EvaluableExactly(l, events, s.buildId);
        assert SourceBuilds.BuildReads(c, s.buildId, t.builds[s.buildId]);
        if WellSubmitted(c, t, s) {
          SubmitBuildExactly(c, t, s);
        }
      }
    }
  }
}
