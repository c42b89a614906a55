/** Where builds and source builds come from: in every run each row holds what the events that wrote it brought. */
module BuildOrigins {
  import opened Text
  import opened Digests
  import opened BuildRecords
  import opened Application
  import opened Lifecycle
  import SourceBuilds
  import Outcomes

  // ---------- What events bring ----------

  /** The event added a build under these names, on this route. */
  predicate Adds(e: Event, buildId: Text, b: Build) {
    && (e.AddBuild? || e.AddSourceBuild?) && e.buildId == buildId
    && e.accountId == b.accountId && e.siteId == b.siteId && e.robotId == b.robotId && e.route == b.routeJson
  }

  /** The event added a build of this artifact. */
  predicate AddsArtifact(c: Codec, e: Event, buildId: Text, b: Build) {
    && e.AddBuild? && Adds(e, buildId, b)
    && c.printDescriptor(ExistingBuild(Current, b.robotId, buildId, e.artifactDigest)) == Some(b.descriptorJson)
  }

  predicate AddsSource(e: Event, buildId: Text, row: Integrity) {
    && e.AddSourceBuild? && e.buildId == buildId && e.source == row.source
    && e.accountId == row.accountId && e.siteId == row.siteId && e.robotId == row.robotId
  }

  /** The runner's answer holds accepted evidence of this build and source, for the artifact it names, at the path of the build. */
  predicate Proves(c: Codec, e: Event, buildId: Text, source: Source, evidence: Evidence) {
    && e.StartCompletion? && e.buildId == buildId && c.readEvidence(e.result.evidence) == Some(evidence)
    && evidence.buildId == buildId && evidence.source == source && evidence.artifactDigest == e.result.artifactDigest
    && e.result.artifactPath == c.artifactPathOf(buildId)
  }

  /** One call started with this evidence, and ended when the stored artifact had the digest of the evidence. */
  predicate Completed(c: Codec, start: Event, end: Event, buildId: Text, b: Build, row: Integrity)
  {
    && start.StartCompletion? && end.EndCompletion? && start.call == end.call && start.accountId == row.accountId
    && c.readEvidence(start.result.evidence).Some?
    && var evidence := c.readEvidence(start.result.evidence).value;
       && Proves(c, start, buildId, row.source, evidence) && evidence.artifactDigest == end.storedDigest
       && row.artifactPath == Some(start.result.artifactPath) && row.integrityJson == c.printEvidence(evidence)
       && row.errorCode.None? && row.errorMessage.None?
       && c.digestEvidence(evidence).Some?
       && c.printDescriptor(SourceBuild(b.robotId, buildId, end.storedDigest, c.digestEvidence(evidence).value)) == Some(b.descriptorJson)
  }

  /** The text is all of the other, or its first n units. */
  predicate FirstOf(t: Text, n: nat, whole: Text) {
    t <= whole && |t| <= n && (|t| < n ==> t == whole)
  }

  predicate Fails(e: Event, buildId: Text, row: Integrity) {
    && e.FailBuild? && e.accountId == row.accountId && e.buildId == buildId
    && row.errorCode.Some? && FirstOf(row.errorCode.value, 80, e.code)
    && row.errorMessage.Some? && FirstOf(row.errorMessage.value, 240, e.message)
    && row.artifactPath.None? && row.integrityJson.None?
  }

  // ---------- Over a history ----------

  predicate BuildAdded(events: seq<Event>, buildId: Text, b: Build) {
    exists j :: 0 <= j < |events| && Adds(events[j], buildId, b)
  }

  predicate ArtifactAdded(c: Codec, events: seq<Event>, buildId: Text, b: Build) {
    exists j :: 0 <= j < |events| && AddsArtifact(c, events[j], buildId, b)
  }

  predicate SourceAdded(events: seq<Event>, buildId: Text, row: Integrity) {
    exists j :: 0 <= j < |events| && AddsSource(events[j], buildId, row)
  }

  predicate CompletedIn(c: Codec, events: seq<Event>, buildId: Text, b: Build, row: Integrity) {
    exists j, k :: 0 <= j < k < |events| && Completed(c, events[j], events[k], buildId, b, row)
  }

  predicate FailedIn(events: seq<Event>, buildId: Text, row: Integrity) {
    exists k :: 0 <= k < |events| && Fails(events[k], buildId, row)
  }

  /** A running build holds the placeholder, a failed one its error, a succeeded one what its call proved. */
  predicate SourceFrom(c: Codec, events: seq<Event>, buildId: Text, b: Build, row: Integrity) {
    && SourceAdded(events, buildId, row)
    && match row.status
       case Building => HoldsPlaceholder(c, buildId, b) && row.artifactPath.None? && row.integrityJson.None?
                        && row.errorCode.None? && row.errorMessage.None?
       case Failed => HoldsPlaceholder(c, buildId, b) && FailedIn(events, buildId, row)
       case Succeeded => CompletedIn(c, events, buildId, b, row)
  }

  predicate HoldsPlaceholder(c: Codec, buildId: Text, b: Build) {
    c.printDescriptor(ExistingBuild(Current, b.robotId, buildId, PLACEHOLDER_DIGEST)) == Some(b.descriptorJson)
  }

  predicate BuildFrom(c: Codec, events: seq<Event>, t: Tables, buildId: Text)
    requires buildId in t.builds
  {
    && BuildAdded(events, buildId, t.builds[buildId])
    && if buildId in t.integrity then SourceFrom(c, events, buildId, t.builds[buildId], t.integrity[buildId])
       else ArtifactAdded(c, events, buildId, t.builds[buildId])
  }

  /** A waiting completion holds what its start brought, for the rows as they still are. */
  predicate CompletingFrom(c: Codec, events: seq<Event>, t: Tables, call: nat, w: Completing) {
    && w.buildId in t.builds && w.buildId in t.integrity && w.build.robotId == t.builds[w.buildId].robotId
    && t.integrity[w.buildId].accountId == w.accountId
    && StartedIn(c, events, call, w, t.integrity[w.buildId].source)
  }

  predicate Starts(c: Codec, e: Event, call: nat, w: Completing, source: Source) {
    && Proves(c, e, w.buildId, source, w.evidence)
    && e.call == call && e.accountId == w.accountId && e.result.artifactPath == w.artifactPath
  }

  predicate StartedIn(c: Codec, events: seq<Event>, call: nat, w: Completing, source: Source) {
    exists j :: 0 <= j < |events| && Starts(c, events[j], call, w, source)
  }

  predicate AllBuildsFrom(c: Codec, events: seq<Event>, s: State) {
    && (forall b :: b in s.t.builds ==> BuildFrom(c, events, s.t, b))
    && (forall b :: b in s.t.integrity ==> b in s.t.builds)
    && (forall call :: call in s.completing ==> CompletingFrom(c, events, s.t, call, s.completing[call]))
  }

  // ---------- Longer histories ----------

  lemma Later(events: seq<Event>, e: Event)
    ensures |events + [e]| == |events| + 1 && (events + [e])[|events|] == e
    ensures forall j :: 0 <= j < |events| ==> (events + [e])[j] == events[j]
  {
  }

  lemma BuildFromMore(c: Codec, events: seq<Event>, e: Event, buildId: Text, b: Build, row: Option<Integrity>)
    ensures BuildAdded(events, buildId, b) ==> BuildAdded(events + [e], buildId, b)
    ensures ArtifactAdded(c, events, buildId, b) ==> ArtifactAdded(c, events + [e], buildId, b)
    ensures row.Some? && SourceFrom(c, events, buildId, b, row.value) ==> SourceFrom(c, events + [e], buildId, b, row.value)
  {
    Later(events, e);
    if BuildAdded(events, buildId, b) {
      var j :| 0 <= j < |events| && Adds(events[j], buildId, b);
      assert Adds((events + [e])[j], buildId, b);
    }
    if ArtifactAdded(c, events, buildId, b) {
      var j :| 0 <= j < |events| && AddsArtifact(c, events[j], buildId, b);
      assert AddsArtifact(c, (events + [e])[j], buildId, b);
    }
    if row.Some? && SourceFrom(c, events, buildId, b, row.value) {
      SourceFromMore(c, events, e, buildId, b, row.value);
    }
  }

  lemma SourceAddedMore(events: seq<Event>, e: Event, buildId: Text, row: Integrity)
    requires SourceAdded(events, buildId, row)
    ensures SourceAdded(events + [e], buildId, row)
  {
    Later(events, e);
    var j :| 0 <= j < |events| && AddsSource(events[j], buildId, row);
    assert AddsSource((events + [e])[j], buildId, row);
  }

  lemma SourceFromMore(c: Codec, events: seq<Event>, e: Event, buildId: Text, b: Build, row: Integrity)
    requires SourceFrom(c, events, buildId, b, row)
    ensures SourceFrom(c, events + [e], buildId, b, row)
  {
    Later(events, e);
    SourceAddedMore(events, e, buildId, row);
    if row.status == Failed {
      var k :| 0 <= k < |events| && Fails(events[k], buildId, row);
      assert Fails((events + [e])[k], buildId, row);
    } else if row.status == Succeeded {
      var j, k :| 0 <= j < k < |events| && Completed(c, events[j], events[k], buildId, b, row);
      assert Completed(c, (events + [e])[j], (events + [e])[k], buildId, b, row);
    }
  }

  lemma StartedInMore(c: Codec, events: seq<Event>, e: Event, call: nat, w: Completing, source: Source)
    requires StartedIn(c, events, call, w, source)
    ensures StartedIn(c, events + [e], call, w, source)
  {
    Later(events, e);
    var j :| 0 <= j < |events| && Starts(c, events[j], call, w, source);
    assert Starts(c, (events + [e])[j], call, w, source);
  }

  function RowOf(t: Tables, buildId: Text): Option<Integrity> {
    if buildId in t.integrity then Some(t.integrity[buildId]) else None
  }

  /** A build whose two rows stay keeps its origin. */
  lemma SameBuildFrom(c: Codec, events: seq<Event>, e: Event, t: Tables, u: Tables, buildId: Text)
    requires buildId in t.builds && BuildFrom(c, events, t, buildId)
    requires buildId in u.builds && u.builds[buildId] == t.builds[buildId] && RowOf(u, buildId) == RowOf(t, buildId)
    ensures BuildFrom(c, events + [e], u, buildId)
  {
    BuildFromMore(c, events, e, buildId, t.builds[buildId], RowOf(t, buildId));
  }

  /** A waiting completion keeps its origin as long as its rows keep their columns. */
  lemma SameCompletingFrom(c: Codec, events: seq<Event>, e: Event, t: Tables, u: Tables, call: nat, w: Completing)
    requires CompletingFrom(c, events, t, call, w) && SourceBuilds.ColumnsKept(t, u)
    ensures CompletingFrom(c, events + [e], u, call, w)
  {
    StartedInMore(c, events, e, call, w, t.integrity[w.buildId].source);
  }

  // ---------- Every step ----------

  /** Every build but one keeps both rows. */
  predicate OthersKept(t: Tables, u: Tables, changed: Text) {
    forall b :: b in u.builds && b != changed ==> b in t.builds && u.builds[b] == t.builds[b] && RowOf(u, b) == RowOf(t, b)
  }

  /** No completion began. */
  predicate NoneBegan(s: State, u: State) {
    forall call :: call in u.completing ==> call in s.completing && u.completing[call] == s.completing[call]
  }

  lemma ReplacedOthers(t: Tables, u: Tables, changed: Text)
    requires changed in u.builds && changed in u.integrity
    requires u.builds == t.builds[changed := u.builds[changed]] && u.integrity == t.integrity[changed := u.integrity[changed]]
    ensures OthersKept(t, u, changed)
  {
  }

  lemma CompletionsFrom(c: Codec, events: seq<Event>, e: Event, s: State, u: State)
    requires AllBuildsFrom(c, events, s) && SourceBuilds.ColumnsKept(s.t, u.t) && NoneBegan(s, u)
    ensures forall call :: call in u.completing ==> CompletingFrom(c, events + [e], u.t, call, u.completing[call])
  {
    forall call | call in u.completing ensures CompletingFrom(c, events + [e], u.t, call, u.completing[call]) {
      SameCompletingFrom(c, events, e, s.t, u.t, call, s.completing[call]);
    }
  }

  /** At most one build and its source row change, and its new rows have an origin. */
  lemma ChangedFrom(c: Codec, events: seq<Event>, e: Event, s: State, u: State, changed: Text)
    requires AllBuildsFrom(c, events, s) && SourceBuilds.ColumnsKept(s.t, u.t)
    requires OthersKept(s.t, u.t, changed) && NoneBegan(s, u)
    requires changed in u.t.builds ==> BuildFrom(c, events + [e], u.t, changed)
    requires forall b :: b in u.t.integrity ==> b in u.t.builds
    ensures AllBuildsFrom(c, events + [e], u)
  {
    forall b | b in u.t.builds ensures BuildFrom(c, events + [e], u.t, b) {
      if b != changed {
        SameBuildFrom(c, events, e, s.t, u.t, b);
      }
    }
    CompletionsFrom(c, events, e, s, u);
  }

  /** No build and no source row changes. */
  lemma SameFrom(c: Codec, events: seq<Event>, e: Event, s: State, u: State)
    requires AllBuildsFrom(c, events, s) && u.t.builds == s.t.builds && u.t.integrity == s.t.integrity && NoneBegan(s, u)
    ensures AllBuildsFrom(c, events + [e], u)
  {
    forall b | b in u.t.builds ensures BuildFrom(c, events + [e], u.t, b) {
      SameBuildFrom(c, events, e, s.t, u.t, b);
    }
    CompletionsFrom(c, events, e, s, u);
  }

  lemma CreatedFrom(c: Codec, events: seq<Event>, e: Event, t: Tables)
    requires e.AddBuild? && forall b :: b in t.integrity ==> b in t.builds
    ensures var u := CreateBuild(c, t, e.accountId, e.siteId, e.robotId, e.buildId, e.artifactDigest, e.route);
            u.Some? ==>
              && u.value == t.(builds := t.builds[e.buildId := u.value.builds[e.buildId]]) && e.buildId !in t.builds
              && BuildFrom(c, events + [e], u.value, e.buildId)
  {
    var u := CreateBuild(c, t, e.accountId, e.siteId, e.robotId, e.buildId, e.artifactDigest, e.route);
    if u.Some? {
      Later(events, e);
      var b := u.value.builds[e.buildId];
      assert Adds((events + [e])[|events|], e.buildId, b) && AddsArtifact(c, (events + [e])[|events|], e.buildId, b);
    }
  }

  lemma SourceCreatedFrom(c: Codec, events: seq<Event>, e: Event, t: Tables)
    requires e.AddSourceBuild?
    ensures var u := CreateSourceBuild(c, t, e.accountId, e.siteId, e.robotId, e.buildId, e.source, e.route);
            u.Some? ==>
              && e.buildId !in t.builds && e.buildId !in t.integrity
              && e.buildId in u.value.builds && e.buildId in u.value.integrity
              && u.value == t.(builds := t.builds[e.buildId := u.value.builds[e.buildId]],
                               integrity := t.integrity[e.buildId := u.value.integrity[e.buildId]])
              && BuildFrom(c, events + [e], u.value, e.buildId)
  {
    var u := CreateSourceBuild(c, t, e.accountId, e.siteId, e.robotId, e.buildId, e.source, e.route);
    if u.Some? {
      Later(events, e);
      var b := u.value.builds[e.buildId];
      assert Adds((events + [e])[|events|], e.buildId, b);
      assert AddsSource((events + [e])[|events|], e.buildId, u.value.integrity[e.buildId]);
    }
  }

  lemma BegunFrom(c: Codec, events: seq<Event>, e: Event, t: Tables)
    requires e.StartCompletion? && BeginComplete(c, t, e.accountId, e.buildId, e.result).Some?
    ensures CompletingFrom(c, events + [e], t, e.call, BeginComplete(c, t, e.accountId, e.buildId, e.result).value)
  {
    Later(events, e);
    var w := BeginComplete(c, t, e.accountId, e.buildId, e.result).value;
    assert Starts(c, (events + [e])[|events|], e.call, w, t.integrity[w.buildId].source);
  }

  lemma FailedFrom(c: Codec, events: seq<Event>, e: Event, t: Tables)
    requires e.FailBuild? && e.buildId in t.builds && BuildFrom(c, events, t, e.buildId)
    ensures var u := FailSourceBuild(t, e.accountId, e.buildId, e.code, e.message);
            u.Some? && u.value != t ==>
              && e.buildId in t.integrity && u.value.integrity == t.integrity[e.buildId := u.value.integrity[e.buildId]]
              && u.value == t.(integrity := u.value.integrity)
              && BuildFrom(c, events + [e], u.value, e.buildId)
  {
    var u := FailSourceBuild(t, e.accountId, e.buildId, e.code, e.message);
    if u.Some? && u.value != t {
      Later(events, e);
      BuildFromMore(c, events, e, e.buildId, t.builds[e.buildId], RowOf(t, e.buildId));
      assert SourceAdded(events, e.buildId, t.integrity[e.buildId]);
      SourceAddedMore(events, e, e.buildId, t.integrity[e.buildId]);
      assert Fails((events + [e])[|events|], e.buildId, u.value.integrity[e.buildId]);
    }
  }

  lemma FinishedFrom(c: Codec, events: seq<Event>, e: Event, t: Tables, w: Completing)
    requires e.EndCompletion? && CompletingFrom(c, events, t, e.call, w) && BuildFrom(c, events, t, w.buildId)
    ensures var u := FinishComplete(c, t, w, e.storedDigest);
            u.Some? ==>
              && u.value.integrity == t.integrity[w.buildId := u.value.integrity[w.buildId]]
              && u.value.builds == t.builds[w.buildId := u.value.builds[w.buildId]]
              && u.value == t.(integrity := u.value.integrity, builds := u.value.builds)
              && BuildFrom(c, events + [e], u.value, w.buildId)
  {
    var u := FinishComplete(c, t, w, e.storedDigest);
    if u.Some? {
      Later(events, e);
      var b, row := u.value.builds[w.buildId], u.value.integrity[w.buildId];
      BuildFromMore(c, events, e, w.buildId, t.builds[w.buildId], RowOf(t, w.buildId));
      SourceAddedMore(events, e, w.buildId, t.integrity[w.buildId]);
      var j :| 0 <= j < |events| && Starts(c, events[j], e.call, w, t.integrity[w.buildId].source);
      assert Completed(c, (events + [e])[j], (events + [e])[|events|], w.buildId, b, row);
      var k :| 0 <= k < |events| && Adds(events[k], w.buildId, t.builds[w.buildId]);
      assert Adds((events + [e])[k], w.buildId, b);
    }
  }

  lemma AddBuildFrom(c: Codec, events: seq<Event>, s: State, e: Event)
    requires AllBuildsFrom(c, events, s) && e.AddBuild?
    ensures AllBuildsFrom(c, events + [e], WithTables(s, CreateBuild(c, s.t, e.accountId, e.siteId, e.robotId, e.buildId, e.artifactDigest, e.route)))
  {
    var u := CreateBuild(c, s.t, e.accountId, e.siteId, e.robotId, e.buildId, e.artifactDigest, e.route);
    if u.Some? {
      CreatedFrom(c, events, e, s.t);
      SourceBuilds.CreateColumns(c, s.t, e.accountId, e.siteId, e.robotId, e.buildId, e.artifactDigest, Source([], [], [], []), e.route);
      ChangedFrom(c, events, e, s, s.(t := u.value), e.buildId);
    } else {
      SameFrom(c, events, e, s, s);
    }
  }

  lemma AddSourceBuildFrom(c: Codec, events: seq<Event>, s: State, e: Event)
    requires AllBuildsFrom(c, events, s) && e.AddSourceBuild?
    ensures AllBuildsFrom(c, events + [e], WithTables(s, CreateSourceBuild(c, s.t, e.accountId, e.siteId, e.robotId, e.buildId, e.source, e.route)))
  {
    var u := CreateSourceBuild(c, s.t, e.accountId, e.siteId, e.robotId, e.buildId, e.source, e.route);
    if u.Some? {
      SourceCreatedFrom(c, events, e, s.t);
      SourceBuilds.CreateColumns(c, s.t, e.accountId, e.siteId, e.robotId, e.buildId, [], e.source, e.route);
      ReplacedOthers(s.t, u.value, e.buildId);
      ChangedFrom(c, events, e, s, s.(t := u.value), e.buildId);
    } else {
      SameFrom(c, events, e, s, s);
    }
  }

  lemma StartStepFrom(c: Codec, events: seq<Event>, s: State, e: Event)
    requires AllBuildsFrom(c, events, s) && e.StartCompletion?
    ensures AllBuildsFrom(c, events + [e], Step(c, s, e))
  {
    var u := Step(c, s, e);
    SameFrom(c, events, e, s, s);
    if u != s {
      BegunFrom(c, events, e, s.t);
    }
  }

  /** A finished build's rows replace the old ones; its call is over. */
  lemma ReplacedFrom(c: Codec, events: seq<Event>, e: Event, s: State, u: Tables, call: nat, changed: Text)
    requires AllBuildsFrom(c, events, s) && SourceBuilds.ColumnsKept(s.t, u) && OthersKept(s.t, u, changed)
    requires changed in u.builds && BuildFrom(c, events + [e], u, changed) && u.integrity.Keys <= u.builds.Keys
    ensures AllBuildsFrom(c, events + [e], s.(t := u, completing := s.completing - {call}))
  {
    ChangedFrom(c, events, e, s, s.(t := u, completing := s.completing - {call}), changed);
  }

  lemma FinishedKeys(c: Codec, t: Tables, w: Completing, storedDigest: Text)
    requires t.integrity.Keys <= t.builds.Keys
    ensures var u := FinishComplete(c, t, w, storedDigest);
            u.Some? ==> w.buildId in u.value.builds && w.buildId in u.value.integrity && u.value.integrity.Keys <= u.value.builds.Keys
  {
  }

  lemma EndedFrom(c: Codec, events: seq<Event>, e: Event, s: State, call: nat)
    requires AllBuildsFrom(c, events, s)
    ensures AllBuildsFrom(c, events + [e], s.(completing := s.completing - {call}))
  {
    SameFrom(c, events, e, s, s.(completing := s.completing - {call}));
  }

  lemma FinishStepFrom(c: Codec, events: seq<Event>, s: State, e: Event)
    requires AllBuildsFrom(c, events, s) && e.EndCompletion? && e.call in s.completing
    ensures AllBuildsFrom(c, events + [e], WithTables(s.(completing := s.completing - {e.call}), FinishComplete(c, s.t, s.completing[e.call], e.storedDigest)))
  {
    var w := s.completing[e.call];
    var u := FinishComplete(c, s.t, w, e.storedDigest);
    assert CompletingFrom(c, events, s.t, e.call, w) && BuildFrom(c, events, s.t, w.buildId);
    EndedFrom(c, events, e, s, e.call);
    if u.Some? {
      FinishedFrom(c, events, e, s.t, w);
      SourceBuilds.FinishColumns(c, s.t, w, e.storedDigest);
      FinishedKeys(c, s.t, w, e.storedDigest);
      ReplacedOthers(s.t, u.value, w.buildId);
      ReplacedFrom(c, events, e, s, u.value, e.call, w.buildId);
    }
  }

  lemma EndStepFrom(c: Codec, events: seq<Event>, s: State, e: Event)
    requires AllBuildsFrom(c, events, s) && e.EndCompletion?
    ensures AllBuildsFrom(c, events + [e], Step(c, s, e))
  {
    if e.call in s.completing {
      FinishStepFrom(c, events, s, e);
    } else {
      SameFrom(c, events, e, s, s);
    }
  }

  lemma FailedStepFrom(c: Codec, events: seq<Event>, s: State, e: Event, u: Tables)
    requires AllBuildsFrom(c, events, s) && SourceBuilds.ColumnsKept(s.t, u) && e.FailBuild?
    requires e.buildId in s.t.integrity && u == s.t.(integrity := s.t.integrity[e.buildId := u.integrity[e.buildId]])
    requires e.buildId in u.integrity && e.buildId in u.builds && BuildFrom(c, events + [e], u, e.buildId)
    ensures AllBuildsFrom(c, events + [e], s.(t := u))
  {
    assert OthersKept(s.t, u, e.buildId);
    ChangedFrom(c, events, e, s, s.(t := u), e.buildId);
  }

  lemma FailStepFrom(c: Codec, events: seq<Event>, s: State, e: Event)
    requires AllBuildsFrom(c, events, s) && e.FailBuild?
    ensures AllBuildsFrom(c, events + [e], Step(c, s, e))
  {
    var u := FailSourceBuild(s.t, e.accountId, e.buildId, e.code, e.message);
    SameFrom(c, events, e, s, s);
    if u.Some? && u.value != s.t {
      SourceBuilds.FailColumns(s.t, e.accountId, e.buildId, e.code, e.message);
      assert BuildFrom(c, events, s.t, e.buildId);
      FailedFrom(c, events, e, s.t);
      FailedStepFrom(c, events, s, e, u.value);
    }
  }

  lemma SiteStepSame(c: Codec, s: State, e: Event)
    requires e.AddSite? || e.AddRobot?
    ensures var u := Step(c, s, e);
            u.t.builds == s.t.builds && u.t.integrity == s.t.integrity && u.completing == s.completing
  {
  }

  lemma SiteStepFrom(c: Codec, events: seq<Event>, s: State, e: Event)
    requires AllBuildsFrom(c, events, s) && (e.AddSite? || e.AddRobot?)
    ensures AllBuildsFrom(c, events + [e], Step(c, s, e))
  {
    SiteStepSame(c, s, e);
    SameFrom(c, events, e, s, Step(c, s, e));
  }

  lemma EvaluationStepCompleting(c: Codec, s: State, e: Event)
    requires e.SubmitEvaluation? || e.ExecutorThrew? || e.ExecutorAnswered? || e.CallbackArrived?
    ensures Step(c, s, e).completing == s.completing
  {
  }

  lemma EvaluationStepFrom(c: Codec, events: seq<Event>, s: State, e: Event)
    requires AllBuildsFrom(c, events, s)
    requires e.SubmitEvaluation? || e.ExecutorThrew? || e.ExecutorAnswered? || e.CallbackArrived?
    ensures AllBuildsFrom(c, events + [e], Step(c, s, e))
  {
    EvaluationStepMoves(c, s, e);
    EvaluationStepCompleting(c, s, e);
    SameFrom(c, events, e, s, Step(c, s, e));
  }

  lemma StepBuildsFrom(c: Codec, events: seq<Event>, s: State, e: Event)
    requires AllBuildsFrom(c, events, s)
    ensures AllBuildsFrom(c, events + [e], Step(c, s, e))
  {
    match e
    case AddBuild(_, _, _, _, _, _) => AddBuildFrom(c, events, s, e);
    case AddSourceBuild(_, _, _, _, _, _) => AddSourceBuildFrom(c, events, s, e);
    case StartCompletion(_, _, _, _) => StartStepFrom(c, events, s, e);
    case EndCompletion(_, _) => EndStepFrom(c, events, s, e);
    case FailBuild(_, _, _, _) => FailStepFrom(c, events, s, e);
    case AddSite(_, _) => SiteStepFrom(c, events, s, e);
    case AddRobot(_, _, _) => SiteStepFrom(c, events, s, e);
    case _ => EvaluationStepFrom(c, events, s, e);
  }

  lemma {:induction false} RunBuildsFrom(c: Codec, events: seq<Event>)
    ensures AllBuildsFrom(c, events, After(c, START, events))
    decreases |events|
  {
    if events != [] {
      var before, e := events[..|events| - 1], events[|events| - 1];
      assert events == before + [e];
      RunBuildsFrom(c, before);
      Outcomes.AfterOne(c, START, before, e);
      StepBuildsFrom(c, before, After(c, START, before), e);
    }
  }

  /**
   * In every run each build was added by an event under its names and on its route. A build from elsewhere holds
   * the artifact of that event. A source build holds the placeholder while it runs and after it failed, then with
   * the first units of the error it was given; and once it succeeded, the evidence one call brought and the digest
   * of the artifact that call found stored.
   */
  lemma BuildsOriginate(c: Codec, events: seq<Event>, buildId: Text)
    requires buildId in After(c, START, events).t.builds
    ensures BuildFrom(c, events, After(c, START, events).t, buildId)
  {
    RunBuildsFrom(c, events);
  }
}
