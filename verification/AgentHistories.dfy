/** The agent and the gate in one history: attempts are made and asked about while calls of the gate go on. */
module AgentHistories {
  import opened Text
  import opened Values
  import opened Authorizations
  import opened ReleaseGate
  import opened ReleaseTables
  import opened ReleaseRuns
  import opened AgentRelease
  import M = ReleaseMachine
  import Agent = AgentScript
  import D = DeploymentAgent

  // ---------- The joint machine ----------

  /** One step of the gate; a run of the agent, or one it could not resolve; a question about an attempt. */
  datatype Event =
    | GateMoves(step: M.Event)
    | AgentRan(id: Text, host: Agent.Host, answers: nat -> Agent.Answer)
    | AgentRefused(id: Text, accountId: Option<Text>, code: Agent.Code)
    | Asked(id: Text, accountId: Option<Text>, refusal: Agent.Code)

  datatype State = State(gate: M.State, attempts: D.Attempts)

  const START: State := State(M.START, map[])

  /** A request the host was handed is one the gate issued to that account. */
  predicate Genuine(gate: M.State, h: Agent.Host) {
    h.preparing.PrepareOk? ==>
      && h.preparing.prepared.intent.nonce in gate.issued
      && var r := gate.issued[h.preparing.prepared.intent.nonce];
         h.preparing.prepared == PreparedOf(r) && r.row.accountId == h.accountId
  }

  /** What the gate says about the request an attempt holds. */
  function GateStatus(g: Gate, s: State, id: Text, accountId: Option<Text>): Option<Status> {
    if id in s.attempts && s.attempts[id].prepared.Some? then
      GetAuthorizationStatus(g, s.gate.rows, s.attempts[id].prepared.value, accountId)
    else None
  }

  ghost function Step(g: Gate, normalize: Data -> Option<Text>, s: State, e: Event): State {
    match e
    case GateMoves(step) => s.(gate := M.Step(SegmentsOf(g), s.gate, step))
    case AgentRan(id, host, answers) =>
      if Genuine(s.gate, host) then s.(attempts := D.Step(normalize, s.attempts, D.Ran(id, host, answers))) else s
    case AgentRefused(id, accountId, code) => s.(attempts := D.Step(normalize, s.attempts, D.RefusedRun(id, accountId, code)))
    case Asked(id, accountId, refusal) =>
      s.(attempts := D.Step(normalize, s.attempts, D.Query(id, accountId, LedgerOf(GateStatus(g, s, id, accountId), refusal))))
  }

  ghost function After(g: Gate, normalize: Data -> Option<Text>, events: seq<Event>): State
    decreases |events|
  {
    if events == [] then START
    else Step(g, normalize, After(g, normalize, events[..|events| - 1]), events[|events| - 1])
  }

  /** The steps of the gate alone. */
  function GateSteps(events: seq<Event>): seq<M.Event> {
    if events == [] then []
    else
      var rest := GateSteps(events[..|events| - 1]);
      var e := events[|events| - 1];
      if e.GateMoves? then rest + [e.step] else rest
  }

  /** The agent does not disturb the gate: its part of a joint history is a run of its own. */
  lemma {:induction false} GateRuns(g: Gate, normalize: Data -> Option<Text>, events: seq<Event>)
    ensures After(g, normalize, events).gate == Run(g, GateSteps(events))
    decreases |events|
  {
    if events != [] {
      var before, e := events[..|events| - 1], events[|events| - 1];
      GateRuns(g, normalize, before);
      if e.GateMoves? {
        RunOne(g, GateSteps(before), e.step);
      }
    }
  }

  // ---------- One question ----------

  /** The attempt may be shown to whoever asks. */
  predicate MayAsk(s: State, id: Text, accountId: Option<Text>) {
    id in s.attempts && (s.attempts[id].accountId.None? || s.attempts[id].accountId == accountId)
  }

  /** Three fields are set; the others are as they were. */
  predicate MarkedAuthorized(a: Agent.Attempt, b: Agent.Attempt) {
    && b.final == Agent.Authorized && b.ledger == Agent.LedgerAuthorized && b.policy == Agent.AuthorizationVerified
    && b.(final := a.final, ledger := a.ledger, policy := a.policy) == a
  }

  /** The answer is AUTHORIZED, to somebody who may ask. */
  predicate ToldAuthorized(g: Gate, s: State, id: Text, accountId: Option<Text>) {
    MayAsk(s, id, accountId) && GateStatus(g, s, id, accountId).Some? && GateStatus(g, s, id, accountId).value.Authorized?
  }

  lemma LedgerMeaning(status: Option<Status>, refusal: Agent.Code)
    ensures LedgerOf(status, refusal).AlreadyAuthorized? <==> status.Some? && status.value.Authorized?
  {
  }

  /** A question with an answer of the ledger: three fields of the one attempt, or nothing. */
  lemma QueriedWith(normalize: Data -> Option<Text>, s: State, id: Text, accountId: Option<Text>, ledger: Agent.Ledger)
    ensures var after := D.Step(normalize, s.attempts, D.Query(id, accountId, ledger));
            if MayAsk(s, id, accountId) && s.attempts[id].prepared.Some? && ledger.AlreadyAuthorized? then
              && after.Keys == s.attempts.Keys && MarkedAuthorized(s.attempts[id], after[id])
              && (forall other :: other in s.attempts && other != id ==> after[other] == s.attempts[other])
            else after == s.attempts
  {
  }

  /** An attempt is marked exactly when the gate says its request is authorized; any other answer changes no attempt. */
  lemma AskedExactly(g: Gate, normalize: Data -> Option<Text>, s: State, id: Text, accountId: Option<Text>, refusal: Agent.Code)
    ensures var t := Step(g, normalize, s, Asked(id, accountId, refusal));
            && t.gate == s.gate
            && if ToldAuthorized(g, s, id, accountId) then
                 && t.attempts.Keys == s.attempts.Keys && MarkedAuthorized(s.attempts[id], t.attempts[id])
                 && (forall other :: other in s.attempts && other != id ==> t.attempts[other] == s.attempts[other])
               else t.attempts == s.attempts
  {
    LedgerMeaning(GateStatus(g, s, id, accountId), refusal);
    QueriedWith(normalize, s, id, accountId, LedgerOf(GateStatus(g, s, id, accountId), refusal));
  }

  // ---------- What every history keeps ----------

  /** An authorized attempt holds a request whose consume has succeeded; one awaiting approval holds an issued request of its account. */
  predicate AttemptSound(gate: M.State, a: Agent.Attempt) {
    match a.final
    case Blocked => a.prepared.None?
    case ApprovalRequired => a.prepared.Some? && HoldsIssued(gate, a)
    case Authorized =>
      && a.prepared.Some? && HoldsIssued(gate, a) && a.ledger == Agent.LedgerAuthorized && a.policy == Agent.AuthorizationVerified
      && Returned(a.prepared.value.intent.nonce, gate.returned)
  }

  predicate HoldsIssued(gate: M.State, a: Agent.Attempt)
    requires a.prepared.Some?
  {
    var nonce := a.prepared.value.intent.nonce;
    && nonce in gate.issued && nonce in gate.rows
    && a.prepared.value == PreparedOf(gate.issued[nonce]) && gate.issued[nonce].row.accountId == a.accountId
  }

  predicate AllSound(s: State) {
    forall id :: id in s.attempts ==> AttemptSound(s.gate, s.attempts[id])
  }

  lemma ReturnedStays(gate: M.State, after: M.State, nonce: Text)
    requires M.Kept(gate, after) && Returned(nonce, gate.returned)
    ensures Returned(nonce, after.returned)
  {
    var k :| 0 <= k < |gate.returned| && NonceOf(gate.returned[k]) == nonce;
    assert NonceOf(after.returned[k]) == nonce;
  }

  lemma SoundStays(gate: M.State, after: M.State, a: Agent.Attempt)
    requires M.Kept(gate, after) && AttemptSound(gate, a)
    ensures AttemptSound(after, a)
  {
    if a.final == Agent.Authorized {
      ReturnedStays(gate, after, a.prepared.value.intent.nonce);
    }
  }

  lemma RanSound(normalize: Data -> Option<Text>, gate: M.State, h: Agent.Host, answers: nat -> Agent.Answer)
    requires Genuine(gate, h) && gate.rows.Keys == gate.issued.Keys
    ensures AttemptSound(gate, Agent.Run(h, normalize, answers).attempt)
  {
    Agent.RunOrBlocked(h, normalize, answers);
    if Agent.Run(h, normalize, answers).Running? {
      Agent.ApprovalFields(h, normalize, answers);
    }
  }

  /** A request the gate calls authorized has been consumed, and its consume handed out an authorization. */
  lemma AuthorizedReturned(g: Gate, events: seq<M.Event>, p: Prepared, accountId: Option<Text>)
    requires ValidGate(g)
    requires var status := GetAuthorizationStatus(g, Run(g, events).rows, p, accountId); status.Some? && status.value.Authorized?
    ensures Returned(p.intent.nonce, Run(g, events).returned)
  {
    IssuedIffNoAuthorization(g, events, p.intent.nonce);
  }

  lemma MarkedSound(gate: M.State, a: Agent.Attempt, b: Agent.Attempt)
    requires AttemptSound(gate, a) && a.prepared.Some? && MarkedAuthorized(a, b) && Returned(a.prepared.value.intent.nonce, gate.returned)
    ensures AttemptSound(gate, b)
  {
  }

  lemma OneChangedSound(s: State, t: State, id: Text)
    requires AllSound(s) && t.gate == s.gate && t.attempts.Keys == s.attempts.Keys
    requires id in t.attempts && AttemptSound(t.gate, t.attempts[id])
    requires forall other :: other in s.attempts && other != id ==> t.attempts[other] == s.attempts[other]
    ensures AllSound(t)
  {
  }

  lemma AskedSound(g: Gate, normalize: Data -> Option<Text>, events: seq<M.Event>, s: State, id: Text, accountId: Option<Text>, refusal: Agent.Code)
    requires ValidGate(g) && AllSound(s) && s.gate == Run(g, events)
    ensures AllSound(Step(g, normalize, s, Asked(id, accountId, refusal)))
  {
    var t := Step(g, normalize, s, Asked(id, accountId, refusal));
    AskedExactly(g, normalize, s, id, accountId, refusal);
    if ToldAuthorized(g, s, id, accountId) {
      AuthorizedReturned(g, events, s.attempts[id].prepared.value, accountId);
      MarkedSound(s.gate, s.attempts[id], t.attempts[id]);
      OneChangedSound(s, t, id);
    }
  }

  lemma GateSound(g: Gate, s: State, step: M.Event)
    requires AllSound(s)
    ensures AllSound(s.(gate := M.Step(SegmentsOf(g), s.gate, step)))
  {
    M.StepKeeps(SegmentsOf(g), s.gate, step);
    forall id | id in s.attempts ensures AttemptSound(M.Step(SegmentsOf(g), s.gate, step), s.attempts[id]) {
      SoundStays(s.gate, M.Step(SegmentsOf(g), s.gate, step), s.attempts[id]);
    }
  }

  lemma RanStepSound(g: Gate, normalize: Data -> Option<Text>, s: State, id: Text, host: Agent.Host, answers: nat -> Agent.Answer)
    requires AllSound(s) && s.gate.rows.Keys == s.gate.issued.Keys
    ensures AllSound(Step(g, normalize, s, AgentRan(id, host, answers)))
  {
    if Genuine(s.gate, host) {
      RanSound(normalize, s.gate, host, answers);
    }
  }

  lemma RowsIssued(g: Gate, events: seq<M.Event>)
    requires ValidGate(g)
    ensures Run(g, events).rows.Keys == Run(g, events).issued.Keys
  {
    RunInvariant(g, events);
  }

  lemma StepSound(g: Gate, normalize: Data -> Option<Text>, events: seq<M.Event>, s: State, e: Event)
    requires ValidGate(g) && AllSound(s) && s.gate == Run(g, events)
    ensures AllSound(Step(g, normalize, s, e))
  {
    match e
    case GateMoves(step) => GateSound(g, s, step);
    case AgentRan(id, host, answers) =>
      RowsIssued(g, events);
      RanStepSound(g, normalize, s, id, host, answers);
    case AgentRefused(_, _, _) =>
    case Asked(id, accountId, refusal) => AskedSound(g, normalize, events, s, id, accountId, refusal);
  }

  lemma {:induction false} HistorySound(g: Gate, normalize: Data -> Option<Text>, events: seq<Event>)
    requires ValidGate(g)
    ensures AllSound(After(g, normalize, events))
    decreases |events|
  {
    if events != [] {
      var before, e := events[..|events| - 1], events[|events| - 1];
      HistorySound(g, normalize, before);
      GateRuns(g, normalize, before);
      StepSound(g, normalize, GateSteps(before), After(g, normalize, before), e);
    }
  }

  // ---------- When an attempt is authorized ----------

  /** At position k somebody who may see the attempt asked about it, and the gate called its request authorized. */
  ghost predicate ToldAt(g: Gate, normalize: Data -> Option<Text>, events: seq<Event>, k: int, id: Text) {
    && 0 <= k < |events| && events[k].Asked? && events[k].id == id
    && ToldAuthorized(g, After(g, normalize, events[..k]), id, events[k].accountId)
  }

  predicate IsAuthorized(s: State, id: Text) {
    id in s.attempts && s.attempts[id].final == Agent.Authorized
  }

  lemma RanNotAuthorized(normalize: Data -> Option<Text>, h: Agent.Host, answers: nat -> Agent.Answer)
    ensures Agent.Run(h, normalize, answers).attempt.final != Agent.Authorized
  {
    Agent.RunOrBlocked(h, normalize, answers);
    if Agent.Run(h, normalize, answers).Running? {
      Agent.ApprovalFields(h, normalize, answers);
    }
  }

  lemma QueriedAuthorized(normalize: Data -> Option<Text>, s: State, asked: Text, accountId: Option<Text>, ledger: Agent.Ledger, id: Text)
    ensures IsAuthorized(s.(attempts := D.Step(normalize, s.attempts, D.Query(asked, accountId, ledger))), id) <==>
              || IsAuthorized(s, id)
              || (asked == id && MayAsk(s, id, accountId) && s.attempts[id].prepared.Some? && ledger.AlreadyAuthorized?)
  {
    QueriedWith(normalize, s, asked, accountId, ledger);
  }

  lemma AskedAuthorized(g: Gate, normalize: Data -> Option<Text>, s: State, asked: Text, accountId: Option<Text>, refusal: Agent.Code, id: Text)
    ensures IsAuthorized(Step(g, normalize, s, Asked(asked, accountId, refusal)), id) <==>
              IsAuthorized(s, id) || (asked == id && ToldAuthorized(g, s, id, accountId))
  {
    LedgerMeaning(GateStatus(g, s, asked, accountId), refusal);
    QueriedAuthorized(normalize, s, asked, accountId, LedgerOf(GateStatus(g, s, asked, accountId), refusal), id);
  }

  lemma StepAuthorized(g: Gate, normalize: Data -> Option<Text>, s: State, e: Event, id: Text)
    ensures IsAuthorized(Step(g, normalize, s, e), id) <==>
              IsAuthorized(s, id) || (e.Asked? && e.id == id && ToldAuthorized(g, s, id, e.accountId))
  {
    match e
    case Asked(asked, accountId, refusal) => AskedAuthorized(g, normalize, s, asked, accountId, refusal, id);
    case AgentRan(_, host, answers) => RanNotAuthorized(normalize, host, answers);
    case _ =>
  }

  ghost predicate Told(g: Gate, normalize: Data -> Option<Text>, events: seq<Event>, id: Text) {
    exists k :: ToldAt(g, normalize, events, k, id)
  }

  lemma ToldLater(g: Gate, normalize: Data -> Option<Text>, before: seq<Event>, e: Event, k: int, id: Text)
    requires 0 <= k < |before|
    ensures ToldAt(g, normalize, before + [e], k, id) <==> ToldAt(g, normalize, before, k, id)
  {
    assert (before + [e])[..k] == before[..k];
  }

  lemma ToldLast(g: Gate, normalize: Data -> Option<Text>, before: seq<Event>, e: Event, id: Text)
    ensures ToldAt(g, normalize, before + [e], |before|, id) <==>
            e.Asked? && e.id == id && ToldAuthorized(g, After(g, normalize, before), id, e.accountId)
  {
    assert (before + [e])[..|before|] == before;
  }

  lemma ToldSplit(g: Gate, normalize: Data -> Option<Text>, before: seq<Event>, e: Event, id: Text)
    ensures Told(g, normalize, before + [e], id) <==>
              Told(g, normalize, before, id) || ToldAt(g, normalize, before + [e], |before|, id)
  {
    forall k | 0 <= k < |before|
      ensures ToldAt(g, normalize, before + [e], k, id) <==> ToldAt(g, normalize, before, k, id)
    {
      ToldLater(g, normalize, before, e, k, id);
    }
  }

  /** In every history an attempt is authorized exactly when the gate once called its request authorized to somebody who may ask. */
  lemma {:induction false} AuthorizedExactly(g: Gate, normalize: Data -> Option<Text>, events: seq<Event>, id: Text)
    ensures IsAuthorized(After(g, normalize, events), id) <==> Told(g, normalize, events, id)
    decreases |events|
  {
    if events != [] {
      var last := |events| - 1;
      var before, e := events[..last], events[last];
      assert events == before + [e];
      AuthorizedExactly(g, normalize, before, id);
      StepAuthorized(g, normalize, After(g, normalize, before), e, id);
      ToldSplit(g, normalize, before, e, id);
      ToldLast(g, normalize, before, e, id);
    }
  }

  /** An authorized attempt holds a request the gate issued, and its consume has handed out an authorization. */
  lemma AuthorizedConsumed(g: Gate, normalize: Data -> Option<Text>, events: seq<Event>, id: Text)
    requires ValidGate(g) && IsAuthorized(After(g, normalize, events), id)
    ensures var gate := Run(g, GateSteps(events));
            var a := After(g, normalize, events).attempts[id];
            && a.prepared.Some? && HoldsIssued(gate, a) && Returned(a.prepared.value.intent.nonce, gate.returned)
  {
    HistorySound(g, normalize, events);
    GateRuns(g, normalize, events);
    assert AttemptSound(Run(g, GateSteps(events)), After(g, normalize, events).attempts[id]);
  }

  // ---------- What the owner is told ----------

  /** An authorization for the nonce was handed out, with a second block hash the readback accepts. */
  predicate ReadableReturned(gate: M.State, nonce: Text) {
    exists k :: 0 <= k < |gate.returned| && NonceOf(gate.returned[k]) == nonce && HashReadable(gate.returned[k].authorization)
  }

  /** No second authorization was handed out for the nonce. */
  lemma OnlyOne(g: Gate, events: seq<M.Event>, k: nat)
    requires ValidGate(g) && k < |Run(g, events).returned|
    ensures var returned := Run(g, events).returned;
            forall j :: 0 <= j < |returned| && NonceOf(returned[j]) == NonceOf(returned[k]) ==> j == k
  {
    var returned := Run(g, events).returned;
    forall j | 0 <= j < |returned| && j != k ensures NonceOf(returned[j]) != NonceOf(returned[k]) {
      NonceAuthorizedOnce(g, events, if j < k then j else k, if j < k then k else j);
    }
  }

  lemma ReadableExactly(g: Gate, events: seq<M.Event>, k: nat)
    requires ValidGate(g) && k < |Run(g, events).returned|
    ensures ReadableReturned(Run(g, events), NonceOf(Run(g, events).returned[k])) <==> HashReadable(Run(g, events).returned[k].authorization)
  {
    OnlyOne(g, events, k);
  }

  /** The request under the nonce was issued to the account. */
  predicate IssuedTo(gate: M.State, r: Request, accountId: Option<Text>) {
    r.intent.nonce in gate.issued && gate.issued[r.intent.nonce] == r && r.row.accountId == accountId
  }

  lemma ReturnedStatus(g: Gate, events: seq<M.Event>, r: Request, accountId: Option<Text>, k: nat)
    requires ValidGate(g) && ChecksumSigners(g) && IssuedTo(Run(g, events), r, accountId)
    requires k < |Run(g, events).returned| && NonceOf(Run(g, events).returned[k]) == r.intent.nonce
    ensures GetAuthorizationStatus(g, Run(g, events).rows, PreparedOf(r), accountId) == ReadStored(g, r, Run(g, events).returned[k].authorization)
  {
    assert events + [] == events;
    AuthorizedForever(g, events, [], k, accountId);
  }

  lemma StoredStatus(g: Gate, r: Request, a: Authorization)
    ensures ReadStored(g, r, a).Some? && ReadStored(g, r, a).value.Authorized? <==> HashReadable(a)
    ensures !(ReadStored(g, r, a).Some? && ReadStored(g, r, a).value.AwaitingLedger?)
  {
  }

  lemma StatusReadable(g: Gate, events: seq<M.Event>, r: Request, accountId: Option<Text>)
    requires ValidGate(g) && ChecksumSigners(g) && IssuedTo(Run(g, events), r, accountId)
    ensures var status := GetAuthorizationStatus(g, Run(g, events).rows, PreparedOf(r), accountId);
            && (status.Some? && status.value.Authorized? <==> ReadableReturned(Run(g, events), r.intent.nonce))
            && (status.Some? && status.value.AwaitingLedger? <==> !Returned(r.intent.nonce, Run(g, events).returned))
  {
    var gate, nonce := Run(g, events), r.intent.nonce;
    if Returned(nonce, gate.returned) {
      var k :| 0 <= k < |gate.returned| && NonceOf(gate.returned[k]) == nonce;
      ReturnedStatus(g, events, r, accountId, k);
      StoredStatus(g, r, gate.returned[k].authorization);
      ReadableExactly(g, events, k);
    } else {
      AwaitingUntilConsumed(g, events, nonce, accountId);
    }
  }

  /** An attempt that awaits approval holds a request of the gate, issued to its account. */
  lemma WaitingHolds(g: Gate, normalize: Data -> Option<Text>, events: seq<Event>, id: Text)
    requires ValidGate(g)
    requires id in After(g, normalize, events).attempts && After(g, normalize, events).attempts[id].final == Agent.ApprovalRequired
    ensures var s := After(g, normalize, events);
            s.gate == Run(g, GateSteps(events)) && s.attempts[id].prepared.Some? && HoldsIssued(s.gate, s.attempts[id])
  {
    HistorySound(g, normalize, events);
    GateRuns(g, normalize, events);
    assert AttemptSound(After(g, normalize, events).gate, After(g, normalize, events).attempts[id]);
  }

  lemma HeldStatus(g: Gate, events: seq<M.Event>, a: Agent.Attempt)
    requires ValidGate(g) && ChecksumSigners(g) && a.prepared.Some? && HoldsIssued(Run(g, events), a)
    ensures var nonce := a.prepared.value.intent.nonce;
            var status := GetAuthorizationStatus(g, Run(g, events).rows, a.prepared.value, a.accountId);
            && (status.Some? && status.value.Authorized? <==> ReadableReturned(Run(g, events), nonce))
            && (status.Some? && status.value.AwaitingLedger? <==> !Returned(nonce, Run(g, events).returned))
  {
    var nonce := a.prepared.value.intent.nonce;
    RunInvariant(g, events);
    ConsistentRow(LawsOf(g), Run(g, events), nonce);
    StatusReadable(g, events, Run(g, events).issued[nonce], a.accountId);
  }

  lemma QuestionAt(g: Gate, normalize: Data -> Option<Text>, events: seq<M.Event>, s: State, id: Text, refusal: Agent.Code)
    requires ValidGate(g) && ChecksumSigners(g) && s.gate == Run(g, events)
    requires id in s.attempts && s.attempts[id].final == Agent.ApprovalRequired
    requires s.attempts[id].prepared.Some? && HoldsIssued(s.gate, s.attempts[id])
    ensures var t := Step(g, normalize, s, Asked(id, s.attempts[id].accountId, refusal));
            var nonce := s.attempts[id].prepared.value.intent.nonce;
            && (IsAuthorized(t, id) <==> ReadableReturned(s.gate, nonce))
            && (!Returned(nonce, s.gate.returned) ==> t == s)
  {
    var accountId := s.attempts[id].accountId;
    HeldStatus(g, events, s.attempts[id]);
    AskedAuthorized(g, normalize, s, id, accountId, refusal, id);
    AskedExactly(g, normalize, s, id, accountId, refusal);
  }

  /**
   * The owner asks about an attempt that awaits approval: it becomes authorized exactly when a readable
   * authorization was handed out for its request, and before its consume succeeded nothing changes.
   */
  lemma QuestionDecides(g: Gate, normalize: Data -> Option<Text>, events: seq<Event>, id: Text, refusal: Agent.Code)
    requires ValidGate(g) && ChecksumSigners(g)
    requires id in After(g, normalize, events).attempts && After(g, normalize, events).attempts[id].final == Agent.ApprovalRequired
    ensures var s := After(g, normalize, events);
            var t := Step(g, normalize, s, Asked(id, s.attempts[id].accountId, refusal));
            && s.attempts[id].prepared.Some?
            && var nonce := s.attempts[id].prepared.value.intent.nonce;
               && (IsAuthorized(t, id) <==> ReadableReturned(s.gate, nonce))
               && (!Returned(nonce, s.gate.returned) ==> t == s)
  {
    WaitingHolds(g, normalize, events, id);
    QuestionAt(g, normalize, GateSteps(events), After(g, normalize, events), id, refusal);
  }
}
