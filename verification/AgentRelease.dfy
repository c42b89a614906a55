/** The agent against the release gate: the request it prepares, and the status it asks for. */
module AgentRelease {
  import opened Text
  import opened Values
  import opened Records
  import opened Bindings
  import opened Registry
  import opened Authorizations
  import opened ReleaseGate
  import opened ReleaseMachine
  import opened ReleaseTables
  import opened ReleaseRuns
  import Agent = AgentScript

  /** What the agent hands to prepare: its own target and the clearance of the entry. */
  function ProposalFor(h: Agent.Host, signer: Text): Proposal
    requires h.requested.clearance.Some?
  {
    var t := h.requested.target;
    Proposal(t.siteId, t.robotId, t.robotBuildId, t.robotBuildDigest, ClearanceData(h.requested.clearance.value), signer, h.accountId)
  }

  /** The agent's own prepare is waiting for the registry after these events. */
  predicate PrepareWaits(g: Gate, h: Agent.Host, signer: Text, events: seq<Event>, call: nat) {
    && h.requested.clearance.Some? && ValidClearance(h.requested.clearance.value)
    && BeginPrepare(g, ProposalFor(h, signer)).Some?
    && call in Run(g, events).calls
    && Run(g, events).calls[call] == Preparing(BeginPrepare(g, ProposalFor(h, signer)).value)
  }

  /** The registry answers that call and its request is inserted. */
  function Issues(g: Gate, h: Agent.Host, signer: Text, events: seq<Event>, call: nat, answer: Option<Snapshot>, nonce: Text): Option<Request>
    requires PrepareWaits(g, h, signer, events, call)
  {
    FinishPrepare(g, Run(g, events).rows, BeginPrepare(g, ProposalFor(h, signer)).value, answer, nonce).1
  }

  function LedgerOf(status: Option<Status>, refusal: Agent.Code): Agent.Ledger {
    match status
    case None => Agent.LedgerFailed(refusal)
    case Some(AwaitingLedger(_, _)) => Agent.Awaiting
    case Some(Authorized(_, _, _)) => Agent.AlreadyAuthorized
  }

  /** The host's answers are those of the gate: its prepare issued the request, and other calls went on before it asked the status. */
  predicate Served(g: Gate, h: Agent.Host, signer: Text, events: seq<Event>, call: nat, answer: Option<Snapshot>, nonce: Text,
                   between: seq<Event>, refusal: Agent.Code) {
    && PrepareWaits(g, h, signer, events, call)
    && Issues(g, h, signer, events, call, answer, nonce).Some?
    && var r := Issues(g, h, signer, events, call, answer, nonce).value;
       && h.preparing == Agent.PrepareOk(PreparedOf(r))
       && h.ledger == LedgerOf(GetAuthorizationStatus(g, Run(g, events + [AnswerPrepare(call, answer, nonce)] + between).rows,
                                                      PreparedOf(r), h.accountId), refusal)
  }

  lemma IssuedRequest(g: Gate, rows: Rows, w: Preparation, answer: Option<Snapshot>, nonce: Text)
    requires ValidGate(g) && ValidPreparation(g, w) && FinishPrepare(g, rows, w, answer, nonce).1.Some?
    ensures var r := FinishPrepare(g, rows, w, answer, nonce).1.value;
            && Issued(g, r) && r.clearance == w.clearance && r.row.accountId == w.accountId && r.intent.nonce !in rows
            && NewRequest(g, w, answer, nonce) == Some(r)
  {
    NewRequestIssued(g, w, answer, nonce);
  }

  lemma ProposalAccepted(g: Gate, h: Agent.Host, signer: Text)
    requires h.requested.clearance.Some? && ValidClearance(h.requested.clearance.value)
    requires BeginPrepare(g, ProposalFor(h, signer)).Some?
    ensures var w := BeginPrepare(g, ProposalFor(h, signer)).value;
            && ValidPreparation(g, w) && w.clearance == h.requested.clearance.value && w.accountId == h.accountId
            && ProposalBindings(ProposalFor(h, signer), w.clearance)
  {
    ClearanceReadBack(h.requested.clearance.value);
    BeginPrepareValid(g, ProposalFor(h, signer));
  }

  /** The four fields of a target and of an intent. */
  predicate NamesTarget(i: Intent, t: Agent.Target) {
    i.siteId == t.siteId && i.robotId == t.robotId && i.robotBuildId == t.robotBuildId && i.robotBuildDigest == t.robotBuildDigest
  }

  /** The issued request is for the host's target and the entry's clearance, and belongs to the account. */
  lemma IssuedForTarget(g: Gate, h: Agent.Host, signer: Text, events: seq<Event>, call: nat, answer: Option<Snapshot>, nonce: Text)
    requires ValidGate(g) && PrepareWaits(g, h, signer, events, call) && Issues(g, h, signer, events, call, answer, nonce).Some?
    ensures var r := Issues(g, h, signer, events, call, answer, nonce).value;
            && NamesTarget(r.intent, h.requested.target) && r.clearance == h.requested.clearance.value
            && IntentBound(g.lib.hashing, r.intent, h.requested.clearance.value) && Eligible(g.registry, r.snapshot)
            && r.row.accountId == h.accountId
  {
    ProposalAccepted(g, h, signer);
    IssuedRequest(g, Run(g, events).rows, BeginPrepare(g, ProposalFor(h, signer)).value, answer, nonce);
  }

  lemma PrepareStepIssues(g: Gate, s: State, call: nat, w: Preparation, answer: Option<Snapshot>, nonce: Text)
    requires call in s.calls && s.calls[call] == Preparing(w) && FinishPrepare(g, s.rows, w, answer, nonce).1.Some?
    ensures var r := FinishPrepare(g, s.rows, w, answer, nonce).1.value;
            var t := Step(SegmentsOf(g), s, AnswerPrepare(call, answer, nonce));
            r.intent.nonce in t.rows && r.intent.nonce in t.issued && t.issued[r.intent.nonce] == r
  {
  }

  /** The request stays issued as it is, whatever happens next. */
  lemma StaysIssued(g: Gate, h: Agent.Host, signer: Text, events: seq<Event>, call: nat, answer: Option<Snapshot>, nonce: Text, between: seq<Event>)
    requires ValidGate(g) && PrepareWaits(g, h, signer, events, call) && Issues(g, h, signer, events, call, answer, nonce).Some?
    ensures var r := Issues(g, h, signer, events, call, answer, nonce).value;
            var s := Run(g, events + [AnswerPrepare(call, answer, nonce)] + between);
            r.intent.nonce in s.issued && s.issued[r.intent.nonce] == r
  {
    var e := AnswerPrepare(call, answer, nonce);
    RunOne(g, events, e);
    PrepareStepIssues(g, Run(g, events), call, BeginPrepare(g, ProposalFor(h, signer)).value, answer, nonce);
    RunKept(g, events + [e], between);
  }

  /**
   * The status the agent reads right after preparing is AWAITING_LEDGER, unless a consume of the very nonce it
   * was just given has already succeeded.
   */
  lemma LedgerAwaits(g: Gate, h: Agent.Host, signer: Text, events: seq<Event>, call: nat, answer: Option<Snapshot>, nonce: Text,
                     between: seq<Event>, refusal: Agent.Code)
    requires ValidGate(g) && Served(g, h, signer, events, call, answer, nonce, between, refusal)
    requires !Returned(h.preparing.prepared.intent.nonce, Run(g, events + [AnswerPrepare(call, answer, nonce)] + between).returned)
    ensures h.ledger == Agent.Awaiting
  {
    var r := Issues(g, h, signer, events, call, answer, nonce).value;
    IssuedForTarget(g, h, signer, events, call, answer, nonce);
    StaysIssued(g, h, signer, events, call, answer, nonce, between);
    AwaitingUntilConsumed(g, events + [AnswerPrepare(call, answer, nonce)] + between, r.intent.nonce, h.accountId);
  }

  /** A request whose status is awaited has not been consumed. */
  lemma AwaitedNotReturned(g: Gate, events: seq<Event>, p: Prepared, accountId: Option<Text>, refusal: Agent.Code)
    requires ValidGate(g) && LedgerOf(GetAuthorizationStatus(g, Run(g, events).rows, p, accountId), refusal) == Agent.Awaiting
    ensures !Returned(p.intent.nonce, Run(g, events).returned)
  {
    AwaitedRow(g, Run(g, events).rows, p, accountId);
    IssuedIffNoAuthorization(g, events, p.intent.nonce);
  }

  /** The graph is matched where the host asks it. */
  predicate GraphPasses(h: Agent.Host) {
    h.accountId.Some? || !h.graph.NoReader? ==> h.graph.GraphRead? && h.graph.status.Matched?
  }

  /**
   * With the gate behind it the agent asks for approval exactly when the verdict is CLEAR, the clearance eligible,
   * the graph matched, the model obedient, and nobody consumed the request between preparing it and asking for it.
   */
  lemma ApprovedExactly(g: Gate, h: Agent.Host, signer: Text, events: seq<Event>, call: nat, answer: Option<Snapshot>, nonce: Text,
                        between: seq<Event>, refusal: Agent.Code, normalize: Data -> Option<Text>, answers: nat -> Agent.Answer)
    requires ValidGate(g) && Served(g, h, signer, events, call, answer, nonce, between, refusal)
    ensures Agent.Run(h, normalize, answers).Running? <==>
              && h.requested.clear && h.read.ReadOk? && Eligible(h.registry, h.read.snapshot) && GraphPasses(h)
              && Agent.Obedient(h, normalize, answers)
              && !Returned(h.preparing.prepared.intent.nonce, Run(g, events + [AnswerPrepare(call, answer, nonce)] + between).returned)
  {
    var after := events + [AnswerPrepare(call, answer, nonce)] + between;
    Agent.ApprovalExactly(h, normalize, answers);
    if Returned(h.preparing.prepared.intent.nonce, Run(g, after).returned) {
      if h.ledger == Agent.Awaiting {
        AwaitedNotReturned(g, after, h.preparing.prepared, h.accountId, refusal);
      }
    } else {
      LedgerAwaits(g, h, signer, events, call, answer, nonce, between, refusal);
    }
  }

  /**
   * An attempt that asks for approval locked the host's target and holds a request the gate issued for exactly
   * that target, bound to the clearance of the entry.
   */
  lemma ApprovedForTarget(g: Gate, h: Agent.Host, signer: Text, events: seq<Event>, call: nat, answer: Option<Snapshot>, nonce: Text,
                          between: seq<Event>, refusal: Agent.Code, normalize: Data -> Option<Text>, answers: nat -> Agent.Answer)
    requires ValidGate(g) && Served(g, h, signer, events, call, answer, nonce, between, refusal)
    requires Agent.Run(h, normalize, answers).Running?
    ensures var a := Agent.Run(h, normalize, answers).attempt;
            && a.target.Some? && a.prepared.Some?
            && NamesTarget(a.prepared.value.intent, a.target.value)
            && IntentBound(g.lib.hashing, a.prepared.value.intent, h.requested.clearance.value)
  {
    Agent.ApprovalFields(h, normalize, answers);
    IssuedForTarget(g, h, signer, events, call, answer, nonce);
  }

  lemma AwaitedRow(g: Gate, rows: Rows, p: Prepared, accountId: Option<Text>)
    requires GetAuthorizationStatus(g, rows, p, accountId).Some? && GetAuthorizationStatus(g, rows, p, accountId).value.AwaitingLedger?
    ensures p.intent.nonce in rows && !rows[p.intent.nonce].consumed
  {
  }
}
