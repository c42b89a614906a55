/** The agent itself: one mutable attempt a run, the attempts it keeps, and what later queries make of them. */
module DeploymentAgent {
  import opened Text
  import opened Values
  import opened AgentScript
  import Authorizations
  import Registry

  function AsProgress(running: bool, a: Attempt): Progress {
    if running then Running(a) else Stopped(a)
  }

  class MutableAttempt {
    var accountId: Option<Text>
    var target: Option<Target>
    var toolCalls: seq<ToolEvent>
    var observations: seq<Tool>
    var clearanceResult: Inspection
    var inspected: Option<Registry.Snapshot>
    var graph: Option<GraphStatus>
    var policy: Policy
    var digests: Option<(Text, Text)>
    var ledger: LedgerStatus
    var final: FinalStatus
    var prepared: Option<Authorizations.Prepared>

    function View(): Attempt
      reads this
    {
      Attempt(accountId, target, toolCalls, observations, clearanceResult, inspected, graph, policy, digests, ledger, final, prepared)
    }

    constructor (accountId: Option<Text>)
      ensures View() == NewAttempt(accountId)
    {
      this.accountId := accountId;
      target, toolCalls, observations := None, [], [];
      clearanceResult, inspected, graph := NotInspected, None, None;
      policy, digests, ledger, final, prepared := NotPrepared, None, NotRequested, Blocked, None;
    }

    method Record(tool: Tool, result: Mark, code: Option<Code>)
      modifies this`toolCalls, this`observations
      ensures View() == Recorded(old(View()), tool, result, code)
    {
      toolCalls := toolCalls + [ToolEvent(|toolCalls| + 1, tool, result, code)];
      observations := observations + [tool];
    }

    method Block(code: Code)
      modifies this`policy, this`ledger, this`final, this`prepared
      ensures View() == BlockedAttempt(old(View()), code)
    {
      policy, ledger, final, prepared := BlockedBy(code), NotRequested, Blocked, None;
    }

    method GraphTurn(h: Host) returns (running: bool)
      modifies this
      ensures AsProgress(running, View()) == GraphStep(h, old(View()))
    {
      if h.graph.NoReader? {
        Record(GetGraphContext, CallBlocked, Some(GraphUnavailable));
        Block(GraphUnavailable);
        return false;
      }
      if h.requested.clearance.None? {
        Record(GetGraphContext, CallBlocked, Some(GraphClearanceNotFound));
        Block(GraphClearanceNotFound);
        return false;
      }
      if h.graph.GraphFailed? {
        Record(GetGraphContext, CallBlocked, Some(h.graph.code));
        Block(h.graph.code);
        return false;
      }
      var status, reason := h.graph.status, h.graph.reason;
      graph := Some(status);
      Record(GetGraphContext, GraphContext(status),
             if status.Matched? || reason.None? then None else Some(GraphRefused(status, reason)));
      if !status.Matched? {
        Block(GraphRefused(status, reason));
        return false;
      }
      return true;
    }

    method InspectTurn(h: Host)
      modifies this
      ensures View() == Inspect(h, old(View()))
    {
      if h.requested.clearance.None? {
        Record(GetClearance, CallBlocked, Some(ClearanceNotFound));
        clearanceResult := InspectedBlocked(ClearanceNotFound);
      } else if h.read.ReadFailed? {
        Record(GetClearance, CallBlocked, Some(h.read.code));
        clearanceResult := InspectedBlocked(h.read.code);
      } else {
        inspected := Some(h.read.snapshot);
        var eligible := Registry.AssertEligible(h.registry, h.read.snapshot).Some?;
        Record(GetClearance, if eligible then ClearanceEligible else CallBlocked, if eligible then None else Some(Ineligible));
        clearanceResult := if eligible then InspectedEligible else InspectedBlocked(Ineligible);
      }
    }

    method ClearanceTurn(h: Host) returns (running: bool)
      modifies this
      ensures AsProgress(running, View()) == ClearanceStep(h, old(View()))
    {
      InspectTurn(h);
      if !h.requested.clear {
        Block(EvaluationHold);
        return false;
      }
      match clearanceResult {
        case InspectedEligible => return true;
        case InspectedBlocked(code) => Block(code); return false;
        case NotInspected => Block(ClearanceNotFound); return false;
      }
    }

    method PrepareTurn(h: Host) returns (running: bool)
      modifies this
      ensures AsProgress(running, View()) == PrepareStep(h, old(View()))
    {
      if h.preparing.PrepareFailed? {
        Record(PrepareDeploymentIntent, CallBlocked, Some(h.preparing.code));
        Block(h.preparing.code);
        return false;
      }
      prepared := Some(h.preparing.prepared);
      digests := Some((h.preparing.prepared.protocolIntentDigest, h.preparing.prepared.typedDataDigest));
      policy := PolicyPrepared;
      Record(PrepareDeploymentIntent, IntentPrepared, None);
      return true;
    }

    method LedgerTurn(h: Host) returns (running: bool)
      modifies this
      ensures AsProgress(running, View()) == LedgerStep(h, old(View()))
    {
      if !h.ledger.Awaiting? {
        Block(if h.ledger.LedgerFailed? then h.ledger.code else ProtocolViolation);
        return false;
      }
      ledger, final := AwaitingHuman, ApprovalRequired;
      Record(GetLedgerAuthorizationStatus, LedgerAwaited, None);
      return true;
    }

    method HostTurn(h: Host, tool: Tool) returns (running: bool)
      modifies this
      ensures AsProgress(running, View()) == HostStep(h, tool, old(View()))
    {
      match tool {
        case ResolveDeploymentTarget =>
          target := Some(h.requested.target);
          Record(tool, TargetResolved, None);
          running := true;
        case GetDeploymentContext =>
          Record(tool, ContextLocked, None);
          running := true;
        case GetEvaluationStatus =>
          Record(tool, if h.requested.clear then VerdictClear else VerdictHold, None);
          running := true;
        case GetGraphContext => running := GraphTurn(h);
        case GetClearance => running := ClearanceTurn(h);
        case PrepareDeploymentIntent => running := PrepareTurn(h);
        case GetLedgerAuthorizationStatus => running := LedgerTurn(h);
      }
    }

    /** One tool of the script: the model answers, then the host acts. */
    method Turn(h: Host, normalize: Data -> Option<Text>, tool: Tool, answers: nat -> Answer, n: nat, ghost tools: seq<Tool>)
      returns (running: bool)
      requires tools != [] && tools[0] == tool
      modifies this
      ensures var run := RunFrom(TurnOf(h), RefusalOf(h, normalize), tools, old(View()), answers, n);
              run == if running then RunFrom(TurnOf(h), RefusalOf(h, normalize), tools[1..], View(), answers, n + 1) else Stopped(View())
    {
      var refused := AnswerRefused(h, normalize, tool, answers(n));
      if refused.Some? {
        Block(refused.value);
        return false;
      }
      running := HostTurn(h, tool);
    }
  }

  type Attempts = map<Text, Attempt>

  class Agent {
    const normalize: Data -> Option<Text>
    var attempts: Attempts

    constructor (normalize: Data -> Option<Text>)
      ensures this.normalize == normalize && attempts == map[]
    {
      this.normalize := normalize;
      attempts := map[];
    }

    /** A run: every tool in order, until one is refused or blocked; the attempt is kept either way. */
    method Run(id: Text, h: Host, answers: nat -> Answer) returns (running: bool)
      modifies this
      ensures var r := AgentScript.Run(h, normalize, answers);
              running == r.Running? && attempts == old(attempts)[id := r.attempt]
    {
      var attempt := new MutableAttempt(h.accountId);
      ScriptShape(h);
      running := Opening(h, answers, attempt, Script(h));
      if running {
        running := Closing(h, answers, attempt);
      }
      attempts := attempts[id := attempt.View()];
    }

    /** The first three tools. */
    method Opening(h: Host, answers: nat -> Answer, attempt: MutableAttempt, ghost tools: seq<Tool>) returns (running: bool)
      requires |tools| >= 3
      requires tools[0] == ResolveDeploymentTarget && tools[1] == GetDeploymentContext && tools[2] == GetEvaluationStatus
      modifies attempt
      ensures RunFrom(TurnOf(h), RefusalOf(h, normalize), tools, old(attempt.View()), answers, 0) ==
              if running then RunFrom(TurnOf(h), RefusalOf(h, normalize), tools[3..], attempt.View(), answers, 3)
              else Stopped(attempt.View())
    {
      assert tools[1..][1..] == tools[2..] && tools[2..][1..] == tools[3..];
      running := attempt.Turn(h, normalize, ResolveDeploymentTarget, answers, 0, tools);
      if !running {
        return;
      }
      running := attempt.Turn(h, normalize, GetDeploymentContext, answers, 1, tools[1..]);
      if !running {
        return;
      }
      running := attempt.Turn(h, normalize, GetEvaluationStatus, answers, 2, tools[2..]);
    }

    /** The graph where it is asked, and the last three tools. */
    method Closing(h: Host, answers: nat -> Answer, attempt: MutableAttempt) returns (running: bool)
      modifies attempt
      ensures RunFrom(TurnOf(h), RefusalOf(h, normalize), ScriptEnd(h), old(attempt.View()), answers, 3) == AsProgress(running, attempt.View())
    {
      ghost var tools := ScriptEnd(h);
      var n := 3;
      if h.accountId.Some? || !h.graph.NoReader? {
        running := attempt.Turn(h, normalize, GetGraphContext, answers, n, tools);
        if !running {
          return;
        }
        tools, n := tools[1..], n + 1;
      }
      assert tools == LAST_TOOLS;
      running := attempt.Turn(h, normalize, GetClearance, answers, n, tools);
      if !running {
        return;
      }
      running := attempt.Turn(h, normalize, PrepareDeploymentIntent, answers, n + 1, tools[1..]);
      if !running {
        return;
      }
      running := attempt.Turn(h, normalize, GetLedgerAuthorizationStatus, answers, n + 2, tools[1..][1..]);
      assert tools[1..][1..][1..] == [];
    }

    /** The host could not resolve the request: the attempt is kept, blocked and empty. */
    method Refuse(id: Text, accountId: Option<Text>, code: Code)
      modifies this
      ensures attempts == old(attempts)[id := BlockedAttempt(NewAttempt(accountId), code)]
    {
      var attempt := new MutableAttempt(accountId);
      attempt.Block(code);
      attempts := attempts[id := attempt.View()];
    }

    /** The ledger status of a prepared attempt of the account, as the release gate reports it. */
    method AuthorizationStatus(id: Text, accountId: Option<Text>, ledger: Ledger) returns (r: Option<Attempt>)
      modifies this
      ensures (attempts, r) == Queried(old(attempts), id, accountId, ledger)
      ensures !ledger.AlreadyAuthorized? ==> attempts == old(attempts)
      ensures ledger.AlreadyAuthorized? && r.Some? ==>
                && attempts == old(attempts)[id := r.value]
                && r.value.final == Authorized && r.value.ledger == LedgerAuthorized && r.value.policy == AuthorizationVerified
    {
      if id !in attempts || attempts[id].prepared.None? {
        return None;
      }
      var attempt := attempts[id];
      if attempt.accountId.Some? && attempt.accountId != accountId {
        return None;
      }
      if ledger.LedgerFailed? {
        return None;
      }
      if ledger.Awaiting? {
        return Some(attempt);
      }
      attempt := attempt.(ledger := LedgerAuthorized, final := Authorized, policy := AuthorizationVerified);
      attempts := attempts[id := attempt];
      return Some(attempt);
    }
  }

  const LAST_TOOLS: seq<Tool> := [GetClearance, PrepareDeploymentIntent, GetLedgerAuthorizationStatus]

  function ScriptEnd(h: Host): seq<Tool> {
    (if h.accountId.Some? || !h.graph.NoReader? then [GetGraphContext] else []) + LAST_TOOLS
  }

  lemma ScriptShape(h: Host)
    ensures |Script(h)| >= 3 && Script(h)[3..] == ScriptEnd(h)
    ensures Script(h)[0] == ResolveDeploymentTarget && Script(h)[1] == GetDeploymentContext && Script(h)[2] == GetEvaluationStatus
  {
  }

  function Queried(attempts: Attempts, id: Text, accountId: Option<Text>, ledger: Ledger): (Attempts, Option<Attempt>) {
    if id !in attempts || attempts[id].prepared.None? then (attempts, None)
    else if attempts[id].accountId.Some? && attempts[id].accountId != accountId then (attempts, None)
    else
      match ledger
      case LedgerFailed(_) => (attempts, None)
      case Awaiting => (attempts, Some(attempts[id]))
      case AlreadyAuthorized =>
        var a := attempts[id].(ledger := LedgerAuthorized, final := Authorized, policy := AuthorizationVerified);
        (attempts[id := a], Some(a))
  }

  // ---------- Every history of attempts ----------

  /** Attempt identifiers are random: a run under one that is taken does not happen. */
  datatype Event =
    | Ran(id: Text, host: Host, answers: nat -> Answer)
    | RefusedRun(id: Text, accountId: Option<Text>, code: Code)
    | Query(id: Text, accountId: Option<Text>, ledger: Ledger)

  ghost function Step(normalize: Data -> Option<Text>, attempts: Attempts, e: Event): Attempts {
    match e
    case Ran(id, host, answers) =>
      if id in attempts then attempts else attempts[id := AgentScript.Run(host, normalize, answers).attempt]
    case RefusedRun(id, accountId, code) =>
      if id in attempts then attempts else attempts[id := BlockedAttempt(NewAttempt(accountId), code)]
    case Query(id, accountId, ledger) => Queried(attempts, id, accountId, ledger).0
  }

  ghost function After(normalize: Data -> Option<Text>, attempts: Attempts, events: seq<Event>): Attempts
    decreases |events|
  {
    if events == [] then attempts else After(normalize, Step(normalize, attempts, events[0]), events[1..])
  }

  /** An attempt holds a prepared request exactly while it is not blocked. */
  predicate PreparedUnlessBlocked(attempts: Attempts) {
    forall id :: id in attempts ==> (attempts[id].final == Blocked <==> attempts[id].prepared.None?)
  }

  lemma RunPrepared(h: Host, normalize: Data -> Option<Text>, answers: nat -> Answer)
    ensures var a := AgentScript.Run(h, normalize, answers).attempt;
            a.final == Blocked <==> a.prepared.None?
  {
    RunOrBlocked(h, normalize, answers);
    if AgentScript.Run(h, normalize, answers).Running? {
      ApprovalFields(h, normalize, answers);
    }
  }

  lemma StepPrepared(normalize: Data -> Option<Text>, attempts: Attempts, e: Event)
    requires PreparedUnlessBlocked(attempts)
    ensures PreparedUnlessBlocked(Step(normalize, attempts, e))
  {
    if e.Ran? {
      RunPrepared(e.host, normalize, e.answers);
    }
  }

  /** A blocked attempt is final: no later run or query changes it, so it is never authorized. */
  lemma {:induction false} BlockedForever(normalize: Data -> Option<Text>, attempts: Attempts, events: seq<Event>, id: Text)
    requires PreparedUnlessBlocked(attempts) && id in attempts && attempts[id].final == Blocked
    ensures var after := After(normalize, attempts, events);
            id in after && after[id] == attempts[id]
    decreases |events|
  {
    if events != [] {
      StepPrepared(normalize, attempts, events[0]);
      BlockedForever(normalize, Step(normalize, attempts, events[0]), events[1..], id);
    }
  }
}
