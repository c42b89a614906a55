/** The deployment agent: the tools in their fixed order, what the host does for each, and what the model may say. */
module AgentScript {
  import opened Text
  import opened Values
  import opened Schemas
  import opened Records
  import Registry
  import Authorizations

  // ---------- Tools and answers ----------

  datatype Tool =
    | ResolveDeploymentTarget
    | GetDeploymentContext
    | GetEvaluationStatus
    | GetGraphContext
    | GetClearance
    | PrepareDeploymentIntent
    | GetLedgerAuthorizationStatus

  function ToolName(tool: Tool): Text {
    match tool
    case ResolveDeploymentTarget => Ascii("resolveDeploymentTarget")
    case GetDeploymentContext => Ascii("getDeploymentContext")
    case GetEvaluationStatus => Ascii("getEvaluationStatus")
    case GetGraphContext => Ascii("getGraphContext")
    case GetClearance => Ascii("getClearance")
    case PrepareDeploymentIntent => Ascii("prepareDeploymentIntent")
    case GetLedgerAuthorizationStatus => Ascii("getLedgerAuthorizationStatus")
  }

  datatype Code =
    | ProtocolViolation
    | MalformedRequest
    | TargetNotFound
    | TargetAmbiguous
    | EvaluationHold
    | ClearanceNotFound
    | Ineligible
    | GraphUnavailable
    | GraphClearanceNotFound
    | GraphRefused(status: GraphStatus, reason: Option<Text>)
    | Other(code: Text)

  /** What the model does when a tool is expected: it throws, with a code of the agent or without, or it calls. */
  datatype Answer = Threw(code: Option<Code>) | Called(name: Text, arguments: Data)

  const REFERENCES: seq<Text> := [Ascii("siteRef"), Ascii("robotRef"), Ascii("buildRef")]

  /** The arguments of a call of the expected tool, with exactly its parameters. */
  function ParseToolArguments(expected: Tool, name: Text, arguments: Data): Option<seq<Data>> {
    if name != ToolName(expected) then None
    else ExactValues(arguments, if expected.ResolveDeploymentTarget? then REFERENCES else [])
  }

  // ---------- The catalog ----------

  datatype Target = Target(siteId: Text, robotId: Text, robotBuildId: Text, robotBuildDigest: Text)

  datatype Entry = Entry(
    key: Text, sites: seq<Text>, robots: seq<Text>, builds: seq<Text>, target: Target, clear: bool,
    clearance: Option<ClearanceRecord>)

  function Matching(entries: seq<Entry>, site: Text, robot: Text, build: Text): seq<Entry> {
    if entries == [] then []
    else
      (if site in entries[0].sites && robot in entries[0].robots && build in entries[0].builds then [entries[0]] else [])
      + Matching(entries[1..], site, robot, build)
  }

  datatype Resolution = Resolved(entry: Entry) | Refused(code: Code)

  /** The one entry all three references name. */
  function Resolve(normalize: Data -> Option<Text>, entries: seq<Entry>, references: seq<Data>): Resolution
    requires |references| == 3
  {
    match (normalize(references[0]), normalize(references[1]), normalize(references[2]))
    case (Some(site), Some(robot), Some(build)) =>
      var matches := Matching(entries, site, robot, build);
      if matches == [] then Refused(TargetNotFound)
      else if |matches| != 1 then Refused(TargetAmbiguous)
      else Resolved(matches[0])
    case _ => Refused(MalformedRequest)
  }

  predicate Names(entry: Entry, site: Text, robot: Text, build: Text) {
    site in entry.sites && robot in entry.robots && build in entry.builds
  }

  /** Position i of the catalog, and no other, holds an entry with all three names. */
  predicate OnlyAt(entries: seq<Entry>, i: int, site: Text, robot: Text, build: Text) {
    && 0 <= i < |entries| && Names(entries[i], site, robot, build)
    && forall j :: 0 <= j < |entries| && j != i ==> !Names(entries[j], site, robot, build)
  }

  lemma {:induction false} MatchingEmpty(entries: seq<Entry>, site: Text, robot: Text, build: Text)
    ensures Matching(entries, site, robot, build) == [] <==> forall j :: 0 <= j < |entries| ==> !Names(entries[j], site, robot, build)
  {
    if entries != [] {
      MatchingEmpty(entries[1..], site, robot, build);
      assert forall j :: 1 <= j < |entries| ==> entries[j] == entries[1..][j - 1];
    }
  }

  lemma {:induction false} MatchingOne(entries: seq<Entry>, site: Text, robot: Text, build: Text, entry: Entry)
    ensures Matching(entries, site, robot, build) == [entry] <==>
            exists i :: OnlyAt(entries, i, site, robot, build) && entries[i] == entry
  {
    if entries != [] {
      var rest := entries[1..];
      MatchingEmpty(rest, site, robot, build);
      MatchingOne(rest, site, robot, build, entry);
      assert forall j :: 1 <= j < |entries| ==> entries[j] == rest[j - 1];
      if Names(entries[0], site, robot, build) {
        if Matching(entries, site, robot, build) == [entry] {
          assert Matching(rest, site, robot, build) == Matching(entries, site, robot, build)[1..] == [];
          assert OnlyAt(entries, 0, site, robot, build);
        }
      } else {
        forall i | OnlyAt(rest, i, site, robot, build) ensures OnlyAt(entries, i + 1, site, robot, build) {
        }
        forall i | OnlyAt(entries, i, site, robot, build) ensures OnlyAt(rest, i - 1, site, robot, build) {
        }
      }
    }
  }

  /** A request is resolved exactly when its three references name one catalog entry and no second one. */
  lemma ResolveExact(normalize: Data -> Option<Text>, entries: seq<Entry>, references: seq<Data>, entry: Entry)
    requires |references| == 3
    ensures Resolve(normalize, entries, references) == Resolved(entry) <==>
              && normalize(references[0]).Some? && normalize(references[1]).Some? && normalize(references[2]).Some?
              && exists i ::
                   && OnlyAt(entries, i, normalize(references[0]).value, normalize(references[1]).value, normalize(references[2]).value)
                   && entries[i] == entry
  {
    match (normalize(references[0]), normalize(references[1]), normalize(references[2]))
    case (Some(site), Some(robot), Some(build)) => MatchingOne(entries, site, robot, build, entry);
    case _ =>
  }

  // ---------- The host ----------

  datatype GraphStatus = Matched | NotFound | Revoked | Expired | Mismatch

  datatype Graph = NoReader | GraphFailed(code: Code) | GraphRead(status: GraphStatus, reason: Option<Text>)

  datatype Read = ReadFailed(code: Code) | ReadOk(snapshot: Registry.Snapshot)

  datatype Preparing = PrepareFailed(code: Code) | PrepareOk(prepared: Authorizations.Prepared)

  datatype Ledger = LedgerFailed(code: Code) | Awaiting | AlreadyAuthorized

  /** Everything a run depends on besides the model: the resolved entry and the answers of the other services. */
  datatype Host = Host(
    requested: Entry, catalog: seq<Entry>, accountId: Option<Text>, registry: Text,
    graph: Graph, read: Read, preparing: Preparing, ledger: Ledger)

  datatype Mark =
    | TargetResolved
    | ContextLocked
    | VerdictClear
    | VerdictHold
    | GraphContext(status: GraphStatus)
    | ClearanceEligible
    | IntentPrepared
    | LedgerAwaited
    | CallBlocked

  datatype ToolEvent = ToolEvent(sequence: nat, tool: Tool, result: Mark, code: Option<Code>)

  datatype LedgerStatus = NotRequested | AwaitingHuman | LedgerAuthorized

  datatype FinalStatus = Blocked | ApprovalRequired | Authorized

  datatype Policy = NotPrepared | PolicyPrepared | AuthorizationVerified | BlockedBy(code: Code)

  datatype Inspection = NotInspected | InspectedEligible | InspectedBlocked(code: Code)

  /** The fields of an attempt. An observation is told to the model for every recorded tool. */
  datatype Attempt = Attempt(
    accountId: Option<Text>, target: Option<Target>, toolCalls: seq<ToolEvent>, observations: seq<Tool>,
    clearanceResult: Inspection, inspected: Option<Registry.Snapshot>, graph: Option<GraphStatus>, policy: Policy,
    digests: Option<(Text, Text)>, ledger: LedgerStatus, final: FinalStatus, prepared: Option<Authorizations.Prepared>)

  function NewAttempt(accountId: Option<Text>): Attempt {
    Attempt(accountId, None, [], [], NotInspected, None, None, NotPrepared, None, NotRequested, Blocked, None)
  }

  function Recorded(a: Attempt, tool: Tool, result: Mark, code: Option<Code>): Attempt {
    a.(toolCalls := a.toolCalls + [ToolEvent(|a.toolCalls| + 1, tool, result, code)], observations := a.observations + [tool])
  }

  function BlockedAttempt(a: Attempt, code: Code): Attempt {
    a.(policy := BlockedBy(code), ledger := NotRequested, final := Blocked, prepared := None)
  }

  datatype Progress = Running(attempt: Attempt) | Stopped(attempt: Attempt)

  function Stop(a: Attempt, code: Code): Progress {
    Stopped(BlockedAttempt(a, code))
  }

  function GraphStep(h: Host, a: Attempt): Progress {
    if h.graph.NoReader? then Stop(Recorded(a, GetGraphContext, CallBlocked, Some(GraphUnavailable)), GraphUnavailable)
    else if h.requested.clearance.None? then
      Stop(Recorded(a, GetGraphContext, CallBlocked, Some(GraphClearanceNotFound)), GraphClearanceNotFound)
    else
      match h.graph
      case GraphFailed(code) => Stop(Recorded(a, GetGraphContext, CallBlocked, Some(code)), code)
      case GraphRead(status, reason) =>
        var b := Recorded(a.(graph := Some(status)), GetGraphContext, GraphContext(status),
                          if status.Matched? || reason.None? then None else Some(GraphRefused(status, reason)));
        if status.Matched? then Running(b) else Stop(b, GraphRefused(status, reason))
  }

  /** The inspection of the clearance, and the two guards after it: first the verdict, then the clearance. */
  function ClearanceStep(h: Host, a: Attempt): Progress {
    var b := Inspect(h, a);
    if !h.requested.clear then Stop(b, EvaluationHold)
    else
      match b.clearanceResult
      case InspectedEligible => Running(b)
      case InspectedBlocked(code) => Stop(b, code)
      case NotInspected => Stop(b, ClearanceNotFound)
  }

  function Inspect(h: Host, a: Attempt): Attempt {
    if h.requested.clearance.None? then
      Recorded(a, GetClearance, CallBlocked, Some(ClearanceNotFound)).(clearanceResult := InspectedBlocked(ClearanceNotFound))
    else
      match h.read
      case ReadFailed(code) => Recorded(a, GetClearance, CallBlocked, Some(code)).(clearanceResult := InspectedBlocked(code))
      case ReadOk(snapshot) =>
        var b := a.(inspected := Some(snapshot));
        if Registry.AssertEligible(h.registry, snapshot).Some? then
          Recorded(b, GetClearance, ClearanceEligible, None).(clearanceResult := InspectedEligible)
        else Recorded(b, GetClearance, CallBlocked, Some(Ineligible)).(clearanceResult := InspectedBlocked(Ineligible))
  }

  function PrepareStep(h: Host, a: Attempt): Progress {
    match h.preparing
    case PrepareFailed(code) => Stop(Recorded(a, PrepareDeploymentIntent, CallBlocked, Some(code)), code)
    case PrepareOk(p) =>
      Running(Recorded(a.(prepared := Some(p), digests := Some((p.protocolIntentDigest, p.typedDataDigest)), policy := PolicyPrepared),
                       PrepareDeploymentIntent, IntentPrepared, None))
  }

  function LedgerStep(h: Host, a: Attempt): Progress {
    match h.ledger
    case LedgerFailed(code) => Stop(a, code)
    case AlreadyAuthorized => Stop(a, ProtocolViolation)
    case Awaiting =>
      Running(Recorded(a.(ledger := AwaitingHuman, final := ApprovalRequired), GetLedgerAuthorizationStatus, LedgerAwaited, None))
  }

  /** What the host does once the model called the expected tool. */
  function HostStep(h: Host, tool: Tool, a: Attempt): Progress {
    match tool
    case ResolveDeploymentTarget => Running(Recorded(a.(target := Some(h.requested.target)), tool, TargetResolved, None))
    case GetDeploymentContext => Running(Recorded(a, tool, ContextLocked, None))
    case GetEvaluationStatus => Running(Recorded(a, tool, if h.requested.clear then VerdictClear else VerdictHold, None))
    case GetGraphContext => GraphStep(h, a)
    case GetClearance => ClearanceStep(h, a)
    case PrepareDeploymentIntent => PrepareStep(h, a)
    case GetLedgerAuthorizationStatus => LedgerStep(h, a)
  }

  /** The tools of a run, in order. The graph is asked for an account or when a reader is configured. */
  function Script(h: Host): seq<Tool> {
    [ResolveDeploymentTarget, GetDeploymentContext, GetEvaluationStatus]
    + (if h.accountId.Some? || !h.graph.NoReader? then [GetGraphContext] else [])
    + [GetClearance, PrepareDeploymentIntent, GetLedgerAuthorizationStatus]
  }

  // ---------- The model against the host ----------

  /** A refusal of the answer, or nothing when the model called the expected tool and named the host's target. */
  function AnswerRefused(h: Host, normalize: Data -> Option<Text>, tool: Tool, answer: Answer): Option<Code> {
    match answer
    case Threw(code) => Some(if code.Some? then code.value else ProtocolViolation)
    case Called(name, arguments) =>
      match ParseToolArguments(tool, name, arguments)
      case None => Some(ProtocolViolation)
      case Some(values) =>
        if !tool.ResolveDeploymentTarget? then None
        else
          match Resolve(normalize, h.catalog, values)
          case Refused(code) => Some(code)
          case Resolved(entry) => if entry.key == h.requested.key then None else Some(ProtocolViolation)
  }

  /** What the host does for a tool, and what it refuses of an answer. */
  type HostTurn = (Tool, Attempt) -> Progress

  type Refusal = (Tool, Answer) -> Option<Code>

  function Perform(step: HostTurn, refusal: Refusal, tool: Tool, a: Attempt, answer: Answer): Progress {
    var refused := refusal(tool, answer);
    if refused.Some? then Stop(a, refused.value) else step(tool, a)
  }

  /** The rest of a run, the model's answers numbered from n. */
  function RunFrom(step: HostTurn, refusal: Refusal, tools: seq<Tool>, a: Attempt, answers: nat -> Answer, n: nat): Progress
    decreases |tools|
  {
    if tools == [] then Running(a)
    else
      match Perform(step, refusal, tools[0], a, answers(n))
      case Stopped(b) => Stopped(b)
      case Running(b) => RunFrom(step, refusal, tools[1..], b, answers, n + 1)
  }

  /** The same run with the host alone. */
  function HostFrom(step: HostTurn, tools: seq<Tool>, a: Attempt): Progress
    decreases |tools|
  {
    if tools == [] then Running(a)
    else
      match step(tools[0], a)
      case Stopped(b) => Stopped(b)
      case Running(b) => HostFrom(step, tools[1..], b)
  }

  function TurnOf(h: Host): HostTurn {
    (tool: Tool, a: Attempt) => HostStep(h, tool, a)
  }

  function RefusalOf(h: Host, normalize: Data -> Option<Text>): Refusal {
    (tool: Tool, answer: Answer) => AnswerRefused(h, normalize, tool, answer)
  }

  function Run(h: Host, normalize: Data -> Option<Text>, answers: nat -> Answer): Progress {
    RunFrom(TurnOf(h), RefusalOf(h, normalize), Script(h), NewAttempt(h.accountId), answers, 0)
  }

  function HostRun(h: Host): Progress {
    HostFrom(TurnOf(h), Script(h), NewAttempt(h.accountId))
  }

  // ---------- The recorded trace ----------

  /** Sequence numbers count from one and the tools are a prefix of the given ones. */
  predicate Follows(trace: seq<ToolEvent>, tools: seq<Tool>) {
    && |trace| <= |tools|
    && forall i :: 0 <= i < |trace| ==> trace[i].sequence == i + 1 && trace[i].tool == tools[i]
  }

  /** At most one event is recorded, for the tool that was called. */
  predicate Extends(a: Attempt, b: Attempt, tool: Tool) {
    && a.toolCalls <= b.toolCalls && |b.toolCalls| <= |a.toolCalls| + 1
    && (|b.toolCalls| == |a.toolCalls| + 1 ==>
          b.toolCalls[|a.toolCalls|].sequence == |a.toolCalls| + 1 && b.toolCalls[|a.toolCalls|].tool == tool)
  }

  predicate IsBlocked(a: Attempt) {
    a.final == Blocked && a.prepared.None? && a.policy.BlockedBy?
  }

  lemma InspectExtends(h: Host, a: Attempt)
    ensures Extends(a, Inspect(h, a), GetClearance) && |Inspect(h, a).toolCalls| == |a.toolCalls| + 1
  {
  }

  predicate StepRecords(a: Attempt, tool: Tool, b: Progress) {
    && Extends(a, b.attempt, tool)
    && (b.Running? ==> |b.attempt.toolCalls| == |a.toolCalls| + 1)
    && (b.Stopped? ==> IsBlocked(b.attempt))
  }

  lemma GraphStepRecords(h: Host, a: Attempt)
    ensures StepRecords(a, GetGraphContext, GraphStep(h, a))
  {
  }

  lemma ClearanceStepRecords(h: Host, a: Attempt)
    ensures StepRecords(a, GetClearance, ClearanceStep(h, a))
  {
    InspectExtends(h, a);
  }

  lemma OtherStepRecords(h: Host, a: Attempt)
    ensures StepRecords(a, PrepareDeploymentIntent, PrepareStep(h, a))
    ensures StepRecords(a, GetLedgerAuthorizationStatus, LedgerStep(h, a))
  {
  }

  lemma HostStepRecords(h: Host, tool: Tool, a: Attempt)
    ensures StepRecords(a, tool, HostStep(h, tool, a))
  {
    match tool
    case GetGraphContext => GraphStepRecords(h, a);
    case GetClearance => ClearanceStepRecords(h, a);
    case _ => OtherStepRecords(h, a);
  }

  ghost predicate Recording(step: HostTurn) {
    forall tool, a :: StepRecords(a, tool, step(tool, a))
  }

  lemma HostRecords(h: Host)
    ensures Recording(TurnOf(h))
  {
    forall tool, a ensures StepRecords(a, tool, TurnOf(h)(tool, a)) {
      HostStepRecords(h, tool, a);
    }
  }

  /** The host alone extends the trace along the script. */
  lemma {:induction false} HostFollows(step: HostTurn, before: seq<Tool>, tools: seq<Tool>, a: Attempt)
    requires Recording(step) && Follows(a.toolCalls, before) && |a.toolCalls| == |before|
    ensures a.toolCalls <= HostFrom(step, tools, a).attempt.toolCalls
    ensures Follows(HostFrom(step, tools, a).attempt.toolCalls, before + tools)
    decreases |tools|
  {
    if tools != [] {
      var b := step(tools[0], a);
      assert StepRecords(a, tools[0], b);
      var first := before + [tools[0]];
      assert before + tools == first + tools[1..];
      if b.Running? {
        HostFollows(step, first, tools[1..], b.attempt);
      }
    }
  }

  /** Whatever the model answers, the run is the host's run, or it is blocked with a prefix of its trace. */
  lemma {:induction false} RunIsHostOrBlocked(
      step: HostTurn, refusal: Refusal, before: seq<Tool>, tools: seq<Tool>, a: Attempt, answers: nat -> Answer, n: nat)
    requires Recording(step) && Follows(a.toolCalls, before) && |a.toolCalls| == |before|
    ensures var r := RunFrom(step, refusal, tools, a, answers, n);
            var host := HostFrom(step, tools, a);
            && (r == host || (r.Stopped? && r.attempt.toolCalls <= host.attempt.toolCalls))
            && (r.Stopped? ==> IsBlocked(r.attempt))
    decreases |tools|
  {
    HostFollows(step, before, tools, a);
    if tools != [] && refusal(tools[0], answers(n)).None? {
      var b := step(tools[0], a);
      assert StepRecords(a, tools[0], b);
      if b.Running? {
        RunIsHostOrBlocked(step, refusal, before + [tools[0]], tools[1..], b.attempt, answers, n + 1);
      }
    }
  }

  lemma RunOrBlocked(h: Host, normalize: Data -> Option<Text>, answers: nat -> Answer)
    ensures var r := Run(h, normalize, answers);
            && (r == HostRun(h) || (r.Stopped? && r.attempt.toolCalls <= HostRun(h).attempt.toolCalls))
            && (r.Stopped? ==> IsBlocked(r.attempt))
    ensures Follows(HostRun(h).attempt.toolCalls, Script(h))
  {
    HostRecords(h);
    HostFollows(TurnOf(h), [], Script(h), NewAttempt(h.accountId));
    RunIsHostOrBlocked(TurnOf(h), RefusalOf(h, normalize), [], Script(h), NewAttempt(h.accountId), answers, 0);
    assert [] + Script(h) == Script(h);
  }

  /** Every run records a prefix of the fixed order of tools, numbered from one. */
  lemma TraceFollowsScript(h: Host, normalize: Data -> Option<Text>, answers: nat -> Answer)
    ensures Follows(Run(h, normalize, answers).attempt.toolCalls, Script(h))
  {
    RunOrBlocked(h, normalize, answers);
  }

  /** Two runs that differ only in the model's answers and are not blocked end in the same attempt. */
  lemma ModelDoesNotMatter(h: Host, normalize: Data -> Option<Text>, one: nat -> Answer, other: nat -> Answer)
    requires Run(h, normalize, one).Running? && Run(h, normalize, other).Running?
    ensures Run(h, normalize, one) == Run(h, normalize, other) == HostRun(h)
  {
    RunOrBlocked(h, normalize, one);
    RunOrBlocked(h, normalize, other);
  }

  // ---------- When a run gets through ----------

  /** The host lets a tool through, whatever was recorded before. */
  predicate Passes(h: Host, tool: Tool) {
    match tool
    case GetGraphContext => h.requested.clearance.Some? && h.graph.GraphRead? && h.graph.status.Matched?
    case GetClearance =>
      && h.requested.clear && h.requested.clearance.Some? && h.read.ReadOk?
      && Registry.AssertEligible(h.registry, h.read.snapshot).Some?
    case PrepareDeploymentIntent => h.preparing.PrepareOk?
    case GetLedgerAuthorizationStatus => h.ledger.Awaiting?
    case _ => true
  }

  lemma HostStepPasses(h: Host, tool: Tool, a: Attempt)
    ensures HostStep(h, tool, a).Running? <==> Passes(h, tool)
  {
  }

  ghost predicate Passing(step: HostTurn, passes: Tool -> bool) {
    forall tool, a :: step(tool, a).Running? <==> passes(tool)
  }

  /** Every tool from here passes and every answer from here is obedient. */
  predicate AllPass(passes: Tool -> bool, refusal: Refusal, tools: seq<Tool>, answers: nat -> Answer, n: nat)
    decreases |tools|
  {
    tools == []
    || (passes(tools[0]) && refusal(tools[0], answers(n)).None? && AllPass(passes, refusal, tools[1..], answers, n + 1))
  }

  lemma {:induction false} RunFromExact(
      step: HostTurn, passes: Tool -> bool, refusal: Refusal, tools: seq<Tool>, a: Attempt, answers: nat -> Answer, n: nat)
    requires Passing(step, passes)
    ensures RunFrom(step, refusal, tools, a, answers, n).Running? <==> AllPass(passes, refusal, tools, answers, n)
    decreases |tools|
  {
    if tools != [] {
      var b := Perform(step, refusal, tools[0], a, answers(n));
      if b.Running? {
        RunFromExact(step, passes, refusal, tools[1..], b.attempt, answers, n + 1);
      }
    }
  }

  predicate PassAt(passes: Tool -> bool, refusal: Refusal, tools: seq<Tool>, answers: nat -> Answer, n: nat, i: nat)
    requires i < |tools|
  {
    passes(tools[i]) && refusal(tools[i], answers(n + i)).None?
  }

  lemma PassShifts(passes: Tool -> bool, refusal: Refusal, tools: seq<Tool>, answers: nat -> Answer, n: nat, j: nat)
    requires 0 < j < |tools|
    ensures PassAt(passes, refusal, tools, answers, n, j) <==> PassAt(passes, refusal, tools[1..], answers, n + 1, j - 1)
  {
    assert n + 1 + (j - 1) == n + j;
  }

  lemma {:induction false} AllPassMeaning(passes: Tool -> bool, refusal: Refusal, tools: seq<Tool>, answers: nat -> Answer, n: nat)
    ensures AllPass(passes, refusal, tools, answers, n) <==>
            forall i: nat :: i < |tools| ==> PassAt(passes, refusal, tools, answers, n, i)
    decreases |tools|
  {
    if tools != [] {
      var rest := tools[1..];
      AllPassMeaning(passes, refusal, rest, answers, n + 1);
      assert PassAt(passes, refusal, tools, answers, n, 0) <==> passes(tools[0]) && refusal(tools[0], answers(n)).None?;
      if AllPass(passes, refusal, tools, answers, n) {
        forall j: nat | j < |tools| ensures PassAt(passes, refusal, tools, answers, n, j) {
          if j > 0 {
            PassShifts(passes, refusal, tools, answers, n, j);
          }
        }
      } else if PassAt(passes, refusal, tools, answers, n, 0) {
        var i: nat :| i < |rest| && !PassAt(passes, refusal, rest, answers, n + 1, i);
        PassShifts(passes, refusal, tools, answers, n, i + 1);
      }
    }
  }

  /** What the host must find for the ledger to be asked. */
  predicate Ready(h: Host) {
    && h.requested.clear && h.requested.clearance.Some?
    && h.read.ReadOk? && Registry.Eligible(h.registry, h.read.snapshot)
    && (h.accountId.Some? || !h.graph.NoReader? ==> h.graph.GraphRead? && h.graph.status.Matched?)
    && h.preparing.PrepareOk? && h.ledger.Awaiting?
  }

  lemma ScriptPasses(h: Host)
    ensures (forall i :: 0 <= i < |Script(h)| ==> Passes(h, Script(h)[i])) <==> Ready(h)
  {
    if h.read.ReadOk? {
      Registry.EligibleMeaning(h.registry, h.read.snapshot);
    }
    var s := Script(h);
    var n := |s|;
    assert s[n - 3] == GetClearance && s[n - 2] == PrepareDeploymentIntent && s[n - 1] == GetLedgerAuthorizationStatus;
    if n == 7 {
      assert s[3] == GetGraphContext;
    }
  }

  /** The model called every expected tool, and named the host's target at the first. */
  predicate Obedient(h: Host, normalize: Data -> Option<Text>, answers: nat -> Answer) {
    forall i: nat :: i < |Script(h)| ==> AnswerRefused(h, normalize, Script(h)[i], answers(i)).None?
  }

  /**
   * Approval is asked for exactly when the verdict is CLEAR, the clearance eligible on chain, the graph matched
   * where it is asked, the intent prepared, the ledger awaited, and the model obedient at every tool.
   */
  lemma ApprovalExactly(h: Host, normalize: Data -> Option<Text>, answers: nat -> Answer)
    ensures Run(h, normalize, answers).Running? <==> Ready(h) && Obedient(h, normalize, answers)
  {
    var passes := (tool: Tool) => Passes(h, tool);
    var step, refusal, s := TurnOf(h), RefusalOf(h, normalize), Script(h);
    forall tool, a ensures step(tool, a).Running? <==> passes(tool) {
      HostStepPasses(h, tool, a);
    }
    RunFromExact(step, passes, refusal, s, NewAttempt(h.accountId), answers, 0);
    AllPassMeaning(passes, refusal, s, answers, 0);
    ScriptPasses(h);
    forall i: nat | i < |s|
      ensures PassAt(passes, refusal, s, answers, 0, i) <==> Passes(h, s[i]) && AnswerRefused(h, normalize, s[i], answers(i)).None?
    {
    }
  }

  /** The fields a tool sets, and no other tool touches. */
  predicate Sets(h: Host, tools: seq<Tool>, a: Attempt, b: Attempt) {
    && b.accountId == a.accountId
    && b.target == (if ResolveDeploymentTarget in tools then Some(h.requested.target) else a.target)
    && (if PrepareDeploymentIntent in tools then h.preparing.PrepareOk? && b.prepared == Some(h.preparing.prepared)
        else b.prepared == a.prepared)
    && b.final == (if GetLedgerAuthorizationStatus in tools then ApprovalRequired else a.final)
  }

  lemma StepSets(h: Host, tool: Tool, a: Attempt)
    requires HostStep(h, tool, a).Running?
    ensures Sets(h, [tool], a, HostStep(h, tool, a).attempt)
  {
  }

  lemma SetsTransitive(h: Host, tool: Tool, rest: seq<Tool>, a: Attempt, b: Attempt, c: Attempt)
    requires Sets(h, [tool], a, b) && Sets(h, rest, b, c)
    ensures Sets(h, [tool] + rest, a, c)
  {
  }

  lemma {:induction false} HostSets(h: Host, tools: seq<Tool>, a: Attempt)
    requires HostFrom(TurnOf(h), tools, a).Running?
    ensures Sets(h, tools, a, HostFrom(TurnOf(h), tools, a).attempt)
    decreases |tools|
  {
    if tools != [] {
      var b := TurnOf(h)(tools[0], a);
      StepSets(h, tools[0], a);
      HostSets(h, tools[1..], b.attempt);
      SetsTransitive(h, tools[0], tools[1..], a, b.attempt, HostFrom(TurnOf(h), tools[1..], b.attempt).attempt);
      assert tools == [tools[0]] + tools[1..];
    }
  }

  /** Such a run locked the host's own target and holds the request the host prepared. */
  lemma ApprovalFields(h: Host, normalize: Data -> Option<Text>, answers: nat -> Answer)
    requires Run(h, normalize, answers).Running?
    ensures var a := Run(h, normalize, answers).attempt;
            && Ready(h) && a.target == Some(h.requested.target) && a.prepared == Some(h.preparing.prepared)
            && a.final == ApprovalRequired && a.accountId == h.accountId
  {
    ApprovalExactly(h, normalize, answers);
    RunOrBlocked(h, normalize, answers);
    HostSets(h, Script(h), NewAttempt(h.accountId));
    ScriptHas(h);
  }

  lemma ScriptHas(h: Host)
    ensures ResolveDeploymentTarget in Script(h) && PrepareDeploymentIntent in Script(h)
    ensures GetLedgerAuthorizationStatus in Script(h)
  {
    var s := Script(h);
    assert s[0] == ResolveDeploymentTarget && s[|s| - 2] == PrepareDeploymentIntent && s[|s| - 1] == GetLedgerAuthorizationStatus;
  }

  // ---------- The whole record of a run that gets through ----------

  /** What a tool that passes is recorded as. */
  function PassMark(h: Host, tool: Tool): Mark {
    match tool
    case ResolveDeploymentTarget => TargetResolved
    case GetDeploymentContext => ContextLocked
    case GetEvaluationStatus => if h.requested.clear then VerdictClear else VerdictHold
    case GetGraphContext => GraphContext(Matched)
    case GetClearance => ClearanceEligible
    case PrepareDeploymentIntent => IntentPrepared
    case GetLedgerAuthorizationStatus => LedgerAwaited
  }

  /** The event of a tool that passed, at its place in the trace. */
  predicate PassEvent(h: Host, tool: Tool, n: nat, e: ToolEvent) {
    e.sequence == n + 1 && e.tool == tool && e.result == PassMark(h, tool) && e.code.None?
  }

  /** The trace of b is that of a and one passing event for each tool, told to the model one by one. */
  predicate Passed(h: Host, tools: seq<Tool>, a: Attempt, b: Attempt) {
    && a.toolCalls <= b.toolCalls && |b.toolCalls| == |a.toolCalls| + |tools|
    && (forall i :: 0 <= i < |tools| ==> PassEvent(h, tools[i], |a.toolCalls| + i, b.toolCalls[|a.toolCalls| + i]))
    && b.observations == a.observations + tools
  }

  lemma StepPassed(h: Host, tool: Tool, a: Attempt)
    requires HostStep(h, tool, a).Running?
    ensures Passed(h, [tool], a, HostStep(h, tool, a).attempt)
  {
  }

  lemma PassedTransitive(h: Host, tool: Tool, rest: seq<Tool>, a: Attempt, b: Attempt, c: Attempt)
    requires Passed(h, [tool], a, b) && Passed(h, rest, b, c)
    ensures Passed(h, [tool] + rest, a, c)
  {
    var tools := [tool] + rest;
    var n := |a.toolCalls|;
    forall i | 0 <= i < |tools| ensures PassEvent(h, tools[i], n + i, c.toolCalls[n + i]) {
      if i == 0 {
        assert c.toolCalls[n] == b.toolCalls[n + 0];
        assert PassEvent(h, [tool][0], n + 0, b.toolCalls[n + 0]);
      } else {
        assert PassEvent(h, rest[i - 1], |b.toolCalls| + (i - 1), c.toolCalls[|b.toolCalls| + (i - 1)]);
      }
    }
    assert a.observations + [tool] + rest == a.observations + tools;
  }

  lemma {:induction false} HostPassed(h: Host, tools: seq<Tool>, a: Attempt)
    requires HostFrom(TurnOf(h), tools, a).Running?
    ensures Passed(h, tools, a, HostFrom(TurnOf(h), tools, a).attempt)
    decreases |tools|
  {
    if tools != [] {
      var b := TurnOf(h)(tools[0], a);
      StepPassed(h, tools[0], a);
      HostPassed(h, tools[1..], b.attempt);
      PassedTransitive(h, tools[0], tools[1..], a, b.attempt, HostFrom(TurnOf(h), tools[1..], b.attempt).attempt);
      assert tools == [tools[0]] + tools[1..];
    }
  }

  /** The fields the graph, the clearance, the preparation and the ledger leave behind. */
  predicate Found(h: Host, tools: seq<Tool>, a: Attempt, b: Attempt) {
    && b.graph == (if GetGraphContext in tools then Some(Matched) else a.graph)
    && (if GetClearance in tools then h.read.ReadOk? && b.inspected == Some(h.read.snapshot) && b.clearanceResult == InspectedEligible
        else b.inspected == a.inspected && b.clearanceResult == a.clearanceResult)
    && (if PrepareDeploymentIntent in tools then
          h.preparing.PrepareOk? && b.policy == PolicyPrepared
          && b.digests == Some((h.preparing.prepared.protocolIntentDigest, h.preparing.prepared.typedDataDigest))
        else b.policy == a.policy && b.digests == a.digests)
    && b.ledger == (if GetLedgerAuthorizationStatus in tools then AwaitingHuman else a.ledger)
  }

  lemma StepFound(h: Host, tool: Tool, a: Attempt)
    requires HostStep(h, tool, a).Running?
    ensures Found(h, [tool], a, HostStep(h, tool, a).attempt)
  {
  }

  lemma FoundTransitive(h: Host, tool: Tool, rest: seq<Tool>, a: Attempt, b: Attempt, c: Attempt)
    requires Found(h, [tool], a, b) && Found(h, rest, b, c)
    ensures Found(h, [tool] + rest, a, c)
  {
  }

  lemma {:induction false} HostFound(h: Host, tools: seq<Tool>, a: Attempt)
    requires HostFrom(TurnOf(h), tools, a).Running?
    ensures Found(h, tools, a, HostFrom(TurnOf(h), tools, a).attempt)
    decreases |tools|
  {
    if tools != [] {
      var b := TurnOf(h)(tools[0], a);
      StepFound(h, tools[0], a);
      HostFound(h, tools[1..], b.attempt);
      FoundTransitive(h, tools[0], tools[1..], a, b.attempt, HostFrom(TurnOf(h), tools[1..], b.attempt).attempt);
      assert tools == [tools[0]] + tools[1..];
    }
  }

  /**
   * A run that asks for approval recorded every tool of the script with its passing mark, in order, and holds what
   * the graph, the registry, the gate and the ledger answered.
   */
  lemma ApprovalRecord(h: Host, normalize: Data -> Option<Text>, answers: nat -> Answer)
    requires Run(h, normalize, answers).Running?
    ensures var a := Run(h, normalize, answers).attempt;
            && Passed(h, Script(h), NewAttempt(h.accountId), a) && Found(h, Script(h), NewAttempt(h.accountId), a)
            && a.ledger == AwaitingHuman && a.policy == PolicyPrepared && a.clearanceResult == InspectedEligible
            && a.observations == Script(h) && |a.toolCalls| == |Script(h)|
  {
    RunOrBlocked(h, normalize, answers);
    HostPassed(h, Script(h), NewAttempt(h.accountId));
    HostFound(h, Script(h), NewAttempt(h.accountId));
    ScriptHas(h);
    var s := Script(h);
    assert s[|s| - 3] == GetClearance;
    assert [] + s == s;
  }

  // ---------- Why a run was blocked ----------

  /** The code of a tool that does not pass: a held verdict comes before anything the clearance says. */
  function FailureOf(h: Host, tool: Tool): Code {
    match tool
    case GetGraphContext =>
      if h.graph.NoReader? then GraphUnavailable
      else if h.requested.clearance.None? then GraphClearanceNotFound
      else if h.graph.GraphFailed? then h.graph.code
      else GraphRefused(h.graph.status, h.graph.reason)
    case GetClearance =>
      if !h.requested.clear then EvaluationHold
      else if h.requested.clearance.None? then ClearanceNotFound
      else if h.read.ReadFailed? then h.read.code
      else Ineligible
    case PrepareDeploymentIntent => if h.preparing.PrepareFailed? then h.preparing.code else ProtocolViolation
    case GetLedgerAuthorizationStatus => if h.ledger.LedgerFailed? then h.ledger.code else ProtocolViolation
    case _ => ProtocolViolation
  }

  lemma HostStepFails(h: Host, tool: Tool, a: Attempt)
    requires !Passes(h, tool)
    ensures HostStep(h, tool, a).Stopped? && HostStep(h, tool, a).attempt.policy == BlockedBy(FailureOf(h, tool))
  {
  }

  ghost predicate Failing(step: HostTurn, passes: Tool -> bool, failure: Tool -> Code) {
    forall tool, a :: !passes(tool) ==> step(tool, a).Stopped? && step(tool, a).attempt.policy == BlockedBy(failure(tool))
  }

  /** Tool i is the first that the model refused or the host did not let through, and gives the code. */
  predicate BlocksAt(passes: Tool -> bool, refusal: Refusal, failure: Tool -> Code, tools: seq<Tool>, answers: nat -> Answer, n: nat, i: nat, code: Code) {
    && i < |tools| && !PassAt(passes, refusal, tools, answers, n, i)
    && (forall j: nat :: j < i ==> PassAt(passes, refusal, tools, answers, n, j))
    && code == (if refusal(tools[i], answers(n + i)).Some? then refusal(tools[i], answers(n + i)).value else failure(tools[i]))
  }

  lemma BlocksLater(passes: Tool -> bool, refusal: Refusal, failure: Tool -> Code, tools: seq<Tool>, answers: nat -> Answer, n: nat, i: nat, code: Code)
    requires tools != [] && PassAt(passes, refusal, tools, answers, n, 0) && BlocksAt(passes, refusal, failure, tools[1..], answers, n + 1, i, code)
    ensures BlocksAt(passes, refusal, failure, tools, answers, n, i + 1, code)
  {
    PassShifts(passes, refusal, tools, answers, n, i + 1);
    assert n + 1 + i == n + (i + 1);
    forall j: nat | j < i + 1 ensures PassAt(passes, refusal, tools, answers, n, j) {
      if j > 0 {
        PassShifts(passes, refusal, tools, answers, n, j);
      }
    }
  }

  lemma {:induction false} RunFromBlocked(
      step: HostTurn, passes: Tool -> bool, refusal: Refusal, failure: Tool -> Code, tools: seq<Tool>, a: Attempt, answers: nat -> Answer, n: nat)
    returns (i: nat, code: Code)
    requires Passing(step, passes) && Failing(step, passes, failure)
    requires RunFrom(step, refusal, tools, a, answers, n).Stopped?
    ensures BlocksAt(passes, refusal, failure, tools, answers, n, i, code)
    ensures RunFrom(step, refusal, tools, a, answers, n).attempt.policy == BlockedBy(code)
    decreases |tools|
  {
    var refused := refusal(tools[0], answers(n));
    if refused.Some? {
      i, code := 0, refused.value;
      assert n + 0 == n;
    } else if !passes(tools[0]) {
      i, code := 0, failure(tools[0]);
      assert n + 0 == n;
    } else {
      var b := step(tools[0], a);
      var later: nat;
      later, code := RunFromBlocked(step, passes, refusal, failure, tools[1..], b.attempt, answers, n + 1);
      BlocksLater(passes, refusal, failure, tools, answers, n, later, code);
      i := later + 1;
    }
  }

  /** Tool i of the script is the first one refused or not passed, and this is its code. */
  ghost predicate FirstFailure(h: Host, normalize: Data -> Option<Text>, answers: nat -> Answer, i: nat, code: Code) {
    && i < |Script(h)|
    && (forall j: nat :: j < i ==> Passes(h, Script(h)[j]) && AnswerRefused(h, normalize, Script(h)[j], answers(j)).None?)
    && var refused := AnswerRefused(h, normalize, Script(h)[i], answers(i));
       if refused.Some? then code == refused.value else !Passes(h, Script(h)[i]) && code == FailureOf(h, Script(h)[i])
  }

  /** A run that does not get through is blocked with the code of the first tool that was refused or did not pass. */
  lemma BlockedByFirst(h: Host, normalize: Data -> Option<Text>, answers: nat -> Answer) returns (i: nat, code: Code)
    requires Run(h, normalize, answers).Stopped?
    ensures FirstFailure(h, normalize, answers, i, code)
    ensures Run(h, normalize, answers).attempt.policy == BlockedBy(code)
  {
    var passes, failure := (tool: Tool) => Passes(h, tool), (tool: Tool) => FailureOf(h, tool);
    var step, refusal, s := TurnOf(h), RefusalOf(h, normalize), Script(h);
    forall tool, a ensures step(tool, a).Running? <==> passes(tool) {
      HostStepPasses(h, tool, a);
    }
    forall tool, a | !passes(tool) ensures step(tool, a).Stopped? && step(tool, a).attempt.policy == BlockedBy(failure(tool)) {
      HostStepFails(h, tool, a);
    }
    i, code := RunFromBlocked(step, passes, refusal, failure, s, NewAttempt(h.accountId), answers, 0);
    forall j: nat | j < i ensures Passes(h, s[j]) && AnswerRefused(h, normalize, s[j], answers(j)).None? {
      assert PassAt(passes, refusal, s, answers, 0, j);
      assert 0 + j == j;
    }
    assert 0 + i == i;
  }
}
