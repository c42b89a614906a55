/** The gate as a state machine: calls of prepare and consume interleaved at their awaits. */
module ReleaseMachine {
  import opened Text
  import opened Registry
  import opened Authorizations
  import opened ReleaseGate

  /** A call that is waiting. */
  datatype Call =
    | Preparing(preparation: Preparation)
    | Recovering(signed: Signed)
    | Checking(signed: Signed, recovered: Text)

  /** One authorization handed out: by which call's data, at which second snapshot. */
  datatype Release = Release(authorization: Authorization, signed: Signed, snapshot: Snapshot)

  type Requests = map<Text, Request>

  type Calls = map<nat, Call>

  /** The table, the waiting calls, and what prepare and consume returned so far. */
  datatype State = State(rows: Rows, calls: Calls, issued: Requests, returned: seq<Release>)

  const START: State := State(map[], map[], map[], [])

  /** A call starts, or one await of a waiting call ends. Registry answers and nonces are arbitrary. */
  datatype Event =
    | StartPrepare(call: nat, proposal: Proposal)
    | AnswerPrepare(call: nat, answer: Option<Snapshot>, nonce: Text)
    | StartConsume(call: nat, consumption: Consumption)
    | AnswerRecover(call: nat)
    | AnswerConsume(call: nat, answer: Option<Snapshot>)

  /** What the segments compute besides the two statements that write the table. */
  datatype Segments = Segments(
    beginPrepare: Proposal -> Option<Preparation>,
    newRequest: (Preparation, Option<Snapshot>, Text) -> Option<Request>,
    beginConsume: (Rows, Consumption) -> Option<Signed>,
    recover: Signed -> Option<Text>,
    authorize: (Signed, Text, Option<Snapshot>) -> Option<Authorization>,
    text: Option<Authorization> -> Option<Text>)

  function Step(g: Segments, s: State, e: Event): State {
    match e
    case StartPrepare(call, proposal) =>
      if call in s.calls then s else Started(s, call, AsPreparing(g.beginPrepare(proposal)))
    case AnswerPrepare(call, answer, nonce) =>
      if call !in s.calls || !s.calls[call].Preparing? then s
      else PrepareStep(s, call, g.newRequest(s.calls[call].preparation, answer, nonce))
    case StartConsume(call, consumption) =>
      if call in s.calls then s else Started(s, call, AsRecovering(g.beginConsume(s.rows, consumption)))
    case AnswerRecover(call) =>
      if call !in s.calls || !s.calls[call].Recovering? then s
      else RecoverStep(s, call, s.calls[call].signed, g.recover(s.calls[call].signed))
    case AnswerConsume(call, answer) =>
      if call !in s.calls || !s.calls[call].Checking? then s
      else
        var w := s.calls[call].signed;
        var a := g.authorize(w, s.calls[call].recovered, answer);
        ConsumeStep(s, call, w, answer, a, g.text(a))
  }

  function AsPreparing(w: Option<Preparation>): Option<Call> {
    if w.Some? then Some(Preparing(w.value)) else None
  }

  function AsRecovering(w: Option<Signed>): Option<Call> {
    if w.Some? then Some(Recovering(w.value)) else None
  }

  function Started(s: State, call: nat, c: Option<Call>): State {
    if c.Some? then s.(calls := s.calls[call := c.value]) else s
  }

  function PrepareStep(s: State, call: nat, request: Option<Request>): State {
    var (rows, r) := Insert(s.rows, request);
    State(rows, s.calls - {call}, if r.Some? then s.issued[r.value.intent.nonce := r.value] else s.issued, s.returned)
  }

  function RecoverStep(s: State, call: nat, w: Signed, recovered: Option<Text>): State {
    if recovered.Some? then s.(calls := s.calls[call := Checking(w, recovered.value)]) else s.(calls := s.calls - {call})
  }

  function ConsumeStep(s: State, call: nat, w: Signed, answer: Option<Snapshot>, a: Option<Authorization>, text: Option<Text>): State {
    var (rows, r) := Update(s.rows, w, a, text);
    State(rows, s.calls - {call}, s.issued,
          if r.Some? && answer.Some? then s.returned + [Release(r.value, w, answer.value)] else s.returned)
  }

  function After(g: Segments, s: State, events: seq<Event>): State
    decreases |events|
  {
    if events == [] then s else After(g, Step(g, s, events[0]), events[1..])
  }

  lemma {:induction false} AfterConcat(g: Segments, s: State, a: seq<Event>, b: seq<Event>)
    ensures After(g, s, a + b) == After(g, After(g, s, a), b)
    decreases |a|
  {
    if a == [] {
      assert a + b == b;
    } else {
      assert (a + b)[1..] == a[1..] + b;
      AfterConcat(g, Step(g, s, a[0]), a[1..], b);
    }
  }

  /** An answer whose update succeeds hands out what the update gave. */
  lemma AnswerReturns(g: Segments, s: State, call: nat, snapshot: Snapshot)
    requires call in s.calls && s.calls[call].Checking?
    requires var a := g.authorize(s.calls[call].signed, s.calls[call].recovered, Some(snapshot));
             Update(s.rows, s.calls[call].signed, a, g.text(a)).1.Some?
    ensures var w := s.calls[call].signed;
            var a := g.authorize(w, s.calls[call].recovered, Some(snapshot));
            Step(g, s, AnswerConsume(call, Some(snapshot))).returned
            == s.returned + [Release(Update(s.rows, w, a, g.text(a)).1.value, w, snapshot)]
  {
  }

  // ---------- What no step undoes ----------

  /** Rows stay, issued columns stay, a consumed row stays as it is, and answers given stay given. */
  predicate Kept(s: State, t: State) {
    && (forall nonce :: nonce in s.rows ==> nonce in t.rows && RowKept(s.rows[nonce], t.rows[nonce]))
    && (forall nonce :: nonce in s.rows && nonce in s.issued ==> nonce in t.issued && t.issued[nonce] == s.issued[nonce])
    && s.returned <= t.returned
  }

  predicate RowKept(before: Row, after: Row) {
    AsIssued(after) == AsIssued(before) && (before.consumed ==> after == before)
  }

  lemma KeptTransitive(s: State, t: State, u: State)
    requires Kept(s, t) && Kept(t, u)
    ensures Kept(s, u)
  {
    forall nonce | nonce in s.rows ensures nonce in u.rows && RowKept(s.rows[nonce], u.rows[nonce]) {
      assert RowKept(s.rows[nonce], t.rows[nonce]) && RowKept(t.rows[nonce], u.rows[nonce]);
    }
  }

  lemma PrepareKeeps(s: State, call: nat, request: Option<Request>)
    ensures Kept(s, PrepareStep(s, call, request))
  {
  }

  lemma ConsumeKeeps(s: State, call: nat, w: Signed, answer: Option<Snapshot>, a: Option<Authorization>, text: Option<Text>)
    ensures Kept(s, ConsumeStep(s, call, w, answer, a, text))
  {
  }

  lemma SameKept(s: State, t: State)
    requires t.rows == s.rows && t.issued == s.issued && t.returned == s.returned
    ensures Kept(s, t)
  {
  }

  lemma StepKeeps(g: Segments, s: State, e: Event)
    ensures Kept(s, Step(g, s, e))
  {
    match e
    case AnswerPrepare(call, answer, nonce) =>
      if call in s.calls && s.calls[call].Preparing? {
        PrepareKeeps(s, call, g.newRequest(s.calls[call].preparation, answer, nonce));
      } else {
        SameKept(s, s);
      }
    case AnswerConsume(call, answer) =>
      if call in s.calls && s.calls[call].Checking? {
        var w := s.calls[call].signed;
        var a := g.authorize(w, s.calls[call].recovered, answer);
        ConsumeKeeps(s, call, w, answer, a, g.text(a));
      } else {
        SameKept(s, s);
      }
    case _ => SameKept(s, Step(g, s, e));
  }

  /** In every run a row moves from ISSUED to CONSUMED at most once and nothing else of it ever changes. */
  lemma {:induction false} RunKeeps(g: Segments, s: State, events: seq<Event>)
    ensures Kept(s, After(g, s, events))
    decreases |events|
  {
    if events != [] {
      var t := Step(g, s, events[0]);
      StepKeeps(g, s, events[0]);
      RunKeeps(g, t, events[1..]);
      KeptTransitive(s, t, After(g, t, events[1..]));
    }
  }
}
