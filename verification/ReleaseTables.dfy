/** What the tables, the waiting calls and the answers of the gate keep together, whatever the requests say. */
module ReleaseTables {
  import opened Text
  import opened Registry
  import opened Authorizations
  import opened ReleaseGate
  import opened ReleaseMachine

  /** What is known of a request, of a call that works on it, and of an authorization handed out for it. */
  datatype Laws = Laws(
    prepares: Preparation -> bool,
    issued: Request -> bool,
    signedFor: (Signed, Request) -> bool,
    recovered: (Signed, Text) -> bool,
    authorizes: (Release, Request) -> bool,
    text: Authorization -> Option<Text>)

  /** Each segment keeps to the laws, whatever the registry answers. */
  ghost predicate Lawful(g: Segments, l: Laws) {
    && (forall p :: g.beginPrepare(p).Some? ==> l.prepares(g.beginPrepare(p).value))
    && (forall w, answer, nonce :: l.prepares(w) ==> LawfulRequest(l, g.newRequest(w, answer, nonce)))
    && (forall rows, issued, input :: RowsConsistent(l, rows, issued) ==> LawfulStart(l, issued, g.beginConsume(rows, input)))
    && (forall w :: g.recover(w).Some? ==> l.recovered(w, g.recover(w).value))
    && (forall w, r, recovered, answer :: l.issued(r) && l.signedFor(w, r) && l.recovered(w, recovered) ==>
          LawfulAnswer(l, w, r, answer, g.authorize(w, recovered, answer)))
    && (forall a: Authorization :: g.text(Some(a)) == l.text(a))
  }

  predicate LawfulRequest(l: Laws, r: Option<Request>) {
    r.Some? ==> l.issued(r.value) && r.value.row == AsIssued(r.value.row)
  }

  predicate LawfulStart(l: Laws, issued: Requests, w: Option<Signed>) {
    w.Some? ==> SignedConsistent(l, issued, w.value)
  }

  predicate LawfulAnswer(l: Laws, w: Signed, r: Request, answer: Option<Snapshot>, a: Option<Authorization>) {
    a.Some? ==> answer.Some? && a.value.intent == w.intent && l.authorizes(Release(a.value, w, answer.value), r)
  }

  /** The issued columns never change, and a row is ISSUED exactly when it holds no authorization. */
  predicate RowConsistent(l: Laws, nonce: Text, row: Row, r: Request) {
    && l.issued(r) && r.intent.nonce == nonce && AsIssued(row) == r.row
    && (row.consumed <==> row.authorizationJson.Some?)
  }

  predicate RowsConsistent(l: Laws, rows: Rows, issued: Requests) {
    && rows.Keys == issued.Keys
    && forall nonce :: nonce in rows ==> RowConsistent(l, nonce, rows[nonce], issued[nonce])
  }

  predicate SignedConsistent(l: Laws, issued: Requests, w: Signed) {
    w.intent.nonce in issued && l.signedFor(w, issued[w.intent.nonce])
  }

  predicate CallConsistent(l: Laws, issued: Requests, c: Call) {
    match c
    case Preparing(w) => l.prepares(w)
    case Recovering(w) => SignedConsistent(l, issued, w)
    case Checking(w, recovered) => SignedConsistent(l, issued, w) && l.recovered(w, recovered)
  }

  predicate CallsConsistent(l: Laws, issued: Requests, calls: Calls) {
    forall call :: call in calls ==> CallConsistent(l, issued, calls[call])
  }

  function NonceOf(release: Release): Text {
    release.authorization.intent.nonce
  }

  predicate ReleaseConsistent(l: Laws, rows: Rows, issued: Requests, release: Release) {
    var nonce := NonceOf(release);
    && nonce in rows && nonce in issued && l.authorizes(release, issued[nonce])
    && rows[nonce].consumed && rows[nonce].authorizationJson == l.text(release.authorization)
  }

  predicate ReleasesConsistent(l: Laws, rows: Rows, issued: Requests, returned: seq<Release>) {
    forall k :: 0 <= k < |returned| ==> ReleaseConsistent(l, rows, issued, returned[k])
  }

  /** Each nonce at most once, and once for every consumed row. */
  predicate OncePerNonce(rows: Rows, returned: seq<Release>) {
    && (forall j, k :: 0 <= j < k < |returned| ==> NonceOf(returned[j]) != NonceOf(returned[k]))
    && (forall nonce :: nonce in rows && rows[nonce].consumed ==> Returned(nonce, returned))
  }

  predicate Returned(nonce: Text, returned: seq<Release>) {
    exists k :: 0 <= k < |returned| && NonceOf(returned[k]) == nonce
  }

  predicate Consistent(l: Laws, s: State) {
    && RowsConsistent(l, s.rows, s.issued)
    && CallsConsistent(l, s.issued, s.calls)
    && ReleasesConsistent(l, s.rows, s.issued, s.returned)
    && OncePerNonce(s.rows, s.returned)
  }

  lemma IssuedCalls(l: Laws, issued: Requests, calls: Calls, nonce: Text, r: Request)
    requires CallsConsistent(l, issued, calls) && nonce !in issued
    ensures CallsConsistent(l, issued[nonce := r], calls)
  {
    forall call | call in calls ensures CallConsistent(l, issued[nonce := r], calls[call]) {
      assert CallConsistent(l, issued, calls[call]);
    }
  }

  lemma IssuedReleases(l: Laws, rows: Rows, issued: Requests, returned: seq<Release>, nonce: Text, row: Row, r: Request)
    requires ReleasesConsistent(l, rows, issued, returned) && nonce !in rows
    ensures ReleasesConsistent(l, rows[nonce := row], issued[nonce := r], returned)
  {
    forall k | 0 <= k < |returned|
      ensures ReleaseConsistent(l, rows[nonce := row], issued[nonce := r], returned[k])
    {
      assert ReleaseConsistent(l, rows, issued, returned[k]);
    }
  }

  lemma IssuedRows(l: Laws, rows: Rows, issued: Requests, r: Request)
    requires RowsConsistent(l, rows, issued) && l.issued(r) && r.row == AsIssued(r.row) && r.intent.nonce !in rows
    ensures RowsConsistent(l, rows[r.intent.nonce := r.row], issued[r.intent.nonce := r])
  {
    assert RowConsistent(l, r.intent.nonce, r.row, r);
  }

  lemma ConsumedRows(l: Laws, rows: Rows, issued: Requests, nonce: Text, text: Text)
    requires RowsConsistent(l, rows, issued) && nonce in rows
    ensures RowsConsistent(l, rows[nonce := ConsumedRow(rows[nonce], text)], issued)
  {
    assert RowConsistent(l, nonce, rows[nonce], issued[nonce]);
  }

  lemma ConsumedReleases(l: Laws, rows: Rows, issued: Requests, returned: seq<Release>, nonce: Text, row: Row)
    requires ReleasesConsistent(l, rows, issued, returned) && nonce in rows && !rows[nonce].consumed
    ensures ReleasesConsistent(l, rows[nonce := row], issued, returned)
    ensures forall k :: 0 <= k < |returned| ==> NonceOf(returned[k]) != nonce
  {
    forall k | 0 <= k < |returned|
      ensures ReleaseConsistent(l, rows[nonce := row], issued, returned[k]) && NonceOf(returned[k]) != nonce
    {
      assert ReleaseConsistent(l, rows, issued, returned[k]);
    }
  }

  lemma ConsumedOnce(rows: Rows, returned: seq<Release>, release: Release, row: Row)
    requires OncePerNonce(rows, returned)
    requires forall k :: 0 <= k < |returned| ==> NonceOf(returned[k]) != NonceOf(release)
    ensures OncePerNonce(rows[NonceOf(release) := row], returned + [release])
  {
    var all := returned + [release];
    assert NonceOf(all[|returned|]) == NonceOf(release);
    forall nonce | nonce in rows && rows[nonce].consumed ensures Returned(nonce, all) {
      var k :| 0 <= k < |returned| && NonceOf(returned[k]) == nonce;
      assert NonceOf(all[k]) == nonce;
    }
  }

  lemma IssuedConsistent(l: Laws, s: State, calls: Calls, r: Request)
    requires Consistent(l, s) && l.issued(r) && r.row == AsIssued(r.row) && r.intent.nonce !in s.rows
    requires CallsConsistent(l, s.issued, calls)
    ensures Consistent(l, State(s.rows[r.intent.nonce := r.row], calls, s.issued[r.intent.nonce := r], s.returned))
  {
    IssuedRows(l, s.rows, s.issued, r);
    IssuedCalls(l, s.issued, calls, r.intent.nonce, r);
    IssuedReleases(l, s.rows, s.issued, s.returned, r.intent.nonce, r.row, r);
  }

  lemma ConsumedConsistent(l: Laws, s: State, calls: Calls, release: Release, text: Text)
    requires Consistent(l, s) && CallsConsistent(l, s.issued, calls)
    requires var nonce := NonceOf(release);
             && nonce in s.rows && nonce in s.issued && !s.rows[nonce].consumed
             && l.authorizes(release, s.issued[nonce]) && l.text(release.authorization) == Some(text)
    ensures var nonce := NonceOf(release);
            Consistent(l, State(s.rows[nonce := ConsumedRow(s.rows[nonce], text)], calls, s.issued, s.returned + [release]))
  {
    var nonce := NonceOf(release);
    var row := ConsumedRow(s.rows[nonce], text);
    ConsumedRows(l, s.rows, s.issued, nonce, text);
    ConsumedReleases(l, s.rows, s.issued, s.returned, nonce, row);
    ConsumedOnce(s.rows, s.returned, release, row);
    assert ReleaseConsistent(l, s.rows[nonce := row], s.issued, release);
  }

  lemma CallAdded(l: Laws, s: State, call: nat, c: Call)
    requires Consistent(l, s) && CallConsistent(l, s.issued, c)
    ensures Consistent(l, s.(calls := s.calls[call := c]))
  {
  }

  lemma CallEnded(l: Laws, s: State, call: nat)
    requires Consistent(l, s)
    ensures Consistent(l, s.(calls := s.calls - {call}))
  {
  }

  // ---------- Every step of a lawful gate keeps the invariant ----------

  lemma PrepareStepConsistent(l: Laws, s: State, call: nat, request: Option<Request>)
    requires Consistent(l, s) && LawfulRequest(l, request)
    ensures Consistent(l, PrepareStep(s, call, request))
  {
    CallEnded(l, s, call);
    if request.Some? && request.value.intent.nonce !in s.rows {
      IssuedConsistent(l, s, s.calls - {call}, request.value);
    }
  }

  lemma ConsumeStepConsistent(l: Laws, s: State, call: nat, w: Signed, answer: Option<Snapshot>, a: Option<Authorization>, text: Option<Text>)
    requires Consistent(l, s) && SignedConsistent(l, s.issued, w)
    requires LawfulAnswer(l, w, s.issued[w.intent.nonce], answer, a) && (a.Some? ==> text == l.text(a.value))
    ensures Consistent(l, ConsumeStep(s, call, w, answer, a, text))
  {
    CallEnded(l, s, call);
    if a.Some? && text.Some? && Consumable(s.rows, w.intent.nonce, w.accountId) {
      ConsumedConsistent(l, s, s.calls - {call}, Release(a.value, w, answer.value), text.value);
    }
  }

  lemma AnswerConsumeConsistent(g: Segments, l: Laws, s: State, call: nat, answer: Option<Snapshot>)
    requires Lawful(g, l) && Consistent(l, s)
    ensures Consistent(l, Step(g, s, AnswerConsume(call, answer)))
  {
    if call in s.calls && s.calls[call].Checking? {
      assert CallConsistent(l, s.issued, s.calls[call]);
      var w, recovered := s.calls[call].signed, s.calls[call].recovered;
      var r := s.issued[w.intent.nonce];
      assert RowConsistent(l, w.intent.nonce, s.rows[w.intent.nonce], r);
      var a := g.authorize(w, recovered, answer);
      ConsumeStepConsistent(l, s, call, w, answer, a, g.text(a));
    }
  }

  lemma StepConsistent(g: Segments, l: Laws, s: State, e: Event)
    requires Lawful(g, l) && Consistent(l, s)
    ensures Consistent(l, Step(g, s, e))
  {
    match e
    case StartPrepare(call, proposal) =>
      if call !in s.calls && g.beginPrepare(proposal).Some? {
        CallAdded(l, s, call, Preparing(g.beginPrepare(proposal).value));
      }
    case StartConsume(call, consumption) =>
      var w := g.beginConsume(s.rows, consumption);
      assert LawfulStart(l, s.issued, w);
      if call !in s.calls && w.Some? {
        CallAdded(l, s, call, Recovering(w.value));
      }
    case AnswerRecover(call) =>
      if call in s.calls && s.calls[call].Recovering? {
        assert CallConsistent(l, s.issued, s.calls[call]);
        var w := s.calls[call].signed;
        CallEnded(l, s, call);
        if g.recover(w).Some? {
          CallAdded(l, s, call, Checking(w, g.recover(w).value));
        }
      }
    case AnswerPrepare(call, answer, nonce) =>
      if call in s.calls && s.calls[call].Preparing? {
        assert CallConsistent(l, s.issued, s.calls[call]);
        PrepareStepConsistent(l, s, call, g.newRequest(s.calls[call].preparation, answer, nonce));
      }
    case AnswerConsume(call, answer) => AnswerConsumeConsistent(g, l, s, call, answer);
  }

  lemma {:induction false} RunConsistent(g: Segments, l: Laws, s: State, events: seq<Event>)
    requires Lawful(g, l) && Consistent(l, s)
    ensures Consistent(l, After(g, s, events))
    decreases |events|
  {
    if events != [] {
      StepConsistent(g, l, s, events[0]);
      RunConsistent(g, l, Step(g, s, events[0]), events[1..]);
    }
  }

  // ---------- Reading the invariant ----------

  /** What is known of a row: the request it was issued for, and whether an authorization was handed out. */
  lemma ConsistentRow(l: Laws, s: State, nonce: Text)
    requires Consistent(l, s) && (nonce in s.rows || nonce in s.issued)
    ensures nonce in s.rows && nonce in s.issued && RowConsistent(l, nonce, s.rows[nonce], s.issued[nonce])
  {
  }

  lemma ConsistentState(l: Laws, s: State, nonce: Text)
    requires Consistent(l, s) && (nonce in s.rows || nonce in s.issued)
    ensures nonce in s.rows
    ensures s.rows[nonce].consumed <==> s.rows[nonce].authorizationJson.Some?
    ensures s.rows[nonce].consumed <==> Returned(nonce, s.returned)
  {
    assert RowConsistent(l, nonce, s.rows[nonce], s.issued[nonce]);
    if Returned(nonce, s.returned) {
      var k :| 0 <= k < |s.returned| && NonceOf(s.returned[k]) == nonce;
      assert ReleaseConsistent(l, s.rows, s.issued, s.returned[k]);
    }
  }

  /** In every run of a lawful gate a row holds an authorization iff it is consumed iff one was handed out. */
  lemma RunRow(g: Segments, l: Laws, events: seq<Event>, nonce: Text)
    requires Lawful(g, l) && nonce in After(g, START, events).rows
    ensures var s := After(g, START, events);
            && (s.rows[nonce].consumed <==> s.rows[nonce].authorizationJson.Some?)
            && (s.rows[nonce].consumed <==> Returned(nonce, s.returned))
  {
    RunConsistent(g, l, START, events);
    ConsistentState(l, After(g, START, events), nonce);
  }

  /** What is known of an authorization handed out: its request, and the row that records it, in all later states. */
  lemma ConsistentRelease(l: Laws, s: State, k: nat, t: State)
    requires Consistent(l, s) && k < |s.returned| && Kept(s, t)
    ensures var release := s.returned[k];
            var nonce := NonceOf(release);
            && nonce in s.issued && nonce in t.rows
            && l.issued(s.issued[nonce]) && s.issued[nonce].intent.nonce == nonce
            && l.authorizes(release, s.issued[nonce])
            && t.rows[nonce].consumed && AsIssued(t.rows[nonce]) == s.issued[nonce].row
            && t.rows[nonce].authorizationJson == l.text(release.authorization) && l.text(release.authorization).Some?
  {
    var nonce := NonceOf(s.returned[k]);
    assert ReleaseConsistent(l, s.rows, s.issued, s.returned[k]);
    assert RowConsistent(l, nonce, s.rows[nonce], s.issued[nonce]);
    assert RowKept(s.rows[nonce], t.rows[nonce]);
  }
}
