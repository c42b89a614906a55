/** Every run of the gate: what holds of each request, each waiting call and each authorization handed out. */
module ReleaseRuns {
  import opened Text
  import opened Values
  import opened Digests
  import opened Schemas
  import opened StoredText
  import opened Timestamps
  import opened Records
  import opened Bindings
  import opened Registry
  import opened Authorizations
  import opened ReleaseGate
  import opened ReleaseMachine
  import opened ReleaseTables
  import Decimal

  // ---------- What a request is ----------

  /** A request as prepare issues it: bound to its clearance, alive within every limit. */
  predicate Issued(g: Gate, r: Request) {
    && ValidIntent(r.intent) && ValidClearance(r.clearance) && IntentBound(g.lib.hashing, r.intent, r.clearance)
    && Eligible(g.registry, r.snapshot)
    && r.intent.issuedAt == r.snapshot.blockTimestamp
    && Seconds(r.intent.expiresAt) == Earlier(Seconds(r.intent.issuedAt) + g.ttl, Seconds(r.clearance.expiresAt))
    && IssuedRow(g, r)
  }

  function Earlier(a: nat, b: nat): nat {
    if a < b then a else b
  }

  predicate IssuedRow(g: Gate, r: Request) {
    && r.row == AsIssued(r.row)
    && Serialize(g.lib.hashing.nfc, IntentData(r.intent)) == Some(r.row.intentJson)
    && Serialize(g.lib.hashing.nfc, ClearanceData(r.clearance)) == Some(r.row.clearanceJson)
    && r.row.authorizedSigner in g.signers
    && BuildTypedData(g.lib, r.intent, r.row.authorizedSigner).Some?
    && DigestIntent(g.lib.hashing, r.intent) == Some(r.row.protocolIntentDigest)
    && BuildTypedData(g.lib, r.intent, r.row.authorizedSigner).value.typedDataDigest == r.row.typedDataDigest
    && r.row.precheckBlockNumber == Decimal.Digits(r.snapshot.blockNumber)
    && r.row.precheckBlockHash == r.snapshot.blockHash && r.row.precheckBlockTimestamp == r.snapshot.blockTimestamp
  }

  predicate ValidPreparation(g: Gate, w: Preparation) {
    ValidClearance(w.clearance) && w.authorizedSigner in g.signers
  }

  lemma BeginPrepareValid(g: Gate, p: Proposal)
    requires BeginPrepare(g, p).Some?
    ensures ValidPreparation(g, BeginPrepare(g, p).value)
  {
    ParsedClearanceValid(p.clearance);
  }

  lemma NewRequestIssued(g: Gate, w: Preparation, answer: Option<Snapshot>, nonce: Text)
    requires ValidGate(g) && ValidPreparation(g, w) && NewRequest(g, w, answer, nonce).Some?
    ensures Issued(g, NewRequest(g, w, answer, nonce).value)
  {
    var s := answer.value;
    EligibleMeaning(g.registry, s);
    ExpiryExact(s.blockTimestamp, w.clearance.expiresAt, g.ttl);
    var e := ComputeExpiry(s.blockTimestamp, w.clearance.expiresAt, g.ttl).value;
    CreateIntentExact(g.lib.hashing, w.clearance, nonce, s.blockTimestamp, e);
    var i := CreateDeploymentIntent(g.lib.hashing, w.clearance, nonce, s.blockTimestamp, e).value;
    IssueRequestRow(g, w, s, i);
  }

  lemma IssueRequestRow(g: Gate, w: Preparation, s: Snapshot, i: Intent)
    requires ValidPreparation(g, w) && IssueRequest(g, w, s, i).Some?
    ensures var r := IssueRequest(g, w, s, i).value;
            r.intent == i && r.clearance == w.clearance && r.snapshot == s && IssuedRow(g, r)
  {
  }

  // ---------- What a waiting call knows ----------

  /** A row belongs to its account; whoever names no account may use any row. */
  predicate Owner(accountId: Option<Text>, row: Row) {
    accountId.None? || accountId == row.accountId
  }

  /** The call works on the request issued for its nonce, rebuilt from the stored texts. */
  predicate SignedFor(g: Gate, w: Signed, r: Request) {
    && w.row == r.row && w.intent == r.intent && w.clearance == r.clearance && Owner(w.accountId, r.row)
    && AssertAuthorized(g, r.row.authorizedSigner).Some?
    && BuildTypedData(g.lib, r.intent, AssertAuthorized(g, r.row.authorizedSigner).value) == Some(w.signing)
    && w.signing.data.protocolIntentDigest == r.row.protocolIntentDigest
    && w.signing.typedDataDigest == r.row.typedDataDigest
  }

  /** Rebuilding from an issued row gives the issued intent and clearance back. */
  lemma RebuildExact(g: Gate, r: Request, input: Consumption)
    requires Issued(g, r) && Owner(input.accountId, r.row) && Rebuild(g, r.row, input).Some?
    ensures SignedFor(g, Rebuild(g, r.row, input).value, r)
  {
    IntentReadBack(r.intent);
    ClearanceReadBack(r.clearance);
    SerializedReadBack(g.lib.hashing.nfc, IntentData(r.intent));
    SerializedReadBack(g.lib.hashing.nfc, ClearanceData(r.clearance));
  }

  /** The facts of every authorization handed out. */
  predicate Authorizes(g: Gate, release: Release, r: Request) {
    var a := release.authorization;
    && SignedFor(g, release.signed, r)
    && a.intent == r.intent && a.protocolIntentDigest == r.row.protocolIntentDigest
    && a.typedDataDigest == r.row.typedDataDigest
    && RecoverSigner(g, release.signed) == Some(a.recoveredSigner)
    && a.signatureHash == g.lib.keccak256(release.signed.signature)
    && Eligible(g.registry, release.snapshot)
    && a.authorizedAt == release.snapshot.blockTimestamp && a.expiresAt == r.intent.expiresAt
    && Seconds(a.authorizedAt) < Seconds(a.expiresAt)
    && a.precheckBlockNumber == r.row.precheckBlockNumber && a.precheckBlockHash == r.row.precheckBlockHash
    && a.postcheckBlockNumber == Decimal.Digits(release.snapshot.blockNumber)
    && a.postcheckBlockHash == release.snapshot.blockHash
    && release.snapshot.blockNumber >= r.snapshot.blockNumber
  }

  lemma NewAuthorizationFacts(g: Gate, w: Signed, recovered: Text, answer: Option<Snapshot>, r: Request)
    requires Issued(g, r) && SignedFor(g, w, r) && RecoverSigner(g, w) == Some(recovered)
    requires NewAuthorization(g, w, recovered, answer).Some?
    ensures Authorizes(g, Release(NewAuthorization(g, w, recovered, answer).value, w, answer.value), r)
  {
    EligibleMeaning(g.registry, answer.value);
    CompareIsNumeric(answer.value.blockTimestamp, w.intent.expiresAt);
    Decimal.DigitsCanonical(r.snapshot.blockNumber);
  }

  function LawsOf(g: Gate): Laws {
    Laws((w: Preparation) => ValidPreparation(g, w),
         (r: Request) => Issued(g, r),
         (w: Signed, r: Request) => SignedFor(g, w, r),
         (w: Signed, recovered: Text) => RecoverSigner(g, w) == Some(recovered),
         (release: Release, r: Request) => Authorizes(g, release, r),
         (a: Authorization) => AuthorizationText(g, a))
  }

  function SegmentsOf(g: Gate): Segments {
    Segments((p: Proposal) => BeginPrepare(g, p),
             (w: Preparation, answer: Option<Snapshot>, nonce: Text) => NewRequest(g, w, answer, nonce),
             (rows: Rows, input: Consumption) => BeginConsume(g, rows, input),
             (w: Signed) => RecoverSigner(g, w),
             (w: Signed, recovered: Text, answer: Option<Snapshot>) => NewAuthorization(g, w, recovered, answer),
             (a: Option<Authorization>) => TextOf(g, a))
  }

  lemma LawfulRequests(g: Gate, w: Preparation, answer: Option<Snapshot>, nonce: Text)
    requires ValidGate(g) && ValidPreparation(g, w)
    ensures LawfulRequest(LawsOf(g), NewRequest(g, w, answer, nonce))
  {
    if NewRequest(g, w, answer, nonce).Some? {
      NewRequestIssued(g, w, answer, nonce);
    }
  }

  /** A consume that starts found an ISSUED row under the supplied nonce and rebuilt its request. */
  lemma BeginConsumeCases(g: Gate, rows: Rows, input: Consumption)
    requires BeginConsume(g, rows, input).Some?
    ensures ParseIntent(input.intent).Some?
    ensures var nonce := ParseIntent(input.intent).value.nonce;
            && nonce in rows && !rows[nonce].consumed && Owner(input.accountId, rows[nonce])
            && BeginConsume(g, rows, input) == Rebuild(g, rows[nonce], input)
  {
  }

  lemma LawfulStarts(g: Gate, rows: Rows, issued: Requests, input: Consumption)
    requires RowsConsistent(LawsOf(g), rows, issued)
    ensures LawfulStart(LawsOf(g), issued, BeginConsume(g, rows, input))
  {
    if BeginConsume(g, rows, input).Some? {
      BeginConsumeCases(g, rows, input);
      var nonce := ParseIntent(input.intent).value.nonce;
      assert RowConsistent(LawsOf(g), nonce, rows[nonce], issued[nonce]);
      RebuildExact(g, issued[nonce], input);
    }
  }

  lemma LawfulAnswers(g: Gate, w: Signed, r: Request, recovered: Text, answer: Option<Snapshot>)
    requires Issued(g, r) && SignedFor(g, w, r) && RecoverSigner(g, w) == Some(recovered)
    ensures LawfulAnswer(LawsOf(g), w, r, answer, NewAuthorization(g, w, recovered, answer))
  {
    if NewAuthorization(g, w, recovered, answer).Some? {
      NewAuthorizationFacts(g, w, recovered, answer, r);
    }
  }

  lemma GateLawful(g: Gate)
    requires ValidGate(g)
    ensures Lawful(SegmentsOf(g), LawsOf(g))
  {
    var m, l := SegmentsOf(g), LawsOf(g);
    forall p | m.beginPrepare(p).Some? ensures l.prepares(m.beginPrepare(p).value) {
      BeginPrepareValid(g, p);
    }
    forall w, answer, nonce | l.prepares(w) ensures LawfulRequest(l, m.newRequest(w, answer, nonce)) {
      LawfulRequests(g, w, answer, nonce);
    }
    forall rows, issued, input | RowsConsistent(l, rows, issued) ensures LawfulStart(l, issued, m.beginConsume(rows, input)) {
      LawfulStarts(g, rows, issued, input);
    }
    forall w, r, recovered, answer | l.issued(r) && l.signedFor(w, r) && l.recovered(w, recovered)
      ensures LawfulAnswer(l, w, r, answer, m.authorize(w, recovered, answer))
    {
      LawfulAnswers(g, w, r, recovered, answer);
    }
  }

  // ---------- Results over every run ----------

  /** The state after some run from the empty store. */
  function Run(g: Gate, events: seq<Event>): State {
    After(SegmentsOf(g), START, events)
  }

  lemma RunInvariant(g: Gate, events: seq<Event>)
    requires ValidGate(g)
    ensures Consistent(LawsOf(g), Run(g, events))
  {
    GateLawful(g);
    RunConsistent(SegmentsOf(g), LawsOf(g), START, events);
  }

  /** Each nonce is authorized at most once, whatever the interleaving. */
  lemma NonceAuthorizedOnce(g: Gate, events: seq<Event>, j: nat, k: nat)
    requires ValidGate(g) && j < k < |Run(g, events).returned|
    ensures NonceOf(Run(g, events).returned[j]) != NonceOf(Run(g, events).returned[k])
  {
    RunInvariant(g, events);
  }

  /** A row is ISSUED exactly when it holds no authorization: the two inconsistent states are never read. */
  lemma IssuedIffNoAuthorization(g: Gate, events: seq<Event>, nonce: Text)
    requires ValidGate(g) && nonce in Run(g, events).rows
    ensures Run(g, events).rows[nonce].consumed <==> Run(g, events).rows[nonce].authorizationJson.Some?
    ensures Run(g, events).rows[nonce].consumed <==> Returned(nonce, Run(g, events).returned)
  {
    GateLawful(g);
    RunRow(SegmentsOf(g), LawsOf(g), events, nonce);
  }

  /** The configured signers are checksum addresses, as the constructor of the policy makes them. */
  predicate ChecksumSigners(g: Gate) {
    forall signer :: signer in g.signers ==> g.lib.getAddress(signer) == Some(signer)
  }

  /** What the signer was shown. */
  function Message(a: Authorization): TypedData {
    TypedData(a.intent, a.recoveredSigner, a.protocolIntentDigest)
  }

  /** The signature over the message recovers to the signer named in it, and the record holds its hash. */
  predicate SignedBySigner(g: Gate, a: Authorization, signature: Text) {
    && Some(a.protocolIntentDigest) == DigestIntent(g.lib.hashing, a.intent)
    && a.typedDataDigest == g.lib.hashTypedData(Message(a))
    && IsSignature(signature) && a.signatureHash == g.lib.keccak256(signature)
    && g.lib.recoverAddress(Message(a), signature).Some?
    && g.lib.getAddress(g.lib.recoverAddress(Message(a), signature).value) == Some(a.recoveredSigner)
  }

  /** Both blocks are recorded, the second not before the first. */
  predicate BlocksRecorded(a: Authorization, before: Snapshot, after: Snapshot) {
    && before.blockNumber <= after.blockNumber
    && a.precheckBlockNumber == Decimal.Digits(before.blockNumber) && a.precheckBlockHash == before.blockHash
    && a.postcheckBlockNumber == Decimal.Digits(after.blockNumber) && a.postcheckBlockHash == after.blockHash
  }

  /**
   * The authorization carries the issued intent, bound to the clearance it was prepared for; the signer is
   * the stored one, on the list, and signed the message; both snapshots are eligible and recorded; the times are
   * in order, and the expiry is the earlier of the two limits.
   */
  predicate Safe(g: Gate, release: Release, r: Request) {
    var a := release.authorization;
    && a.intent == r.intent && IntentBound(g.lib.hashing, a.intent, r.clearance)
    && a.recoveredSigner == r.row.authorizedSigner && a.recoveredSigner in g.signers
    && SignedBySigner(g, a, release.signed.signature) && Owner(release.signed.accountId, r.row)
    && Eligible(g.registry, r.snapshot) && Eligible(g.registry, release.snapshot)
    && BlocksRecorded(a, r.snapshot, release.snapshot)
    && a.authorizedAt == release.snapshot.blockTimestamp && a.expiresAt == a.intent.expiresAt
    && a.intent.issuedAt == r.snapshot.blockTimestamp
    && Seconds(a.authorizedAt) < Seconds(a.expiresAt)
    && Seconds(a.expiresAt) == Earlier(Seconds(r.snapshot.blockTimestamp) + g.ttl, Seconds(r.clearance.expiresAt))
  }

  lemma SignerIsStored(g: Gate, release: Release, r: Request)
    requires Issued(g, r) && Authorizes(g, release, r) && ChecksumSigners(g)
    ensures release.authorization.recoveredSigner == r.row.authorizedSigner
  {
  }

  lemma ReleaseIsSigned(g: Gate, release: Release, r: Request)
    requires Issued(g, r) && Authorizes(g, release, r) && ChecksumSigners(g)
    ensures SignedBySigner(g, release.authorization, release.signed.signature)
  {
  }

  lemma ReleaseIsSafe(g: Gate, release: Release, r: Request)
    requires Issued(g, r) && Authorizes(g, release, r) && ChecksumSigners(g)
    ensures Safe(g, release, r)
  {
    SignerIsStored(g, release, r);
    ReleaseIsSigned(g, release, r);
  }

  lemma KeptItself(s: State)
    ensures Kept(s, s)
  {
  }

  /** Every authorization ever handed out, in every interleaving, is safe. */
  lemma AuthorizationSafe(g: Gate, events: seq<Event>, k: nat)
    requires ValidGate(g) && ChecksumSigners(g) && k < |Run(g, events).returned|
    ensures var s := Run(g, events);
            var nonce := NonceOf(s.returned[k]);
            nonce in s.issued && s.issued[nonce].intent.nonce == nonce && Safe(g, s.returned[k], s.issued[nonce])
  {
    var s := Run(g, events);
    RunInvariant(g, events);
    KeptItself(s);
    ConsistentRelease(LawsOf(g), s, k, s);
    ReleaseIsSafe(g, s.returned[k], s.issued[NonceOf(s.returned[k])]);
  }

  lemma ReadHolds(g: Gate, c: ClearanceRecord, a: Answers)
    requires ValidClearance(c) && ReadExactClearance(g.lib.hashing, g.registry, c, a).Some?
    requires Eligible(g.registry, ReadExactClearance(g.lib.hashing, g.registry, c, a).value)
    ensures ChainHolds(g.lib.hashing, c, a) && ReadExactClearance(g.lib.hashing, g.registry, c, a).value.blockNumber == a.blockNumber
  {
    EligibleMeaning(g.registry, ReadExactClearance(g.lib.hashing, g.registry, c, a).value);
    EligibleReadExact(g.lib.hashing, g.registry, c, a);
  }

  /**
   * When both snapshots are what the reader made of the chain's answers, the chain held the clearance named by
   * the authorization at both blocks, the second not before the first.
   */
  lemma ClearanceHeldTwice(g: Gate, events: seq<Event>, k: nat, nonce: Text, before: Answers, after: Answers)
    requires ValidGate(g) && ChecksumSigners(g) && k < |Run(g, events).returned|
    requires nonce == NonceOf(Run(g, events).returned[k]) && nonce in Run(g, events).issued
    requires var r := Run(g, events).issued[nonce];
             && ValidClearance(r.clearance)
             && ReadExactClearance(g.lib.hashing, g.registry, r.clearance, before) == Some(r.snapshot)
             && ReadExactClearance(g.lib.hashing, g.registry, r.clearance, after) == Some(Run(g, events).returned[k].snapshot)
    ensures var c := Run(g, events).issued[nonce].clearance;
            && IntentBound(g.lib.hashing, Run(g, events).returned[k].authorization.intent, c)
            && ChainHolds(g.lib.hashing, c, before) && ChainHolds(g.lib.hashing, c, after)
            && before.blockNumber <= after.blockNumber
  {
    var s := Run(g, events);
    var r := s.issued[nonce];
    AuthorizationSafe(g, events, k);
    ReadHolds(g, r.clearance, before);
    ReadHolds(g, r.clearance, after);
  }

  // ---------- Readback ----------

  lemma MatchesPrepared(g: Gate, row: Row, r: Request)
    requires Issued(g, r) && AsIssued(row) == r.row
    ensures MatchesIssued(g, row, PreparedOf(r))
  {
  }

  lemma LoadOwned(rows: Rows, nonce: Text, accountId: Option<Text>)
    requires nonce in rows && Owner(accountId, rows[nonce])
    ensures LoadRow(rows, nonce, accountId) == Some(rows[nonce])
  {
  }

  /** The owner of a prepared request reads the status of its row. */
  lemma StatusOfRow(g: Gate, rows: Rows, r: Request, accountId: Option<Text>)
    requires Issued(g, r) && Owner(accountId, r.row)
    requires r.intent.nonce in rows && AsIssued(rows[r.intent.nonce]) == r.row
    ensures GetAuthorizationStatus(g, rows, PreparedOf(r), accountId) == RowStatus(g, rows[r.intent.nonce], PreparedOf(r))
  {
    LoadOwned(rows, r.intent.nonce, accountId);
    MatchesPrepared(g, rows[r.intent.nonce], r);
  }

  /** Until its consume succeeds, a prepared request awaits the ledger. */
  lemma AwaitingUntilConsumed(g: Gate, events: seq<Event>, nonce: Text, accountId: Option<Text>)
    requires ValidGate(g) && nonce in Run(g, events).issued
    requires !Returned(nonce, Run(g, events).returned)
    requires Owner(accountId, Run(g, events).issued[nonce].row)
    ensures var s := Run(g, events);
            var p := PreparedOf(s.issued[nonce]);
            GetAuthorizationStatus(g, s.rows, p, accountId) == Some(AwaitingLedger(p.protocolIntentDigest, p.typedDataDigest))
  {
    var s := Run(g, events);
    RunInvariant(g, events);
    ConsistentRow(LawsOf(g), s, nonce);
    ConsistentState(LawsOf(g), s, nonce);
    StatusOfRow(g, s.rows, s.issued[nonce], accountId);
  }

  /** What the readback asks of the second block hash, and consume does not. */
  predicate HashReadable(a: Authorization) {
    IsBytes32(a.postcheckBlockHash)
  }

  lemma BlockNumbersOrdered(before: nat, after: nat)
    requires before <= after
    ensures BlockNumber(Decimal.Digits(before)) && BlockNumber(Decimal.Digits(after))
    ensures Decimal.Number(Decimal.Digits(after)) >= Decimal.Number(Decimal.Digits(before))
  {
    Decimal.DigitsCanonical(before);
    Decimal.DigitsCanonical(after);
  }

  lemma AgreesExact(g: Gate, release: Release, r: Request)
    requires Issued(g, r) && Authorizes(g, release, r) && ChecksumSigners(g)
    ensures AgreesWith(g.lib, release.authorization, PreparedOf(r), r.row.authorizedSigner) <==> HashReadable(release.authorization)
  {
    SignerIsStored(g, release, r);
    BlockNumbersOrdered(r.snapshot.blockNumber, release.snapshot.blockNumber);
  }

  function ReadStored(g: Gate, r: Request, a: Authorization): Option<Status> {
    var p := PreparedOf(r);
    if HashReadable(a) then Some(Authorized(p.protocolIntentDigest, p.typedDataDigest, a)) else None
  }

  lemma ParsedExact(g: Gate, release: Release, r: Request)
    requires Issued(g, r) && Authorizes(g, release, r) && ChecksumSigners(g)
    requires AuthorizationText(g, release.authorization).Some?
    ensures ParseStoredAuthorization(g.lib, g.registry, AuthorizationText(g, release.authorization).value, PreparedOf(r), r.row.authorizedSigner)
            == if HashReadable(release.authorization) then Some(release.authorization) else None
  {
    AgreesExact(g, release, r);
    StoredReadBack(g.lib, g.registry, release.authorization, PreparedOf(r), r.row.authorizedSigner);
  }

  lemma ReleasedRow(g: Gate, row: Row, r: Request, release: Release)
    requires Issued(g, r) && Authorizes(g, release, r) && ChecksumSigners(g)
    requires row.consumed && row.authorizedSigner == r.row.authorizedSigner
    requires AuthorizationText(g, release.authorization).Some?
    requires row.authorizationJson == AuthorizationText(g, release.authorization)
    ensures RowStatus(g, row, PreparedOf(r)) == ReadStored(g, r, release.authorization)
  {
    ParsedExact(g, release, r);
  }

  /**
   * Once consume returned an authorization, and after any further events, the readback returns exactly that
   * authorization when its second block hash has the shape of 32 octets, and refuses otherwise.
   */
  lemma AuthorizedForever(g: Gate, events: seq<Event>, later: seq<Event>, k: nat, accountId: Option<Text>)
    requires ValidGate(g) && ChecksumSigners(g) && k < |Run(g, events).returned|
    requires var s := Run(g, events);
             NonceOf(s.returned[k]) in s.issued && Owner(accountId, s.issued[NonceOf(s.returned[k])].row)
    ensures var s := Run(g, events);
            var r := s.issued[NonceOf(s.returned[k])];
            GetAuthorizationStatus(g, Run(g, events + later).rows, PreparedOf(r), accountId)
            == ReadStored(g, r, s.returned[k].authorization)
  {
    var s := Run(g, events);
    var t := Run(g, events + later);
    RunKept(g, events, later);
    RunInvariant(g, events);
    ConsistentRelease(LawsOf(g), s, k, t);
    var nonce := NonceOf(s.returned[k]);
    StatusOfRow(g, t.rows, s.issued[nonce], accountId);
    ReleasedRow(g, t.rows[nonce], s.issued[nonce], s.returned[k]);
  }

  lemma RunKept(g: Gate, events: seq<Event>, later: seq<Event>)
    ensures Kept(Run(g, events), Run(g, events + later))
  {
    AfterConcat(SegmentsOf(g), START, events, later);
    RunKeeps(SegmentsOf(g), Run(g, events), later);
  }

  // ---------- The unchecked block hash ----------

  lemma RunOne(g: Gate, events: seq<Event>, e: Event)
    ensures Run(g, events + [e]) == Step(SegmentsOf(g), Run(g, events), e)
  {
    AfterConcat(SegmentsOf(g), START, events, [e]);
    assert After(SegmentsOf(g), Run(g, events), [e]) == After(SegmentsOf(g), Step(SegmentsOf(g), Run(g, events), e), []);
  }

  /** The waiting call hands out an authorization when the registry answers with this snapshot. */
  predicate Granted(g: Gate, s: State, call: nat, snapshot: Snapshot) {
    && call in s.calls && s.calls[call].Checking?
    && FinishConsume(g, s.rows, s.calls[call].signed, s.calls[call].recovered, Some(snapshot)).1.Some?
  }

  /** With an empty block hash in the same snapshot every check passes, and the record has a text. */
  lemma EmptiedHashGranted(g: Gate, rows: Rows, w: Signed, recovered: Text, snapshot: Snapshot)
    requires g.lib.hashing.nfc([]) && FinishConsume(g, rows, w, recovered, Some(snapshot)).1.Some?
    ensures var a := FinishConsume(g, rows, w, recovered, Some(snapshot.(blockHash := []))).1;
            a.Some? && !HashReadable(a.value)
  {
    var a := NewAuthorization(g, w, recovered, Some(snapshot)).value;
    assert NewAuthorization(g, w, recovered, Some(snapshot.(blockHash := []))) == Some(a.(postcheckBlockHash := []));
    EmptiedHashSerializes(g.lib.hashing.nfc, g.registry, a);
  }

  lemma GrantedReturns(g: Gate, s: State, call: nat, snapshot: Snapshot)
    requires Granted(g, s, call, snapshot)
    ensures var w := s.calls[call].signed;
            Step(SegmentsOf(g), s, AnswerConsume(call, Some(snapshot))).returned
            == s.returned + [Release(FinishConsume(g, s.rows, w, s.calls[call].recovered, Some(snapshot)).1.value, w, snapshot)]
  {
    AnswerReturns(SegmentsOf(g), s, call, snapshot);
  }

  /**
   * Whenever a call would be handed an authorization, the same answer with an empty block hash also gets one, and
   * the status of that request is refused in every continuation, though its row is consumed.
   */
  lemma BlockHashUnchecked(g: Gate, events: seq<Event>, call: nat, snapshot: Snapshot, later: seq<Event>)
    requires ValidGate(g) && ChecksumSigners(g) && g.lib.hashing.nfc([])
    requires Granted(g, Run(g, events), call, snapshot)
    ensures var emptied := events + [AnswerConsume(call, Some(snapshot.(blockHash := [])))];
            var before, after := Run(g, events), Run(g, emptied);
            && |after.returned| == |before.returned| + 1
            && var nonce := NonceOf(after.returned[|before.returned|]);
               && nonce in after.issued
               && GetAuthorizationStatus(g, Run(g, emptied + later).rows, PreparedOf(after.issued[nonce]), None) == None
  {
    var s := Run(g, events);
    var hashless := snapshot.(blockHash := []);
    var e := AnswerConsume(call, Some(hashless));
    EmptiedHashGranted(g, s.rows, s.calls[call].signed, s.calls[call].recovered, snapshot);
    RunOne(g, events, e);
    GrantedReturns(g, s, call, hashless);
    AuthorizationSafe(g, events + [e], |s.returned|);
    AuthorizedForever(g, events + [e], later, |s.returned|, None);
  }
}
