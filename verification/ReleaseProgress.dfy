/** When the gate lets a call through: each refusal of prepare and consume has one of the stated reasons, and no other. */
module ReleaseProgress {
  import opened Text
  import opened Values
  import opened Digests
  import opened Schemas
  import opened StoredText
  import opened Timestamps
  import opened Records
  import opened AsciiRecords
  import opened Bindings
  import opened Registry
  import opened Authorizations
  import opened ReleaseGate
  import opened ReleaseMachine
  import opened ReleaseTables
  import opened ReleaseRuns
  import Decimal

  // ---------- prepare ----------

  lemma SignerAddress(g: Gate, signer: Text)
    requires ChecksumSigners(g) && signer in g.signers
    ensures g.lib.getAddress(signer) == Some(signer) && AssertAuthorized(g, signer) == Some(signer)
  {
  }

  /** A valid intent for a listed signer can always be issued. */
  lemma IssuesExactly(g: Gate, w: Preparation, s: Snapshot, i: Intent)
    requires ChecksumSigners(g) && KeepsAscii(g.lib.hashing.nfc) && ValidPreparation(g, w) && ValidIntent(i)
    ensures IssueRequest(g, w, s, i).Some?
  {
    SignerAddress(g, w.authorizedSigner);
    IntentWritten(g.lib.hashing, i);
    ClearanceWritten(g.lib.hashing, w.clearance);
  }

  /** What prepare asks of the registry's answer and of the nonce it draws. */
  predicate Preparable(g: Gate, c: ClearanceRecord, answer: Option<Snapshot>, nonce: Text) {
    && answer.Some? && Eligible(g.registry, answer.value) && IsNonce(nonce)
    && Seconds(c.issuedAt) <= Seconds(answer.value.blockTimestamp) < Seconds(c.expiresAt)
    && DigestInputs(g.lib.hashing, c.inputs) == Some(c.evaluationInputsDigest)
  }

  lemma ExpiryStep(g: Gate, c: ClearanceRecord, s: Snapshot, nonce: Text)
    requires ValidGate(g) && KeepsAscii(g.lib.hashing.nfc) && ValidClearance(c)
    ensures var e := ComputeExpiry(s.blockTimestamp, c.expiresAt, g.ttl);
            e.Some? && CreateDeploymentIntent(g.lib.hashing, c, nonce, s.blockTimestamp, e.value).Some? <==>
              && IsNonce(nonce) && Seconds(c.issuedAt) <= Seconds(s.blockTimestamp) < Seconds(c.expiresAt)
              && DigestInputs(g.lib.hashing, c.inputs) == Some(c.evaluationInputsDigest)
    ensures var e := ComputeExpiry(s.blockTimestamp, c.expiresAt, g.ttl);
            e.Some? && CreateDeploymentIntent(g.lib.hashing, c, nonce, s.blockTimestamp, e.value).Some? ==>
              ValidIntent(CreateDeploymentIntent(g.lib.hashing, c, nonce, s.blockTimestamp, e.value).value)
  {
    ExpiryExact(s.blockTimestamp, c.expiresAt, g.ttl);
    ClearanceWritten(g.lib.hashing, c);
    if ComputeExpiry(s.blockTimestamp, c.expiresAt, g.ttl).Some? {
      CreateIntentExact(g.lib.hashing, c, nonce, s.blockTimestamp, ComputeExpiry(s.blockTimestamp, c.expiresAt, g.ttl).value);
    }
  }

  /**
   * A request is made exactly when the clearance is eligible on chain, its life spans the block, it holds the digest
   * of its own inputs, and the nonce is well formed.
   */
  lemma PreparedExactly(g: Gate, w: Preparation, answer: Option<Snapshot>, nonce: Text)
    requires ValidGate(g) && ChecksumSigners(g) && KeepsAscii(g.lib.hashing.nfc) && ValidPreparation(g, w)
    ensures NewRequest(g, w, answer, nonce).Some? <==> Preparable(g, w.clearance, answer, nonce)
  {
    if answer.Some? {
      var s := answer.value;
      EligibleMeaning(g.registry, s);
      ExpiryStep(g, w.clearance, s, nonce);
      var e := ComputeExpiry(s.blockTimestamp, w.clearance.expiresAt, g.ttl);
      if e.Some? {
        var i := CreateDeploymentIntent(g.lib.hashing, w.clearance, nonce, s.blockTimestamp, e.value);
        if i.Some? {
          IssuesExactly(g, w, s, i.value);
        }
      }
    }
  }

  /** What prepare answers: the intent, its digest, the message the signer is to be shown, and the block it was checked at. */
  predicate AnswersWith(g: Gate, p: Prepared, r: Request) {
    && p.intent == r.intent && p.authorizedSigner in g.signers
    && Some(p.protocolIntentDigest) == DigestIntent(g.lib.hashing, r.intent)
    && p.typedDataDigest == g.lib.hashTypedData(TypedData(r.intent, p.authorizedSigner, p.protocolIntentDigest))
    && p.blockNumber == Decimal.Digits(r.snapshot.blockNumber) && p.blockHash == r.snapshot.blockHash
    && p.blockTimestamp == r.snapshot.blockTimestamp == r.intent.issuedAt
  }

  lemma PreparedAnswer(g: Gate, r: Request)
    requires ChecksumSigners(g) && Issued(g, r)
    ensures AnswersWith(g, PreparedOf(r), r)
  {
    SignerAddress(g, r.row.authorizedSigner);
  }

  // ---------- consume, up to the recovery of the signer ----------

  lemma RowReads(g: Gate, r: Request)
    requires Issued(g, r)
    ensures ReadText(r.row.intentJson) == Some(Normal(IntentData(r.intent))) && ParseIntent(Normal(IntentData(r.intent))) == Some(r.intent)
    ensures ReadText(r.row.clearanceJson) == Some(Normal(ClearanceData(r.clearance)))
    ensures ParseClearance(Normal(ClearanceData(r.clearance))) == Some(r.clearance)
  {
    IntentReadBack(r.intent);
    ClearanceReadBack(r.clearance);
    SerializedReadBack(g.lib.hashing.nfc, IntentData(r.intent));
    SerializedReadBack(g.lib.hashing.nfc, ClearanceData(r.clearance));
  }

  lemma RebuildsExactly(g: Gate, r: Request, input: Consumption)
    requires ChecksumSigners(g) && Issued(g, r)
    ensures Rebuild(g, r.row, input).Some?
  {
    RowReads(g, r);
    SignerAddress(g, r.row.authorizedSigner);
  }

  /** The stored text is that of the supplied intent exactly when it is the issued one. */
  lemma SuppliedExactly(g: Gate, r: Request, supplied: Intent)
    requires Issued(g, r) && ValidIntent(supplied)
    ensures Serialize(g.lib.hashing.nfc, IntentData(supplied)) == Some(r.row.intentJson) <==> supplied == r.intent
  {
    if Serialize(g.lib.hashing.nfc, IntentData(supplied)) == Some(r.row.intentJson) {
      SerializedIntents(g.lib.hashing.nfc, supplied, r.intent);
    }
  }

  /** The row under the nonce is that of the issued request, and consumed exactly when an authorization was handed out. */
  predicate Known(g: Gate, s: State, nonce: Text, r: Request) {
    && nonce in s.rows && nonce in s.issued && s.issued[nonce] == r && Issued(g, r) && r.intent.nonce == nonce
    && AsIssued(s.rows[nonce]) == r.row
    && (s.rows[nonce].consumed <==> Returned(nonce, s.returned))
    && (s.rows[nonce].consumed <==> s.rows[nonce].authorizationJson.Some?)
    && (!s.rows[nonce].consumed ==> s.rows[nonce] == r.row)
  }

  lemma KnownRow(g: Gate, s: State, nonce: Text)
    requires nonce in s.rows && nonce in s.issued && RowConsistent(LawsOf(g), nonce, s.rows[nonce], s.issued[nonce])
    requires s.rows[nonce].consumed <==> Returned(nonce, s.returned)
    ensures Known(g, s, nonce, s.issued[nonce])
  {
  }

  lemma IssuedKnown(g: Gate, events: seq<Event>, nonce: Text)
    requires ValidGate(g) && (nonce in Run(g, events).rows || nonce in Run(g, events).issued)
    ensures nonce in Run(g, events).issued && Known(g, Run(g, events), nonce, Run(g, events).issued[nonce])
  {
    var s, l := Run(g, events), LawsOf(g);
    RunInvariant(g, events);
    ConsistentRow(l, s, nonce);
    ConsistentState(l, s, nonce);
    KnownRow(g, s, nonce);
  }

  lemma LoadExactly(rows: Rows, nonce: Text, accountId: Option<Text>)
    requires nonce in rows
    ensures LoadRow(rows, nonce, accountId) == if Owner(accountId, rows[nonce]) then Some(rows[nonce]) else None
  {
  }

  lemma SuppliedRowExactly(g: Gate, s: State, accountId: Option<Text>, supplied: Intent, r: Request)
    requires Known(g, s, supplied.nonce, r) && ValidIntent(supplied)
    ensures SuppliedRow(g, s.rows, accountId, supplied) ==
              if Owner(accountId, r.row) && supplied == r.intent && !Returned(supplied.nonce, s.returned) then Some(r.row) else None
  {
    LoadExactly(s.rows, supplied.nonce, accountId);
    SuppliedExactly(g, r, supplied);
  }

  lemma StartsExactly(g: Gate, s: State, input: Consumption, supplied: Intent, r: Request)
    requires ChecksumSigners(g) && Known(g, s, supplied.nonce, r)
    requires ParseIntent(input.intent) == Some(supplied) && ValidIntent(supplied)
    ensures BeginConsume(g, s.rows, input).Some? <==>
              Owner(input.accountId, r.row) && supplied == r.intent && !Returned(supplied.nonce, s.returned)
  {
    SuppliedRowExactly(g, s, input.accountId, supplied, r);
    RebuildsExactly(g, r, input);
  }

  lemma UnissuedRefused(g: Gate, rows: Rows, input: Consumption)
    requires ParseIntent(input.intent).None? || ParseIntent(input.intent).value.nonce !in rows
    ensures BeginConsume(g, rows, input).None?
  {
    if ParseIntent(input.intent).Some? {
      assert SuppliedRow(g, rows, input.accountId, ParseIntent(input.intent).value).None?;
    }
  }

  /** The intent supplied is one that was issued and not yet consumed, and its account asks. */
  predicate Consumes(s: State, input: Consumption) {
    && ParseIntent(input.intent).Some?
    && var nonce := ParseIntent(input.intent).value.nonce;
       && nonce in s.issued && ParseIntent(input.intent).value == s.issued[nonce].intent
       && Owner(input.accountId, s.issued[nonce].row) && !Returned(nonce, s.returned)
  }

  /** In every run consume starts exactly for an intent that was issued to that account and is not yet consumed. */
  lemma ConsumeStartsExactly(g: Gate, events: seq<Event>, input: Consumption)
    requires ValidGate(g) && ChecksumSigners(g)
    ensures BeginConsume(g, Run(g, events).rows, input).Some? <==> Consumes(Run(g, events), input)
  {
    var s := Run(g, events);
    var supplied := ParseIntent(input.intent);
    if supplied.Some? && (supplied.value.nonce in s.rows || supplied.value.nonce in s.issued) {
      ParsedIntentValid(input.intent);
      IssuedKnown(g, events, supplied.value.nonce);
      StartsExactly(g, s, input, supplied.value, s.issued[supplied.value.nonce]);
    } else {
      UnissuedRefused(g, s.rows, input);
    }
  }

  /** The signature has its shape and recovers, over the message of the request, to the signer stored with it. */
  predicate Recovers(g: Gate, r: Request, signature: Text) {
    && IsSignature(signature)
    && var message := TypedData(r.intent, r.row.authorizedSigner, r.row.protocolIntentDigest);
       && g.lib.recoverAddress(message, signature).Some?
       && g.lib.getAddress(g.lib.recoverAddress(message, signature).value) == Some(r.row.authorizedSigner)
  }

  /** A call goes on to its second read of the registry exactly when its signature is the stored signer's. */
  lemma RecoveredExactly(g: Gate, w: Signed, r: Request)
    requires ChecksumSigners(g) && Issued(g, r) && SignedFor(g, w, r)
    ensures RecoverSigner(g, w).Some? <==> Recovers(g, r, w.signature)
  {
    SignerAddress(g, r.row.authorizedSigner);
  }

  // ---------- consume, after the second read ----------

  /** The second snapshot is eligible, not older than the first, and before the expiry of the intent. */
  predicate Confirms(g: Gate, r: Request, s: Snapshot) {
    && Eligible(g.registry, s) && r.snapshot.blockNumber <= s.blockNumber
    && Seconds(s.blockTimestamp) < Seconds(r.intent.expiresAt)
  }

  lemma AuthorizesExactly(g: Gate, w: Signed, recovered: Text, s: Snapshot, r: Request)
    requires Issued(g, r) && SignedFor(g, w, r)
    ensures NewAuthorization(g, w, recovered, Some(s)).Some? <==> Confirms(g, r, s)
  {
    EligibleMeaning(g.registry, s);
    CompareIsNumeric(s.blockTimestamp, w.intent.expiresAt);
    Decimal.DigitsCanonical(r.snapshot.blockNumber);
  }

  lemma UpdateGuards(rows: Rows, w: Signed, a: Option<Authorization>, text: Option<Text>)
    ensures Update(rows, w, a, text).1.Some? <==> a.Some? && text.Some? && Consumable(rows, w.intent.nonce, w.accountId)
  {
  }

  /** The update finds its row exactly while no authorization was handed out for the nonce. */
  lemma UpdatesExactly(g: Gate, s: State, w: Signed, r: Request, a: Option<Authorization>, text: Option<Text>)
    requires Known(g, s, w.intent.nonce, r) && SignedFor(g, w, r)
    ensures Update(s.rows, w, a, text).1.Some? <==> a.Some? && text.Some? && !Returned(w.intent.nonce, s.returned)
  {
    UpdateGuards(s.rows, w, a, text);
  }

  lemma CheckingCall(g: Gate, events: seq<Event>, call: nat)
    requires ValidGate(g) && call in Run(g, events).calls && Run(g, events).calls[call].Checking?
    ensures var s := Run(g, events);
            var w := s.calls[call].signed;
            w.intent.nonce in s.issued && SignedFor(g, w, s.issued[w.intent.nonce])
  {
    RunInvariant(g, events);
    assert CallConsistent(LawsOf(g), Run(g, events).issued, Run(g, events).calls[call]);
  }

  /**
   * In every run a call that has recovered its signer is handed an authorization exactly when the second snapshot
   * confirms its request, nothing was handed out for its nonce before, and the record can be written.
   */
  lemma GrantedExactly(g: Gate, events: seq<Event>, call: nat, snapshot: Snapshot)
    requires ValidGate(g) && call in Run(g, events).calls && Run(g, events).calls[call].Checking?
    ensures var s := Run(g, events);
            var w := s.calls[call].signed;
            && w.intent.nonce in s.issued
            && (Granted(g, s, call, snapshot) <==>
                  && Confirms(g, s.issued[w.intent.nonce], snapshot) && !Returned(w.intent.nonce, s.returned)
                  && TextOf(g, NewAuthorization(g, w, s.calls[call].recovered, Some(snapshot))).Some?)
  {
    var s := Run(g, events);
    var w, recovered := s.calls[call].signed, s.calls[call].recovered;
    CheckingCall(g, events, call);
    IssuedKnown(g, events, w.intent.nonce);
    var r := s.issued[w.intent.nonce];
    var a := NewAuthorization(g, w, recovered, Some(snapshot));
    AuthorizesExactly(g, w, recovered, snapshot, r);
    UpdatesExactly(g, s, w, r, a, TextOf(g, a));
  }

  // ---------- The status ----------

  /** The request asked about is the one issued to the account: its intent, its digests, its signer but for case. */
  predicate AsksFor(g: Gate, p: Prepared, accountId: Option<Text>, r: Request) {
    && p.intent == r.intent && p.protocolIntentDigest == r.row.protocolIntentDigest && p.typedDataDigest == r.row.typedDataDigest
    && g.lib.toLowerCase(p.authorizedSigner) == g.lib.toLowerCase(r.row.authorizedSigner)
    && Owner(accountId, r.row)
  }

  lemma MatchesExactly(g: Gate, row: Row, p: Prepared, r: Request)
    requires Issued(g, r) && AsIssued(row) == r.row && ValidIntent(p.intent)
    ensures MatchesIssued(g, row, p) <==>
              && p.intent == r.intent && p.protocolIntentDigest == r.row.protocolIntentDigest && p.typedDataDigest == r.row.typedDataDigest
              && g.lib.toLowerCase(p.authorizedSigner) == g.lib.toLowerCase(r.row.authorizedSigner)
  {
    SuppliedExactly(g, r, p.intent);
  }

  lemma StatusWhenKnown(g: Gate, s: State, p: Prepared, accountId: Option<Text>, r: Request)
    requires ValidIntent(p.intent) && Known(g, s, p.intent.nonce, r)
    ensures GetAuthorizationStatus(g, s.rows, p, accountId) ==
              if AsksFor(g, p, accountId, r) then RowStatus(g, s.rows[p.intent.nonce], p) else None
  {
    LoadExactly(s.rows, p.intent.nonce, accountId);
    MatchesExactly(g, s.rows[p.intent.nonce], p, r);
  }

  lemma StatusUnissued(g: Gate, rows: Rows, p: Prepared, accountId: Option<Text>)
    requires !ValidIntent(p.intent) || p.intent.nonce !in rows
    ensures GetAuthorizationStatus(g, rows, p, accountId).None?
  {
  }

  lemma RowAwaits(g: Gate, row: Row, p: Prepared)
    requires row.consumed <==> row.authorizationJson.Some?
    ensures RowStatus(g, row, p).Some? && RowStatus(g, row, p).value.AwaitingLedger? <==> !row.consumed
  {
  }

  /** In every run a status is given only for a request issued to the account, and AWAITING_LEDGER exactly until its consume succeeds. */
  lemma AwaitingExactly(g: Gate, events: seq<Event>, p: Prepared, accountId: Option<Text>)
    requires ValidGate(g)
    ensures var s := Run(g, events);
            var status := GetAuthorizationStatus(g, s.rows, p, accountId);
            && (status.Some? ==> p.intent.nonce in s.issued && AsksFor(g, p, accountId, s.issued[p.intent.nonce]))
            && (status.Some? && status.value.AwaitingLedger? <==>
                  p.intent.nonce in s.issued && AsksFor(g, p, accountId, s.issued[p.intent.nonce]) && !Returned(p.intent.nonce, s.returned))
  {
    var s := Run(g, events);
    if p.intent.nonce in s.rows || p.intent.nonce in s.issued {
      IssuedKnown(g, events, p.intent.nonce);
      if ValidIntent(p.intent) {
        StatusWhenKnown(g, s, p, accountId, s.issued[p.intent.nonce]);
        RowAwaits(g, s.rows[p.intent.nonce], p);
      } else {
        StatusUnissued(g, s.rows, p, accountId);
      }
    } else {
      StatusUnissued(g, s.rows, p, accountId);
    }
  }
}
