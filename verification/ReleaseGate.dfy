/** The release gate between two awaits: the nonce store, and the segments of prepare and consume. */
module ReleaseGate {
  import opened Text
  import opened Values
  import opened Digests
  import opened Schemas
  import opened StoredText
  import opened Timestamps
  import opened Records
  import opened Bindings
  import opened Registry
  import opened Authorizations
  import Decimal

  // ---------- The store ----------

  datatype Row = Row(
    accountId: Option<Text>, consumed: bool, intentJson: Text, clearanceJson: Text, authorizedSigner: Text,
    protocolIntentDigest: Text, typedDataDigest: Text, precheckBlockNumber: Text, precheckBlockHash: Text,
    precheckBlockTimestamp: UnixTimestamp, authorizationJson: Option<Text>)

  /** The columns written by issue; the other two belong to consume. */
  function AsIssued(row: Row): Row {
    row.(consumed := false, authorizationJson := None)
  }

  type Rows = map<Text, Row>

  function LoadRow(rows: Rows, nonce: Text, accountId: Option<Text>): Option<Row> {
    if nonce !in rows then None
    else if accountId.Some? && rows[nonce].accountId != accountId then None
    else Some(rows[nonce])
  }

  /** The row the compare-and-set statement matches; a null account matches no account. */
  predicate Consumable(rows: Rows, nonce: Text, accountId: Option<Text>) {
    nonce in rows && !rows[nonce].consumed && (accountId.None? || rows[nonce].accountId == accountId)
  }

  function ConsumedRow(row: Row, authorizationJson: Text): Row {
    row.(consumed := true, authorizationJson := Some(authorizationJson))
  }

  class ReleaseStore {
    var rows: Rows

    constructor ()
      ensures rows == map[]
    {
      rows := map[];
    }

    /** INSERT: the nonce is the primary key. */
    method Issue(nonce: Text, row: Row) returns (ok: bool)
      requires row == AsIssued(row)
      modifies this
      ensures ok <==> nonce !in old(rows)
      ensures rows == if ok then old(rows)[nonce := row] else old(rows)
    {
      ok := nonce !in rows;
      if ok {
        rows := rows[nonce := row];
      }
    }

    method Load(nonce: Text, accountId: Option<Text>) returns (r: Option<Row>)
      ensures r == LoadRow(rows, nonce, accountId)
    {
      if nonce !in rows {
        return None;
      }
      var row := rows[nonce];
      if accountId.Some? && row.accountId != accountId {
        return None;
      }
      return Some(row);
    }

    /** UPDATE ... WHERE state = 'ISSUED': one row changes, or none and the call is refused. */
    method Consume(nonce: Text, authorizationJson: Text, accountId: Option<Text>) returns (ok: bool)
      modifies this
      ensures ok <==> Consumable(old(rows), nonce, accountId)
      ensures ok <==> nonce in old(rows) && !old(rows)[nonce].consumed && (accountId == None || accountId == old(rows)[nonce].accountId)
      ensures ok ==> rows == old(rows)[nonce := ConsumedRow(old(rows)[nonce], authorizationJson)]
      ensures ok ==> rows[nonce].consumed && rows[nonce].authorizationJson == Some(authorizationJson) && AsIssued(rows[nonce]) == AsIssued(old(rows)[nonce])
      ensures !ok ==> rows == old(rows)
    {
      var changes := 0;
      if nonce in rows && !rows[nonce].consumed {
        if accountId.None? || rows[nonce].accountId == accountId {
          rows := rows[nonce := rows[nonce].(consumed := true, authorizationJson := Some(authorizationJson))];
          changes := 1;
        }
      }
      return changes == 1;
    }
  }

  // ---------- Configuration ----------

  /** The authorized signers are checksum addresses; the time to live is checked by the constructor. */
  datatype Gate = Gate(lib: Library, registry: Text, signers: set<Text>, ttl: nat)

  predicate ValidGate(g: Gate) {
    1 <= g.ttl <= 900
  }

  function AssertAuthorized(g: Gate, input: Text): Option<Text> {
    match g.lib.getAddress(input)
    case None => None
    case Some(address) => if address in g.signers then Some(address) else None
  }

  /** The typed data of an intent for a signer, and its digest. */
  datatype Signing = Signing(data: TypedData, typedDataDigest: Text)

  function BuildTypedData(lib: Library, intent: Intent, signer: Text): Option<Signing> {
    match (lib.getAddress(signer), DigestIntent(lib.hashing, intent))
    case (Some(address), Some(digest)) =>
      var data := TypedData(intent, address, digest);
      Some(Signing(data, lib.hashTypedData(data)))
    case _ => None
  }

  // ---------- prepare ----------

  datatype Proposal = Proposal(
    siteId: Text, robotId: Text, robotBuildId: Text, robotBuildDigest: Text, clearance: Data,
    signerAddress: Text, accountId: Option<Text>)

  /** What prepare holds while it waits for the registry. */
  datatype Preparation = Preparation(clearance: ClearanceRecord, authorizedSigner: Text, accountId: Option<Text>)

  /** parseSiteId and its like, compared with the parsed clearance. */
  predicate ProposalBindings(p: Proposal, c: ClearanceRecord) {
    && p.siteId == c.inputs.siteId && p.robotId == c.inputs.robotId
    && p.robotBuildId == c.inputs.robotBuildId && p.robotBuildDigest == c.inputs.robotBuildDigest
  }

  function BeginPrepare(g: Gate, p: Proposal): Option<Preparation> {
    match ParseClearance(p.clearance)
    case None => None
    case Some(clearance) =>
      if !ProposalBindings(p, clearance) then None
      else
        match AssertAuthorized(g, p.signerAddress)
        case None => None
        case Some(signer) => Some(Preparation(clearance, signer, p.accountId))
  }

  /** The request issued for a clearance at a snapshot: everything up to the INSERT. */
  datatype Request = Request(intent: Intent, clearance: ClearanceRecord, snapshot: Snapshot, row: Row)

  function NewRequest(g: Gate, w: Preparation, answer: Option<Snapshot>, nonce: Text): Option<Request> {
    if answer.None? || AssertEligible(g.registry, answer.value).None? then None
    else
      var snapshot := answer.value;
      match ComputeExpiry(snapshot.blockTimestamp, w.clearance.expiresAt, g.ttl)
      case None => None
      case Some(expiresAt) =>
        match CreateDeploymentIntent(g.lib.hashing, w.clearance, nonce, snapshot.blockTimestamp, expiresAt)
        case None => None
        case Some(intent) => IssueRequest(g, w, snapshot, intent)
  }

  function IssueRequest(g: Gate, w: Preparation, snapshot: Snapshot, intent: Intent): Option<Request> {
    var nfc := g.lib.hashing.nfc;
    match (BuildTypedData(g.lib, intent, w.authorizedSigner), Serialize(nfc, IntentData(intent)), Serialize(nfc, ClearanceData(w.clearance)))
    case (Some(signing), Some(intentJson), Some(clearanceJson)) =>
      Some(Request(intent, w.clearance, snapshot,
                   Row(w.accountId, false, intentJson, clearanceJson, w.authorizedSigner,
                       signing.data.protocolIntentDigest, signing.typedDataDigest,
                       Decimal.Digits(snapshot.blockNumber), snapshot.blockHash, snapshot.blockTimestamp, None)))
    case _ => None
  }

  /** The answer to the caller. */
  function PreparedOf(r: Request): Prepared {
    Prepared(r.intent, r.row.authorizedSigner, r.row.protocolIntentDigest, r.row.typedDataDigest,
             r.row.precheckBlockNumber, r.row.precheckBlockHash, r.row.precheckBlockTimestamp)
  }

  /** The INSERT: a nonce that is already there refuses the request. */
  function Insert(rows: Rows, request: Option<Request>): (Rows, Option<Request>) {
    match request
    case None => (rows, None)
    case Some(r) => if r.intent.nonce in rows then (rows, None) else (rows[r.intent.nonce := r.row], request)
  }

  function FinishPrepare(g: Gate, rows: Rows, w: Preparation, answer: Option<Snapshot>, nonce: Text): (Rows, Option<Request>) {
    Insert(rows, NewRequest(g, w, answer, nonce))
  }

  // ---------- consume ----------

  datatype Consumption = Consumption(intent: Data, signature: Text, accountId: Option<Text>)

  /** What consume holds while it waits: the row as loaded and what was rebuilt from it. */
  datatype Signed = Signed(
    row: Row, intent: Intent, clearance: ClearanceRecord, signing: Signing, signature: Text, accountId: Option<Text>)

  /** The row of the supplied intent, while it is ISSUED and holds exactly that intent. */
  function SuppliedRow(g: Gate, rows: Rows, accountId: Option<Text>, supplied: Intent): Option<Row> {
    match LoadRow(rows, supplied.nonce, accountId)
    case None => None
    case Some(row) =>
      if row.consumed then None
      else if Serialize(g.lib.hashing.nfc, IntentData(supplied)) != Some(row.intentJson) then None
      else Some(row)
  }

  function BeginConsume(g: Gate, rows: Rows, input: Consumption): Option<Signed> {
    match ParseIntent(input.intent)
    case None => None
    case Some(supplied) =>
      match SuppliedRow(g, rows, input.accountId, supplied)
      case None => None
      case Some(row) => Rebuild(g, row, input)
  }

  /** The stored texts parsed again, and the signing request rebuilt and compared. */
  function Rebuild(g: Gate, row: Row, input: Consumption): Option<Signed> {
    match (ReadText(row.intentJson), ReadText(row.clearanceJson))
    case (Some(i), Some(c)) =>
      (match (ParseIntent(i), ParseClearance(c), AssertAuthorized(g, row.authorizedSigner))
       case (Some(intent), Some(clearance), Some(signer)) =>
         (match BuildTypedData(g.lib, intent, signer)
          case Some(signing) =>
            if signing.data.protocolIntentDigest == row.protocolIntentDigest && signing.typedDataDigest == row.typedDataDigest then
              Some(Signed(row, intent, clearance, signing, input.signature, input.accountId))
            else None
          case None => None)
       case _ => None)
    case _ => None
  }

  /** 65 octets in hexadecimal. */
  predicate IsSignature(t: Text) {
    |t| == 132 && t[..2] == HEX_PREFIX && HexDigits(t[2..])
  }

  /** The recovered address must be the authorized signer and still be allowed. */
  function RecoverSigner(g: Gate, w: Signed): Option<Text> {
    if !IsSignature(w.signature) then None
    else
      match g.lib.recoverAddress(w.signing.data, w.signature)
      case None => None
      case Some(raw) =>
        match g.lib.getAddress(raw)
        case None => None
        case Some(recovered) =>
          if recovered != w.signing.data.authorizedSigner then None
          else if AssertAuthorized(g, recovered).None? then None
          else Some(recovered)
  }

  /** The checks after the second read of the registry, and the record they allow. */
  function NewAuthorization(g: Gate, w: Signed, recovered: Text, answer: Option<Snapshot>): Option<Authorization> {
    if answer.None? || AssertEligible(g.registry, answer.value).None? then None
    else if !Decimal.AllDigits(w.row.precheckBlockNumber) then None
    else if answer.value.blockNumber < Decimal.Number(w.row.precheckBlockNumber) then None
    else if CompareUnixTimestamps(answer.value.blockTimestamp, w.intent.expiresAt) >= 0 then None
    else
      Some(Authorization(
        Current, w.intent, w.signing.data.protocolIntentDigest, w.signing.typedDataDigest, recovered,
        g.lib.keccak256(w.signature), answer.value.blockTimestamp, w.intent.expiresAt,
        w.row.precheckBlockNumber, w.row.precheckBlockHash,
        Decimal.Digits(answer.value.blockNumber), answer.value.blockHash))
  }

  function AuthorizationText(g: Gate, a: Authorization): Option<Text> {
    Serialize(g.lib.hashing.nfc, AuthorizationData(g.registry, a))
  }

  /** The compare-and-set update: the authorization is handed out only when it changed the row. */
  function Update(rows: Rows, w: Signed, a: Option<Authorization>, text: Option<Text>): (Rows, Option<Authorization>) {
    if a.Some? && text.Some? && Consumable(rows, w.intent.nonce, w.accountId) then
      (rows[w.intent.nonce := ConsumedRow(rows[w.intent.nonce], text.value)], a)
    else (rows, None)
  }

  function TextOf(g: Gate, a: Option<Authorization>): Option<Text> {
    if a.Some? then AuthorizationText(g, a.value) else None
  }

  function FinishConsume(g: Gate, rows: Rows, w: Signed, recovered: Text, answer: Option<Snapshot>): (Rows, Option<Authorization>) {
    var a := NewAuthorization(g, w, recovered, answer);
    Update(rows, w, a, TextOf(g, a))
  }

  // ---------- getAuthorizationStatus ----------

  datatype Status =
    | AwaitingLedger(protocolIntentDigest: Text, typedDataDigest: Text)
    | Authorized(protocolIntentDigest: Text, typedDataDigest: Text, authorization: Authorization)

  predicate MatchesIssued(g: Gate, row: Row, p: Prepared) {
    && Some(row.intentJson) == Serialize(g.lib.hashing.nfc, IntentData(p.intent))
    && row.protocolIntentDigest == p.protocolIntentDigest
    && row.typedDataDigest == p.typedDataDigest
    && g.lib.toLowerCase(row.authorizedSigner) == g.lib.toLowerCase(p.authorizedSigner)
  }

  /** Nothing stands for a refusal, including the two for inconsistent rows. */
  function RowStatus(g: Gate, row: Row, p: Prepared): Option<Status> {
    if !row.consumed then
      if row.authorizationJson.Some? then None
      else Some(AwaitingLedger(p.protocolIntentDigest, p.typedDataDigest))
    else if row.authorizationJson.None? then None
    else
      match ParseStoredAuthorization(g.lib, g.registry, row.authorizationJson.value, p, row.authorizedSigner)
      case None => None
      case Some(a) => Some(Authorized(p.protocolIntentDigest, p.typedDataDigest, a))
  }

  function GetAuthorizationStatus(g: Gate, rows: Rows, p: Prepared, accountId: Option<Text>): Option<Status> {
    if !ValidIntent(p.intent) then None
    else
      match LoadRow(rows, p.intent.nonce, accountId)
      case None => None
      case Some(row) => if MatchesIssued(g, row, p) then RowStatus(g, row, p) else None
  }

  // ---------- The service over its store ----------

  class ReleaseService {
    const gate: Gate
    const store: ReleaseStore

    constructor (gate: Gate, store: ReleaseStore)
      requires ValidGate(gate)
      ensures this.gate == gate && this.store == store
    {
      this.gate := gate;
      this.store := store;
    }

    /** The segment of prepare after the registry answered. */
    method AnswerPrepare(w: Preparation, answer: Option<Snapshot>, nonce: Text) returns (r: Option<Request>)
      modifies store
      ensures (store.rows, r) == FinishPrepare(gate, old(store.rows), w, answer, nonce)
    {
      var request := NewRequest(gate, w, answer, nonce);
      if request.None? {
        return None;
      }
      var issued := store.Issue(request.value.intent.nonce, request.value.row);
      return if issued then request else None;
    }

    /** The stored row of a supplied intent: loaded, not consumed, and of the same text. */
    method LoadSupplied(supplied: Intent, accountId: Option<Text>) returns (row: Option<Row>)
      ensures row == SuppliedRow(gate, store.rows, accountId, supplied)
    {
      row := store.Load(supplied.nonce, accountId);
      if row.None? || row.value.consumed {
        return None;
      }
      if Serialize(gate.lib.hashing.nfc, IntentData(supplied)) != Some(row.value.intentJson) {
        return None;
      }
    }

    /** The segment of consume up to the recovery of the signer. */
    method StartConsume(input: Consumption) returns (r: Option<Signed>)
      ensures r == BeginConsume(gate, store.rows, input)
    {
      var supplied := ParseIntent(input.intent);
      if supplied.None? {
        return None;
      }
      var row := LoadSupplied(supplied.value, input.accountId);
      return if row.None? then None else Rebuild(gate, row.value, input);
    }

    /** The segment of consume after the second read of the registry. */
    method AnswerConsume(w: Signed, recovered: Text, answer: Option<Snapshot>) returns (r: Option<Authorization>)
      modifies store
      ensures (store.rows, r) == FinishConsume(gate, old(store.rows), w, recovered, answer)
    {
      r := NewAuthorization(gate, w, recovered, answer);
      if r.None? {
        return;
      }
      var text := AuthorizationText(gate, r.value);
      if text.None? {
        return None;
      }
      var consumed := store.Consume(w.intent.nonce, text.value, w.accountId);
      if !consumed {
        return None;
      }
    }

    method AuthorizationStatus(p: Prepared, accountId: Option<Text>) returns (r: Option<Status>)
      ensures r == GetAuthorizationStatus(gate, store.rows, p, accountId)
    {
      if !ValidIntent(p.intent) {
        return None;
      }
      var row := store.Load(p.intent.nonce, accountId);
      if row.None? || !MatchesIssued(gate, row.value, p) {
        return None;
      }
      if !row.value.consumed {
        if row.value.authorizationJson.Some? {
          return None;
        }
        return Some(AwaitingLedger(p.protocolIntentDigest, p.typedDataDigest));
      }
      if row.value.authorizationJson.None? {
        return None;
      }
      var a := ParseStoredAuthorization(gate.lib, gate.registry, row.value.authorizationJson.value, p, row.value.authorizedSigner);
      return if a.Some? then Some(Authorized(p.protocolIntentDigest, p.typedDataDigest, a.value)) else None;
    }
  }
}
