/** The stored authorization record and the checks made when it is read back. */
module Authorizations {
  import opened Text
  import opened Values
  import opened Digests
  import opened Schemas
  import opened StoredText
  import opened Timestamps
  import opened Records
  import Decimal
  import Registry

  /** The libraries the gate calls: hashing, addresses, typed-data signing. Only the length of a hash is known. */
  datatype Library = Library(
    hashing: Hashing,
    getAddress: Text -> Option<Text>,
    hashTypedData: TypedData -> Text,
    recoverAddress: (TypedData, Text) -> Option<Text>,
    keccak256: Text -> Bytes32,
    toLowerCase: Text -> Text)

  /** The signed message: the intent, the signer it names, and the digest of the intent. */
  datatype TypedData = TypedData(intent: Intent, authorizedSigner: Text, protocolIntentDigest: Text)

  datatype Prepared = Prepared(
    intent: Intent, authorizedSigner: Text, protocolIntentDigest: Text, typedDataDigest: Text,
    blockNumber: Text, blockHash: Text, blockTimestamp: UnixTimestamp)

  /** The action, the chain and the registry are fixed by the deployment. */
  datatype Authorization = Authorization(
    dialect: Dialect, intent: Intent, protocolIntentDigest: Text, typedDataDigest: Text,
    recoveredSigner: Text, signatureHash: Text, authorizedAt: UnixTimestamp, expiresAt: UnixTimestamp,
    precheckBlockNumber: Text, precheckBlockHash: Text, postcheckBlockNumber: Text, postcheckBlockHash: Text)

  const AUTHORIZATION_SCHEMA: Text := Ascii("release-authorization/v1")

  const AUTHORIZATION_KEYS: seq<Text> := [
    Ascii("schemaVersion"), Ascii("intent"), Ascii("protocolIntentDigest"), Ascii("typedDataDigest"),
    Ascii("action"), Ascii("chainId"), Ascii("registry"), Ascii("recoveredSigner"), Ascii("signatureHash"),
    Ascii("authorizedAt"), Ascii("expiresAt"), Ascii("precheckBlockNumber"), Ascii("precheckBlockHash"),
    Ascii("postcheckBlockNumber"), Ascii("postcheckBlockHash")]

  const CHAIN_ID: Data := Num(Integral(Registry.SEPOLIA_CHAIN_ID))

  /** The members of the record, the intent as given. */
  function AuthorizationMembers(registry: Text, a: Authorization, intent: Data): (v: seq<Data>)
    ensures |v| == 15
  {
    [Str(Version(a.dialect, AUTHORIZATION_SCHEMA)), intent, Str(a.protocolIntentDigest),
     Str(a.typedDataDigest), Str(ACTION), CHAIN_ID, Str(registry), Str(a.recoveredSigner), Str(a.signatureHash),
     Str(a.authorizedAt), Str(a.expiresAt), Str(a.precheckBlockNumber), Str(a.precheckBlockHash),
     Str(a.postcheckBlockNumber), Str(a.postcheckBlockHash)]
  }

  function AuthorizationValues(registry: Text, a: Authorization): (v: seq<Data>)
    ensures |v| == 15
  {
    AuthorizationMembers(registry, a, IntentData(a.intent))
  }

  function AuthorizationData(registry: Text, a: Authorization): Data {
    Zip(AUTHORIZATION_KEYS, AuthorizationValues(registry, a))
  }

  /** Equal serialisations hold equal intents. */
  lemma SerializedIntents(nfc: Text -> bool, a: Intent, b: Intent)
    requires ValidIntent(a) && ValidIntent(b)
    requires Serialize(nfc, IntentData(a)).Some? && Serialize(nfc, IntentData(a)) == Serialize(nfc, IntentData(b))
    ensures a == b
  {
    IntentReadBack(a);
    IntentReadBack(b);
    SerializedReadBack(nfc, IntentData(a));
    SerializedReadBack(nfc, IntentData(b));
  }

  /** The hash of the second block may be emptied without the record losing its text. */
  lemma EmptiedHashSerializes(nfc: Text -> bool, registry: Text, a: Authorization)
    requires nfc([]) && Serialize(nfc, AuthorizationData(registry, a)).Some?
    ensures Serialize(nfc, AuthorizationData(registry, a.(postcheckBlockHash := []))).Some?
  {
    var fs := AuthorizationData(registry, a).fields;
    LeafReplaced(nfc, fs, 14, []);
    assert AuthorizationData(registry, a.(postcheckBlockHash := [])).fields == fs[14 := Field(fs[14].name, Str([]))];
  }

  // ---------- Reading a stored authorization ----------

  function AuthorizationOf(registry: Text, v: seq<Data>): Option<Authorization>
    requires |v| == 15
  {
    if v[0].Str? && v[2].Str? && v[3].Str? && v[4] == Str(ACTION) && v[5] == CHAIN_ID && v[6] == Str(registry)
       && v[7].Str? && v[8].Str? && v[9].Str? && v[10].Str? && v[11].Str? && v[12].Str? && v[13].Str? && v[14].Str?
       && IsUnixTimestamp(v[9].text) && IsUnixTimestamp(v[10].text) then
      match (ResolveVersion(v[0].text, AUTHORIZATION_SCHEMA), ParseIntent(v[1]))
      case (Some(dialect), Some(intent)) =>
        Some(Authorization(dialect, intent, v[2].text, v[3].text, v[7].text, v[8].text, v[9].text, v[10].text,
                           v[11].text, v[12].text, v[13].text, v[14].text))
      case _ => None
    else None
  }

  predicate BlockNumber(t: Text) {
    t != [] && Decimal.AllDigits(t)
  }

  /** The cross-checks of a record against the prepared request. */
  predicate AgreesWith(lib: Library, a: Authorization, prepared: Prepared, authorizedSigner: Text) {
    && Serialize(lib.hashing.nfc, IntentData(a.intent)) == Serialize(lib.hashing.nfc, IntentData(prepared.intent))
    && Serialize(lib.hashing.nfc, IntentData(a.intent)).Some?
    && a.protocolIntentDigest == prepared.protocolIntentDigest
    && a.typedDataDigest == prepared.typedDataDigest
    && lib.toLowerCase(a.recoveredSigner) == lib.toLowerCase(authorizedSigner)
    && IsBytes32(a.signatureHash)
    && a.expiresAt == a.intent.expiresAt
    && BlockNumber(a.precheckBlockNumber) && a.precheckBlockNumber == prepared.blockNumber
    && a.precheckBlockHash == prepared.blockHash
    && BlockNumber(a.postcheckBlockNumber)
    && Decimal.Number(a.postcheckBlockNumber) >= Decimal.Number(a.precheckBlockNumber)
    && IsBytes32(a.postcheckBlockHash)
  }

  function ParseStoredAuthorization(lib: Library, registry: Text, input: Text, prepared: Prepared, authorizedSigner: Text): Option<Authorization> {
    match ReadText(input)
    case None => None
    case Some(d) =>
      match ExactValues(d, AUTHORIZATION_KEYS)
      case None => None
      case Some(v) =>
        match AuthorizationOf(registry, v)
        case None => None
        case Some(a) => if AgreesWith(lib, a, prepared, authorizedSigner) then Some(a) else None
  }

  lemma AuthorizationKeysDistinct()
    ensures DistinctTexts(AUTHORIZATION_KEYS)
  {
    KeysDiffer(AUTHORIZATION_KEYS, 1);
  }

  lemma AuthorizationLeaves(registry: Text, a: Authorization)
    ensures LeavesBut(AuthorizationValues(registry, a), 1)
  {
  }

  /** Every value but the intent, as the record lists it. */
  predicate Lists(registry: Text, v: seq<Data>, a: Authorization) {
    && |v| == 15 && v[0] == Str(Version(a.dialect, AUTHORIZATION_SCHEMA)) && v[2] == Str(a.protocolIntentDigest)
    && v[3] == Str(a.typedDataDigest) && v[4] == Str(ACTION) && v[5] == CHAIN_ID && v[6] == Str(registry)
    && v[7] == Str(a.recoveredSigner) && v[8] == Str(a.signatureHash) && v[9] == Str(a.authorizedAt)
    && v[10] == Str(a.expiresAt) && v[11] == Str(a.precheckBlockNumber) && v[12] == Str(a.precheckBlockHash)
    && v[13] == Str(a.postcheckBlockNumber) && v[14] == Str(a.postcheckBlockHash)
  }

  lemma AuthorizationListed(registry: Text, v: seq<Data>, a: Authorization)
    requires Lists(registry, v, a) && ParseIntent(v[1]) == Some(a.intent)
    ensures AuthorizationOf(registry, v) == Some(a)
  {
    VersionResolved(a.dialect, AUTHORIZATION_SCHEMA);
  }

  lemma MembersListed(registry: Text, a: Authorization, d: Data)
    ensures Lists(registry, AuthorizationMembers(registry, a, d), a) && AuthorizationMembers(registry, a, d)[1] == d
  {
  }

  lemma MembersReplaced(registry: Text, a: Authorization, c: Data, d: Data)
    ensures AuthorizationMembers(registry, a, c)[1 := d] == AuthorizationMembers(registry, a, d)
  {
  }

  lemma AuthorizationOfValues(registry: Text, a: Authorization)
    requires ValidIntent(a.intent)
    ensures AuthorizationOf(registry, AuthorizationValues(registry, a)[1 := Normal(IntentData(a.intent))]) == Some(a)
  {
    var d := Normal(IntentData(a.intent));
    MembersReplaced(registry, a, IntentData(a.intent), d);
    MembersListed(registry, a, d);
    IntentReadBack(a.intent);
    AuthorizationListed(registry, AuthorizationMembers(registry, a, d), a);
  }

  lemma AuthorizationReads(registry: Text, a: Authorization)
    ensures Proper(AuthorizationData(registry, a))
    ensures ExactValues(Normal(AuthorizationData(registry, a)), AUTHORIZATION_KEYS)
            == Some(AuthorizationValues(registry, a)[1 := Normal(IntentData(a.intent))])
  {
    AuthorizationKeysDistinct();
    AuthorizationLeaves(registry, a);
    IntentProper(a.intent);
    var v := AuthorizationValues(registry, a);
    assert v[1] == IntentData(a.intent);
    NestedRead(AUTHORIZATION_KEYS, v, 1);
  }

  /** A record written by the gate is read back unchanged exactly when it passes the cross-checks. */
  lemma StoredReadBack(lib: Library, registry: Text, a: Authorization, prepared: Prepared, authorizedSigner: Text)
    requires ValidIntent(a.intent)
    requires Serialize(lib.hashing.nfc, AuthorizationData(registry, a)).Some?
    ensures var text := Serialize(lib.hashing.nfc, AuthorizationData(registry, a)).value;
            ParseStoredAuthorization(lib, registry, text, prepared, authorizedSigner)
            == if AgreesWith(lib, a, prepared, authorizedSigner) then Some(a) else None
  {
    AuthorizationReads(registry, a);
    SerializedReadBack(lib.hashing.nfc, AuthorizationData(registry, a));
    AuthorizationOfValues(registry, a);
  }
}
