/** The on-chain registry as the reader sees it, and when a snapshot allows a release. */
module Registry {
  import opened Text
  import opened Unicode
  import opened Values
  import opened Digests
  import opened Schemas
  import opened Timestamps
  import opened Records
  import AsciiRecords
  import Decimal
  import Identifiers

  datatype BindingsTransport = BindingsTransport(
    clearanceIdHash: Text, evaluationIdHash: Text, siteIdHash: Text, robotIdHash: Text, robotBuildIdHash: Text,
    robotBuildDigest: Text, safetyEnvelopeIdHash: Text, safetyEnvelopeCommitment: Text,
    evaluatorVersionHash: Text, evaluationInputsDigest: Text, issuedAt: nat, expiresAt: nat)

  datatype Transport = Transport(clearanceDigest: Text, bindings: BindingsTransport, verdict: Text)

  datatype StoredClearance = StoredClearance(transport: Transport, issuer: Text, revoked: bool, present: bool)

  datatype Snapshot = Snapshot(
    chainId: nat, registry: Text, blockNumber: nat, blockHash: Text, blockTimestamp: UnixTimestamp,
    requested: Transport, stored: Option<StoredClearance>, exactMatch: bool)

  const SEPOLIA_CHAIN_ID: nat := 11_155_111

  function Zeros(n: nat): seq<Byte> {
    if n == 0 then [] else [0] + Zeros(n - 1)
  }

  /** CLEAR in the first five of 32 octets. */
  const VERDICT_CLEAR_BYTES32: Text := HEX_PREFIX + Hex([0x43, 0x4c, 0x45, 0x41, 0x52] + Zeros(27))

  const ZERO_BYTES32: Text := HEX_PREFIX + Hex(Zeros(32))

  function Bytes32OfDigest(digest: Text): Text
    requires IsSha256Digest(digest)
  {
    HEX_PREFIX + digest[7..]
  }

  /** sha256 of the UTF-8 octets of an identifier. */
  function Bytes32OfIdentifier(h: Hashing, id: Text): Text {
    HEX_PREFIX + Hex(h.sha256(if WellFormed(id) then Octets(id) else []))
  }

  function BindingsOf(h: Hashing, c: ClearanceRecord): BindingsTransport
    requires ValidClearance(c)
  {
    BindingsTransport(
      Bytes32OfIdentifier(h, c.clearanceId), Bytes32OfIdentifier(h, c.evaluationId),
      Bytes32OfIdentifier(h, c.inputs.siteId), Bytes32OfIdentifier(h, c.inputs.robotId),
      Bytes32OfIdentifier(h, c.inputs.robotBuildId), Bytes32OfDigest(c.inputs.robotBuildDigest),
      Bytes32OfIdentifier(h, c.inputs.safetyEnvelopeId), Bytes32OfDigest(c.inputs.safetyEnvelopeCommitment),
      Bytes32OfIdentifier(h, c.inputs.evaluatorVersion), Bytes32OfDigest(c.evaluationInputsDigest),
      Seconds(c.issuedAt), Seconds(c.expiresAt))
  }

  function ToTransport(h: Hashing, c: ClearanceRecord): Option<Transport>
    requires ValidClearance(c)
  {
    match DigestClearance(h, c)
    case None => None
    case Some(digest) =>
      if IsSha256Digest(digest) then Some(Transport(Bytes32OfDigest(digest), BindingsOf(h, c), VERDICT_CLEAR_BYTES32))
      else None
  }

  // ---------- Reading ----------

  /** What the chain answers at one block, about a requested clearance. */
  datatype Answers = Answers(
    chainId: nat, blockNumber: nat, blockHash: Text, blockTime: nat, hasCode: bool,
    registeredDigest: Text, stored: StoredClearance, validFor: bool)

  /** The reader's own comparison, whatever the contract answers. */
  predicate IndependentlyExact(stored: StoredClearance, requested: Transport) {
    && stored.present
    && stored.transport.clearanceDigest == requested.clearanceDigest
    && stored.transport.verdict == VERDICT_CLEAR_BYTES32
    && stored.transport.bindings == requested.bindings
  }

  /** The snapshot made of the answers about a requested transport, or nothing when the reader fails closed. */
  function ReadAnswers(registry: Text, requested: Transport, a: Answers): Option<Snapshot> {
    if a.chainId != SEPOLIA_CHAIN_ID || !a.hasCode || !IsUnixTimestamp(Decimal.Digits(a.blockTime)) then None
    else if a.registeredDigest == ZERO_BYTES32 || a.registeredDigest != requested.clearanceDigest then
      Some(Snapshot(SEPOLIA_CHAIN_ID, registry, a.blockNumber, a.blockHash, Decimal.Digits(a.blockTime), requested, None, false))
    else
      Some(Snapshot(SEPOLIA_CHAIN_ID, registry, a.blockNumber, a.blockHash, Decimal.Digits(a.blockTime), requested,
                    Some(a.stored), a.validFor && IndependentlyExact(a.stored, requested)))
  }

  /** The pure part of the reader. */
  function ReadExactClearance(h: Hashing, registry: Text, c: ClearanceRecord, a: Answers): Option<Snapshot>
    requires ValidClearance(c)
  {
    match ToTransport(h, c)
    case None => None
    case Some(requested) => ReadAnswers(registry, requested, a)
  }

  lemma BlockTimeReads(a: Answers)
    ensures IsUnixTimestamp(Decimal.Digits(a.blockTime)) <==> a.blockTime <= MAX_SECONDS
    ensures IsUnixTimestamp(Decimal.Digits(a.blockTime)) ==> Seconds(Decimal.Digits(a.blockTime)) == a.blockTime
  {
    Decimal.DigitsCanonical(a.blockTime);
    TimestampRange(Decimal.Digits(a.blockTime));
  }

  /** The snapshot repeats what was asked and what the chain answered about the block. */
  predicate Repeats(s: Snapshot, registry: Text, requested: Transport, a: Answers) {
    && s.chainId == a.chainId && s.registry == registry && s.blockNumber == a.blockNumber && s.blockHash == a.blockHash
    && Seconds(s.blockTimestamp) == a.blockTime && s.requested == requested
  }

  /** A snapshot is made exactly of answers of the right chain, about deployed code, at a block with a readable time. */
  lemma ReadExactly(registry: Text, requested: Transport, a: Answers)
    ensures var s := ReadAnswers(registry, requested, a);
            && (s.Some? <==> a.chainId == SEPOLIA_CHAIN_ID && a.hasCode && a.blockTime <= MAX_SECONDS)
            && (s.Some? ==> Repeats(s.value, registry, requested, a))
  {
    BlockTimeReads(a);
  }

  // ---------- Eligibility ----------

  /** The guard chain of the gate. */
  function AssertEligible(registry: Text, s: Snapshot): (r: Option<Snapshot>)
    ensures r.Some? ==> r.value == s
  {
    if s.chainId != SEPOLIA_CHAIN_ID then None
    else if s.registry != registry then None
    else if s.stored.None? then None
    else if s.stored.value.transport.verdict != VERDICT_CLEAR_BYTES32 then None
    else if s.stored.value.revoked then None
    else if !IsUnixTimestamp(Decimal.Digits(s.stored.value.transport.bindings.expiresAt)) then None
    else if CompareUnixTimestamps(s.blockTimestamp, Decimal.Digits(s.stored.value.transport.bindings.expiresAt)) >= 0 then None
    else if !s.exactMatch then None
    else Some(s)
  }

  /** What eligibility says of any snapshot: registered, CLEAR, not revoked, matched, alive at the block. */
  predicate Eligible(registry: Text, s: Snapshot) {
    && s.chainId == SEPOLIA_CHAIN_ID && s.registry == registry && s.exactMatch
    && s.stored.Some? && s.stored.value.transport.verdict == VERDICT_CLEAR_BYTES32 && !s.stored.value.revoked
    && Seconds(s.blockTimestamp) < s.stored.value.transport.bindings.expiresAt <= MAX_SECONDS
  }

  lemma EligibleMeaning(registry: Text, s: Snapshot)
    ensures AssertEligible(registry, s).Some? <==> Eligible(registry, s)
  {
    if s.stored.Some? {
      var expiry := s.stored.value.transport.bindings.expiresAt;
      Decimal.DigitsCanonical(expiry);
      TimestampRange(Decimal.Digits(expiry));
      if expiry <= MAX_SECONDS {
        CompareIsNumeric(s.blockTimestamp, Decimal.Digits(expiry));
      }
    }
  }

  /** The word is the SHA-256 of the UTF-8 octets of the identifier. */
  predicate NamesIdentifier(h: Hashing, word: Text, id: Text) {
    WellFormed(id) && word == HEX_PREFIX + Hex(h.sha256(Octets(id)))
  }

  /** The word holds the 32 octets of the digest. */
  predicate NamesDigest(word: Text, digest: Text) {
    |word| >= 2 && word[..2] == HEX_PREFIX && digest == SHA256 + word[2..]
  }

  /** Each of the twelve words names its own field of the clearance. */
  predicate NamesClearance(h: Hashing, b: BindingsTransport, c: ClearanceRecord) {
    && NamesIdentifier(h, b.clearanceIdHash, c.clearanceId) && NamesIdentifier(h, b.evaluationIdHash, c.evaluationId)
    && NamesIdentifier(h, b.siteIdHash, c.inputs.siteId) && NamesIdentifier(h, b.robotIdHash, c.inputs.robotId)
    && NamesIdentifier(h, b.robotBuildIdHash, c.inputs.robotBuildId) && NamesDigest(b.robotBuildDigest, c.inputs.robotBuildDigest)
    && NamesIdentifier(h, b.safetyEnvelopeIdHash, c.inputs.safetyEnvelopeId)
    && NamesDigest(b.safetyEnvelopeCommitment, c.inputs.safetyEnvelopeCommitment)
    && NamesIdentifier(h, b.evaluatorVersionHash, c.inputs.evaluatorVersion)
    && NamesDigest(b.evaluationInputsDigest, c.evaluationInputsDigest)
    && b.issuedAt == Seconds(c.issuedAt) && b.expiresAt == Seconds(c.expiresAt)
  }

  lemma IdentifierWellFormed(prefix: Text, id: Text)
    requires Identifiers.ValidIdentifier(prefix, id) && AsciiRecords.IsAscii(prefix)
    ensures WellFormed(id)
  {
    AsciiRecords.IdentifierAscii(prefix, id);
    NoSurrogatesWellFormed(id);
  }

  lemma IdentifiersWellFormed(c: ClearanceRecord)
    requires ValidClearance(c)
    ensures WellFormed(c.clearanceId) && WellFormed(c.evaluationId) && WellFormed(c.inputs.siteId) && WellFormed(c.inputs.robotId)
    ensures WellFormed(c.inputs.robotBuildId) && WellFormed(c.inputs.safetyEnvelopeId) && WellFormed(c.inputs.evaluatorVersion)
  {
    IdentifierWellFormed(Identifiers.CLEARANCE, c.clearanceId);
    IdentifierWellFormed(Identifiers.EVALUATION, c.evaluationId);
    IdentifierWellFormed(Identifiers.SITE, c.inputs.siteId);
    IdentifierWellFormed(Identifiers.ROBOT, c.inputs.robotId);
    IdentifierWellFormed(Identifiers.ROBOT_BUILD, c.inputs.robotBuildId);
    IdentifierWellFormed(Identifiers.SAFETY_ENVELOPE, c.inputs.safetyEnvelopeId);
    IdentifierWellFormed(Identifiers.EVALUATOR_VERSION, c.inputs.evaluatorVersion);
  }

  lemma DigestNamed(digest: Text)
    requires IsSha256Digest(digest)
    ensures forall word :: NamesDigest(word, digest) <==> word == Bytes32OfDigest(digest)
  {
    var d := Bytes32OfDigest(digest);
    assert d[2..] == digest[7..] && digest == SHA256 + digest[7..];
    forall word | NamesDigest(word, digest) ensures word == d {
      assert word == word[..2] + word[2..] && digest[7..] == word[2..];
    }
  }

  /** The twelve words are the ones that name the clearance, and no others do. */
  lemma BindingsNameClearance(h: Hashing, c: ClearanceRecord, b: BindingsTransport)
    requires ValidClearance(c)
    ensures NamesClearance(h, b, c) <==> b == BindingsOf(h, c)
  {
    IdentifiersWellFormed(c);
    DigestNamed(c.inputs.robotBuildDigest);
    DigestNamed(c.inputs.safetyEnvelopeCommitment);
    DigestNamed(c.evaluationInputsDigest);
  }

  /** CLEAR, left-aligned in 32 octets. */
  predicate SpellsClear(word: Text) {
    |word| == 66 && word[..12] == Ascii("0x434c454152") && forall i :: 12 <= i < 66 ==> word[i] == 0x30
  }

  lemma {:induction false} HexZeros(n: nat)
    ensures |Zeros(n)| == n && forall i :: 0 <= i < 2 * n ==> Hex(Zeros(n))[i] == 0x30
  {
    if n > 0 {
      HexZeros(n - 1);
      assert Zeros(n)[1..] == Zeros(n - 1);
    }
  }

  /** The ASCII codes of CLEAR. */
  lemma ClearHex()
    ensures Hex([0x43, 0x4c, 0x45, 0x41, 0x52]) == Ascii("434c454152")
  {
    var bytes: seq<Byte> := [0x43, 0x4c, 0x45, 0x41, 0x52];
    assert bytes[1..] == [0x4c, 0x45, 0x41, 0x52] && bytes[1..][1..] == [0x45, 0x41, 0x52];
    assert bytes[1..][1..][1..] == [0x41, 0x52] && bytes[1..][1..][1..][1..] == [0x52];
    assert Hex([0x52]) == [0x35, 0x32] + Hex([]);
    assert Hex([0x41, 0x52]) == [0x34, 0x31, 0x35, 0x32];
    assert Hex([0x45, 0x41, 0x52]) == [0x34, 0x35, 0x34, 0x31, 0x35, 0x32];
    assert Hex([0x4c, 0x45, 0x41, 0x52]) == [0x34, 0x63, 0x34, 0x35, 0x34, 0x31, 0x35, 0x32];
  }

  lemma ClearFront()
    ensures HEX_PREFIX + Ascii("434c454152") == Ascii("0x434c454152")
  {
  }

  lemma Appended(a: Text, b: Text, c: Text)
    ensures a + (b + c) == (a + b) + c
  {
  }

  lemma ClearWord()
    ensures VERDICT_CLEAR_BYTES32 == Ascii("0x434c454152") + Hex(Zeros(27))
  {
    HexPrefix([0x43, 0x4c, 0x45, 0x41, 0x52], Zeros(27));
    ClearHex();
    ClearFront();
    Appended(HEX_PREFIX, Ascii("434c454152"), Hex(Zeros(27)));
  }

  /** A front of twelve units and a rest of zeros. */
  lemma FrontAndZeros(word: Text, front: Text, zeros: Text)
    requires |front| == 12 && |zeros| == 54 && forall i :: 0 <= i < 54 ==> zeros[i] == 0x30
    ensures word == front + zeros <==> |word| == 66 && word[..12] == front && forall i :: 12 <= i < 66 ==> word[i] == 0x30
  {
    if |word| == 66 && word[..12] == front && forall i :: 12 <= i < 66 ==> word[i] == 0x30 {
      assert word == word[..12] + word[12..];
      assert word[12..] == zeros;
    }
  }

  lemma ClearSpelled(word: Text)
    ensures SpellsClear(word) <==> word == VERDICT_CLEAR_BYTES32
  {
    HexZeros(27);
    ClearWord();
    FrontAndZeros(word, Ascii("0x434c454152"), Hex(Zeros(27)));
  }

  lemma {:induction false} HexPrefix(a: seq<Byte>, b: seq<Byte>)
    ensures Hex(a + b) == Hex(a) + Hex(b)
  {
    if a == [] {
      assert a + b == b;
    } else {
      assert (a + b)[1..] == a[1..] + b;
      HexPrefix(a[1..], b);
    }
  }

  /** The chain holds that very clearance: digest registered, every binding its own, CLEAR, present, not revoked, not expired. */
  predicate ChainHolds(h: Hashing, c: ClearanceRecord, a: Answers) {
    && DigestClearance(h, c).Some?
    && NamesDigest(a.registeredDigest, DigestClearance(h, c).value) && a.registeredDigest != ZERO_BYTES32
    && a.stored.transport.clearanceDigest == a.registeredDigest
    && NamesClearance(h, a.stored.transport.bindings, c) && SpellsClear(a.stored.transport.verdict)
    && a.stored.present && !a.stored.revoked && a.validFor
    && a.blockTime < Seconds(c.expiresAt)
  }

  /** The snapshot of a clearance the chain holds under its digest. */
  predicate Registered(requested: Transport, a: Answers) {
    a.registeredDigest == requested.clearanceDigest != ZERO_BYTES32
  }

  lemma SnapshotOf(h: Hashing, registry: Text, c: ClearanceRecord, a: Answers, requested: Transport)
    requires ValidClearance(c) && ToTransport(h, c) == Some(requested) && ReadExactClearance(h, registry, c, a).Some?
    ensures var s := ReadExactClearance(h, registry, c, a).value;
            if Registered(requested, a) then
              && s.stored == Some(a.stored) && s.exactMatch == (a.validFor && IndependentlyExact(a.stored, requested))
              && s.chainId == SEPOLIA_CHAIN_ID && s.registry == registry && s.blockTimestamp == Decimal.Digits(a.blockTime)
            else s.stored.None?
  {
  }

  /** The reader's comparison is equality with the requested transport, and its expiry is that of the clearance. */
  lemma ExactIsEqual(h: Hashing, c: ClearanceRecord, stored: StoredClearance, requested: Transport)
    requires ValidClearance(c) && ToTransport(h, c) == Some(requested)
    ensures IndependentlyExact(stored, requested) <==> stored.present && stored.transport == requested
    ensures requested.verdict == VERDICT_CLEAR_BYTES32 && requested.bindings.expiresAt == Seconds(c.expiresAt) <= MAX_SECONDS
  {
    TimestampRange(c.expiresAt);
  }

  lemma ChainHoldsTransport(h: Hashing, c: ClearanceRecord, a: Answers, requested: Transport)
    requires ValidClearance(c) && ToTransport(h, c) == Some(requested)
    ensures ChainHolds(h, c, a) <==>
              && Registered(requested, a) && a.stored.transport == requested
              && a.stored.present && !a.stored.revoked && a.validFor && a.blockTime < Seconds(c.expiresAt)
  {
    BindingsNameClearance(h, c, a.stored.transport.bindings);
    ClearSpelled(a.stored.transport.verdict);
    DigestNamed(DigestClearance(h, c).value);
  }

  /** A snapshot the reader made for a clearance is eligible exactly when the chain holds that very clearance. */
  lemma EligibleReadExact(h: Hashing, registry: Text, c: ClearanceRecord, a: Answers)
    requires ValidClearance(c) && ReadExactClearance(h, registry, c, a).Some?
    ensures AssertEligible(registry, ReadExactClearance(h, registry, c, a).value).Some? <==> ChainHolds(h, c, a)
  {
    var requested := ToTransport(h, c).value;
    EligibleMeaning(registry, ReadExactClearance(h, registry, c, a).value);
    SnapshotOf(h, registry, c, a, requested);
    ExactIsEqual(h, c, a.stored, requested);
    ChainHoldsTransport(h, c, a, requested);
    Decimal.DigitsCanonical(a.blockTime);
  }
}
