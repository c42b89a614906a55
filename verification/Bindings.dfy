/** A deployment intent bound to the clearance it is issued for. */
module Bindings {
  import opened Text
  import opened Values
  import opened Digests
  import opened Schemas
  import opened Timestamps
  import opened Records

  function AssertDeploymentIntentBindings(h: Hashing, i: Intent, c: ClearanceRecord): bool {
    && i.siteId == c.inputs.siteId
    && i.robotId == c.inputs.robotId
    && i.robotBuildId == c.inputs.robotBuildId
    && i.robotBuildDigest == c.inputs.robotBuildDigest
    && i.clearanceId == c.clearanceId
    && Some(i.clearanceDigest) == DigestClearance(h, c)
    && CompareUnixTimestamps(i.issuedAt, c.issuedAt) >= 0
    && CompareUnixTimestamps(i.expiresAt, c.expiresAt) <= 0
  }

  /** What the binding promises: equal fields, the digest of that clearance, a life within its life. */
  predicate IntentBound(h: Hashing, i: Intent, c: ClearanceRecord) {
    && i.siteId == c.inputs.siteId && i.robotId == c.inputs.robotId
    && i.robotBuildId == c.inputs.robotBuildId && i.robotBuildDigest == c.inputs.robotBuildDigest
    && i.clearanceId == c.clearanceId && Some(i.clearanceDigest) == DigestClearance(h, c)
    && Seconds(c.issuedAt) <= Seconds(i.issuedAt) < Seconds(i.expiresAt) <= Seconds(c.expiresAt)
  }

  function IntentFor(c: ClearanceRecord, digest: Text, nonce: Text, issuedAt: UnixTimestamp, expiresAt: UnixTimestamp): Intent {
    Intent(Current, c.inputs.siteId, c.inputs.robotId, c.inputs.robotBuildId, c.inputs.robotBuildDigest,
           c.clearanceId, digest, nonce, issuedAt, expiresAt)
  }

  function CreateDeploymentIntent(h: Hashing, c: ClearanceRecord, nonce: Text, issuedAt: UnixTimestamp, expiresAt: UnixTimestamp): Option<Intent> {
    match DigestClearance(h, c)
    case None => None
    case Some(digest) =>
      var i := IntentFor(c, digest, nonce, issuedAt, expiresAt);
      if ParseIntent(IntentData(i)) == Some(i) && AssertDeploymentIntentBindings(h, i, c) then Some(i) else None
  }

  lemma BindingsMeaning(h: Hashing, i: Intent, c: ClearanceRecord)
    requires ValidIntent(i)
    ensures AssertDeploymentIntentBindings(h, i, c) <==> IntentBound(h, i, c)
  {
    CompareIsNumeric(i.issuedAt, c.issuedAt);
    CompareIsNumeric(c.expiresAt, i.expiresAt);
    CompareIsNumeric(i.expiresAt, c.expiresAt);
    CompareIsNumeric(i.issuedAt, i.expiresAt);
    CompareIsNumeric(i.expiresAt, i.issuedAt);
  }

  lemma ClearanceDigestShape(h: Hashing, c: ClearanceRecord)
    requires DigestClearance(h, c).Some?
    ensures IsSha256Digest(DigestClearance(h, c).value)
  {
    DigestShape(h, Domain(Kind.Clearance, c.dialect), ProtocolVersion(c.dialect), ClearanceData(c));
  }

  /** The parser accepts the new intent exactly for a well-formed nonce and a life of positive length. */
  lemma IntentForParses(c: ClearanceRecord, digest: Text, nonce: Text, issuedAt: UnixTimestamp, expiresAt: UnixTimestamp)
    requires ValidClearance(c) && IsSha256Digest(digest)
    ensures var i := IntentFor(c, digest, nonce, issuedAt, expiresAt);
            && (ValidIntent(i) <==> IsNonce(nonce) && Seconds(issuedAt) < Seconds(expiresAt))
            && (ParseIntent(IntentData(i)) == Some(i) <==> ValidIntent(i))
  {
    var i := IntentFor(c, digest, nonce, issuedAt, expiresAt);
    CompareIsNumeric(issuedAt, expiresAt);
    CompareIsNumeric(expiresAt, issuedAt);
    ParsedIntentValid(IntentData(i));
    if ValidIntent(i) {
      IntentReadBack(i);
    }
  }

  /** Nonce and times are all that creation depends on once the clearance has a digest. */
  predicate Creatable(c: ClearanceRecord, nonce: Text, issuedAt: UnixTimestamp, expiresAt: UnixTimestamp) {
    IsNonce(nonce) && Seconds(c.issuedAt) <= Seconds(issuedAt) < Seconds(expiresAt) <= Seconds(c.expiresAt)
  }

  /** A valid new intent is bound exactly when it lives within the clearance. */
  lemma BoundFor(h: Hashing, c: ClearanceRecord, digest: Text, nonce: Text, issuedAt: UnixTimestamp, expiresAt: UnixTimestamp)
    requires DigestClearance(h, c) == Some(digest) && ValidIntent(IntentFor(c, digest, nonce, issuedAt, expiresAt))
    ensures var i := IntentFor(c, digest, nonce, issuedAt, expiresAt);
            && (AssertDeploymentIntentBindings(h, i, c) <==> IntentBound(h, i, c))
            && (IntentBound(h, i, c) <==> Seconds(c.issuedAt) <= Seconds(issuedAt) < Seconds(expiresAt) <= Seconds(c.expiresAt))
  {
    BindingsMeaning(h, IntentFor(c, digest, nonce, issuedAt, expiresAt), c);
  }

  lemma CreatedFor(h: Hashing, c: ClearanceRecord, digest: Text, nonce: Text, issuedAt: UnixTimestamp, expiresAt: UnixTimestamp)
    requires ValidClearance(c) && DigestClearance(h, c) == Some(digest)
    ensures var i := IntentFor(c, digest, nonce, issuedAt, expiresAt);
            && (ParseIntent(IntentData(i)) == Some(i) && AssertDeploymentIntentBindings(h, i, c) <==> Creatable(c, nonce, issuedAt, expiresAt))
            && (Creatable(c, nonce, issuedAt, expiresAt) ==> ValidIntent(i) && IntentBound(h, i, c))
  {
    ClearanceDigestShape(h, c);
    IntentForParses(c, digest, nonce, issuedAt, expiresAt);
    if ValidIntent(IntentFor(c, digest, nonce, issuedAt, expiresAt)) {
      BoundFor(h, c, digest, nonce, issuedAt, expiresAt);
    }
  }

  /** An intent is created exactly when the clearance digests, the nonce is well formed and the life fits. */
  lemma CreateIntentExact(h: Hashing, c: ClearanceRecord, nonce: Text, issuedAt: UnixTimestamp, expiresAt: UnixTimestamp)
    requires ValidClearance(c)
    ensures var r := CreateDeploymentIntent(h, c, nonce, issuedAt, expiresAt);
            && (r.Some? <==> DigestClearance(h, c).Some? && Creatable(c, nonce, issuedAt, expiresAt))
            && (r.Some? ==>
                 && ValidIntent(r.value) && IntentBound(h, r.value, c) && r.value.nonce == nonce && r.value.dialect == Current
                 && r.value.issuedAt == issuedAt && r.value.expiresAt == expiresAt)
  {
    if DigestClearance(h, c).Some? {
      CreatedFor(h, c, DigestClearance(h, c).value, nonce, issuedAt, expiresAt);
    }
  }

  /** An intent is bound to one clearance only, or exhibits a collision. */
  lemma IntentNamesClearance(h: Hashing, i: Intent, a: ClearanceRecord, b: ClearanceRecord)
    requires ValidClearance(a) && ValidClearance(b) && IntentBound(h, i, a) && IntentBound(h, i, b)
    ensures ClearanceBytes(h, a).Some? && ClearanceBytes(h, b).Some?
    ensures a == b || Collision(h, ClearanceBytes(h, a).value, ClearanceBytes(h, b).value)
  {
    ClearanceDigestNames(h, a, b);
  }
}
