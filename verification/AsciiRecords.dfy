/** Valid records are ASCII throughout, so each of them has a canonical text and a digest. */
module AsciiRecords {
  import opened Text
  import opened Unicode
  import opened Values
  import opened Digests
  import opened Schemas
  import opened StoredText
  import opened Timestamps
  import opened Records
  import opened BuildRecords
  import Identifiers
  import Serializer

  predicate IsAscii(t: Text) {
    forall i :: 0 <= i < |t| ==> t[i] < 0x80
  }

  /** ASCII text is in normal form C, as Unicode promises. */
  ghost predicate KeepsAscii(nfc: Text -> bool) {
    forall t :: IsAscii(t) ==> nfc(t)
  }

  lemma AsciiCanonical(nfc: Text -> bool, t: Text)
    requires KeepsAscii(nfc) && IsAscii(t)
    ensures CanonicalString(t, nfc)
  {
    NoSurrogatesWellFormed(t);
  }

  // ---------- Records of ASCII texts ----------

  predicate AllAscii(ts: seq<Text>) {
    forall i :: 0 <= i < |ts| ==> IsAscii(ts[i])
  }

  /** A value that is written inside a few others. */
  predicate Small(d: Data, nfc: Text -> bool, levels: nat, values: nat) {
    Acceptable(d, nfc) && Count(d) <= values && forall depth: nat :: depth + levels <= MAX_DEPTH ==> Shallow(d, depth)
  }

  lemma SmallString(nfc: Text -> bool, t: Text)
    requires KeepsAscii(nfc) && IsAscii(t)
    ensures Small(Str(t), nfc, 0, 1)
  {
    AsciiCanonical(nfc, t);
  }

  lemma {:induction false} CountBounded(fs: seq<Field>, values: nat)
    requires forall i :: 0 <= i < |fs| ==> Count(fs[i].value) <= values
    ensures CountFields(fs) <= |fs| * values
  {
    if fs != [] {
      CountBounded(fs[1..], values);
      assert |fs| * values == values + |fs[1..]| * values;
    }
  }

  lemma SmallRecord(nfc: Text -> bool, keys: seq<Text>, v: seq<Data>, levels: nat, values: nat)
    requires KeepsAscii(nfc) && |keys| == |v| && AllAscii(keys)
    requires forall i :: 0 <= i < |v| ==> Small(v[i], nfc, levels, values)
    ensures Small(Zip(keys, v), nfc, levels + 1, 1 + |keys| * values)
  {
    var fs := Zip(keys, v).fields;
    forall i | 0 <= i < |fs| ensures CanonicalString(fs[i].name, nfc) && Acceptable(fs[i].value, nfc) && Count(fs[i].value) <= values {
      assert Small(v[i], nfc, levels, values);
      AsciiCanonical(nfc, keys[i]);
    }
    CountBounded(fs, values);
    forall depth: nat | depth + (levels + 1) <= MAX_DEPTH ensures Shallow(Zip(keys, v), depth) {
      forall i | 0 <= i < |fs| ensures Shallow(fs[i].value, depth + 1) {
        assert Small(v[i], nfc, levels, values);
        assert (depth + 1) + levels <= MAX_DEPTH;
      }
    }
  }

  lemma SmallTexts(nfc: Text -> bool, keys: seq<Text>, ts: seq<Text>)
    requires KeepsAscii(nfc) && |keys| == |ts| && AllAscii(keys) && AllAscii(ts)
    ensures Small(Zip(keys, Strings(ts)), nfc, 1, 1 + |keys|)
  {
    forall i | 0 <= i < |ts| ensures Small(Strings(ts)[i], nfc, 0, 1) {
      SmallString(nfc, ts[i]);
    }
    SmallRecord(nfc, keys, Strings(ts), 0, 1);
  }

  lemma SmallSerializes(nfc: Text -> bool, d: Data, levels: nat, values: nat)
    requires Small(d, nfc, levels, values) && levels <= MAX_DEPTH && values <= MAX_NODES
    ensures Serialize(nfc, d).Some?
  {
    assert Shallow(d, 0);
    assert Serializer.Accepted(d, 0, 0, nfc);
  }

  const FRAME_KEYS: seq<Text> := [DOMAIN, PROTOCOL_VERSION, PAYLOAD]

  lemma FrameZip(domain: Text, version: Text, payload: Data)
    ensures Frame(domain, version, payload) == Zip(FRAME_KEYS, [Str(domain), Str(version), payload])
  {
    assert Frame(domain, version, payload).fields == Zip(FRAME_KEYS, [Str(domain), Str(version), payload]).fields;
  }

  lemma SmallMore(d: Data, nfc: Text -> bool, levels: nat, values: nat, more: nat, larger: nat)
    requires Small(d, nfc, levels, values) && levels <= more && values <= larger
    ensures Small(d, nfc, more, larger)
  {
    forall depth: nat | depth + more <= MAX_DEPTH ensures Shallow(d, depth) {
      assert depth + levels <= MAX_DEPTH;
    }
  }

  /** A small payload has a digest in every ASCII domain. */
  lemma SmallDigests(h: Hashing, domain: Text, version: Text, payload: Data, levels: nat, values: nat)
    requires KeepsAscii(h.nfc) && IsAscii(domain) && IsAscii(version) && Small(payload, h.nfc, levels, values)
    requires levels < MAX_DEPTH && 1 <= values <= 1000
    ensures Digest(h, domain, version, payload).Some?
  {
    var v := [Str(domain), Str(version), payload];
    SmallString(h.nfc, domain);
    SmallString(h.nfc, version);
    forall i | 0 <= i < |v| ensures Small(v[i], h.nfc, levels, values) {
      if i < 2 {
        SmallMore(v[i], h.nfc, 0, 1, levels, values);
      }
    }
    SmallRecord(h.nfc, FRAME_KEYS, v, levels, values);
    FrameZip(domain, version, payload);
    SmallSerializes(h.nfc, Frame(domain, version, payload), levels + 1, 1 + 3 * values);
  }

  // ---------- What the parsers accept is ASCII ----------

  lemma IdentifierAscii(prefix: Text, id: Text)
    requires Identifiers.ValidIdentifier(prefix, id) && IsAscii(prefix)
    ensures IsAscii(id)
  {
    var n := |prefix|;
    forall i | 0 <= i < |id| ensures id[i] < 0x80 {
      if i < n {
        assert id[i] == id[..n][i];
      } else if i > n {
        assert id[i] == id[n + 1..][i - (n + 1)];
      }
    }
  }

  lemma DigestAscii(t: Text)
    requires IsSha256Digest(t)
    ensures IsAscii(t)
  {
    forall i | 0 <= i < |t| ensures t[i] < 0x80 {
      if i < 7 {
        assert t[i] == t[..7][i];
      } else {
        assert t[i] == t[7..][i - 7];
      }
    }
  }

  lemma TimestampAscii(t: UnixTimestamp)
    ensures IsAscii(t)
  {
  }

  lemma VersionAscii(dialect: Dialect, suffix: Text)
    requires IsAscii(suffix)
    ensures IsAscii(Version(dialect, suffix)) && IsAscii(ProtocolVersion(dialect))
  {
  }

  lemma DomainAscii(kind: Kind, dialect: Dialect)
    ensures IsAscii(Domain(kind, dialect))
  {
  }

  lemma NonceAscii(t: Text)
    requires IsNonce(t)
    ensures IsAscii(t)
  {
  }

  lemma InputsSmall(nfc: Text -> bool, r: Inputs)
    requires KeepsAscii(nfc) && ValidInputs(r)
    ensures Small(InputsData(r), nfc, 1, 9)
  {
    VersionAscii(r.dialect, INPUTS_SCHEMA);
    IdentifierAscii(Identifiers.SITE, r.siteId);
    IdentifierAscii(Identifiers.ROBOT, r.robotId);
    IdentifierAscii(Identifiers.ROBOT_BUILD, r.robotBuildId);
    DigestAscii(r.robotBuildDigest);
    IdentifierAscii(Identifiers.SAFETY_ENVELOPE, r.safetyEnvelopeId);
    DigestAscii(r.safetyEnvelopeCommitment);
    IdentifierAscii(Identifiers.EVALUATOR_VERSION, r.evaluatorVersion);
    SmallTexts(nfc, INPUTS_KEYS, InputsTexts(r));
  }

  lemma IntentAscii(i: Intent)
    requires ValidIntent(i)
    ensures AllAscii(IntentTexts(i))
  {
    VersionAscii(i.dialect, INTENT_SCHEMA);
    IdentifierAscii(Identifiers.SITE, i.siteId);
    IdentifierAscii(Identifiers.ROBOT, i.robotId);
    IdentifierAscii(Identifiers.ROBOT_BUILD, i.robotBuildId);
    DigestAscii(i.robotBuildDigest);
    IdentifierAscii(Identifiers.CLEARANCE, i.clearanceId);
    DigestAscii(i.clearanceDigest);
    NonceAscii(i.nonce);
    TimestampAscii(i.issuedAt);
    TimestampAscii(i.expiresAt);
  }

  lemma IntentSmall(nfc: Text -> bool, i: Intent)
    requires KeepsAscii(nfc) && ValidIntent(i)
    ensures Small(IntentData(i), nfc, 1, 13)
  {
    IntentAscii(i);
    SmallTexts(nfc, INTENT_KEYS, IntentTexts(i));
  }

  lemma DescriptorSmall(nfc: Text -> bool, d: Descriptor)
    requires KeepsAscii(nfc) && ValidDescriptor(d)
    ensures Small(DescriptorData(d), nfc, 1, 6)
  {
    var keys := DescriptorKeys(d.SourceBuild?);
    VersionAscii(BuildRecords.DialectOf(d), ROBOT_BUILD_SCHEMA);
    VersionAscii(Current, SOURCE_BUILD_SCHEMA);
    IdentifierAscii(Identifiers.ROBOT, d.robotId);
    IdentifierAscii(Identifiers.ROBOT_BUILD, d.robotBuildId);
    DigestAscii(d.artifactDigest);
    if d.SourceBuild? {
      DigestAscii(d.buildIntegrityDigest);
    }
    SmallTexts(nfc, keys, DescriptorTexts(d));
    SmallMore(DescriptorData(d), nfc, 1, 1 + |keys|, 1, 6);
  }

  /** All values but one are ASCII texts. */
  predicate AsciiBut(v: seq<Data>, k: nat) {
    forall i :: 0 <= i < |v| && i != k ==> v[i].Str? && IsAscii(v[i].text)
  }

  lemma SmallNested(nfc: Text -> bool, keys: seq<Text>, v: seq<Data>, k: nat, levels: nat, values: nat)
    requires KeepsAscii(nfc) && |keys| == |v| && AllAscii(keys) && AsciiBut(v, k)
    requires k < |v| && values >= 1 && Small(v[k], nfc, levels, values)
    ensures Small(Zip(keys, v), nfc, levels + 1, 1 + |keys| * values)
  {
    forall i | 0 <= i < |v| ensures Small(v[i], nfc, levels, values) {
      if i != k {
        SmallString(nfc, v[i].text);
        SmallMore(v[i], nfc, 0, 1, levels, values);
      }
    }
    SmallRecord(nfc, keys, v, levels, values);
  }

  lemma ClearanceAscii(c: ClearanceRecord)
    requires ValidClearance(c)
    ensures AsciiBut(ClearanceValues(c), 3)
  {
    var v := ClearanceValues(c);
    VersionAscii(c.dialect, CLEARANCE_SCHEMA);
    IdentifierAscii(Identifiers.CLEARANCE, c.clearanceId);
    IdentifierAscii(Identifiers.EVALUATION, c.evaluationId);
    DigestAscii(c.evaluationInputsDigest);
    assert IsAscii(v[0].text) && IsAscii(v[1].text) && IsAscii(v[2].text) && IsAscii(v[4].text);
    assert IsAscii(v[5].text) && IsAscii(v[6].text) && IsAscii(v[7].text);
  }

  lemma ClearanceSmall(nfc: Text -> bool, c: ClearanceRecord)
    requires KeepsAscii(nfc) && ValidClearance(c)
    ensures Small(ClearanceData(c), nfc, 2, 73)
  {
    InputsSmall(nfc, c.inputs);
    ClearanceAscii(c);
    SmallNested(nfc, CLEARANCE_KEYS, ClearanceValues(c), 3, 1, 9);
  }

  lemma RecordDigests(h: Hashing, kind: Kind, dialect: Dialect, payload: Data, levels: nat, values: nat)
    requires KeepsAscii(h.nfc) && 1 <= values <= 1000 && levels <= 2 && Small(payload, h.nfc, levels, values)
    ensures Digest(h, Domain(kind, dialect), ProtocolVersion(dialect), payload).Some?
  {
    DomainAscii(kind, dialect);
    VersionAscii(dialect, []);
    SmallDigests(h, Domain(kind, dialect), ProtocolVersion(dialect), payload, levels, values);
  }

  lemma RecordWritten(h: Hashing, kind: Kind, dialect: Dialect, payload: Data, levels: nat, values: nat)
    requires KeepsAscii(h.nfc) && 1 <= values <= 1000 && levels <= 2 && Small(payload, h.nfc, levels, values)
    ensures Digest(h, Domain(kind, dialect), ProtocolVersion(dialect), payload).Some? && Serialize(h.nfc, payload).Some?
  {
    RecordDigests(h, kind, dialect, payload, levels, values);
    SmallSerializes(h.nfc, payload, levels, values);
  }

  /** Valid inputs always have a digest. */
  lemma InputsDigest(h: Hashing, r: Inputs)
    requires KeepsAscii(h.nfc) && ValidInputs(r)
    ensures DigestInputs(h, r).Some?
  {
    InputsSmall(h.nfc, r);
    RecordDigests(h, EvaluationInputs, r.dialect, InputsData(r), 1, 9);
  }

  /** So has every valid descriptor. */
  lemma DescriptorDigests(h: Hashing, d: Descriptor)
    requires KeepsAscii(h.nfc) && ValidDescriptor(d)
    ensures DigestRobotBuild(h, d).Some?
  {
    DescriptorSmall(h.nfc, d);
    RecordDigests(h, RobotBuild, BuildRecords.DialectOf(d), DescriptorData(d), 1, 6);
  }

  /** A valid clearance has a stored text, and a digest exactly when it holds the digest of its inputs. */
  lemma ClearanceWritten(h: Hashing, c: ClearanceRecord)
    requires KeepsAscii(h.nfc) && ValidClearance(c)
    ensures Serialize(h.nfc, ClearanceData(c)).Some?
    ensures DigestClearance(h, c).Some? <==> DigestInputs(h, c.inputs) == Some(c.evaluationInputsDigest)
  {
    ClearanceSmall(h.nfc, c);
    RecordWritten(h, Kind.Clearance, c.dialect, ClearanceData(c), 2, 73);
  }

  /** So has a valid intent. */
  lemma IntentWritten(h: Hashing, i: Intent)
    requires KeepsAscii(h.nfc) && ValidIntent(i)
    ensures DigestIntent(h, i).Some? && Serialize(h.nfc, IntentData(i)).Some?
  {
    IntentSmall(h.nfc, i);
    RecordWritten(h, DeploymentIntent, i.dialect, IntentData(i), 1, 13);
  }
}
