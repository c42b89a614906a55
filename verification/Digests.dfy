/** Protocol digests: a domain-separated frame, its canonical octets, their SHA-256 in hexadecimal. */
module Digests {
  import opened Text
  import opened Unicode
  import opened Values
  import opened Canonical
  import G = JsonGrammar
  import Serializer

  type Hash256 = s: seq<Byte> | |s| == 32 witness seq(32, _ => 0)

  /** The Unicode tables and the hash, about which nothing is assumed but the length of a hash. */
  datatype Hashing = Hashing(nfc: Text -> bool, sha256: seq<Byte> -> Hash256)

  datatype Dialect = Current | Legacy

  datatype Kind = RobotBuild | BuildIntegrity | SafetyEnvelopeCommitment | EvaluationInputs | Clearance | DeploymentIntent

  const CURRENT_PREFIX: Text := Ascii("rovaulta")

  /** The retired product name, spelled as code units as the source spells it. */
  const LEGACY_PREFIX: Text := [0x70, 0x72, 0x65, 0x66, 0x6c, 0x69, 0x67, 0x68, 0x74]

  /** The product name the schema and domain identifiers start with. */
  function Namespace(dialect: Dialect): Text {
    (match dialect case Current => CURRENT_PREFIX case Legacy => LEGACY_PREFIX) + Ascii(".")
  }

  function DomainSuffix(kind: Kind): Text {
    match kind
    case RobotBuild => Ascii("digest.robot-build/v1")
    case BuildIntegrity => Ascii("digest.build-integrity/v1")
    case SafetyEnvelopeCommitment => Ascii("digest.safety-envelope-commitment/v1")
    case EvaluationInputs => Ascii("digest.evaluation-inputs/v1")
    case Clearance => Ascii("digest.clearance/v1")
    case DeploymentIntent => Ascii("digest.deployment-intent/v1")
  }

  function Domain(kind: Kind, dialect: Dialect): Text {
    Namespace(dialect) + DomainSuffix(kind)
  }

  function ProtocolVersion(dialect: Dialect): Text {
    Namespace(dialect) + Ascii("protocol/v1")
  }

  /** No two kinds of digest, of either dialect, share a domain. */
  lemma DomainsDistinct(a: Kind, d: Dialect, b: Kind, e: Dialect)
    requires Domain(a, d) == Domain(b, e)
    ensures a == b && d == e
  {
    assert Domain(a, d)[0] == Namespace(d)[0] && Domain(b, e)[0] == Namespace(e)[0];
    SuffixesDistinct(a, b);
    var n := |Namespace(d)|;
    assert DomainSuffix(a) == Domain(a, d)[n..] == Domain(b, e)[n..] == DomainSuffix(b);
  }

  lemma SuffixesDistinct(a: Kind, b: Kind)
    ensures DomainSuffix(a) == DomainSuffix(b) ==> a == b
  {
    assert DomainSuffix(EvaluationInputs)[7] != DomainSuffix(DeploymentIntent)[7];
  }

  // ---------- The frame ----------

  const DOMAIN: Text := Ascii("domain")
  const PROTOCOL_VERSION: Text := Ascii("protocolVersion")
  const PAYLOAD: Text := Ascii("payload")

  function Frame(domain: Text, version: Text, payload: Data): Data {
    Record([Field(DOMAIN, Str(domain)), Field(PROTOCOL_VERSION, Str(version)), Field(PAYLOAD, payload)])
  }

  lemma FrameProper(domain: Text, version: Text, payload: Data)
    requires Proper(payload)
    ensures Proper(Frame(domain, version, payload))
  {
  }

  /** Frames hold the same data exactly when their parts agree. */
  lemma SameFrames(d: Text, v: Text, p: Data, d': Text, v': Text, p': Data)
    requires Same(Frame(d, v, p), Frame(d', v', p'))
    ensures d == d' && v == v' && Same(p, p')
  {
    var fs, gs := Frame(d, v, p).fields, Frame(d', v', p').fields;
    SameAt(fs, gs, 0);
    SameAt(fs, gs, 1);
    SameAt(fs, gs, 2);
  }

  function Hex(bytes: seq<Byte>): (t: Text)
    ensures |t| == 2 * |bytes|
  {
    if bytes == [] then [] else [LowerHex(bytes[0] / 16), LowerHex(bytes[0] % 16)] + Hex(bytes[1..])
  }

  lemma {:induction false} HexInjective(a: seq<Byte>, b: seq<Byte>)
    requires Hex(a) == Hex(b)
    ensures a == b
  {
    assert |a| == |b|;
    if a != [] {
      assert Hex(a)[0] == Hex(b)[0] && Hex(a)[1] == Hex(b)[1];
      assert a[0] / 16 == b[0] / 16 && a[0] % 16 == b[0] % 16;
      assert Hex(a[1..]) == Hex(a)[2..] == Hex(b)[2..] == Hex(b[1..]);
      HexInjective(a[1..], b[1..]);
      assert a == [a[0]] + a[1..] && b == [b[0]] + b[1..];
    }
  }

  /** Two lower-case digits for each octet, the high half first. */
  predicate SpellsOctet(high: CodeUnit, low: CodeUnit, octet: Byte) {
    && G.IsHex(high) && G.IsHex(low) && !(0x41 <= high <= 0x46) && !(0x41 <= low <= 0x46)
    && G.HexValue(high) * 16 + G.HexValue(low) == octet
  }

  lemma {:induction false} HexSpells(bytes: seq<Byte>, i: nat)
    requires i < |bytes|
    ensures SpellsOctet(Hex(bytes)[2 * i], Hex(bytes)[2 * i + 1], bytes[i])
  {
    if i > 0 {
      HexSpells(bytes[1..], i - 1);
      assert Hex(bytes)[2..] == Hex(bytes[1..]);
    }
  }

  /** The octets the digest is taken of, when the frame has a canonical form. */
  function FrameBytes(h: Hashing, domain: Text, version: Text, payload: Data): Option<seq<Byte>> {
    var frame := Frame(domain, version, payload);
    if Serializer.Accepted(frame, 0, 0, h.nfc) then
      CanonicalTextWellFormed(frame, h.nfc);
      Some(Octets(CanonicalText(frame)))
    else None
  }

  const SHA256: Text := Ascii("sha256:")

  function DigestText(hash: Hash256): Text {
    SHA256 + Hex(hash)
  }

  method DigestFrame(h: Hashing, domain: Text, version: Text, payload: Data) returns (digest: Option<Text>)
    requires Proper(payload)
    ensures digest == Digest(h, domain, version, payload)
  {
    var frame := Frame(domain, version, payload);
    FrameProper(domain, version, payload);
    var bytes := Serializer.CanonicalBytes(frame, h.nfc);
    return if bytes.Some? then Some(DigestText(h.sha256(bytes.value))) else None;
  }

  function Digest(h: Hashing, domain: Text, version: Text, payload: Data): Option<Text> {
    var bytes := FrameBytes(h, domain, version, payload);
    if bytes.Some? then Some(DigestText(h.sha256(bytes.value))) else None
  }

  predicate Collision(h: Hashing, a: seq<Byte>, b: seq<Byte>) {
    a != b && h.sha256(a) == h.sha256(b)
  }

  /**
   * Equal digests mean the same domain, the same protocol version and the same payload,
   * or the two frames are a collision of the hash.
   */
  lemma DigestDecides(h: Hashing, d: Text, v: Text, p: Data, d': Text, v': Text, p': Data)
    requires Proper(p) && Proper(p')
    requires FrameBytes(h, d, v, p).Some? && FrameBytes(h, d', v', p').Some?
    ensures Digest(h, d, v, p) == Digest(h, d', v', p') <==>
              || (d == d' && v == v' && Same(p, p'))
              || Collision(h, FrameBytes(h, d, v, p).value, FrameBytes(h, d', v', p').value)
  {
    var a, b := FrameBytes(h, d, v, p).value, FrameBytes(h, d', v', p').value;
    if Digest(h, d, v, p) == Digest(h, d', v', p') {
      var x, y := h.sha256(a), h.sha256(b);
      assert Hex(x) == DigestText(x)[|SHA256|..] == DigestText(y)[|SHA256|..] == Hex(y);
      HexInjective(x, y);
    }
    FrameProper(d, v, p);
    FrameProper(d', v', p');
    FrameBytesDecide(h, d, v, p, d', v', p');
  }

  lemma FrameBytesDecide(h: Hashing, d: Text, v: Text, p: Data, d': Text, v': Text, p': Data)
    requires Proper(p) && Proper(p')
    requires FrameBytes(h, d, v, p).Some? && FrameBytes(h, d', v', p').Some?
    ensures FrameBytes(h, d, v, p) == FrameBytes(h, d', v', p') <==> d == d' && v == v' && Same(p, p')
  {
    var f, g := Frame(d, v, p), Frame(d', v', p');
    FrameProper(d, v, p);
    FrameProper(d', v', p');
    CanonicalBytesDecide(f, g, h.nfc);
    if Same(f, g) {
      SameFrames(d, v, p, d', v', p');
    }
    if d == d' && v == v' && Same(p, p') {
      SamePointwise(f.fields, g.fields);
    }
  }

  /** Digests of different kinds or dialects are equal only for a collision of the hash. */
  lemma KindsNeverShareADigest(h: Hashing, a: Kind, d: Dialect, p: Data, b: Kind, e: Dialect, q: Data)
    requires Proper(p) && Proper(q) && (a != b || d != e)
    requires var x := FrameBytes(h, Domain(a, d), ProtocolVersion(d), p);
             var y := FrameBytes(h, Domain(b, e), ProtocolVersion(e), q);
             x.Some? && y.Some? && !Collision(h, x.value, y.value)
    ensures Digest(h, Domain(a, d), ProtocolVersion(d), p) != Digest(h, Domain(b, e), ProtocolVersion(e), q)
  {
    DigestDecides(h, Domain(a, d), ProtocolVersion(d), p, Domain(b, e), ProtocolVersion(e), q);
    if Domain(a, d) == Domain(b, e) {
      DomainsDistinct(a, d, b, e);
    }
  }
}
