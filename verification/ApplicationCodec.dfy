/** The store's own printers and parsers: canonical text out, JSON and the record parsers in. */
module ApplicationCodec {
  import opened Text
  import opened Values
  import opened Digests
  import opened StoredText
  import opened Timestamps
  import opened Records
  import opened BuildRecords
  import opened Application

  /** What the store calls besides: patterns, trace suites, ciphers, paths. Nothing is assumed of them. */
  datatype Libraries = Libraries(
    hashing: Hashing,
    checks: Checks,
    parseTraces: Text -> Option<NormalData>,
    digestCallback: Callback -> Text,
    buildTraces: (Descriptor, Text) -> Option<Text>,
    decrypts: Text -> bool,
    artifactPathOf: Text -> Text)

  /** A descriptor is parsed before it is written. */
  function PrintDescriptor(h: Hashing, d: Descriptor): Option<Text> {
    if ValidDescriptor(d) then Serialize(h.nfc, DescriptorData(d)) else None
  }

  function ReadDescriptor(t: Text): Option<Descriptor> {
    match ReadText(t)
    case None => None
    case Some(d) => ParseDescriptor(d)
  }

  function PrintEvidence(h: Hashing, e: Evidence): Option<Text> {
    Serialize(h.nfc, EvidenceData(e))
  }

  function ReadEvidence(k: Checks, t: Text): Option<Evidence> {
    match ReadText(t)
    case None => None
    case Some(d) => ParseEvidence(k, d)
  }

  function DigestTraced(l: Libraries, request: EvaluationRequest, d: Descriptor, traceJson: Text, evaluatedAt: UnixTimestamp): Option<Text> {
    match l.parseTraces(traceJson)
    case None => None
    case Some(traces) => DigestBehavior(l.hashing, Behavior(request, d, traces, evaluatedAt))
  }

  function CodecOf(l: Libraries): Codec {
    Codec((d: Descriptor) => PrintDescriptor(l.hashing, d),
          (t: Text) => ReadDescriptor(t),
          (d: Data) => ParseEvidence(l.checks, d),
          (e: Evidence) => PrintEvidence(l.hashing, e),
          (t: Text) => ReadEvidence(l.checks, t),
          (e: Evidence) => DigestBuildIntegrity(l.hashing, e),
          (d: Descriptor) => DigestRobotBuild(l.hashing, d),
          (r: Inputs) => DigestInputs(l.hashing, r),
          (r: EvaluationRequest, d: Descriptor, traceJson: Text, evaluatedAt: UnixTimestamp) => DigestTraced(l, r, d, traceJson, evaluatedAt),
          l.digestCallback, l.buildTraces, l.decrypts, l.artifactPathOf)
  }

  // ---------- What is written is read back ----------

  predicate EvidenceRound(c: Codec, e: Evidence) {
    c.printEvidence(e).Some? ==> c.parseEvidence(c.printEvidence(e).value) == Some(e)
  }

  /** Every descriptor that is written, and every evidence that was once accepted, is read back. */
  ghost predicate RoundTrips(c: Codec) {
    && (forall d :: c.printDescriptor(d).Some? ==> c.parseDescriptor(c.printDescriptor(d).value) == Some(d))
    && (forall d :: c.readEvidence(d).Some? ==> EvidenceRound(c, c.readEvidence(d).value))
  }

  lemma DescriptorTextReads(h: Hashing, d: Descriptor)
    requires PrintDescriptor(h, d).Some?
    ensures ReadDescriptor(PrintDescriptor(h, d).value) == Some(d)
  {
    DescriptorReadBack(d);
    SerializedReadBack(h.nfc, DescriptorData(d));
  }

  lemma EvidenceTextReads(h: Hashing, k: Checks, e: Evidence)
    requires ValidEvidence(k, e) && PrintEvidence(h, e).Some?
    ensures ReadEvidence(k, PrintEvidence(h, e).value) == Some(e)
  {
    EvidenceReadBack(k, e);
    SerializedReadBack(h.nfc, EvidenceData(e));
  }

  /** The program's own codec reads back what it writes. */
  lemma StoredRecordsReadBack(l: Libraries)
    ensures RoundTrips(CodecOf(l))
  {
    var c := CodecOf(l);
    forall d | c.printDescriptor(d).Some? ensures c.parseDescriptor(c.printDescriptor(d).value) == Some(d) {
      DescriptorTextReads(l.hashing, d);
    }
    forall d | c.readEvidence(d).Some? ensures EvidenceRound(c, c.readEvidence(d).value) {
      var e := c.readEvidence(d).value;
      if c.printEvidence(e).Some? {
        EvidenceTextReads(l.hashing, l.checks, e);
      }
    }
  }
}
