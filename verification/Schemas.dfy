/** Records with a fixed set of keys: as plain data, and read back from any arrangement of their fields. */
module Schemas {
  import opened Text
  import opened Unicode
  import opened Values
  import opened Digests

  predicate DistinctTexts(keys: seq<Text>) {
    forall i, j :: 0 <= i < j < |keys| ==> keys[i] != keys[j]
  }

  /** A record with the given keys in the given order. */
  function Zip(keys: seq<Text>, values: seq<Data>): (d: Data)
    requires |keys| == |values|
    ensures d.Record? && |d.fields| == |keys|
  {
    Record(seq(|keys|, i requires 0 <= i < |keys| => Field(keys[i], values[i])))
  }

  predicate HasName(fs: seq<Field>, name: Text) {
    exists i :: 0 <= i < |fs| && fs[i].name == name
  }

  function Lookup(fs: seq<Field>, name: Text): (d: Data)
    requires HasName(fs, name)
    ensures Field(name, d) in fs
  {
    if fs[0].name == name then fs[0].value
    else
      assert HasName(fs[1..], name) by {
        var i :| 0 <= i < |fs| && fs[i].name == name;
        assert fs[1..][i - 1].name == name;
      }
      Lookup(fs[1..], name)
  }

  lemma LookupUnique(fs: seq<Field>, f: Field)
    requires DistinctNames(fs) && f in fs
    ensures HasName(fs, f.name) && Lookup(fs, f.name) == f.value
  {
    var i :| 0 <= i < |fs| && fs[i] == f;
    var d := Lookup(fs, f.name);
    var j :| 0 <= j < |fs| && fs[j] == Field(f.name, d);
    assert i == j;
  }

  /** The own keys are exactly these, in any order; their values in the order asked for. */
  function ExactValues(d: Data, keys: seq<Text>): (r: Option<seq<Data>>)
    ensures r.Some? ==> |r.value| == |keys|
  {
    if d.Record? && |d.fields| == |keys| && forall k :: 0 <= k < |keys| ==> HasName(d.fields, keys[k]) then
      Some(seq(|keys|, k requires 0 <= k < |keys| => Lookup(d.fields, keys[k])))
    else None
  }

  lemma ZipProper(keys: seq<Text>, values: seq<Data>)
    requires |keys| == |values| && DistinctTexts(keys)
    requires forall i :: 0 <= i < |values| ==> Proper(values[i])
    ensures Proper(Zip(keys, values))
  {
  }

  lemma ZipRead(keys: seq<Text>, values: seq<Data>)
    requires |keys| == |values| && DistinctTexts(keys)
    ensures ExactValues(Zip(keys, values), keys) == Some(values)
  {
    var fs := Zip(keys, values).fields;
    forall k | 0 <= k < |keys| ensures HasName(fs, keys[k]) && Lookup(fs, keys[k]) == values[k] {
      assert fs[k] == Field(keys[k], values[k]);
      LookupUnique(fs, fs[k]);
    }
    assert ExactValues(Zip(keys, values), keys).value == values;
  }

  /** Normalising a record normalises the values read from it and nothing else. */
  lemma ExactValuesNormal(d: Data, keys: seq<Text>)
    requires Proper(d) && d.Record?
    requires ExactValues(d, keys).Some?
    ensures ExactValues(Normal(d), keys) == Some(NormalItems(ExactValues(d, keys).value))
  {
    var fs, ns := d.fields, Normal(d).fields;
    NormalProper(d);
    SortFieldsMembers(NormalFields(fs));
    forall k | 0 <= k < |keys|
      ensures HasName(ns, keys[k]) && Lookup(ns, keys[k]) == Normal(Lookup(fs, keys[k]))
    {
      var f := Field(keys[k], Lookup(fs, keys[k]));
      var i :| 0 <= i < |fs| && fs[i] == f;
      NormalFieldsMembers(fs, NormalField(f));
      assert NormalField(fs[i]) == NormalField(f);
      LookupUnique(ns, NormalField(f));
    }
    assert ExactValues(Normal(d), keys).value == NormalItems(ExactValues(d, keys).value);
  }

  lemma ZipNormalRead(keys: seq<Text>, values: seq<Data>)
    requires |keys| == |values| && DistinctTexts(keys)
    requires forall i :: 0 <= i < |values| ==> Proper(values[i])
    ensures ExactValues(Normal(Zip(keys, values)), keys) == Some(NormalItems(values))
  {
    ZipProper(keys, values);
    ZipRead(keys, values);
    ExactValuesNormal(Zip(keys, values), keys);
  }

  // ---------- Texts and versions ----------

  predicate AllStrings(values: seq<Data>) {
    forall i :: 0 <= i < |values| ==> values[i].Str?
  }

  function Strings(ts: seq<Text>): (ds: seq<Data>)
    ensures |ds| == |ts|
    ensures forall i :: 0 <= i < |ts| ==> ds[i] == Str(ts[i])
  {
    seq(|ts|, i requires 0 <= i < |ts| => Str(ts[i]))
  }

  lemma NormalStrings(ts: seq<Text>)
    ensures NormalItems(Strings(ts)) == Strings(ts)
    ensures forall i :: 0 <= i < |ts| ==> Proper(Strings(ts)[i])
  {
  }

  /** All values but one are leaves. */
  predicate LeavesBut(values: seq<Data>, k: nat) {
    forall i :: 0 <= i < |values| && i != k ==> values[i].Str? || values[i].Num?
  }

  lemma NormalBut(values: seq<Data>, k: nat)
    requires k < |values| && LeavesBut(values, k)
    ensures NormalItems(values) == values[k := Normal(values[k])]
  {
  }

  lemma ProperBut(values: seq<Data>, k: nat)
    requires k < |values| && LeavesBut(values, k) && Proper(values[k])
    ensures forall i :: 0 <= i < |values| ==> Proper(values[i])
  {
    forall i | 0 <= i < |values| ensures Proper(values[i]) {
      assert i != k ==> values[i].Str? || values[i].Num?;
    }
  }

  /** A record of leaves and one nested value, read from its normal form. */
  lemma NestedRead(keys: seq<Text>, values: seq<Data>, k: nat)
    requires |keys| == |values| && DistinctTexts(keys)
    requires k < |values| && LeavesBut(values, k) && Proper(values[k])
    ensures Proper(Zip(keys, values))
    ensures ExactValues(Zip(keys, values), keys) == Some(values)
    ensures ExactValues(Normal(Zip(keys, values)), keys) == Some(values[k := Normal(values[k])])
  {
    ProperBut(values, k);
    NormalBut(values, k);
    ZipProper(keys, values);
    ZipRead(keys, values);
    ZipNormalRead(keys, values);
  }

  function Version(dialect: Dialect, suffix: Text): Text {
    Namespace(dialect) + suffix
  }

  function ResolveVersion(t: Text, suffix: Text): Option<Dialect> {
    if t == Version(Current, suffix) then Some(Current)
    else if t == Version(Legacy, suffix) then Some(Legacy)
    else None
  }

  lemma VersionResolved(dialect: Dialect, suffix: Text)
    ensures ResolveVersion(Version(dialect, suffix), suffix) == Some(dialect)
  {
    assert Version(Legacy, suffix)[0] != Version(Current, suffix)[0];
  }

  // ---------- Shapes of the leaves ----------

  predicate LowerHexDigits(t: Text) {
    forall i :: 0 <= i < |t| ==> 0x30 <= t[i] <= 0x39 || 0x61 <= t[i] <= 0x66
  }

  predicate HexDigits(t: Text) {
    forall i :: 0 <= i < |t| ==> 0x30 <= t[i] <= 0x39 || 0x41 <= t[i] <= 0x46 || 0x61 <= t[i] <= 0x66
  }

  /** ^sha256:[0-9a-f]{64}$ */
  predicate IsSha256Digest(t: Text) {
    |t| == 71 && t[..7] == SHA256 && LowerHexDigits(t[7..])
  }

  lemma {:induction false} HexIsLower(bytes: seq<Byte>)
    ensures LowerHexDigits(Hex(bytes))
  {
    if bytes != [] {
      HexIsLower(bytes[1..]);
    }
  }

  /** Every digest made has the shape the parsers ask for. */
  lemma DigestShape(h: Hashing, domain: Text, version: Text, payload: Data)
    requires Digest(h, domain, version, payload).Some?
    ensures IsSha256Digest(Digest(h, domain, version, payload).value)
  {
    var hash := h.sha256(FrameBytes(h, domain, version, payload).value);
    HexIsLower(hash);
    assert DigestText(hash)[..7] == SHA256 && DigestText(hash)[7..] == Hex(hash);
  }

  const HEX_PREFIX: Text := [0x30, 0x78]

  /** ^0x[0-9a-f]{64}$, ignoring case. */
  predicate IsBytes32(t: Text) {
    |t| == 66 && t[..2] == HEX_PREFIX && HexDigits(t[2..])
  }

  /** 32 octets in hexadecimal, as a hash function gives them. */
  type Bytes32 = t: Text | IsBytes32(t) witness HEX_PREFIX + seq(64, _ => 0x30)

  /** ^[A-Za-z0-9_-]{16,128}$ */
  predicate IsNonce(t: Text) {
    && 16 <= |t| <= 128
    && forall i :: 0 <= i < |t| ==>
         0x30 <= t[i] <= 0x39 || 0x41 <= t[i] <= 0x5a || 0x61 <= t[i] <= 0x7a || t[i] == 0x5f || t[i] == 0x2d
  }
}
