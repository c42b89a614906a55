/** The JSON columns of both stores: written by canonicalSerialize, read by JSON.parse. */
module StoredText {
  import opened Text
  import opened Values
  import opened Canonical
  import G = JsonGrammar
  import JsonParser
  import Serializer

  /** canonicalSerialize */
  function Serialize(nfc: Text -> bool, d: Data): Option<Text> {
    if Serializer.Accepted(d, 0, 0, nfc) then Some(CanonicalText(d)) else None
  }

  /** JSON.parse, where only plain integers occur. */
  function ReadText(t: Text): Option<Data> {
    match JsonParser.JsonParse(t)
    case None => None
    case Some(e) =>
      JsonParser.JsonParseExact(t, e);
      assert G.ValidElement(e);
      DataOf(e.value)
  }

  /** What was serialised is read back in normal form. */
  lemma SerializedReadBack(nfc: Text -> bool, d: Data)
    requires Proper(d) && Serialize(nfc, d).Some?
    ensures ReadText(Serialize(nfc, d).value) == Some(Normal(d))
  {
    CanonicalReadBack(d, nfc);
  }

  lemma CountReplaced(fs: seq<Field>, k: nat, f: Field)
    requires k < |fs| && Count(f.value) == Count(fs[k].value)
    ensures CountFields(fs[k := f]) == CountFields(fs)
  {
    var front, back := fs[..k], fs[k + 1..];
    assert fs == front + ([fs[k]] + back) && fs[k := f] == front + ([f] + back);
    CountFieldsAppend(front, [fs[k]] + back);
    CountFieldsAppend(front, [f] + back);
    assert ([fs[k]] + back)[1..] == back == ([f] + back)[1..];
  }

  /** Another string in the place of a string changes nothing about what is accepted. */
  lemma LeafReplaced(nfc: Text -> bool, fs: seq<Field>, k: nat, t: Text)
    requires Serialize(nfc, Record(fs)).Some? && k < |fs| && fs[k].value.Str? && CanonicalString(t, nfc)
    ensures Serialize(nfc, Record(fs[k := Field(fs[k].name, Str(t))])).Some?
  {
    var f := Field(fs[k].name, Str(t));
    CountReplaced(fs, k, f);
    assert Serializer.Accepted(Record(fs), 0, 0, nfc);
    assert Acceptable(Record(fs[k := f]), nfc);
    assert Shallow(Record(fs[k := f]), 0);
    assert Count(Record(fs[k := f])) == Count(Record(fs));
  }
}
