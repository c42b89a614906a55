/** The serialiser of canonical JSON: recursion over the value with one shared node counter. */
module Serializer {
  import opened Text
  import opened Unicode
  import opened Values
  import opened Canonical
  import G = JsonGrammar

  class CanonicalState {
    var nodes: nat

    constructor ()
      ensures nodes == 0
    {
      nodes := 0;
    }
  }

  /** The value is written at this depth when so many nodes were counted before it. */
  predicate Accepted(value: Data, depth: nat, before: nat, nfc: Text -> bool) {
    Node(value, depth, nfc) && before + Count(value) <= MAX_NODES
  }

  /** The two checks on every string; a surrogate pair advances the index twice. */
  method AssertCanonicalString(value: Text, nfc: Text -> bool) returns (ok: bool)
    ensures ok <==> CanonicalString(value, nfc)
  {
    if !nfc(value) {
      return false;
    }
    var index := 0;
    assert value[0..] == value;
    while index < |value|
      invariant 0 <= index <= |value|
      invariant WellFormed(value[index..]) <==> WellFormed(value)
    {
      ghost var rest := value[index..];
      var codeUnit := value[index];
      assert rest[0] == codeUnit && rest[1..] == value[index + 1..];
      if IsHigh(codeUnit) {
        if index + 1 >= |value| || !IsLow(value[index + 1]) {
          return false;
        }
        assert rest[1] == value[index + 1] && rest[2..] == value[index + 2..];
        index := index + 1;
      } else if IsLow(codeUnit) {
        return false;
      }
      index := index + 1;
    }
    return true;
  }

  /** Array.prototype.join with a comma. */
  function Join(parts: seq<Text>): Text {
    if parts == [] then [] else if |parts| == 1 then parts[0] else parts[0] + [G.COMMA] + Join(parts[1..])
  }

  lemma {:induction false} JoinElements(items: seq<Data>, parts: seq<Text>)
    requires |parts| == |items| && items != []
    requires forall i :: 0 <= i < |items| ==> parts[i] == G.PrintValue(Tree(items[i]))
    ensures Join(parts) == G.PrintElements(TreeElements(items))
  {
    BarePrints(Tree(items[0]));
    if |items| > 1 {
      JoinElements(items[1..], parts[1..]);
    }
  }

  lemma {:induction false} JoinMembers(fs: seq<Field>, parts: seq<Text>)
    requires |parts| == |fs| && fs != []
    requires forall i :: 0 <= i < |fs| ==> parts[i] == Quoted(fs[i].name) + [G.COLON] + G.PrintValue(Tree(fs[i].value))
    ensures Join(parts) == G.PrintMembers(TreeMembers(fs))
  {
    MemberPrints(fs[0]);
    if |fs| > 1 {
      JoinMembers(fs[1..], parts[1..]);
    }
  }

  lemma CountItemsThrough(items: seq<Data>, i: nat)
    requires i < |items|
    ensures CountItems(items[..i + 1]) == CountItems(items[..i]) + Count(items[i]) <= CountItems(items)
  {
    assert items[..i + 1] == items[..i] + [items[i]];
    CountItemsAppend(items[..i], [items[i]]);
    assert items == items[..i + 1] + items[i + 1..];
    CountItemsAppend(items[..i + 1], items[i + 1..]);
  }

  lemma CountFieldsThrough(fs: seq<Field>, i: nat)
    requires i < |fs|
    ensures CountFields(fs[..i + 1]) == CountFields(fs[..i]) + Count(fs[i].value) <= CountFields(fs)
  {
    assert fs[..i + 1] == fs[..i] + [fs[i]];
    CountFieldsAppend(fs[..i], [fs[i]]);
    assert fs == fs[..i + 1] + fs[i + 1..];
    CountFieldsAppend(fs[..i + 1], fs[i + 1..]);
  }

  predicate Node(value: Data, depth: nat, nfc: Text -> bool) {
    Acceptable(value, nfc) && Shallow(value, depth)
  }

  predicate ItemsAccepted(items: seq<Data>, depth: nat, before: nat, nfc: Text -> bool) {
    && (forall i :: 0 <= i < |items| ==> Node(items[i], depth, nfc))
    && before + CountItems(items) <= MAX_NODES
  }

  lemma ArrayText(items: seq<Data>, parts: seq<Text>)
    requires |parts| == |items| && forall i :: 0 <= i < |items| ==> parts[i] == CanonicalText(items[i])
    ensures [G.OPEN_BRACKET] + Join(parts) + [G.CLOSE_BRACKET] == CanonicalText(List(items))
  {
    var normal := NormalItems(items);
    if items == [] {
      assert normal == [];
    } else {
      forall i | 0 <= i < |items| ensures parts[i] == G.PrintValue(Tree(normal[i])) {
        assert normal[i] == Normal(items[i]);
      }
      JoinElements(normal, parts);
    }
  }

  method SerializeArray(items: seq<Data>, state: CanonicalState, depth: nat, nfc: Text -> bool)
    returns (r: Option<Text>)
    requires Proper(List(items)) && state.nodes <= MAX_NODES
    modifies state
    ensures r.Some? <==> ItemsAccepted(items, depth + 1, old(state.nodes), nfc)
    ensures r.Some? ==> r.value == CanonicalText(List(items)) && state.nodes == old(state.nodes) + CountItems(items)
    decreases CountItems(items), 1
  {
    ghost var before := state.nodes;
    var parts: seq<Text> := [];
    for index := 0 to |items|
      invariant |parts| == index
      invariant forall i :: 0 <= i < index ==> parts[i] == CanonicalText(items[i])
      invariant forall i :: 0 <= i < index ==> Node(items[i], depth + 1, nfc)
      invariant state.nodes == before + CountItems(items[..index]) <= MAX_NODES
    {
      CountItemsThrough(items, index);
      var part := SerializeValue(items[index], state, depth + 1, nfc);
      if part.None? {
        return None;
      }
      parts := parts + [part.value];
    }
    assert items[..|items|] == items;
    ArrayText(items, parts);
    return Some([G.OPEN_BRACKET] + Join(parts) + [G.CLOSE_BRACKET]);
  }

  predicate FieldsAccepted(fs: seq<Field>, depth: nat, before: nat, nfc: Text -> bool) {
    && (forall i :: 0 <= i < |fs| ==> Node(fs[i].value, depth, nfc))
    && before + CountFields(fs) <= MAX_NODES
  }

  /** keys.sort() loses nothing. */
  lemma SortedFieldsAccepted(fs: seq<Field>, depth: nat, before: nat, nfc: Text -> bool)
    requires DistinctNames(fs)
    ensures FieldsAccepted(SortFields(fs), depth, before, nfc) <==> FieldsAccepted(fs, depth, before, nfc)
  {
    var sorted := SortFields(fs);
    SortFieldsMembers(fs);
    CountFieldsSorted(fs);
    if FieldsAccepted(sorted, depth, before, nfc) {
      forall i | 0 <= i < |fs| ensures Node(fs[i].value, depth, nfc) {
        assert fs[i] in sorted;
      }
    }
    if FieldsAccepted(fs, depth, before, nfc) {
      forall i | 0 <= i < |sorted| ensures Node(sorted[i].value, depth, nfc) {
        assert sorted[i] in fs;
      }
    }
  }

  method AssertKeys(fs: seq<Field>, nfc: Text -> bool) returns (ok: bool)
    ensures ok <==> forall i :: 0 <= i < |fs| ==> CanonicalString(fs[i].name, nfc)
  {
    for index := 0 to |fs|
      invariant forall i :: 0 <= i < index ==> CanonicalString(fs[i].name, nfc)
    {
      var canonical := AssertCanonicalString(fs[index].name, nfc);
      if !canonical {
        return false;
      }
    }
    return true;
  }

  lemma NormalRecord(fs: seq<Field>)
    requires DistinctNames(fs)
    ensures Normal(Record(fs)) == Record(NormalFields(SortFields(fs)))
  {
    NormalSorts(fs);
  }

  lemma FieldTextMeaning(f: Field)
    ensures FieldText(f) == Quoted(NormalField(f).name) + [G.COLON] + G.PrintValue(Tree(NormalField(f).value))
  {
  }

  lemma SortedText(sorted: seq<Field>, parts: seq<Text>)
    requires |parts| == |sorted| && forall i :: 0 <= i < |sorted| ==> parts[i] == FieldText(sorted[i])
    ensures [G.OPEN_BRACE] + Join(parts) + [G.CLOSE_BRACE] == G.PrintValue(Tree(Record(NormalFields(sorted))))
  {
    var normal := NormalFields(sorted);
    if sorted == [] {
      assert normal == [];
    } else {
      forall i | 0 <= i < |sorted|
        ensures parts[i] == Quoted(normal[i].name) + [G.COLON] + G.PrintValue(Tree(normal[i].value))
      {
        FieldTextMeaning(sorted[i]);
        assert normal[i] == NormalField(sorted[i]);
      }
      JoinMembers(normal, parts);
    }
  }

  /** The text of a record from the texts of its sorted fields. */
  lemma RecordText(fs: seq<Field>, parts: seq<Text>)
    requires DistinctNames(fs) && |parts| == |SortFields(fs)|
    requires forall i :: 0 <= i < |parts| ==> parts[i] == FieldText(SortFields(fs)[i])
    ensures [G.OPEN_BRACE] + Join(parts) + [G.CLOSE_BRACE] == CanonicalText(Record(fs))
  {
    NormalRecord(fs);
    SortedText(SortFields(fs), parts);
  }

  function FieldText(f: Field): Text {
    Quoted(f.name) + [G.COLON] + CanonicalText(f.value)
  }

  method SerializeField(field: Field, state: CanonicalState, depth: nat, nfc: Text -> bool)
    returns (r: Option<Text>)
    requires Proper(field.value)
    modifies state
    ensures r.Some? <==> Accepted(field.value, depth + 1, old(state.nodes), nfc)
    ensures r.Some? ==> r.value == FieldText(field) && state.nodes == old(state.nodes) + Count(field.value)
    decreases Count(field.value), 1
  {
    var part := SerializeValue(field.value, state, depth + 1, nfc);
    return if part.Some? then Some(Quoted(field.name) + [G.COLON] + part.value) else None;
  }

  /** The first fields are accepted, and written. */
  predicate FieldsWritten(fs: seq<Field>, texts: seq<Text>, depth: nat, nfc: Text -> bool) {
    |texts| <= |fs| && forall i :: 0 <= i < |texts| ==> texts[i] == FieldText(fs[i]) && Node(fs[i].value, depth, nfc)
  }

  lemma FieldWritten(fs: seq<Field>, texts: seq<Text>, depth: nat, nfc: Text -> bool)
    requires FieldsWritten(fs, texts, depth, nfc) && |texts| < |fs| && Node(fs[|texts|].value, depth, nfc)
    ensures FieldsWritten(fs, texts + [FieldText(fs[|texts|])], depth, nfc)
  {
  }

  method SerializeFields(sorted: seq<Field>, state: CanonicalState, depth: nat, nfc: Text -> bool)
    returns (parts: Option<seq<Text>>)
    requires state.nodes <= MAX_NODES
    requires forall i :: 0 <= i < |sorted| ==> Proper(sorted[i].value)
    modifies state
    ensures parts.Some? <==> FieldsAccepted(sorted, depth + 1, old(state.nodes), nfc)
    ensures parts.Some? ==> |parts.value| == |sorted| && state.nodes == old(state.nodes) + CountFields(sorted)
    ensures parts.Some? ==> FieldsWritten(sorted, parts.value, depth + 1, nfc)
    decreases CountFields(sorted), 2
  {
    ghost var before := state.nodes;
    var texts: seq<Text> := [];
    for index := 0 to |sorted|
      invariant |texts| == index && FieldsWritten(sorted, texts, depth + 1, nfc)
      invariant state.nodes == before + CountFields(sorted[..index]) <= MAX_NODES
    {
      CountFieldsThrough(sorted, index);
      var text := SerializeField(sorted[index], state, depth, nfc);
      if text.None? {
        return None;
      }
      FieldWritten(sorted, texts, depth + 1, nfc);
      texts := texts + [text.value];
    }
    assert sorted[..|sorted|] == sorted;
    return Some(texts);
  }

  method SerializeObject(fs: seq<Field>, state: CanonicalState, depth: nat, nfc: Text -> bool)
    returns (r: Option<Text>)
    requires Proper(Record(fs)) && state.nodes <= MAX_NODES
    modifies state
    ensures r.Some? <==> FieldsAccepted(fs, depth + 1, old(state.nodes), nfc)
                         && forall i :: 0 <= i < |fs| ==> CanonicalString(fs[i].name, nfc)
    ensures r.Some? ==> r.value == CanonicalText(Record(fs)) && state.nodes == old(state.nodes) + CountFields(fs)
    decreases CountFields(fs), 3
  {
    var canonical := AssertKeys(fs, nfc);
    if !canonical {
      return None;
    }
    var sorted := SortFields(fs);
    SortFieldsMembers(fs);
    SortedFieldsAccepted(fs, depth + 1, state.nodes, nfc);
    CountFieldsSorted(fs);
    SortedProper(fs);
    var parts := SerializeFields(sorted, state, depth, nfc);
    if parts.None? {
      return None;
    }
    RecordText(fs, parts.value);
    return Some([G.OPEN_BRACE] + Join(parts.value) + [G.CLOSE_BRACE]);
  }

  lemma SortedProper(fs: seq<Field>)
    requires Proper(Record(fs))
    ensures forall i :: 0 <= i < |SortFields(fs)| ==> Proper(SortFields(fs)[i].value)
  {
    var sorted := SortFields(fs);
    SortFieldsMembers(fs);
    forall i | 0 <= i < |sorted| ensures Proper(sorted[i].value) {
      assert sorted[i] in fs;
    }
  }

  /**
   * Succeeds exactly on accepted values, whatever node makes it fail, and then returns the canonical text
   * and has counted every node once.
   */
  method SerializeValue(value: Data, state: CanonicalState, depth: nat, nfc: Text -> bool)
    returns (r: Option<Text>)
    requires Proper(value)
    modifies state
    ensures r.Some? <==> Accepted(value, depth, old(state.nodes), nfc)
    ensures r.Some? ==> r.value == CanonicalText(value) && state.nodes == old(state.nodes) + Count(value)
    decreases Count(value), 0
  {
    state.nodes := state.nodes + 1;
    if depth > MAX_DEPTH || state.nodes > MAX_NODES {
      return None;
    }
    match value
    case Null => return Some(G.NULL);
    case Bool(on) => return Some(if on then G.TRUE else G.FALSE);
    case Str(text) =>
      var canonical := AssertCanonicalString(text, nfc);
      return if canonical then Some(Quoted(text)) else None;
    case Num(number) =>
      return if SafeInteger(number) then Some(Lexeme(number.n)) else None;
    case List(items) =>
      r := SerializeArray(items, state, depth, nfc);
    case Record(fs) =>
      r := SerializeObject(fs, state, depth, nfc);
    case Unsupported => return None;
  }

  method CanonicalSerialize(value: Data, nfc: Text -> bool) returns (r: Option<Text>)
    requires Proper(value)
    ensures r.Some? <==> Accepted(value, 0, 0, nfc)
    ensures r.Some? ==> r.value == CanonicalText(value)
  {
    var state := new CanonicalState();
    r := SerializeValue(value, state, 0, nfc);
  }

  /** The UTF-8 octets of the canonical text. */
  method CanonicalBytes(value: Data, nfc: Text -> bool) returns (r: Option<seq<Byte>>)
    requires Proper(value)
    ensures r.Some? <==> Accepted(value, 0, 0, nfc)
    ensures r.Some? ==> WellFormed(CanonicalText(value)) && r.value == Octets(CanonicalText(value))
  {
    var canonical := CanonicalSerialize(value, nfc);
    if canonical.None? {
      return None;
    }
    CanonicalTextWellFormed(value, nfc);
    var bytes := EncodeText(canonical.value);
    return Some(bytes);
  }
}
