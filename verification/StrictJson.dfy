/** The hand-written duplicate-key scanner in front of JSON.parse. */
module StrictJson {
  import opened Text
  import opened JsonGrammar
  import opened JsonReader
  import opened JsonParser

  // ---------- What the scanner computes, as recursion ----------

  /** The skip loop of scanJsonString: the position of the first quotation mark that no backslash skips over. */
  function FindQuote(input: Text, i: nat): (r: Option<nat>)
    ensures r.Some? ==> i <= r.value < |input|
    decreases |input| - i
  {
    if i >= |input| then None
    else if input[i] == QUOTE then Some(i)
    else if input[i] == BACKSLASH then FindQuote(input, i + (if Has(input, i + 1, LETTER_U) then 6 else 2))
    else FindQuote(input, i + 1)
  }

  /** JSON.parse of a slice that should be one string literal. */
  function ParseLiteral(slice: Text): Option<Text> {
    match ReadString(slice, 0)
    case None => None
    case Some((ps, end)) =>
      ReadStringSound(slice, 0);
      if end == |slice| then Some(Decode(ps)) else None
  }

  function ScanString(input: Text, start: nat): (r: Option<(nat, Text)>)
    ensures r.Some? ==> start < r.value.0 <= |input|
  {
    if !Has(input, start, QUOTE) then None
    else
      match FindQuote(input, start + 1)
      case None => None
      case Some(q) =>
        match ParseLiteral(input[start..q + 1])
        case None => None
        case Some(value) => Some((q + 1, value))
  }

  function ScanValue(input: Text, start: nat): (r: Option<nat>)
    requires start <= |input|
    ensures r.Some? ==> start < r.value <= |input|
    decreases |input| - start, 1
  {
    var index := Skip(input, start);
    if Has(input, index, OPEN_BRACE) then
      var first := Skip(input, index + 1);
      if Has(input, first, CLOSE_BRACE) then Some(first + 1) else ScanMembers(input, first, {})
    else if Has(input, index, OPEN_BRACKET) then
      var first := Skip(input, index + 1);
      if Has(input, first, CLOSE_BRACKET) then Some(first + 1) else ScanElements(input, first)
    else if Has(input, index, QUOTE) then
      match ScanString(input, index)
      case None => None
      case Some((end, _)) => Some(end)
    else
      var end := PrimitiveEnd(input, index);
      if end == index then None else Some(end)
  }

  /** How one turn of the member loop ends. */
  datatype Turn = Reject | Done(end: nat) | Again(next: nat, key: Text)

  /** One turn of the member loop, at a member name, with the names seen so far. */
  function MemberTurn(input: Text, index: nat, keys: set<Text>): (t: Turn)
    requires index <= |input|
    ensures t.Done? ==> index < t.end <= |input|
    ensures t.Again? ==> index < t.next <= |input|
    decreases |input| - index, 2
  {
    match ScanString(input, index)
    case None => Reject
    case Some((end, key)) =>
      if key in keys then Reject
      else
        var colon := Skip(input, end);
        if !Has(input, colon, COLON) then Reject
        else
          match ScanValue(input, colon + 1)
          case None => Reject
          case Some(v) =>
            var next := Skip(input, v);
            if Has(input, next, CLOSE_BRACE) then Done(next + 1)
            else if !Has(input, next, COMMA) then Reject
            else Again(Skip(input, next + 1), key)
  }

  function ScanMembers(input: Text, index: nat, keys: set<Text>): (r: Option<nat>)
    requires index <= |input|
    ensures r.Some? ==> index < r.value <= |input|
    decreases |input| - index, 3
  {
    match MemberTurn(input, index, keys)
    case Reject => None
    case Done(end) => Some(end)
    case Again(next, key) => ScanMembers(input, next, keys + {key})
  }

  /** The element loop, at an element. */
  function ScanElements(input: Text, index: nat): (r: Option<nat>)
    requires index <= |input|
    ensures r.Some? ==> index < r.value <= |input|
    decreases |input| - index, 2
  {
    match ScanValue(input, index)
    case None => None
    case Some(v) =>
      var next := Skip(input, v);
      if Has(input, next, CLOSE_BRACKET) then Some(next + 1)
      else if !Has(input, next, COMMA) then None
      else ScanElements(input, Skip(input, next + 1))
  }

  // ---------- The source's loops ----------

  method SkipJsonWhitespace(input: Text, start: nat) returns (index: nat)
    requires start <= |input|
    ensures index == Skip(input, start)
  {
    index := start;
    while index < |input| && IsSpace(input[index])
      invariant index <= |input|
      invariant Skip(input, index) == Skip(input, start)
    {
      index := index + 1;
    }
  }

  method ScanJsonString(input: Text, start: nat) returns (r: Option<(nat, Text)>)
    ensures r == ScanString(input, start)
  {
    if !Has(input, start, QUOTE) { return None; }
    var index := start + 1;
    while index < |input|
      invariant FindQuote(input, index) == FindQuote(input, start + 1)
    {
      var character := input[index];
      if character == QUOTE {
        var end := index + 1;
        var value := ParseLiteral(input[start..end]);
        return if value.Some? then Some((end, value.value)) else None;
      }
      if character == BACKSLASH {
        index := index + (if Has(input, index + 1, LETTER_U) then 6 else 2);
      } else {
        index := index + 1;
      }
    }
    r := None;
  }

  method ScanJsonValue(input: Text, start: nat) returns (r: Option<nat>)
    requires start <= |input|
    ensures r == ScanValue(input, start)
    decreases |input| - start, 1
  {
    var index := SkipJsonWhitespace(input, start);
    if Has(input, index, OPEN_BRACE) {
      index := SkipJsonWhitespace(input, index + 1);
      if Has(input, index, CLOSE_BRACE) { return Some(index + 1); }
      r := ScanJsonMembers(input, index);
      return;
    }
    if Has(input, index, OPEN_BRACKET) {
      index := SkipJsonWhitespace(input, index + 1);
      if Has(input, index, CLOSE_BRACKET) { return Some(index + 1); }
      r := ScanJsonElements(input, index);
      return;
    }
    if Has(input, index, QUOTE) {
      var literal := ScanJsonString(input, index);
      return if literal.Some? then Some(literal.value.0) else None;
    }
    var primitiveStart := index;
    while index < |input| && !IsDelimiter(input[index])
      invariant primitiveStart <= index <= |input|
      invariant PrimitiveEnd(input, index) == PrimitiveEnd(input, primitiveStart)
    {
      index := index + 1;
    }
    r := if index == primitiveStart then None else Some(index);
  }

  /** The member loop of scanJsonValue, with its growing set of names. */
  method ScanJsonMembers(input: Text, first: nat) returns (r: Option<nat>)
    requires first <= |input|
    ensures r == ScanMembers(input, first, {})
    decreases |input| - first, 3
  {
    var index := first;
    var keys: set<Text> := {};
    while index < |input|
      invariant first <= index <= |input|
      invariant ScanMembers(input, index, keys) == ScanMembers(input, first, {})
      decreases |input| - index
    {
      var turn := ScanJsonMember(input, index, keys);
      if turn.Reject? { return None; }
      if turn.Done? { return Some(turn.end); }
      keys := keys + {turn.key};
      index := turn.next;
    }
    r := None;
  }

  /** The body of the member loop. */
  method ScanJsonMember(input: Text, index: nat, keys: set<Text>) returns (turn: Turn)
    requires index <= |input|
    ensures turn == MemberTurn(input, index, keys)
    decreases |input| - index, 2
  {
    var key := ScanJsonString(input, index);
    if key.None? || key.value.1 in keys { return Reject; }
    var colon := SkipJsonWhitespace(input, key.value.0);
    if !Has(input, colon, COLON) { return Reject; }
    var end := ScanJsonValue(input, colon + 1);
    if end.None? { return Reject; }
    var next := SkipJsonWhitespace(input, end.value);
    if Has(input, next, CLOSE_BRACE) { return Done(next + 1); }
    if !Has(input, next, COMMA) { return Reject; }
    var again := SkipJsonWhitespace(input, next + 1);
    turn := Again(again, key.value.1);
  }

  /** The element loop of scanJsonValue. */
  method ScanJsonElements(input: Text, first: nat) returns (r: Option<nat>)
    requires first <= |input|
    ensures r == ScanElements(input, first)
    decreases |input| - first, 2
  {
    var index := first;
    while index < |input|
      invariant first <= index <= |input|
      invariant ScanElements(input, index) == ScanElements(input, first)
      decreases |input| - index
    {
      var end := ScanJsonValue(input, index);
      if end.None? { return None; }
      var next := SkipJsonWhitespace(input, end.value);
      if Has(input, next, CLOSE_BRACKET) { return Some(next + 1); }
      if !Has(input, next, COMMA) { return None; }
      index := SkipJsonWhitespace(input, next + 1);
    }
    r := None;
  }

  // ---------- The scanner on printed trees ----------

  lemma {:induction false} FindQuotePrinted(input: Text, i: nat, ps: seq<Piece>)
    requires ValidPieces(ps) && At(input, i, PrintPieces(ps)) && Has(input, i + |PrintPieces(ps)|, QUOTE)
    ensures FindQuote(input, i) == Some(i + |PrintPieces(ps)|)
    decreases |ps|
  {
    if ps != [] {
      var p, rest := ps[0], ps[1..];
      AtSplit(input, i, p.Print(), PrintPieces(rest));
      FindQuotePrinted(input, i + |p.Print()|, rest);
      FindQuoteStep(input, i, p);
    }
  }

  /** The skip distances are exactly the lengths of the escapes. */
  lemma FindQuoteStep(input: Text, i: nat, p: Piece)
    requires p.Valid() && At(input, i, p.Print())
    ensures FindQuote(input, i) == FindQuote(input, i + |p.Print()|)
  {
    AtIndex(input, i, p.Print(), 0);
    if !p.Plain? {
      AtIndex(input, i, p.Print(), 1);
    }
  }

  lemma ScanStringPrinted(input: Text, i: nat, ps: seq<Piece>)
    requires ValidPieces(ps) && At(input, i, PrintString(ps))
    ensures ScanString(input, i) == Some((i + |PrintString(ps)|, Decode(ps)))
  {
    StringParts(input, i, ps);
    FindQuotePrinted(input, i + 1, ps);
    var slice := PrintString(ps);
    assert slice[0..|slice|] == slice;
    ReadStringPrinted(slice, 0, ps);
  }

  /** The scan of one printed element, white space in front included, from start to end. */
  ghost predicate Scanned(input: Text, i: nat, unique: bool, end: nat) {
    && i <= |input|
    && match ScanValue(input, i)
       case None => !unique
       case Some(v) => unique && Skip(input, v) == end
  }

  lemma {:induction false} ScanElementPrinted(input: Text, i: nat, e: Element, end: nat)
    requires ElementAt(input, i, e, end) && Stops(input, end)
    ensures Scanned(input, i, UniqueElement(e), end)
    decreases e, 1
  {
    assert ValidElement(e) && ValidValue(e.value);
    var b, k := ElementParts(input, i, e);
    if e.value.Object? {
      ScanObjectPrinted(input, b, e.value.members, k);
      ScanObjectStep(input, i, b, e.value.members, k);
    } else if e.value.Array? {
      ScanArrayPrinted(input, b, e.value.elements, k);
      ScanArrayStep(input, i, b, e.value.elements, k);
    } else {
      ScanSimplePrinted(input, i, b, e.value, k);
    }
  }

  lemma ScanObjectStep(input: Text, i: nat, b: nat, ms: Members, k: nat)
    requires ValidMembers(ms) && i <= |input| && Skip(input, i) == b && Has(input, b, OPEN_BRACE)
    requires !Has(input, Skip(input, b + 1), CLOSE_BRACE)
    requires ScanMembers(input, Skip(input, b + 1), {}) == if NoRepeats(Names(ms)) && UniqueMembers(ms) then Some(k) else None
    ensures ScanValue(input, i) == if UniqueValue(Object(ms)) then Some(k) else None
  {
  }

  lemma ScanArrayStep(input: Text, i: nat, b: nat, es: Elements, k: nat)
    requires ValidElements(es) && i <= |input| && Skip(input, i) == b && Has(input, b, OPEN_BRACKET)
    requires !Has(input, Skip(input, b + 1), CLOSE_BRACKET)
    requires ScanElements(input, Skip(input, b + 1)) == if UniqueElements(es) then Some(k) else None
    ensures ScanValue(input, i) == if UniqueValue(Array(es)) then Some(k) else None
  {
  }

  lemma ScanSimplePrinted(input: Text, i: nat, b: nat, v: Value, k: nat)
    requires ValidValue(v) && !v.Object? && !v.Array?
    requires i <= |input| && Skip(input, i) == b && At(input, b, PrintValue(v)) && k == b + |PrintValue(v)| && Ends(input, k)
    ensures ScanValue(input, i) == Some(k)
  {
    if v.EmptyObject? {
      ScanEmptyObject(input, i, b, v.space, k);
    } else if v.EmptyArray? {
      ScanEmptyArray(input, i, b, v.space, k);
    } else if v.String? {
      ScanStringValue(input, i, b, v.pieces, k);
    } else {
      PrimitiveShape(v);
      AtIndex(input, b, PrintValue(v), 0);
      PrimitiveEndPrinted(input, b, PrintValue(v));
    }
  }

  lemma ScanEmptyObject(input: Text, i: nat, b: nat, s: Text, k: nat)
    requires IsSpaces(s) && i <= |input| && Skip(input, i) == b
    requires At(input, b, PrintValue(EmptyObject(s))) && k == b + |PrintValue(EmptyObject(s))|
    ensures ScanValue(input, i) == Some(k)
  {
    EmptyObjectAt(input, b, s);
    SkipPrinted(input, b + 1, s);
  }

  lemma ScanEmptyArray(input: Text, i: nat, b: nat, s: Text, k: nat)
    requires IsSpaces(s) && i <= |input| && Skip(input, i) == b
    requires At(input, b, PrintValue(EmptyArray(s))) && k == b + |PrintValue(EmptyArray(s))|
    ensures ScanValue(input, i) == Some(k)
  {
    EmptyArrayAt(input, b, s);
    SkipPrinted(input, b + 1, s);
  }

  lemma ScanStringValue(input: Text, i: nat, b: nat, ps: seq<Piece>, k: nat)
    requires ValidPieces(ps) && i <= |input| && Skip(input, i) == b
    requires At(input, b, PrintString(ps)) && k == b + |PrintString(ps)|
    ensures ScanValue(input, i) == Some(k)
  {
    StringParts(input, b, ps);
    ScanStringPrinted(input, b, ps);
  }

  lemma {:induction false} ScanArrayPrinted(input: Text, b: nat, es: Elements, k: nat)
    requires ValidElements(es) && At(input, b, PrintValue(Array(es))) && k == b + |PrintValue(Array(es))|
    ensures Has(input, b, OPEN_BRACKET) && !Has(input, Skip(input, b + 1), CLOSE_BRACKET)
    ensures ScanElements(input, Skip(input, b + 1)) == if UniqueElements(es) then Some(k) else None
    decreases es, 3
  {
    ArrayAt(input, b, es);
    ElementsStart(input, b + 1, es, k - 1);
    ScanElementsPrinted(input, b + 1, es, k - 1);
  }

  /** Scanning from the list's own start or from after its leading white space is the same. */
  lemma SkipTwice(input: Text, i: nat)
    requires i <= |input|
    ensures Skip(input, Skip(input, i)) == Skip(input, i)
  {
    SkipSound(input, i);
  }

  lemma ScanValueAfterSkip(input: Text, i: nat)
    requires i <= |input|
    ensures ScanValue(input, Skip(input, i)) == ScanValue(input, i)
  {
    SkipTwice(input, i);
  }

  lemma ScanElementsLast(input: Text, i: nat, unique: bool, end: nat)
    requires Scanned(input, i, unique, end) && Has(input, end, CLOSE_BRACKET)
    ensures ScanElements(input, Skip(input, i)) == if unique then Some(end + 1) else None
  {
    ScanValueAfterSkip(input, i);
  }

  lemma ScanElementsNext(input: Text, i: nat, unique: bool, j: nat)
    requires Scanned(input, i, unique, j) && Has(input, j, COMMA)
    ensures ScanElements(input, Skip(input, i)) == if unique then ScanElements(input, Skip(input, j + 1)) else None
  {
    ScanValueAfterSkip(input, i);
  }

  lemma {:induction false} LastElementPrinted(input: Text, i: nat, e: Element, end: nat)
    requires ElementAt(input, i, e, end) && Has(input, end, CLOSE_BRACKET)
    ensures i <= |input| && ScanElements(input, Skip(input, i)) == if UniqueElement(e) then Some(end + 1) else None
    decreases e, 3
  {
    ScanElementPrinted(input, i, e, end);
    ScanElementsLast(input, i, UniqueElement(e), end);
  }

  lemma {:induction false} FirstElementPrinted(input: Text, i: nat, e: Element, end: nat)
    requires ElementAt(input, i, e, end) && Has(input, end, COMMA)
    ensures i <= |input| && end + 1 <= |input|
    ensures ScanElements(input, Skip(input, i)) == if UniqueElement(e) then ScanElements(input, Skip(input, end + 1)) else None
    decreases e, 3
  {
    ScanElementPrinted(input, i, e, end);
    ScanElementsNext(input, i, UniqueElement(e), end);
  }

  lemma {:induction false} ScanElementsPrinted(input: Text, i: nat, es: Elements, end: nat)
    requires ElementsAt(input, i, es, end)
    ensures i <= |input| && ScanElements(input, Skip(input, i)) == if UniqueElements(es) then Some(end + 1) else None
    decreases es, 2
  {
    match es {
      case One(e) =>
        LastElementPrinted(input, i, e, end);
      case More(e, rest) =>
        var j := FirstElementAt(input, i, e, rest, end);
        FirstElementPrinted(input, i, e, j);
        ScanElementsPrinted(input, j + 1, rest, end);
    }
  }

  lemma {:induction false} ScanObjectPrinted(input: Text, b: nat, ms: Members, k: nat)
    requires ValidMembers(ms) && At(input, b, PrintValue(Object(ms))) && k == b + |PrintValue(Object(ms))|
    ensures Has(input, b, OPEN_BRACE) && !Has(input, Skip(input, b + 1), CLOSE_BRACE)
    ensures ScanMembers(input, Skip(input, b + 1), {}) == if NoRepeats(Names(ms)) && UniqueMembers(ms) then Some(k) else None
    decreases ms, 3
  {
    ObjectAt(input, b, ms);
    MembersStart(input, b + 1, ms, k - 1);
    ScanMembersPrinted(input, b + 1, ms, k - 1, {});
    assert Acceptable(ms, {}) <==> NoRepeats(Names(ms)) && UniqueMembers(ms);
  }

  /** None of the names repeats, and none was seen before. */
  predicate Fresh(keys: set<Text>, names: seq<Text>) {
    NoRepeats(names) && forall i :: 0 <= i < |names| ==> names[i] !in keys
  }

  lemma FreshStep(keys: set<Text>, name: Text, names: seq<Text>)
    ensures Fresh(keys, [name] + names) <==> name !in keys && Fresh(keys + {name}, names)
  {
    var all := [name] + names;
    assert all[0] == name && forall i :: 0 <= i < |names| ==> all[i + 1] == names[i];
    if Fresh(keys, all) {
      forall i, j | 0 <= i < j < |names| ensures names[i] != names[j] {
        assert all[i + 1] != all[j + 1];
      }
      forall i | 0 <= i < |names| ensures names[i] !in keys + {name} {
        assert all[0] != all[i + 1] && all[i + 1] !in keys;
      }
    }
  }

  lemma ScanMemberHead(input: Text, i: nat, m: Member, end: nat) returns (k: nat, colon: nat)
    requires MemberAt(input, i, m, end)
    ensures i <= |input| && ScanString(input, Skip(input, i)) == Some((k, Decode(m.name)))
    ensures k <= |input| && Skip(input, k) == colon && Has(input, colon, COLON)
    ensures ElementAt(input, colon + 1, m.element, end)
  {
    var b, k', a := MemberParts(input, i, m, end);
    k, colon := k', a;
    ScanStringPrinted(input, b, m.name);
  }

  /** One turn of the member loop on a printed member. */
  lemma {:induction false} ScanMemberPrinted(input: Text, i: nat, m: Member, end: nat) returns (k: nat, colon: nat)
    requires MemberAt(input, i, m, end) && Stops(input, end)
    ensures i <= |input| && ScanString(input, Skip(input, i)) == Some((k, Decode(m.name)))
    ensures k <= |input| && Skip(input, k) == colon && Has(input, colon, COLON)
    ensures Scanned(input, colon + 1, UniqueElement(m.element), end)
    decreases m, 2
  {
    k, colon := ScanMemberHead(input, i, m, end);
    ScanElementPrinted(input, colon + 1, m.element, end);
  }

  lemma MemberTurnPrinted(input: Text, i: nat, k: nat, name: Text, colon: nat, unique: bool, end: nat, keys: set<Text>)
    requires i <= |input| && ScanString(input, i) == Some((k, name)) && Skip(input, k) == colon && Has(input, colon, COLON)
    requires Scanned(input, colon + 1, unique, end)
    ensures name in keys || !unique ==> MemberTurn(input, i, keys) == Reject
    ensures name !in keys && unique && Has(input, end, CLOSE_BRACE) ==> MemberTurn(input, i, keys) == Done(end + 1)
    ensures name !in keys && unique && Has(input, end, COMMA) ==>
              end + 1 <= |input| && MemberTurn(input, i, keys) == Again(Skip(input, end + 1), name)
  {
  }

  /** The members from here on are acceptable after the names in keys. */
  predicate Acceptable(ms: Members, keys: set<Text>)
    requires ValidMembers(ms)
  {
    Fresh(keys, Names(ms)) && UniqueMembers(ms)
  }

  lemma AcceptableOne(m: Member, keys: set<Text>)
    requires ValidMember(m)
    ensures Acceptable(OneMember(m), keys) <==> Decode(m.name) !in keys && UniqueElement(m.element)
  {
    FreshStep(keys, Decode(m.name), []);
    assert Names(OneMember(m)) == [Decode(m.name)] + [];
  }

  lemma AcceptableMore(m: Member, rest: Members, keys: set<Text>)
    requires ValidMember(m) && ValidMembers(rest)
    ensures ValidMembers(MoreMembers(m, rest))
    ensures Acceptable(MoreMembers(m, rest), keys) <==>
              Decode(m.name) !in keys && UniqueElement(m.element) && Acceptable(rest, keys + {Decode(m.name)})
  {
    FreshStep(keys, Decode(m.name), Names(rest));
  }

  lemma ScanMembersTurn(input: Text, i: nat, keys: set<Text>)
    requires i <= |input|
    ensures ScanMembers(input, i, keys) ==
              match MemberTurn(input, i, keys)
              case Reject => None
              case Done(end) => Some(end)
              case Again(next, key) => ScanMembers(input, next, keys + {key})
  {
  }

  lemma ScanMembersLast(input: Text, i: nat, k: nat, name: Text, colon: nat, unique: bool, end: nat, keys: set<Text>)
    requires i <= |input| && ScanString(input, i) == Some((k, name)) && Skip(input, k) == colon && Has(input, colon, COLON)
    requires Scanned(input, colon + 1, unique, end) && Has(input, end, CLOSE_BRACE)
    ensures ScanMembers(input, i, keys) == if name !in keys && unique then Some(end + 1) else None
  {
    MemberTurnPrinted(input, i, k, name, colon, unique, end, keys);
    ScanMembersTurn(input, i, keys);
  }

  lemma ScanMembersNext(input: Text, i: nat, k: nat, name: Text, colon: nat, unique: bool, end: nat, keys: set<Text>)
    requires i <= |input| && ScanString(input, i) == Some((k, name)) && Skip(input, k) == colon && Has(input, colon, COLON)
    requires Scanned(input, colon + 1, unique, end) && Has(input, end, COMMA)
    ensures end + 1 <= |input|
    ensures ScanMembers(input, i, keys) ==
              if name !in keys && unique then ScanMembers(input, Skip(input, end + 1), keys + {name}) else None
  {
    MemberTurnPrinted(input, i, k, name, colon, unique, end, keys);
    ScanMembersTurn(input, i, keys);
  }

  lemma {:induction false} LastMemberPrinted(input: Text, i: nat, m: Member, end: nat, keys: set<Text>)
    requires MemberAt(input, i, m, end) && Has(input, end, CLOSE_BRACE)
    ensures i <= |input|
    ensures ScanMembers(input, Skip(input, i), keys) == if Acceptable(OneMember(m), keys) then Some(end + 1) else None
    decreases m, 3
  {
    var k, colon := ScanMemberPrinted(input, i, m, end);
    ScanMembersLast(input, Skip(input, i), k, Decode(m.name), colon, UniqueElement(m.element), end, keys);
    AcceptableOne(m, keys);
  }

  lemma {:induction false} FirstMemberPrinted(input: Text, i: nat, m: Member, end: nat, keys: set<Text>)
    requires MemberAt(input, i, m, end) && Has(input, end, COMMA)
    ensures i <= |input| && end + 1 <= |input|
    ensures ScanMembers(input, Skip(input, i), keys) ==
              if Decode(m.name) !in keys && UniqueElement(m.element)
              then ScanMembers(input, Skip(input, end + 1), keys + {Decode(m.name)}) else None
    decreases m, 3
  {
    var k, colon := ScanMemberPrinted(input, i, m, end);
    ScanMembersNext(input, Skip(input, i), k, Decode(m.name), colon, UniqueElement(m.element), end, keys);
  }

  lemma {:induction false} ScanMembersPrinted(input: Text, i: nat, ms: Members, end: nat, keys: set<Text>)
    requires MembersAt(input, i, ms, end)
    ensures i <= |input|
    ensures ScanMembers(input, Skip(input, i), keys) == if Acceptable(ms, keys) then Some(end + 1) else None
    decreases ms, 2
  {
    match ms {
      case OneMember(m) =>
        LastMemberPrinted(input, i, m, end, keys);
      case MoreMembers(m, rest) =>
        var j := FirstMemberAt(input, i, m, rest, end);
        FirstMemberPrinted(input, i, m, j, keys);
        ScanMembersPrinted(input, j + 1, rest, end, keys + {Decode(m.name)});
        AcceptableMore(m, rest, keys);
    }
  }

  // ---------- Main result ----------

  /** A tree whose text parseStrictJson accepts. */
  ghost predicate StrictTree(e: Element, input: Text) {
    ValidElement(e) && PrintElement(e) == input && UniqueElement(e)
  }

  /**
   * parseStrictJson: it returns a tree exactly when the text is valid JSON whose objects never repeat
   * a decoded member name, and then the tree is the one JSON.parse gives.
   */
  method ParseStrictJson(input: Text) returns (r: Option<Element>)
    ensures forall e :: r == Some(e) <==> StrictTree(e, input)
    ensures r.Some? ==> JsonParse(input) == r
  {
    StrictParse(input);
    var value := ScanJsonValue(input, 0);
    if value.None? { return None; }
    var end := SkipJsonWhitespace(input, value.value);
    if end != |input| { return None; }
    r := JsonParse(input);
  }

  /** The scan and the parser together, as a function. */
  function Strict(input: Text): Option<Element> {
    match ScanValue(input, 0)
    case None => None
    case Some(v) => if Skip(input, v) != |input| then None else JsonParse(input)
  }

  /** Accepted texts are the JSON texts none of whose trees repeats a name, and there is one tree only. */
  lemma StrictParse(input: Text)
    ensures forall e :: Strict(input) == Some(e) <==> StrictTree(e, input)
    ensures Strict(input).Some? <==> IsJson(input) && forall e :: ValidElement(e) && PrintElement(e) == input ==> UniqueElement(e)
  {
    forall e ensures Strict(input) == Some(e) <==> StrictTree(e, input) {
      StrictParseTree(input, e);
    }
    forall e, f | ValidElement(e) && PrintElement(e) == input && ValidElement(f) && PrintElement(f) == input ensures e == f {
      JsonParseExact(input, e);
      JsonParseExact(input, f);
    }
    if IsJson(input) {
      var e :| ValidElement(e) && PrintElement(e) == input;
      assert StrictTree(e, input) <==> UniqueElement(e);
    }
  }

  lemma StrictParseTree(input: Text, e: Element)
    ensures Strict(input) == Some(e) <==> StrictTree(e, input)
  {
    JsonParseExact(input, e);
    if ValidElement(e) && PrintElement(e) == input {
      assert input[0..|input|] == input;
      ScanElementPrinted(input, 0, e, |input|);
    }
  }

  /** On valid JSON the scanner always consumes the whole text; it fails only on a repeated name. */
  lemma ScannerConsumesValidText(input: Text, e: Element)
    requires ValidElement(e) && PrintElement(e) == input
    ensures Scanned(input, 0, UniqueElement(e), |input|)
  {
    assert input[0..|input|] == input;
    ScanElementPrinted(input, 0, e, |input|);
  }
}
