/** JSON.parse on whole values: the reader accepts exactly the printed trees, and each text has one tree. */
module JsonParser {
  import opened Text
  import opened JsonGrammar
  import opened JsonReader

  // ---------- The reader ----------

  function ReadValue(input: Text, i: nat): (r: Option<(Value, nat)>)
    requires i <= |input|
    ensures r.Some? ==> i < r.value.1 <= |input|
    decreases |input| - i, 1
  {
    if Has(input, i, OPEN_BRACE) then
      var j := Skip(input, i + 1);
      if Has(input, j, CLOSE_BRACE) then Some((EmptyObject(input[i + 1..j]), j + 1))
      else
        match ReadMembers(input, i + 1)
        case None => None
        case Some((ms, k)) => if Has(input, k, CLOSE_BRACE) then Some((Object(ms), k + 1)) else None
    else if Has(input, i, OPEN_BRACKET) then
      var j := Skip(input, i + 1);
      if Has(input, j, CLOSE_BRACKET) then Some((EmptyArray(input[i + 1..j]), j + 1))
      else
        match ReadElements(input, i + 1)
        case None => None
        case Some((es, k)) => if Has(input, k, CLOSE_BRACKET) then Some((Array(es), k + 1)) else None
    else if Has(input, i, QUOTE) then
      match ReadString(input, i)
      case None => None
      case Some((ps, k)) => Some((String(ps), k))
    else
      var k := PrimitiveEnd(input, i);
      if k == i then None
      else
        match PrimitiveOf(input[i..k])
        case None => None
        case Some(v) => Some((v, k))
  }

  function ReadElement(input: Text, i: nat): (r: Option<(Element, nat)>)
    requires i <= |input|
    ensures r.Some? ==> i < r.value.1 <= |input|
    decreases |input| - i, 2
  {
    var b := Skip(input, i);
    match ReadValue(input, b)
    case None => None
    case Some((v, k)) =>
      var a := Skip(input, k);
      Some((Element(input[i..b], v, input[k..a]), a))
  }

  function ReadElements(input: Text, i: nat): (r: Option<(Elements, nat)>)
    requires i <= |input|
    ensures r.Some? ==> i < r.value.1 <= |input|
    decreases |input| - i, 3
  {
    match ReadElement(input, i)
    case None => None
    case Some((e, j)) =>
      if Has(input, j, COMMA) then
        match ReadElements(input, j + 1)
        case None => None
        case Some((rest, k)) => Some((More(e, rest), k))
      else Some((One(e), j))
  }

  function ReadMember(input: Text, i: nat): (r: Option<(Member, nat)>)
    requires i <= |input|
    ensures r.Some? ==> i < r.value.1 <= |input|
    decreases |input| - i, 2
  {
    var b := Skip(input, i);
    match ReadString(input, b)
    case None => None
    case Some((ps, k)) =>
      var a := Skip(input, k);
      if !Has(input, a, COLON) then None
      else
        match ReadElement(input, a + 1)
        case None => None
        case Some((e, j)) => Some((Member(input[i..b], ps, input[k..a], e), j))
  }

  function ReadMembers(input: Text, i: nat): (r: Option<(Members, nat)>)
    requires i <= |input|
    ensures r.Some? ==> i < r.value.1 <= |input|
    decreases |input| - i, 3
  {
    match ReadMember(input, i)
    case None => None
    case Some((m, j)) =>
      if Has(input, j, COMMA) then
        match ReadMembers(input, j + 1)
        case None => None
        case Some((rest, k)) => Some((MoreMembers(m, rest), k))
      else Some((OneMember(m), j))
  }

  /** JSON.parse: the whole text is one element. */
  function JsonParse(input: Text): Option<Element> {
    match ReadElement(input, 0)
    case Some((e, end)) => if end == |input| then Some(e) else None
    case None => None
  }

  // ---------- Soundness: what is read was printed there ----------

  lemma AtSlice(input: Text, i: nat, j: nat)
    requires i <= j <= |input|
    ensures At(input, i, input[i..j]) && |input[i..j]| == j - i
  {
  }

  /** open + body + close stands at i. */
  lemma Bracketed(input: Text, i: nat, open: CodeUnit, body: Text, close: CodeUnit)
    ensures At(input, i, [open] + body + [close]) <==>
              Has(input, i, open) && At(input, i + 1, body) && Has(input, i + 1 + |body|, close)
  {
    AtSplit(input, i, [open] + body, [close]);
    AtSplit(input, i, [open], body);
    AtUnit(input, i, open);
    AtUnit(input, i + 1 + |body|, close);
  }

  /** a + separator + b stands at i. */
  lemma Separated(input: Text, i: nat, a: Text, separator: CodeUnit, b: Text)
    ensures At(input, i, a + [separator] + b) <==>
              At(input, i, a) && Has(input, i + |a|, separator) && At(input, i + |a| + 1, b)
  {
    AtSplit(input, i, a + [separator], b);
    AtSplit(input, i, a, [separator]);
    AtUnit(input, i + |a|, separator);
  }

  lemma ThreeParts(input: Text, i: nat, a: Text, b: Text, c: Text)
    ensures At(input, i, a + b + c) <==>
              At(input, i, a) && At(input, i + |a|, b) && At(input, i + |a| + |b|, c)
  {
    AtSplit(input, i, a + b, c);
    AtSplit(input, i, a, b);
  }

  lemma EmptyObjectAt(input: Text, i: nat, s: Text)
    ensures |PrintValue(EmptyObject(s))| == |s| + 2
    ensures At(input, i, PrintValue(EmptyObject(s))) <==>
              Has(input, i, OPEN_BRACE) && At(input, i + 1, s) && Has(input, i + 1 + |s|, CLOSE_BRACE)
  {
    Bracketed(input, i, OPEN_BRACE, s, CLOSE_BRACE);
  }

  lemma EmptyArrayAt(input: Text, i: nat, s: Text)
    ensures |PrintValue(EmptyArray(s))| == |s| + 2
    ensures At(input, i, PrintValue(EmptyArray(s))) <==>
              Has(input, i, OPEN_BRACKET) && At(input, i + 1, s) && Has(input, i + 1 + |s|, CLOSE_BRACKET)
  {
    Bracketed(input, i, OPEN_BRACKET, s, CLOSE_BRACKET);
  }

  lemma ObjectAt(input: Text, i: nat, ms: Members)
    ensures |PrintValue(Object(ms))| == |PrintMembers(ms)| + 2
    ensures At(input, i, PrintValue(Object(ms))) <==>
              && Has(input, i, OPEN_BRACE) && At(input, i + 1, PrintMembers(ms))
              && Has(input, i + 1 + |PrintMembers(ms)|, CLOSE_BRACE)
  {
    Bracketed(input, i, OPEN_BRACE, PrintMembers(ms), CLOSE_BRACE);
  }

  lemma ArrayAt(input: Text, i: nat, es: Elements)
    ensures |PrintValue(Array(es))| == |PrintElements(es)| + 2
    ensures At(input, i, PrintValue(Array(es))) <==>
              && Has(input, i, OPEN_BRACKET) && At(input, i + 1, PrintElements(es))
              && Has(input, i + 1 + |PrintElements(es)|, CLOSE_BRACKET)
  {
    Bracketed(input, i, OPEN_BRACKET, PrintElements(es), CLOSE_BRACKET);
  }

  lemma MoreMembersSplit(input: Text, i: nat, m: Member, rest: Members) returns (j: nat)
    requires At(input, i, PrintMembers(MoreMembers(m, rest)))
    ensures j == i + |PrintMember(m)| && At(input, i, PrintMember(m)) && Has(input, j, COMMA)
    ensures At(input, j + 1, PrintMembers(rest)) && j + 1 + |PrintMembers(rest)| == i + |PrintMembers(MoreMembers(m, rest))|
  {
    j := i + |PrintMember(m)|;
    Separated(input, i, PrintMember(m), COMMA, PrintMembers(rest));
  }

  lemma MoreMembersJoin(input: Text, i: nat, m: Member, j: nat, rest: Members)
    requires j == i + |PrintMember(m)| && At(input, i, PrintMember(m)) && Has(input, j, COMMA)
    requires At(input, j + 1, PrintMembers(rest))
    ensures At(input, i, PrintMembers(MoreMembers(m, rest))) && j + 1 + |PrintMembers(rest)| == i + |PrintMembers(MoreMembers(m, rest))|
  {
    Separated(input, i, PrintMember(m), COMMA, PrintMembers(rest));
  }

  lemma MoreElementsSplit(input: Text, i: nat, e: Element, rest: Elements) returns (j: nat)
    requires At(input, i, PrintElements(More(e, rest)))
    ensures j == i + |PrintElement(e)| && At(input, i, PrintElement(e)) && Has(input, j, COMMA)
    ensures At(input, j + 1, PrintElements(rest)) && j + 1 + |PrintElements(rest)| == i + |PrintElements(More(e, rest))|
  {
    j := i + |PrintElement(e)|;
    Separated(input, i, PrintElement(e), COMMA, PrintElements(rest));
  }

  lemma MoreElementsJoin(input: Text, i: nat, e: Element, j: nat, rest: Elements)
    requires j == i + |PrintElement(e)| && At(input, i, PrintElement(e)) && Has(input, j, COMMA)
    requires At(input, j + 1, PrintElements(rest))
    ensures At(input, i, PrintElements(More(e, rest))) && j + 1 + |PrintElements(rest)| == i + |PrintElements(More(e, rest))|
  {
    Separated(input, i, PrintElement(e), COMMA, PrintElements(rest));
  }

  /** A printed member up to end; printed lists up to the bracket that closes them. */
  predicate MemberAt(input: Text, i: nat, m: Member, end: nat) {
    ValidMember(m) && At(input, i, PrintMember(m)) && end == i + |PrintMember(m)|
  }

  predicate MembersAt(input: Text, i: nat, ms: Members, end: nat) {
    ValidMembers(ms) && At(input, i, PrintMembers(ms)) && end == i + |PrintMembers(ms)| && Has(input, end, CLOSE_BRACE)
  }

  predicate ElementAt(input: Text, i: nat, e: Element, end: nat) {
    ValidElement(e) && At(input, i, PrintElement(e)) && end == i + |PrintElement(e)|
  }

  predicate ElementsAt(input: Text, i: nat, es: Elements, end: nat) {
    ValidElements(es) && At(input, i, PrintElements(es)) && end == i + |PrintElements(es)| && Has(input, end, CLOSE_BRACKET)
  }

  lemma FirstMemberAt(input: Text, i: nat, m: Member, rest: Members, end: nat) returns (j: nat)
    requires MembersAt(input, i, MoreMembers(m, rest), end)
    ensures MemberAt(input, i, m, j) && Has(input, j, COMMA) && MembersAt(input, j + 1, rest, end)
  {
    j := MoreMembersSplit(input, i, m, rest);
  }

  lemma FirstElementAt(input: Text, i: nat, e: Element, rest: Elements, end: nat) returns (j: nat)
    requires ElementsAt(input, i, More(e, rest), end)
    ensures ElementAt(input, i, e, j) && Has(input, j, COMMA) && ElementsAt(input, j + 1, rest, end)
  {
    j := MoreElementsSplit(input, i, e, rest);
  }

  /** How a successful read of a bracketed or simple value came about. */
  lemma ReadValueCases(input: Text, i: nat, v: Value, end: nat)
    requires i <= |input| && ReadValue(input, i) == Some((v, end))
    ensures v.Object? ==> Has(input, i, OPEN_BRACE) && ReadMembers(input, i + 1) == Some((v.members, end - 1)) && Has(input, end - 1, CLOSE_BRACE)
    ensures v.Array? ==> Has(input, i, OPEN_BRACKET) && ReadElements(input, i + 1) == Some((v.elements, end - 1))
                         && Has(input, end - 1, CLOSE_BRACKET)
    ensures v.EmptyObject? ==> Has(input, i, OPEN_BRACE) && Skip(input, i + 1) == end - 1
                               && v.space == input[i + 1..end - 1] && Has(input, end - 1, CLOSE_BRACE)
    ensures v.EmptyArray? ==> Has(input, i, OPEN_BRACKET) && Skip(input, i + 1) == end - 1
                              && v.space == input[i + 1..end - 1] && Has(input, end - 1, CLOSE_BRACKET)
    ensures v.String? ==> ReadString(input, i) == Some((v.pieces, end))
    ensures IsPrimitive(v) ==> i < end <= |input| && PrimitiveOf(input[i..end]) == Some(v)
  {
  }

  lemma ObjectJoin(input: Text, i: nat, ms: Members, end: nat)
    requires Has(input, i, OPEN_BRACE) && At(input, i + 1, PrintMembers(ms))
    requires end == i + 2 + |PrintMembers(ms)| && Has(input, end - 1, CLOSE_BRACE)
    ensures At(input, i, PrintValue(Object(ms))) && end == i + |PrintValue(Object(ms))|
  {
    ObjectAt(input, i, ms);
  }

  lemma ArrayJoin(input: Text, i: nat, es: Elements, end: nat)
    requires Has(input, i, OPEN_BRACKET) && At(input, i + 1, PrintElements(es))
    requires end == i + 2 + |PrintElements(es)| && Has(input, end - 1, CLOSE_BRACKET)
    ensures At(input, i, PrintValue(Array(es))) && end == i + |PrintValue(Array(es))|
  {
    ArrayAt(input, i, es);
  }

  lemma {:induction false} ReadValueSound(input: Text, i: nat)
    requires i <= |input| && ReadValue(input, i).Some?
    ensures var (v, end) := ReadValue(input, i).value;
            ValidValue(v) && At(input, i, PrintValue(v)) && end == i + |PrintValue(v)|
    decreases |input| - i, 1
  {
    var (v, end) := ReadValue(input, i).value;
    ReadValueCases(input, i, v, end);
    if v.Object? {
      ReadMembersSound(input, i + 1);
      ObjectJoin(input, i, v.members, end);
    } else if v.Array? {
      ReadElementsSound(input, i + 1);
      ArrayJoin(input, i, v.elements, end);
    } else {
      ReadSimpleSound(input, i, v, end);
    }
  }

  lemma EmptyObjectSound(input: Text, i: nat, end: nat)
    requires Has(input, i, OPEN_BRACE) && Skip(input, i + 1) == end - 1 && Has(input, end - 1, CLOSE_BRACE)
    ensures i + 1 <= end - 1 <= |input|
    ensures var v := EmptyObject(input[i + 1..end - 1]);
            ValidValue(v) && At(input, i, PrintValue(v)) && end == i + |PrintValue(v)|
  {
    SkipSound(input, i + 1);
    AtSlice(input, i + 1, end - 1);
    EmptyObjectAt(input, i, input[i + 1..end - 1]);
  }

  lemma EmptyArraySound(input: Text, i: nat, end: nat)
    requires Has(input, i, OPEN_BRACKET) && Skip(input, i + 1) == end - 1 && Has(input, end - 1, CLOSE_BRACKET)
    ensures i + 1 <= end - 1 <= |input|
    ensures var v := EmptyArray(input[i + 1..end - 1]);
            ValidValue(v) && At(input, i, PrintValue(v)) && end == i + |PrintValue(v)|
  {
    SkipSound(input, i + 1);
    AtSlice(input, i + 1, end - 1);
    EmptyArrayAt(input, i, input[i + 1..end - 1]);
  }

  lemma ReadSimpleSound(input: Text, i: nat, v: Value, end: nat)
    requires i <= |input| && ReadValue(input, i) == Some((v, end)) && !v.Object? && !v.Array?
    ensures ValidValue(v) && At(input, i, PrintValue(v)) && end == i + |PrintValue(v)|
  {
    ReadValueCases(input, i, v, end);
    if v.EmptyObject? {
      EmptyObjectSound(input, i, end);
    } else if v.EmptyArray? {
      EmptyArraySound(input, i, end);
    } else if v.String? {
      ReadStringSound(input, i);
    } else {
      AtSlice(input, i, end);
    }
  }

  /** Where the parts of an element lie: its value from b to k, white space around it up to end. */
  predicate Spread(input: Text, i: nat, e: Element, b: nat, k: nat, end: nat) {
    && i <= b <= k <= end <= |input| && Skip(input, i) == b && Skip(input, k) == end
    && input[i..b] == e.before && input[k..end] == e.after
  }

  lemma ReadElementCases(input: Text, i: nat, e: Element, end: nat) returns (b: nat, k: nat)
    requires i <= |input| && ReadElement(input, i) == Some((e, end))
    ensures Spread(input, i, e, b, k, end) && b < k && ReadValue(input, b) == Some((e.value, k))
  {
    b := Skip(input, i);
    k := ReadValue(input, b).value.1;
    SkipSound(input, i);
    SkipSound(input, k);
  }

  lemma ElementJoin(input: Text, i: nat, e: Element, b: nat, k: nat, end: nat)
    requires Spread(input, i, e, b, k, end)
    requires At(input, b, PrintValue(e.value)) && k == b + |PrintValue(e.value)|
    ensures At(input, i, PrintElement(e)) && end == i + |PrintElement(e)|
  {
    AtSlice(input, i, b);
    AtSlice(input, k, end);
    ThreeParts(input, i, e.before, PrintValue(e.value), e.after);
  }

  lemma {:induction false} ReadElementSound(input: Text, i: nat)
    requires i <= |input| && ReadElement(input, i).Some?
    ensures var (e, end) := ReadElement(input, i).value;
            ValidElement(e) && At(input, i, PrintElement(e)) && end == i + |PrintElement(e)|
    decreases |input| - i, 2
  {
    var (e, end) := ReadElement(input, i).value;
    var b, k := ReadElementCases(input, i, e, end);
    SkipSound(input, i);
    SkipSound(input, k);
    ReadValueSound(input, b);
    ElementJoin(input, i, e, b, k, end);
  }

  /** Either the list ends after its first element, or a comma and a shorter list follow. */
  lemma ReadElementsCases(input: Text, i: nat, es: Elements, end: nat) returns (j: nat)
    requires i <= |input| && ReadElements(input, i) == Some((es, end))
    ensures i < j <= |input|
    ensures es.One? ==> ReadElement(input, i) == Some((es.last, j)) && end == j
    ensures es.More? ==> ReadElement(input, i) == Some((es.first, j)) && Has(input, j, COMMA)
                         && ReadElements(input, j + 1) == Some((es.rest, end))
  {
    j := ReadElement(input, i).value.1;
  }

  lemma {:induction false} ReadElementsSound(input: Text, i: nat)
    requires i <= |input| && ReadElements(input, i).Some?
    ensures var (es, end) := ReadElements(input, i).value;
            ValidElements(es) && At(input, i, PrintElements(es)) && end == i + |PrintElements(es)|
    decreases |input| - i, 3
  {
    var (es, end) := ReadElements(input, i).value;
    var j := ReadElementsCases(input, i, es, end);
    ReadElementSound(input, i);
    if es.More? {
      ReadElementsSound(input, j + 1);
      MoreElementsJoin(input, i, es.first, j, es.rest);
    }
  }

  lemma FourParts(input: Text, i: nat, p: Text, q: Text, r: Text, separator: CodeUnit, t: Text)
    ensures var colon := i + |p| + |q| + |r|;
            At(input, i, p + q + r + [separator] + t) <==>
              && At(input, i, p) && At(input, i + |p|, q) && At(input, i + |p| + |q|, r)
              && Has(input, colon, separator) && At(input, colon + 1, t)
    ensures |p + q + r + [separator] + t| == |p| + |q| + |r| + 1 + |t|
  {
    Separated(input, i, p + q + r, separator, t);
    ThreeParts(input, i, p, q, r);
  }

  lemma JoinFour(input: Text, i: nat, p: Text, q: Text, r: Text, t: Text, whole: Text)
    requires whole == p + q + r + [COLON] + t
    requires At(input, i, p) && At(input, i + |p|, q) && At(input, i + |p| + |q|, r)
    requires Has(input, i + |p| + |q| + |r|, COLON) && At(input, i + |p| + |q| + |r| + 1, t)
    ensures At(input, i, whole) && |whole| == |p| + |q| + |r| + 1 + |t|
  {
    FourParts(input, i, p, q, r, COLON, t);
  }

  lemma MemberText(m: Member)
    ensures PrintMember(m) == m.before + PrintString(m.name) + m.after + [COLON] + PrintElement(m.element)
    ensures |PrintMember(m)| == |m.before| + |PrintString(m.name)| + |m.after| + 1 + |PrintElement(m.element)|
  {
  }

  lemma MemberSplit(input: Text, i: nat, m: Member) returns (b: nat, k: nat, a: nat)
    requires At(input, i, PrintMember(m))
    ensures b == i + |m.before| && k == b + |PrintString(m.name)| && a == k + |m.after|
    ensures At(input, i, m.before) && At(input, b, PrintString(m.name)) && At(input, k, m.after) && Has(input, a, COLON)
    ensures At(input, a + 1, PrintElement(m.element)) && a + 1 + |PrintElement(m.element)| == i + |PrintMember(m)|
  {
    var name, element := PrintString(m.name), PrintElement(m.element);
    MemberText(m);
    b := i + |m.before|;
    k := b + |name|;
    a := k + |m.after|;
    FourParts(input, i, m.before, name, m.after, COLON, element);
  }

  lemma MemberJoin(input: Text, i: nat, m: Member, b: nat, k: nat, a: nat)
    requires b == i + |m.before| && k == b + |PrintString(m.name)| && a == k + |m.after|
    requires At(input, i, m.before) && At(input, b, PrintString(m.name)) && At(input, k, m.after) && Has(input, a, COLON)
    requires At(input, a + 1, PrintElement(m.element))
    ensures At(input, i, PrintMember(m)) && a + 1 + |PrintElement(m.element)| == i + |PrintMember(m)|
  {
    MemberText(m);
    JoinFour(input, i, m.before, PrintString(m.name), m.after, PrintElement(m.element), PrintMember(m));
  }

  /** Where the parts of a member lie: its name at b, the white space after it at k, the colon at a. */
  predicate Laid(input: Text, i: nat, m: Member, b: nat, k: nat, a: nat) {
    && i <= b <= k <= a < |input| && Skip(input, i) == b && Skip(input, k) == a && Has(input, a, COLON)
    && input[i..b] == m.before && input[k..a] == m.after
  }

  lemma ReadMemberCases(input: Text, i: nat, m: Member, end: nat) returns (b: nat, k: nat, a: nat)
    requires i <= |input| && ReadMember(input, i) == Some((m, end))
    ensures Laid(input, i, m, b, k, a) && b < k
    ensures ReadString(input, b) == Some((m.name, k)) && ReadElement(input, a + 1) == Some((m.element, end))
  {
    b := Skip(input, i);
    k := ReadString(input, b).value.1;
    a := Skip(input, k);
    SkipSound(input, i);
    SkipSound(input, k);
  }

  lemma MemberAssembled(input: Text, i: nat, m: Member, b: nat, k: nat, a: nat, end: nat)
    requires Laid(input, i, m, b, k, a)
    requires At(input, b, PrintString(m.name)) && k == b + |PrintString(m.name)|
    requires At(input, a + 1, PrintElement(m.element)) && end == a + 1 + |PrintElement(m.element)|
    ensures At(input, i, PrintMember(m)) && end == i + |PrintMember(m)|
  {
    AtSlice(input, i, b);
    AtSlice(input, k, a);
    MemberJoin(input, i, m, b, k, a);
  }

  /** The part of a member before its colon. */
  lemma MemberFront(input: Text, i: nat, m: Member, b: nat, k: nat, a: nat)
    requires Laid(input, i, m, b, k, a) && ReadString(input, b) == Some((m.name, k))
    ensures IsSpaces(m.before) && IsSpaces(m.after)
    ensures ValidPieces(m.name) && At(input, b, PrintString(m.name)) && k == b + |PrintString(m.name)|
  {
    SkipSound(input, i);
    SkipSound(input, k);
    ReadStringSound(input, b);
  }

  /** Both parts together. */
  lemma MemberWhole(input: Text, i: nat, m: Member, b: nat, k: nat, a: nat, end: nat)
    requires Laid(input, i, m, b, k, a) && ReadString(input, b) == Some((m.name, k))
    requires ElementAt(input, a + 1, m.element, end)
    ensures MemberAt(input, i, m, end)
  {
    MemberFront(input, i, m, b, k, a);
    MemberAssembled(input, i, m, b, k, a, end);
  }

  lemma {:induction false} ReadMemberSound(input: Text, i: nat)
    requires i <= |input| && ReadMember(input, i).Some?
    ensures MemberAt(input, i, ReadMember(input, i).value.0, ReadMember(input, i).value.1)
    decreases |input| - i, 2
  {
    var (m, end) := ReadMember(input, i).value;
    var b, k, a := ReadMemberCases(input, i, m, end);
    ReadElementSound(input, a + 1);
    MemberWhole(input, i, m, b, k, a, end);
  }

  lemma ReadMembersCases(input: Text, i: nat, ms: Members, end: nat) returns (j: nat)
    requires i <= |input| && ReadMembers(input, i) == Some((ms, end))
    ensures i < j <= |input|
    ensures ms.OneMember? ==> ReadMember(input, i) == Some((ms.last, j)) && end == j
    ensures ms.MoreMembers? ==> ReadMember(input, i) == Some((ms.first, j)) && Has(input, j, COMMA)
                                && ReadMembers(input, j + 1) == Some((ms.rest, end))
  {
    j := ReadMember(input, i).value.1;
  }

  lemma MembersWhole(input: Text, i: nat, m: Member, j: nat, rest: Members, end: nat)
    requires MemberAt(input, i, m, j) && Has(input, j, COMMA)
    requires ValidMembers(rest) && At(input, j + 1, PrintMembers(rest)) && end == j + 1 + |PrintMembers(rest)|
    ensures var ms := MoreMembers(m, rest);
            ValidMembers(ms) && At(input, i, PrintMembers(ms)) && end == i + |PrintMembers(ms)|
  {
    MoreMembersJoin(input, i, m, j, rest);
  }

  lemma {:induction false} ReadMembersSound(input: Text, i: nat)
    requires i <= |input| && ReadMembers(input, i).Some?
    ensures var (ms, end) := ReadMembers(input, i).value;
            ValidMembers(ms) && At(input, i, PrintMembers(ms)) && end == i + |PrintMembers(ms)|
    decreases |input| - i, 3
  {
    var (ms, end) := ReadMembers(input, i).value;
    var j := ReadMembersCases(input, i, ms, end);
    ReadMemberSound(input, i);
    match ms
    case OneMember(_) =>
    case MoreMembers(m, rest) =>
      ReadMembersSound(input, j + 1);
      MembersWhole(input, i, m, j, rest, end);
  }

  // ---------- Completeness: what is printed is read back ----------

  /** What may follow an element: nothing, a comma or a closing bracket. */
  predicate Stops(input: Text, j: nat) {
    j <= |input| && (j < |input| ==> input[j] == COMMA || input[j] == CLOSE_BRACKET || input[j] == CLOSE_BRACE)
  }

  /** What may follow a value: also white space. */
  predicate Ends(input: Text, j: nat) {
    j <= |input| && (j < |input| ==> IsDelimiter(input[j]))
  }

  /** The first character of a value: never white space, a comma or a closing bracket. */
  lemma ValueFirst(v: Value)
    requires ValidValue(v)
    ensures PrintValue(v) != [] && !IsDelimiter(PrintValue(v)[0])
  {
    if IsPrimitive(v) {
      PrimitiveShape(v);
    }
  }

  lemma ValueAt(input: Text, i: nat, v: Value)
    requires ValidValue(v) && At(input, i, PrintValue(v))
    ensures i < |input| && !IsDelimiter(input[i])
  {
    ValueFirst(v);
    AtIndex(input, i, PrintValue(v), 0);
  }

  /** The parts of a printed element, and where white space ends around its value. */
  lemma ElementParts(input: Text, i: nat, e: Element) returns (b: nat, k: nat)
    requires ValidElement(e) && At(input, i, PrintElement(e)) && Stops(input, i + |PrintElement(e)|)
    ensures Spread(input, i, e, b, k, i + |PrintElement(e)|)
    ensures At(input, b, PrintValue(e.value)) && k == b + |PrintValue(e.value)| && Ends(input, k)
    ensures b < |input| && !IsDelimiter(input[b])
  {
    b := i + |e.before|;
    k := b + |PrintValue(e.value)|;
    ThreeParts(input, i, e.before, PrintValue(e.value), e.after);
    ValueAt(input, b, e.value);
    SkipPrinted(input, i, e.before);
    SkipPrinted(input, k, e.after);
    if e.after != [] {
      AtIndex(input, k, e.after, 0);
    }
  }

  lemma ReadObjectStep(input: Text, i: nat, ms: Members, k: nat)
    requires Has(input, i, OPEN_BRACE) && !Has(input, Skip(input, i + 1), CLOSE_BRACE)
    requires ReadMembers(input, i + 1) == Some((ms, k)) && Has(input, k, CLOSE_BRACE)
    ensures ReadValue(input, i) == Some((Object(ms), k + 1))
  {
  }

  lemma ReadArrayStep(input: Text, i: nat, es: Elements, k: nat)
    requires Has(input, i, OPEN_BRACKET) && !Has(input, Skip(input, i + 1), CLOSE_BRACKET)
    requires ReadElements(input, i + 1) == Some((es, k)) && Has(input, k, CLOSE_BRACKET)
    ensures ReadValue(input, i) == Some((Array(es), k + 1))
  {
  }

  lemma {:induction false} ReadObjectPrinted(input: Text, i: nat, ms: Members, end: nat)
    requires ValidMembers(ms) && At(input, i, PrintValue(Object(ms))) && end == i + |PrintValue(Object(ms))|
    ensures i <= |input| && ReadValue(input, i) == Some((Object(ms), end))
    decreases ms, 4
  {
    ObjectAt(input, i, ms);
    MembersStart(input, i + 1, ms, end - 1);
    ReadMembersPrinted(input, i + 1, ms, end - 1);
    ReadObjectStep(input, i, ms, end - 1);
  }

  lemma {:induction false} ReadArrayPrinted(input: Text, i: nat, es: Elements, end: nat)
    requires ValidElements(es) && At(input, i, PrintValue(Array(es))) && end == i + |PrintValue(Array(es))|
    ensures i <= |input| && ReadValue(input, i) == Some((Array(es), end))
    decreases es, 4
  {
    ArrayAt(input, i, es);
    ElementsStart(input, i + 1, es, end - 1);
    ReadElementsPrinted(input, i + 1, es, end - 1);
    ReadArrayStep(input, i, es, end - 1);
  }

  lemma {:induction false} ReadValuePrinted(input: Text, i: nat, v: Value, end: nat)
    requires ValidValue(v) && At(input, i, PrintValue(v)) && Ends(input, end)
    requires end == i + |PrintValue(v)|
    ensures i <= |input| && ReadValue(input, i) == Some((v, end))
    decreases v, 0
  {
    if v.Object? {
      ReadObjectPrinted(input, i, v.members, end);
    } else if v.Array? {
      ReadArrayPrinted(input, i, v.elements, end);
    } else {
      ReadSimplePrinted(input, i, v, end);
    }
  }

  lemma ReadSimplePrinted(input: Text, i: nat, v: Value, end: nat)
    requires !v.Object? && !v.Array?
    requires ValidValue(v) && At(input, i, PrintValue(v)) && Ends(input, end)
    requires end == i + |PrintValue(v)|
    ensures i <= |input| && ReadValue(input, i) == Some((v, end))
  {
    if v.EmptyObject? {
      EmptyObjectAt(input, i, v.space);
      SkipPrinted(input, i + 1, v.space);
    } else if v.EmptyArray? {
      EmptyArrayAt(input, i, v.space);
      SkipPrinted(input, i + 1, v.space);
    } else if v.String? {
      StringParts(input, i, v.pieces);
      ReadStringPrinted(input, i, v.pieces);
    } else {
      ReadPrimitivePrinted(input, i, v, end);
    }
  }

  lemma ReadPrimitivePrinted(input: Text, i: nat, v: Value, end: nat)
    requires ValidValue(v) && IsPrimitive(v) && At(input, i, PrintValue(v)) && Ends(input, end)
    requires end == i + |PrintValue(v)|
    ensures i <= |input| && ReadValue(input, i) == Some((v, end))
  {
    var t := PrintValue(v);
    PrimitiveShape(v);
    AtIndex(input, i, t, 0);
    PrimitiveEndPrinted(input, i, t);
  }

  lemma ReadElementStep(input: Text, i: nat, e: Element, b: nat, k: nat, end: nat)
    requires Spread(input, i, e, b, k, end) && ReadValue(input, b) == Some((e.value, k))
    ensures ReadElement(input, i) == Some((e, end))
  {
  }

  lemma {:induction false} ReadElementPrinted(input: Text, i: nat, e: Element, end: nat)
    requires ElementAt(input, i, e, end) && Stops(input, end)
    ensures i <= |input| && ReadElement(input, i) == Some((e, end))
    decreases e, 1
  {
    assert ValidElement(e);
    var b, k := ElementParts(input, i, e);
    ReadValuePrinted(input, b, e.value, k);
    ReadElementStep(input, i, e, b, k, end);
  }

  lemma ReadElementsStep(input: Text, i: nat, e: Element, j: nat, rest: Elements, k: nat)
    requires i <= |input| && ReadElement(input, i) == Some((e, j)) && Has(input, j, COMMA)
    requires ReadElements(input, j + 1) == Some((rest, k))
    ensures ReadElements(input, i) == Some((More(e, rest), k))
  {
  }

  /** The list is not empty: after its leading white space there is a value. */
  lemma ReadElementsLast(input: Text, i: nat, e: Element, j: nat)
    requires i <= |input| && ReadElement(input, i) == Some((e, j)) && !Has(input, j, COMMA)
    ensures ReadElements(input, i) == Some((One(e), j))
  {
  }

  /** A printed list does not start with the bracket that closes it. */
  lemma ElementsStart(input: Text, i: nat, es: Elements, end: nat)
    requires ElementsAt(input, i, es, end)
    ensures i <= |input| && !Has(input, Skip(input, i), CLOSE_BRACKET)
  {
    match es {
      case One(e) =>
        var b, k := ElementParts(input, i, e);
      case More(e, rest) =>
        var j := FirstElementAt(input, i, e, rest, end);
        var b, k := ElementParts(input, i, e);
    }
  }

  lemma {:induction false} ReadLastElement(input: Text, i: nat, e: Element, end: nat)
    requires ElementAt(input, i, e, end) && Has(input, end, CLOSE_BRACKET)
    ensures i <= |input| && ReadElements(input, i) == Some((One(e), end))
    decreases e, 3
  {
    ReadElementPrinted(input, i, e, end);
    ReadElementsLast(input, i, e, end);
  }

  lemma {:induction false} ReadElementsPrinted(input: Text, i: nat, es: Elements, end: nat)
    requires ElementsAt(input, i, es, end)
    ensures i <= |input| && ReadElements(input, i) == Some((es, end))
    decreases es, 2
  {
    match es {
      case One(e) =>
        ReadLastElement(input, i, e, end);
      case More(e, rest) =>
        var j := FirstElementAt(input, i, e, rest, end);
        ReadElementPrinted(input, i, e, j);
        ReadElementsPrinted(input, j + 1, rest, end);
        ReadElementsStep(input, i, e, j, rest, end);
    }
  }

  lemma MemberParts(input: Text, i: nat, m: Member, end: nat) returns (b: nat, k: nat, a: nat)
    requires MemberAt(input, i, m, end)
    ensures Laid(input, i, m, b, k, a) && Has(input, b, QUOTE)
    ensures At(input, b, PrintString(m.name)) && k == b + |PrintString(m.name)|
    ensures ElementAt(input, a + 1, m.element, end)
  {
    b, k, a := MemberSplit(input, i, m);
    StringParts(input, b, m.name);
    SkipPrinted(input, i, m.before);
    SkipPrinted(input, k, m.after);
  }

  lemma ReadMemberStep(input: Text, i: nat, m: Member, b: nat, k: nat, a: nat, j: nat)
    requires Laid(input, i, m, b, k, a) && ReadString(input, b) == Some((m.name, k))
    requires ReadElement(input, a + 1) == Some((m.element, j))
    ensures ReadMember(input, i) == Some((m, j))
  {
  }

  /** The name of a printed member is read where the member starts. */
  lemma MemberHead(input: Text, i: nat, m: Member, end: nat) returns (b: nat, k: nat, a: nat)
    requires MemberAt(input, i, m, end)
    ensures Laid(input, i, m, b, k, a) && Has(input, b, QUOTE) && ReadString(input, b) == Some((m.name, k))
    ensures ElementAt(input, a + 1, m.element, end)
  {
    b, k, a := MemberParts(input, i, m, end);
    ReadStringPrinted(input, b, m.name);
  }

  lemma {:induction false} ReadMemberPrinted(input: Text, i: nat, m: Member, end: nat)
    requires MemberAt(input, i, m, end) && Stops(input, end)
    ensures i <= |input| && ReadMember(input, i) == Some((m, end))
    decreases m, 1
  {
    var b, k, a := MemberHead(input, i, m, end);
    ReadElementPrinted(input, a + 1, m.element, end);
    ReadMemberStep(input, i, m, b, k, a, end);
  }

  lemma ReadMembersStep(input: Text, i: nat, m: Member, j: nat, rest: Members, k: nat)
    requires i <= |input| && ReadMember(input, i) == Some((m, j)) && Has(input, j, COMMA)
    requires ReadMembers(input, j + 1) == Some((rest, k))
    ensures ReadMembers(input, i) == Some((MoreMembers(m, rest), k))
  {
  }

  lemma ReadMembersLast(input: Text, i: nat, m: Member, j: nat)
    requires i <= |input| && ReadMember(input, i) == Some((m, j)) && !Has(input, j, COMMA)
    ensures ReadMembers(input, i) == Some((OneMember(m), j))
  {
  }

  lemma MembersStart(input: Text, i: nat, ms: Members, end: nat)
    requires MembersAt(input, i, ms, end)
    ensures i <= |input| && Has(input, Skip(input, i), QUOTE)
  {
    match ms {
      case OneMember(m) =>
        var b, k, a := MemberHead(input, i, m, end);
      case MoreMembers(m, rest) =>
        var j := FirstMemberAt(input, i, m, rest, end);
        var b, k, a := MemberHead(input, i, m, j);
    }
  }

  lemma {:induction false} ReadLastMember(input: Text, i: nat, m: Member, end: nat)
    requires MemberAt(input, i, m, end) && Has(input, end, CLOSE_BRACE)
    ensures i <= |input| && ReadMembers(input, i) == Some((OneMember(m), end))
    decreases m, 3
  {
    ReadMemberPrinted(input, i, m, end);
    ReadMembersLast(input, i, m, end);
  }

  lemma OneMemberAt(input: Text, i: nat, m: Member, end: nat)
    requires MembersAt(input, i, OneMember(m), end)
    ensures MemberAt(input, i, m, end) && Has(input, end, CLOSE_BRACE)
  {
  }

  lemma {:induction false} ReadMembersPrinted(input: Text, i: nat, ms: Members, end: nat)
    requires MembersAt(input, i, ms, end)
    ensures i <= |input| && ReadMembers(input, i) == Some((ms, end))
    decreases ms, 2
  {
    match ms {
      case OneMember(m) =>
        OneMemberAt(input, i, m, end);
        ReadLastMember(input, i, m, end);
      case MoreMembers(m, rest) =>
        ReadMoreMembers(input, i, m, rest, end);
    }
  }

  lemma {:induction false} ReadMoreMembers(input: Text, i: nat, m: Member, rest: Members, end: nat)
    requires MembersAt(input, i, MoreMembers(m, rest), end)
    ensures i <= |input| && ReadMembers(input, i) == Some((MoreMembers(m, rest), end))
    decreases MoreMembers(m, rest), 1
  {
    var j := FirstMemberAt(input, i, m, rest, end);
    ReadMemberPrinted(input, i, m, j);
    ReadMembersPrinted(input, j + 1, rest, end);
    ReadMembersStep(input, i, m, j, rest, end);
  }

  // ---------- Main result ----------

  /** JSON.parse returns a tree iff it is a valid tree that prints the whole text; so the tree of a text is unique. */
  lemma JsonParseExact(input: Text, e: Element)
    ensures JsonParse(input) == Some(e) <==> ValidElement(e) && PrintElement(e) == input
  {
    if JsonParse(input) == Some(e) {
      ReadElementSound(input, 0);
      assert input[0..|input|] == input;
    }
    if ValidElement(e) && PrintElement(e) == input {
      assert input[0..|input|] == input;
      ReadElementPrinted(input, 0, e, |input|);
    }
  }
}
