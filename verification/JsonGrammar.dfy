/** The JSON grammar of RFC 8259, sections 2 to 7, as concrete syntax trees and the texts they print. */
module JsonGrammar {
  import opened Text

  const QUOTE: CodeUnit := 0x22
  const BACKSLASH: CodeUnit := 0x5c
  const COMMA: CodeUnit := 0x2c
  const COLON: CodeUnit := 0x3a
  const OPEN_BRACE: CodeUnit := 0x7b
  const CLOSE_BRACE: CodeUnit := 0x7d
  const OPEN_BRACKET: CodeUnit := 0x5b
  const CLOSE_BRACKET: CodeUnit := 0x5d
  const LETTER_U: CodeUnit := 0x75

  const NULL: Text := [0x6e, 0x75, 0x6c, 0x6c]
  const TRUE: Text := [0x74, 0x72, 0x75, 0x65]
  const FALSE: Text := [0x66, 0x61, 0x6c, 0x73, 0x65]

  predicate IsSpace(u: CodeUnit) {
    u == 0x20 || u == 0x0a || u == 0x0d || u == 0x09
  }

  predicate IsSpaces(t: Text) {
    forall i :: 0 <= i < |t| ==> IsSpace(t[i])
  }

  predicate IsDigit(u: CodeUnit) {
    0x30 <= u <= 0x39
  }

  predicate IsHex(u: CodeUnit) {
    IsDigit(u) || 0x41 <= u <= 0x46 || 0x61 <= u <= 0x66
  }

  function HexValue(u: CodeUnit): nat
    requires IsHex(u)
  {
    if IsDigit(u) then u - 0x30 else if u <= 0x46 then u - 0x37 else u - 0x57
  }

  // ---------- Section 7: strings ----------

  /** One character of a string literal: as is, a two-character escape, or four hexadecimal digits. */
  datatype Piece =
    | Plain(unit: CodeUnit)
    | Short(letter: CodeUnit)
    | Hex(a: CodeUnit, b: CodeUnit, c: CodeUnit, d: CodeUnit)
  {
    /** unescaped = %x20-21 / %x23-5B / %x5D-10FFFF, read as code units. */
    predicate Valid() {
      match this
      case Plain(u) => u >= 0x20 && u != QUOTE && u != BACKSLASH
      case Short(l) => l == QUOTE || l == BACKSLASH || l == 0x2f || l == 0x62 || l == 0x66 || l == 0x6e || l == 0x72 || l == 0x74
      case Hex(a, b, c, d) => IsHex(a) && IsHex(b) && IsHex(c) && IsHex(d)
    }

    function Print(): (t: Text)
      ensures 1 <= |t| <= 6
    {
      match this
      case Plain(u) => [u]
      case Short(l) => [BACKSLASH, l]
      case Hex(a, b, c, d) => [BACKSLASH, LETTER_U, a, b, c, d]
    }

    /** The code unit it denotes. */
    function Unit(): CodeUnit
      requires Valid()
    {
      match this
      case Plain(u) => u
      case Short(l) =>
        if l == 0x62 then 0x08 else if l == 0x66 then 0x0c else if l == 0x6e then 0x0a
        else if l == 0x72 then 0x0d else if l == 0x74 then 0x09 else l
      case Hex(a, b, c, d) => HexValue(a) * 4096 + HexValue(b) * 256 + HexValue(c) * 16 + HexValue(d)
    }
  }

  predicate ValidPieces(ps: seq<Piece>) {
    forall i :: 0 <= i < |ps| ==> ps[i].Valid()
  }

  function PrintPieces(ps: seq<Piece>): Text {
    if ps == [] then [] else ps[0].Print() + PrintPieces(ps[1..])
  }

  function PrintString(ps: seq<Piece>): (t: Text)
    ensures |t| == |PrintPieces(ps)| + 2
  {
    [QUOTE] + PrintPieces(ps) + [QUOTE]
  }

  function Decode(ps: seq<Piece>): (t: Text)
    requires ValidPieces(ps)
    ensures |t| == |ps|
  {
    seq(|ps|, i requires 0 <= i < |ps| => ps[i].Unit())
  }

  // ---------- Section 6: numbers ----------

  predicate IsDigits(t: Text) {
    |t| >= 1 && forall i :: 0 <= i < |t| ==> IsDigit(t[i])
  }

  /** int = zero / ( digit1-9 *DIGIT ) */
  predicate IsInteger(t: Text) {
    IsDigits(t) && (t[0] == 0x30 ==> |t| == 1)
  }

  /** frac = decimal-point 1*DIGIT, or nothing. */
  predicate IsFraction(t: Text) {
    t == [] || (t[0] == 0x2e && IsDigits(t[1..]))
  }

  /** exp = e [ minus / plus ] 1*DIGIT, or nothing. */
  predicate IsExponent(t: Text) {
    t == []
    || ((t[0] == 0x65 || t[0] == 0x45)
        && (IsDigits(t[1..]) || (|t| >= 2 && (t[1] == 0x2d || t[1] == 0x2b) && IsDigits(t[2..]))))
  }

  /** number = [ minus ] int [ frac ] [ exp ] */
  predicate IsNumber(t: Text) {
    exists s, i, f :: 0 <= s <= i <= f <= |t| && NumberParts(t, s, i, f)
  }

  predicate NumberParts(t: Text, s: nat, i: nat, f: nat)
    requires s <= i <= f <= |t|
  {
    && (t[..s] == [] || t[..s] == [0x2d])
    && IsInteger(t[s..i]) && IsFraction(t[i..f]) && IsExponent(t[f..])
  }

  // ---------- Sections 2 to 5: values, objects, arrays ----------

  /** A value with the white space around it. */
  datatype Element = Element(before: Text, value: Value, after: Text)

  datatype Value =
    | Null
    | True
    | False
    | Number(lexeme: Text)
    | String(pieces: seq<Piece>)
    | EmptyArray(space: Text)
    | Array(elements: Elements)
    | EmptyObject(space: Text)
    | Object(members: Members)

  datatype Elements = One(last: Element) | More(first: Element, rest: Elements)

  datatype Member = Member(before: Text, name: seq<Piece>, after: Text, element: Element)

  datatype Members = OneMember(last: Member) | MoreMembers(first: Member, rest: Members)

  predicate ValidElement(e: Element) {
    IsSpaces(e.before) && ValidValue(e.value) && IsSpaces(e.after)
  }

  predicate ValidValue(v: Value) {
    match v
    case Null => true
    case True => true
    case False => true
    case Number(l) => IsNumber(l)
    case String(ps) => ValidPieces(ps)
    case EmptyArray(s) => IsSpaces(s)
    case Array(es) => ValidElements(es)
    case EmptyObject(s) => IsSpaces(s)
    case Object(ms) => ValidMembers(ms)
  }

  predicate ValidElements(es: Elements) {
    match es
    case One(e) => ValidElement(e)
    case More(e, rest) => ValidElement(e) && ValidElements(rest)
  }

  predicate ValidMember(m: Member) {
    IsSpaces(m.before) && ValidPieces(m.name) && IsSpaces(m.after) && ValidElement(m.element)
  }

  predicate ValidMembers(ms: Members) {
    match ms
    case OneMember(m) => ValidMember(m)
    case MoreMembers(m, rest) => ValidMember(m) && ValidMembers(rest)
  }

  function PrintElement(e: Element): Text {
    e.before + PrintValue(e.value) + e.after
  }

  function PrintValue(v: Value): Text {
    match v
    case Null => NULL
    case True => TRUE
    case False => FALSE
    case Number(l) => l
    case String(ps) => PrintString(ps)
    case EmptyArray(s) => [OPEN_BRACKET] + s + [CLOSE_BRACKET]
    case Array(es) => [OPEN_BRACKET] + PrintElements(es) + [CLOSE_BRACKET]
    case EmptyObject(s) => [OPEN_BRACE] + s + [CLOSE_BRACE]
    case Object(ms) => [OPEN_BRACE] + PrintMembers(ms) + [CLOSE_BRACE]
  }

  function PrintElements(es: Elements): Text {
    match es
    case One(e) => PrintElement(e)
    case More(e, rest) => PrintElement(e) + [COMMA] + PrintElements(rest)
  }

  function PrintMember(m: Member): Text {
    m.before + PrintString(m.name) + m.after + [COLON] + PrintElement(m.element)
  }

  function PrintMembers(ms: Members): Text {
    match ms
    case OneMember(m) => PrintMember(m)
    case MoreMembers(m, rest) => PrintMember(m) + [COMMA] + PrintMembers(rest)
  }

  /** The text is a JSON text: some valid syntax tree prints it. */
  ghost predicate IsJson(t: Text) {
    exists e :: ValidElement(e) && PrintElement(e) == t
  }

  // ---------- Member names ----------

  function Names(ms: Members): seq<Text>
    requires ValidMembers(ms)
  {
    match ms
    case OneMember(m) => assert ValidMember(m); [Decode(m.name)]
    case MoreMembers(m, rest) => assert ValidMember(m); [Decode(m.name)] + Names(rest)
  }

  predicate NoRepeats(names: seq<Text>) {
    forall i, j :: 0 <= i < j < |names| ==> names[i] != names[j]
  }

  /** No object at any depth repeats a decoded member name. */
  predicate UniqueElement(e: Element)
    requires ValidElement(e)
  {
    UniqueValue(e.value)
  }

  predicate UniqueValue(v: Value)
    requires ValidValue(v)
  {
    match v
    case Array(es) => UniqueElements(es)
    case Object(ms) => NoRepeats(Names(ms)) && UniqueMembers(ms)
    case _ => true
  }

  predicate UniqueElements(es: Elements)
    requires ValidElements(es)
  {
    match es
    case One(e) => UniqueElement(e)
    case More(e, rest) => UniqueElement(e) && UniqueElements(rest)
  }

  predicate UniqueMembers(ms: Members)
    requires ValidMembers(ms)
  {
    match ms
    case OneMember(m) => assert ValidMember(m); UniqueElement(m.element)
    case MoreMembers(m, rest) => assert ValidMember(m); UniqueElement(m.element) && UniqueMembers(rest)
  }
}
