/** The canonical JSON text of plain data: its syntax tree, the tree read back, and its UTF-8 octets. */
module Canonical {
  import opened Text
  import opened Unicode
  import opened Values
  import Decimal
  import G = JsonGrammar
  import JsonParser

  // ---------- JSON.stringify on strings and integers ----------

  function LowerHex(n: nat): CodeUnit
    requires n < 16
  {
    if n < 10 then 0x30 + n else 0x57 + n
  }

  function PieceOf(u: CodeUnit): G.Piece {
    if u == G.QUOTE || u == G.BACKSLASH then G.Short(u)
    else if u == 0x08 then G.Short(0x62)
    else if u == 0x09 then G.Short(0x74)
    else if u == 0x0a then G.Short(0x6e)
    else if u == 0x0c then G.Short(0x66)
    else if u == 0x0d then G.Short(0x72)
    else if u < 0x20 then G.Hex(0x30, 0x30, LowerHex(u / 16), LowerHex(u % 16))
    else G.Plain(u)
  }

  lemma PieceOfUnit(u: CodeUnit)
    ensures PieceOf(u).Valid() && PieceOf(u).Unit() == u
  {
  }

  function Pieces(t: Text): (ps: seq<G.Piece>)
    ensures |ps| == |t|
  {
    seq(|t|, i requires 0 <= i < |t| => PieceOf(t[i]))
  }

  lemma PiecesDecode(t: Text)
    ensures G.ValidPieces(Pieces(t)) && G.Decode(Pieces(t)) == t
  {
    forall i | 0 <= i < |t| ensures Pieces(t)[i].Valid() && Pieces(t)[i].Unit() == t[i] {
      PieceOfUnit(t[i]);
    }
  }

  /** JSON.stringify of a well-formed string. */
  function Quoted(t: Text): Text {
    G.PrintString(Pieces(t))
  }

  /** String(n) */
  function Lexeme(n: int): Text {
    if n < 0 then [Decimal.MINUS] + Decimal.Digits(-n) else Decimal.Digits(n)
  }

  function IntegerOf(l: Text): Option<int> {
    if Decimal.Canonical(l) then Some(Decimal.Number(l))
    else if |l| >= 2 && l[0] == Decimal.MINUS && Decimal.Canonical(l[1..]) && l[1] != Decimal.ZERO then
      var n: int := Decimal.Number(l[1..]);
      Some(-n)
    else None
  }

  lemma LexemeRead(n: int)
    ensures G.IsNumber(Lexeme(n)) && IntegerOf(Lexeme(n)) == Some(n)
  {
    var l := Lexeme(n);
    var s := if n < 0 then 1 else 0;
    var digits := Decimal.Digits(if n < 0 then -n else n);
    Decimal.DigitsCanonical(if n < 0 then -n else n);
    assert l[s..|l|] == l[s..] == digits;
    assert l[|l|..] == [] && l[|l|..|l|] == [];
    assert l[..s] == if n < 0 then [0x2d] else [];
    assert forall i :: 0 <= i < |digits| ==> Decimal.IsDigit(digits[i]) == G.IsDigit(digits[i]);
    assert G.IsInteger(digits);
    assert G.NumberParts(l, s, |l|, |l|);
  }

  // ---------- The syntax tree ----------

  function Bare(v: G.Value): G.Element {
    G.Element([], v, [])
  }

  /** The JSON value JSON.stringify writes, fields in the order listed; what has no JSON form becomes null. */
  function Tree(d: Data): G.Value {
    match d
    case Null => G.Null
    case Bool(b) => if b then G.True else G.False
    case Str(t) => G.String(Pieces(t))
    case Num(n) => if n.Integral? then G.Number(Lexeme(n.n)) else G.Null
    case List(items) => if items == [] then G.EmptyArray([]) else G.Array(TreeElements(items))
    case Record(fs) => if fs == [] then G.EmptyObject([]) else G.Object(TreeMembers(fs))
    case Unsupported => G.Null
  }

  function TreeElements(items: seq<Data>): G.Elements
    requires items != []
  {
    if |items| == 1 then G.One(Bare(Tree(items[0])))
    else G.More(Bare(Tree(items[0])), TreeElements(items[1..]))
  }

  function TreeMember(f: Field): G.Member {
    G.Member([], Pieces(f.name), [], Bare(Tree(f.value)))
  }

  function TreeMembers(fs: seq<Field>): G.Members
    requires fs != []
  {
    if |fs| == 1 then G.OneMember(TreeMember(fs[0]))
    else G.MoreMembers(TreeMember(fs[0]), TreeMembers(fs[1..]))
  }

  /** The canonical text: the tree of the normal form, printed without white space. */
  function CanonicalText(d: Data): Text {
    G.PrintValue(Tree(Normal(d)))
  }

  // ---------- Reading a tree back ----------

  /** JSON.parse, on trees whose numbers are plain safe integers. */
  function DataOf(v: G.Value): Option<Data>
    requires G.ValidValue(v)
  {
    match v
    case Null => Some(Data.Null)
    case True => Some(Bool(true))
    case False => Some(Bool(false))
    case Number(l) =>
      (match IntegerOf(l)
       case Some(n) => if SafeInteger(Integral(n)) then Some(Num(Integral(n))) else None
       case None => None)
    case String(ps) => Some(Str(G.Decode(ps)))
    case EmptyArray(_) => Some(List([]))
    case Array(es) =>
      (match DataOfElements(es)
       case Some(items) => Some(List(items))
       case None => None)
    case EmptyObject(_) => Some(Record([]))
    case Object(ms) =>
      (match DataOfMembers(ms)
       case Some(fs) => Some(Record(fs))
       case None => None)
  }

  function DataOfElements(es: G.Elements): Option<seq<Data>>
    requires G.ValidElements(es)
  {
    match es
    case One(e) =>
      assert G.ValidElement(e);
      (match DataOf(e.value)
       case Some(d) => Some([d])
       case None => None)
    case More(e, rest) =>
      assert G.ValidElement(e);
      match (DataOf(e.value), DataOfElements(rest))
      case (Some(d), Some(ds)) => Some([d] + ds)
      case _ => None
  }

  function DataOfMember(m: G.Member): Option<Field>
    requires G.ValidMember(m)
  {
    assert G.ValidElement(m.element);
    match DataOf(m.element.value)
    case Some(d) => Some(Field(G.Decode(m.name), d))
    case None => None
  }

  function DataOfMembers(ms: G.Members): Option<seq<Field>>
    requires G.ValidMembers(ms)
  {
    match ms
    case OneMember(m) =>
      (match DataOfMember(m)
       case Some(f) => Some([f])
       case None => None)
    case MoreMembers(m, rest) =>
      match (DataOfMember(m), DataOfMembers(rest))
      case (Some(f), Some(fs)) => Some([f] + fs)
      case _ => None
  }

  /** The tree is valid JSON, holds exactly the data, and repeats no name. */
  lemma {:induction false} TreeReads(d: Data, nfc: Text -> bool)
    requires Acceptable(d, nfc) && Proper(d)
    ensures G.ValidValue(Tree(d)) && DataOf(Tree(d)) == Some(d) && G.UniqueValue(Tree(d))
    decreases d
  {
    match d
    case Str(t) => PiecesDecode(t);
    case Num(n) => LexemeRead(n.n);
    case List(items) =>
      if items != [] {
        TreeElementsRead(items, nfc);
      }
    case Record(fs) =>
      if fs != [] {
        TreeMembersRead(fs, nfc);
        assert G.NoRepeats(G.Names(TreeMembers(fs)));
      }
    case _ =>
  }

  lemma {:induction false} TreeElementsRead(items: seq<Data>, nfc: Text -> bool)
    requires items != [] && forall i :: 0 <= i < |items| ==> Acceptable(items[i], nfc) && Proper(items[i])
    ensures G.ValidElements(TreeElements(items)) && DataOfElements(TreeElements(items)) == Some(items)
    ensures G.UniqueElements(TreeElements(items))
    decreases items
  {
    TreeReads(items[0], nfc);
    if |items| == 1 {
      assert items == [items[0]];
    } else {
      TreeElementsRead(items[1..], nfc);
      assert items == [items[0]] + items[1..];
    }
  }

  /** One member: valid, without repeated names inside, and read back to its field. */
  predicate MemberReads(f: Field) {
    && G.ValidMember(TreeMember(f)) && DataOfMember(TreeMember(f)) == Some(f)
    && G.UniqueElement(TreeMember(f).element) && G.Decode(TreeMember(f).name) == f.name
  }

  lemma MemberRead(f: Field)
    requires G.ValidValue(Tree(f.value)) && DataOf(Tree(f.value)) == Some(f.value) && G.UniqueValue(Tree(f.value))
    ensures MemberReads(f)
  {
    var m := TreeMember(f);
    PiecesDecode(f.name);
    assert G.ValidElement(m.element) && G.UniqueElement(m.element);
    assert G.ValidMember(m);
  }

  lemma FirstMembersRead(f: Field, rest: seq<Field>)
    requires rest != [] && MemberReads(f)
    requires G.ValidMembers(TreeMembers(rest)) && G.UniqueMembers(TreeMembers(rest)) && DataOfMembers(TreeMembers(rest)) == Some(rest)
    ensures var ms := TreeMembers([f] + rest);
            && ms == G.MoreMembers(TreeMember(f), TreeMembers(rest))
            && G.ValidMembers(ms) && G.UniqueMembers(ms) && DataOfMembers(ms) == Some([f] + rest)
            && G.Names(ms) == [f.name] + G.Names(TreeMembers(rest))
  {
    assert ([f] + rest)[1..] == rest;
  }

  lemma {:induction false} TreeMembersRead(fs: seq<Field>, nfc: Text -> bool)
    requires fs != [] && forall i :: 0 <= i < |fs| ==> Acceptable(fs[i].value, nfc) && Proper(fs[i].value)
    ensures G.ValidMembers(TreeMembers(fs)) && DataOfMembers(TreeMembers(fs)) == Some(fs)
    ensures G.UniqueMembers(TreeMembers(fs))
    ensures |G.Names(TreeMembers(fs))| == |fs|
    ensures forall i :: 0 <= i < |fs| ==> G.Names(TreeMembers(fs))[i] == fs[i].name
    decreases fs
  {
    TreeReads(fs[0].value, nfc);
    MemberRead(fs[0]);
    if |fs| == 1 {
      assert fs == [fs[0]];
    } else {
      TreeMembersRead(fs[1..], nfc);
      FirstMembersRead(fs[0], fs[1..]);
      assert fs == [fs[0]] + fs[1..];
    }
  }

  /**
   * Reading the canonical text gives back the data: it is valid JSON without repeated names,
   * its only syntax tree is the one printed, and that tree holds the normal form.
   */
  lemma CanonicalReadBack(d: Data, nfc: Text -> bool)
    requires Acceptable(d, nfc) && Proper(d)
    ensures var e := Bare(Tree(Normal(d)));
            && G.ValidElement(e) && G.UniqueElement(e)
            && JsonParser.JsonParse(CanonicalText(d)) == Some(e)
            && DataOf(e.value) == Some(Normal(d))
  {
    var e := Bare(Tree(Normal(d)));
    NormalAcceptable(d, nfc);
    NormalProper(d);
    TreeReads(Normal(d), nfc);
    BarePrints(Tree(Normal(d)));
    JsonParser.JsonParseExact(CanonicalText(d), e);
  }

  lemma BarePrints(v: G.Value)
    ensures G.PrintElement(Bare(v)) == G.PrintValue(v)
  {
  }

  /** Two accepted values have one canonical text exactly when they are the same data up to property order. */
  lemma CanonicalTextDecides(a: Data, b: Data, nfc: Text -> bool)
    requires Acceptable(a, nfc) && Proper(a) && Acceptable(b, nfc) && Proper(b)
    ensures CanonicalText(a) == CanonicalText(b) <==> Same(a, b)
  {
    CanonicalReadBack(a, nfc);
    CanonicalReadBack(b, nfc);
    NormalFormDecides(a, b);
  }

  // ---------- Canonical text is well-formed UTF-16 ----------

  lemma PiecePrints(u: CodeUnit)
    ensures u < 0x20 || u == G.QUOTE || u == G.BACKSLASH ==> WellFormed(PieceOf(u).Print())
    ensures u >= 0xd800 ==> PieceOf(u).Print() == [u]
  {
    if u < 0x20 || u == G.QUOTE || u == G.BACKSLASH {
      NoSurrogatesWellFormed(PieceOf(u).Print());
    }
  }

  lemma {:induction false} EscapedWellFormed(t: Text)
    requires WellFormed(t)
    ensures WellFormed(G.PrintPieces(Pieces(t)))
    decreases |t|
  {
    if t != [] {
      var n := FrontLength(t);
      PiecesFront(t);
      EscapedWellFormed(t[n..]);
      var front := PieceOf(t[0]).Print();
      var rest := G.PrintPieces(Pieces(t[n..]));
      PiecePrints(t[0]);
      if IsHigh(t[0]) {
        PiecesFront(t[1..]);
        PiecePrints(t[1]);
        assert t[1..][1..] == t[2..];
        assert G.PrintPieces(Pieces(t)) == [t[0], t[1]] + rest;
        assert ([t[0], t[1]] + rest)[2..] == rest;
      } else {
        SingleUnit(t[0]);
        WellFormedConcat(front, rest);
      }
    }
  }

  lemma PiecesFront(t: Text)
    requires t != []
    ensures G.PrintPieces(Pieces(t)) == PieceOf(t[0]).Print() + G.PrintPieces(Pieces(t[1..]))
  {
    assert Pieces(t)[1..] == Pieces(t[1..]);
  }

  lemma SingleUnit(u: CodeUnit)
    requires !IsHigh(u) && !IsLow(u)
    ensures WellFormed(PieceOf(u).Print())
  {
    PiecePrints(u);
    assert [u][1..] == [];
    assert Scalars([u]).Some?;
  }

  lemma QuotedWellFormed(t: Text)
    requires WellFormed(t)
    ensures WellFormed(Quoted(t))
  {
    EscapedWellFormed(t);
    Enclosed(G.QUOTE, G.PrintPieces(Pieces(t)), G.QUOTE);
  }

  lemma Enclosed(open: CodeUnit, t: Text, close: CodeUnit)
    requires WellFormed(t) && open < 0xd800 && close < 0xd800
    ensures WellFormed([open] + t + [close])
  {
    NoSurrogatesWellFormed([open]);
    NoSurrogatesWellFormed([close]);
    WellFormedConcat([open], t);
    WellFormedConcat([open] + t, [close]);
  }

  lemma Separated(a: Text, separator: CodeUnit, b: Text)
    requires WellFormed(a) && WellFormed(b) && separator < 0xd800
    ensures WellFormed(a + [separator] + b)
  {
    NoSurrogatesWellFormed([separator]);
    WellFormedConcat(a, [separator]);
    WellFormedConcat(a + [separator], b);
  }

  lemma LexemeWellFormed(n: int)
    ensures WellFormed(Lexeme(n))
  {
    Decimal.DigitsCanonical(if n < 0 then -n else n);
    NoSurrogatesWellFormed(Lexeme(n));
  }

  lemma {:induction false} TreeWellFormed(d: Data, nfc: Text -> bool)
    requires Acceptable(d, nfc)
    ensures WellFormed(G.PrintValue(Tree(d)))
    decreases d
  {
    match d
    case Null => NoSurrogatesWellFormed(G.NULL);
    case Bool(b) => NoSurrogatesWellFormed(if b then G.TRUE else G.FALSE);
    case Str(t) => QuotedWellFormed(t);
    case Num(n) => LexemeWellFormed(n.n);
    case List(items) =>
      if items == [] {
        Enclosed(G.OPEN_BRACKET, [], G.CLOSE_BRACKET);
      } else {
        ElementsWellFormed(items, nfc);
        Enclosed(G.OPEN_BRACKET, G.PrintElements(TreeElements(items)), G.CLOSE_BRACKET);
      }
    case Record(fs) =>
      if fs == [] {
        Enclosed(G.OPEN_BRACE, [], G.CLOSE_BRACE);
      } else {
        MembersWellFormed(fs, nfc);
        Enclosed(G.OPEN_BRACE, G.PrintMembers(TreeMembers(fs)), G.CLOSE_BRACE);
      }
  }

  lemma {:induction false} ElementsWellFormed(items: seq<Data>, nfc: Text -> bool)
    requires items != [] && forall i :: 0 <= i < |items| ==> Acceptable(items[i], nfc)
    ensures WellFormed(G.PrintElements(TreeElements(items)))
    decreases items
  {
    TreeWellFormed(items[0], nfc);
    BarePrints(Tree(items[0]));
    if |items| > 1 {
      ElementsWellFormed(items[1..], nfc);
      Separated(G.PrintValue(Tree(items[0])), G.COMMA, G.PrintElements(TreeElements(items[1..])));
    }
  }

  lemma MemberPrints(f: Field)
    ensures G.PrintMember(TreeMember(f)) == Quoted(f.name) + [G.COLON] + G.PrintValue(Tree(f.value))
  {
    BarePrints(Tree(f.value));
    assert [] + Quoted(f.name) + [] == Quoted(f.name);
  }

  lemma {:induction false} MembersWellFormed(fs: seq<Field>, nfc: Text -> bool)
    requires fs != []
    requires forall i :: 0 <= i < |fs| ==> CanonicalString(fs[i].name, nfc) && Acceptable(fs[i].value, nfc)
    ensures WellFormed(G.PrintMembers(TreeMembers(fs)))
    decreases fs
  {
    TreeWellFormed(fs[0].value, nfc);
    QuotedWellFormed(fs[0].name);
    MemberPrints(fs[0]);
    Separated(Quoted(fs[0].name), G.COLON, G.PrintValue(Tree(fs[0].value)));
    if |fs| > 1 {
      MembersWellFormed(fs[1..], nfc);
      Separated(G.PrintMember(TreeMember(fs[0])), G.COMMA, G.PrintMembers(TreeMembers(fs[1..])));
    }
  }

  lemma CanonicalTextWellFormed(d: Data, nfc: Text -> bool)
    requires Acceptable(d, nfc)
    ensures WellFormed(CanonicalText(d))
  {
    NormalAcceptable(d, nfc);
    TreeWellFormed(Normal(d), nfc);
  }

  /** The octets decode to the text, so equal octets mean the same data. */
  lemma CanonicalBytesDecide(a: Data, b: Data, nfc: Text -> bool)
    requires Acceptable(a, nfc) && Proper(a) && Acceptable(b, nfc) && Proper(b)
    ensures WellFormed(CanonicalText(a)) && WellFormed(CanonicalText(b))
    ensures var scalars := DecodeUtf8(Octets(CanonicalText(a)));
            scalars.Some? && Utf16(scalars.value) == CanonicalText(a)
    ensures Octets(CanonicalText(a)) == Octets(CanonicalText(b)) <==> Same(a, b)
  {
    CanonicalTextWellFormed(a, nfc);
    CanonicalTextWellFormed(b, nfc);
    CanonicalTextDecides(a, b, nfc);
    var scalars := Scalars(CanonicalText(a)).value;
    DecodeInvertsUtf8(scalars);
    Utf16InvertsScalars(CanonicalText(a));
    if Octets(CanonicalText(a)) == Octets(CanonicalText(b)) {
      BytesDetermineText(CanonicalText(a), CanonicalText(b));
    }
  }
}
