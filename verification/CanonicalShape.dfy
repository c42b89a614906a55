/** Which of the JSON texts of the same data the canonical one is: how strings are written, and that none is shorter. */
module CanonicalShape {
  import opened Text
  import opened Values
  import opened Canonical
  import Decimal
  import G = JsonGrammar

  // ---------- Strings ----------

  /** What stands between the quotation marks. */
  function Inner(t: Text): Text {
    Quoted(t)[1..|Quoted(t)| - 1]
  }

  /** No quotation mark, no backslash, no control. */
  predicate IsPlain(u: CodeUnit) {
    u >= 0x20 && u != 0x22 && u != 0x5c
  }

  /** \b \t \n \f \r */
  const SHORT_ESCAPES: map<CodeUnit, CodeUnit> := map[0x08 := 0x62, 0x09 := 0x74, 0x0a := 0x6e, 0x0c := 0x66, 0x0d := 0x72]

  predicate IsLowerHex(u: CodeUnit, n: nat) {
    G.IsHex(u) && G.HexValue(u) == n && !(0x41 <= u <= 0x46)
  }

  /** The text stands for the unit: itself, a backslash and a letter, or \u00 and two lower-case digits. */
  predicate WritesUnit(e: Text, u: CodeUnit) {
    if IsPlain(u) then e == [u]
    else if u == 0x22 || u == 0x5c then e == [0x5c, u]
    else if u in SHORT_ESCAPES then e == [0x5c, SHORT_ESCAPES[u]]
    else |e| == 6 && e[..4] == [0x5c, 0x75, 0x30, 0x30] && IsLowerHex(e[4], u / 16) && IsLowerHex(e[5], u % 16)
  }

  lemma InnerPieces(t: Text)
    ensures |Quoted(t)| >= 2 && Quoted(t)[0] == 0x22 && Quoted(t)[|Quoted(t)| - 1] == 0x22
    ensures Inner(t) == G.PrintPieces(Pieces(t))
  {
  }

  lemma {:induction false} PrintPiecesAppend(a: seq<G.Piece>, b: seq<G.Piece>)
    ensures G.PrintPieces(a + b) == G.PrintPieces(a) + G.PrintPieces(b)
  {
    if a == [] {
      assert a + b == b;
    } else {
      assert (a + b)[1..] == a[1..] + b;
      PrintPiecesAppend(a[1..], b);
    }
  }

  lemma UnitWritten(u: CodeUnit)
    ensures WritesUnit(Inner([u]), u)
  {
    InnerPieces([u]);
    assert Pieces([u]) == [PieceOf(u)] && Pieces([u])[1..] == [];
    assert G.PrintPieces([PieceOf(u)]) == PieceOf(u).Print() + G.PrintPieces([]);
    assert Inner([u]) == PieceOf(u).Print();
  }

  lemma PiecesAppend(a: Text, b: Text)
    ensures Pieces(a + b) == Pieces(a) + Pieces(b)
  {
  }

  lemma InnerAppend(a: Text, b: Text)
    ensures Inner(a + b) == Inner(a) + Inner(b)
  {
    InnerPieces(a);
    InnerPieces(b);
    InnerPieces(a + b);
    PiecesAppend(a, b);
    PrintPiecesAppend(Pieces(a), Pieces(b));
  }

  lemma InnerQuoted(a: Text)
    ensures Quoted(a) == [0x22] + Inner(a) + [0x22]
  {
    InnerPieces(a);
    var q := Quoted(a);
    assert q == [q[0]] + q[1..|q| - 1] + [q[|q| - 1]];
  }

  /** A string is written unit by unit, between quotation marks. */
  lemma WrittenUnitByUnit(a: Text, u: CodeUnit, b: Text)
    ensures Quoted(a) == [0x22] + Inner(a) + [0x22] && Inner([]) == []
    ensures Inner(a + [u] + b) == Inner(a) + Inner([u]) + Inner(b)
    ensures WritesUnit(Inner([u]), u)
  {
    InnerQuoted(a);
    InnerPieces([]);
    InnerAppend(a + [u], b);
    InnerAppend(a, [u]);
    UnitWritten(u);
  }

  /** A string of plain units is written as it is. */
  lemma {:induction false} PlainAsItIs(t: Text)
    requires forall i :: 0 <= i < |t| ==> IsPlain(t[i])
    ensures Quoted(t) == [0x22] + t + [0x22]
  {
    if t == [] {
      InnerPieces(t);
      assert Quoted(t) == [0x22, 0x22];
    } else {
      PlainAsItIs(t[1..]);
      WrittenUnitByUnit([], t[0], t[1..]);
      WrittenUnitByUnit(t, t[0], []);
      InnerPieces(t[1..]);
      assert Inner(t[1..]) == t[1..];
      assert [] + [t[0]] + t[1..] == t;
    }
  }

  // ---------- No shorter text ----------

  lemma PieceShortest(p: G.Piece)
    requires p.Valid()
    ensures |PieceOf(p.Unit()).Print()| <= |p.Print()|
  {
  }

  lemma {:induction false} PiecesShortest(ps: seq<G.Piece>)
    requires G.ValidPieces(ps)
    ensures |G.PrintPieces(Pieces(G.Decode(ps)))| <= |G.PrintPieces(ps)|
  {
    if ps != [] {
      PieceShortest(ps[0]);
      PiecesShortest(ps[1..]);
      assert G.Decode(ps)[1..] == G.Decode(ps[1..]);
      assert Pieces(G.Decode(ps))[1..] == Pieces(G.Decode(ps)[1..]);
    }
  }

  lemma LexemeOfInteger(l: Text)
    requires IntegerOf(l).Some?
    ensures Lexeme(IntegerOf(l).value) == l
  {
    if Decimal.Canonical(l) {
      Decimal.CanonicalIsDigits(l);
    } else {
      Decimal.CanonicalIsDigits(l[1..]);
      assert l[1..] != Decimal.Digits(0);
      assert l == [l[0]] + l[1..];
    }
  }

  lemma {:induction false} ValueShortest(v: G.Value)
    requires G.ValidValue(v) && DataOf(v).Some?
    ensures |G.PrintValue(Tree(DataOf(v).value))| <= |G.PrintValue(v)|
    decreases v
  {
    match v
    case Number(l) => LexemeOfInteger(l);
    case String(ps) => PiecesShortest(ps);
    case Array(es) => ElementsShortest(es);
    case Object(ms) => MembersShortest(ms);
    case _ =>
  }

  lemma {:induction false} ElementShortest(e: G.Element)
    requires G.ValidElement(e) && DataOf(e.value).Some?
    ensures |G.PrintElement(Bare(Tree(DataOf(e.value).value)))| <= |G.PrintElement(e)|
    decreases e
  {
    ValueShortest(e.value);
    BarePrints(Tree(DataOf(e.value).value));
  }

  lemma {:induction false} ElementsShortest(es: G.Elements)
    requires G.ValidElements(es) && DataOfElements(es).Some?
    ensures DataOfElements(es).value != []
    ensures |G.PrintElements(TreeElements(DataOfElements(es).value))| <= |G.PrintElements(es)|
    decreases es
  {
    match es
    case One(e) => ElementShortest(e);
    case More(e, rest) =>
      ElementShortest(e);
      ElementsShortest(rest);
      var items := DataOfElements(es).value;
      assert items[1..] == DataOfElements(rest).value;
  }

  lemma {:induction false} MemberShortest(m: G.Member)
    requires G.ValidMember(m) && DataOfMember(m).Some?
    ensures |G.PrintMember(TreeMember(DataOfMember(m).value))| <= |G.PrintMember(m)|
    decreases m
  {
    ElementShortest(m.element);
    PiecesShortest(m.name);
  }

  lemma {:induction false} MembersShortest(ms: G.Members)
    requires G.ValidMembers(ms) && DataOfMembers(ms).Some?
    ensures DataOfMembers(ms).value != []
    ensures |G.PrintMembers(TreeMembers(DataOfMembers(ms).value))| <= |G.PrintMembers(ms)|
    decreases ms
  {
    match ms
    case OneMember(m) => MemberShortest(m);
    case MoreMembers(m, rest) =>
      MemberShortest(m);
      MembersShortest(rest);
      var fs := DataOfMembers(ms).value;
      assert fs[1..] == DataOfMembers(rest).value;
  }

  /** No JSON text that reads to the normal form of the data is shorter than the canonical text. */
  lemma CanonicalIsShortest(d: Data, e: G.Element)
    requires G.ValidElement(e) && DataOf(e.value) == Some(Normal(d))
    ensures |CanonicalText(d)| <= |G.PrintElement(e)|
  {
    ValueShortest(e.value);
  }
}
