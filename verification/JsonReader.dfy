/** JSON.parse, by its grammar: a reader that is sound and complete for the syntax trees. */
module JsonReader {
  import opened Text
  import opened JsonGrammar

  /** The text p stands at position i of the input. */
  predicate At(input: Text, i: nat, p: Text) {
    i + |p| <= |input| && input[i..i + |p|] == p
  }

  lemma AtSplit(input: Text, i: nat, a: Text, b: Text)
    ensures At(input, i, a + b) <==> At(input, i, a) && At(input, i + |a|, b)
  {
    if i + |a| + |b| <= |input| {
      var m := i + |a|;
      assert input[i..m + |b|] == input[i..m] + input[m..m + |b|];
      if At(input, i, a + b) {
        assert (a + b)[..|a|] == a && (a + b)[|a|..] == b;
        assert input[i..m] == (a + b)[..|a|];
        assert input[m..m + |b|] == (a + b)[|a|..];
      }
    }
  }

  lemma AtIndex(input: Text, i: nat, p: Text, k: nat)
    requires At(input, i, p) && k < |p|
    ensures i + k < |input| && input[i + k] == p[k]
  {
    assert input[i..i + |p|][k] == input[i + k];
  }

  lemma AtUnit(input: Text, i: nat, u: CodeUnit)
    ensures At(input, i, [u]) <==> Has(input, i, u)
  {
    if i < |input| {
      assert input[i..i + 1] == [input[i]];
    }
  }

  lemma AtUnits(input: Text, i: nat, p: Text)
    requires i + |p| <= |input| && forall k :: 0 <= k < |p| ==> input[i + k] == p[k]
    ensures At(input, i, p)
  {
  }

  predicate Has(input: Text, i: nat, u: CodeUnit) {
    i < |input| && input[i] == u
  }

  // ---------- White space ----------

  function Skip(input: Text, i: nat): (r: nat)
    requires i <= |input|
    ensures i <= r <= |input|
    decreases |input| - i
  {
    if i < |input| && IsSpace(input[i]) then Skip(input, i + 1) else i
  }

  lemma {:induction false} SkipSound(input: Text, i: nat)
    requires i <= |input|
    ensures var r := Skip(input, i);
            IsSpaces(input[i..r]) && (r < |input| ==> !IsSpace(input[r]))
    decreases |input| - i
  {
    if i < |input| && IsSpace(input[i]) {
      SkipSound(input, i + 1);
      var r := Skip(input, i);
      assert input[i..r] == [input[i]] + input[i + 1..r];
    }
  }

  /** No more white space at position j. */
  predicate EndsSpace(input: Text, j: nat) {
    j <= |input| && (j < |input| ==> !IsSpace(input[j]))
  }

  lemma {:induction false} SkipPrinted(input: Text, i: nat, space: Text)
    requires IsSpaces(space) && At(input, i, space) && EndsSpace(input, i + |space|)
    ensures i <= |input| && Skip(input, i) == i + |space|
    decreases |space|
  {
    if space != [] {
      AtIndex(input, i, space, 0);
      assert space == [space[0]] + space[1..];
      AtSplit(input, i, [space[0]], space[1..]);
      SkipPrinted(input, i + 1, space[1..]);
    }
  }

  // ---------- Strings ----------

  /** The escape that starts at position i, if it is well formed. */
  function ReadEscape(input: Text, i: nat): (r: Option<Piece>)
    requires Has(input, i, BACKSLASH)
    ensures r.Some? ==> r.value.Valid() && !r.value.Plain? && i + |r.value.Print()| <= |input|
  {
    if i + 1 >= |input| then None
    else if input[i + 1] == LETTER_U then
      if i + 6 <= |input| && IsHex(input[i + 2]) && IsHex(input[i + 3]) && IsHex(input[i + 4]) && IsHex(input[i + 5]) then
        Some(Hex(input[i + 2], input[i + 3], input[i + 4], input[i + 5]))
      else None
    else if Short(input[i + 1]).Valid() then Some(Short(input[i + 1]))
    else None
  }

  /** The piece that starts at position i, when it is not the closing quotation mark. */
  function ReadPiece(input: Text, i: nat): Option<Piece>
    requires i < |input|
  {
    if input[i] == BACKSLASH then ReadEscape(input, i)
    else if input[i] >= 0x20 then Some(Plain(input[i]))
    else None
  }

  /** The pieces from position i up to, and not including, the closing quotation mark. */
  function ReadPieces(input: Text, i: nat): (r: Option<(seq<Piece>, nat)>)
    ensures r.Some? ==> i <= r.value.1 < |input|
    decreases |input| - i
  {
    if i >= |input| then None
    else if input[i] == QUOTE then Some(([], i))
    else
      match ReadPiece(input, i)
      case None => None
      case Some(piece) =>
        match ReadPieces(input, i + |piece.Print()|)
        case None => None
        case Some((rest, end)) => Some(([piece] + rest, end))
  }

  lemma {:induction false} ReadPiecesSound(input: Text, i: nat)
    requires ReadPieces(input, i).Some?
    ensures var (ps, end) := ReadPieces(input, i).value;
            && ValidPieces(ps) && At(input, i, PrintPieces(ps))
            && end == i + |PrintPieces(ps)| && Has(input, end, QUOTE)
    decreases |input| - i
  {
    if input[i] != QUOTE {
      var piece := ReadPiece(input, i).value;
      var j := i + |piece.Print()|;
      var rest := ReadPieces(input, j).value.0;
      ReadPiecesSound(input, j);
      ReadPieceSound(input, i);
      PiecesJoin(input, i, piece, rest);
    }
  }

  lemma PiecesJoin(input: Text, i: nat, p: Piece, rest: seq<Piece>)
    requires At(input, i, p.Print()) && At(input, i + |p.Print()|, PrintPieces(rest))
    ensures At(input, i, PrintPieces([p] + rest)) && |PrintPieces([p] + rest)| == |p.Print()| + |PrintPieces(rest)|
  {
    AtSplit(input, i, p.Print(), PrintPieces(rest));
    assert ([p] + rest)[1..] == rest;
  }

  lemma ReadPieceSound(input: Text, i: nat)
    requires i < |input| && input[i] != QUOTE && ReadPiece(input, i).Some?
    ensures ReadPiece(input, i).value.Valid() && At(input, i, ReadPiece(input, i).value.Print())
  {
    var p := ReadPiece(input, i).value;
    AtUnits(input, i, p.Print());
  }

  lemma PiecesHead(input: Text, i: nat, p: Piece, rest: seq<Piece>)
    requires p.Valid() && At(input, i, p.Print() + PrintPieces(rest))
    ensures i < |input| && input[i] != QUOTE && ReadPiece(input, i) == Some(p)
    ensures At(input, i + |p.Print()|, PrintPieces(rest))
  {
    AtSplit(input, i, p.Print(), PrintPieces(rest));
    PieceAt(input, i, p);
  }

  /** Printed pieces up to the quote at end. */
  predicate PiecesAt(input: Text, i: nat, ps: seq<Piece>, end: nat) {
    ValidPieces(ps) && At(input, i, PrintPieces(ps)) && end == i + |PrintPieces(ps)| && Has(input, end, QUOTE)
  }

  lemma PiecesTail(input: Text, i: nat, ps: seq<Piece>, end: nat)
    requires ps != [] && PiecesAt(input, i, ps, end)
    ensures i < |input| && input[i] != QUOTE && ReadPiece(input, i) == Some(ps[0])
    ensures PiecesAt(input, i + |ps[0].Print()|, ps[1..], end)
  {
    PiecesHead(input, i, ps[0], ps[1..]);
  }

  lemma ReadPiecesStep(input: Text, i: nat, ps: seq<Piece>, end: nat)
    requires ps != [] && i < |input| && input[i] != QUOTE && ReadPiece(input, i) == Some(ps[0])
    requires ReadPieces(input, i + |ps[0].Print()|) == Some((ps[1..], end))
    ensures ReadPieces(input, i) == Some((ps, end))
  {
    assert ps == [ps[0]] + ps[1..];
  }

  lemma {:induction false} ReadPiecesPrinted(input: Text, i: nat, ps: seq<Piece>, end: nat)
    requires PiecesAt(input, i, ps, end)
    ensures ReadPieces(input, i) == Some((ps, end))
    decreases |ps|
  {
    if ps != [] {
      PiecesTail(input, i, ps, end);
      ReadPiecesPrinted(input, i + |ps[0].Print()|, ps[1..], end);
      ReadPiecesStep(input, i, ps, end);
    }
  }

  lemma PieceAt(input: Text, i: nat, p: Piece)
    requires p.Valid() && At(input, i, p.Print())
    ensures i < |input| && input[i] != QUOTE && ReadPiece(input, i) == Some(p)
  {
    var t := p.Print();
    AtIndex(input, i, t, 0);
    if !p.Plain? {
      AtIndex(input, i, t, 1);
    }
    if p.Hex? {
      AtIndex(input, i, t, 2);
      AtIndex(input, i, t, 3);
      AtIndex(input, i, t, 4);
      AtIndex(input, i, t, 5);
    }
  }

  function ReadString(input: Text, i: nat): (r: Option<(seq<Piece>, nat)>)
    ensures r.Some? ==> i < r.value.1 <= |input|
  {
    if !Has(input, i, QUOTE) then None
    else
      match ReadPieces(input, i + 1)
      case None => None
      case Some((ps, end)) => Some((ps, end + 1))
  }

  lemma ReadStringSound(input: Text, i: nat)
    requires ReadString(input, i).Some?
    ensures var (ps, end) := ReadString(input, i).value;
            ValidPieces(ps) && At(input, i, PrintString(ps)) && end == i + |PrintString(ps)|
  {
    ReadPiecesSound(input, i + 1);
    StringAssembled(input, i, ReadString(input, i).value.0);
  }

  lemma ReadStringPrinted(input: Text, i: nat, ps: seq<Piece>)
    requires ValidPieces(ps) && At(input, i, PrintString(ps))
    ensures ReadString(input, i) == Some((ps, i + |PrintString(ps)|))
  {
    StringParts(input, i, ps);
    ReadPiecesPrinted(input, i + 1, ps, i + 1 + |PrintPieces(ps)|);
  }

  lemma StringParts(input: Text, i: nat, ps: seq<Piece>)
    requires At(input, i, PrintString(ps))
    ensures Has(input, i, QUOTE) && At(input, i + 1, PrintPieces(ps)) && Has(input, i + 1 + |PrintPieces(ps)|, QUOTE)
  {
    AtSplit(input, i, [QUOTE] + PrintPieces(ps), [QUOTE]);
    AtSplit(input, i, [QUOTE], PrintPieces(ps));
    AtUnit(input, i, QUOTE);
    AtUnit(input, i + 1 + |PrintPieces(ps)|, QUOTE);
  }

  lemma StringAssembled(input: Text, i: nat, ps: seq<Piece>)
    requires Has(input, i, QUOTE) && At(input, i + 1, PrintPieces(ps)) && Has(input, i + 1 + |PrintPieces(ps)|, QUOTE)
    ensures At(input, i, PrintString(ps))
  {
    AtUnit(input, i, QUOTE);
    AtUnit(input, i + 1 + |PrintPieces(ps)|, QUOTE);
    AtSplit(input, i, [QUOTE], PrintPieces(ps));
    AtSplit(input, i, [QUOTE] + PrintPieces(ps), [QUOTE]);
  }

  // ---------- Literals and numbers ----------

  predicate IsDelimiter(u: CodeUnit) {
    u == COMMA || u == CLOSE_BRACKET || u == CLOSE_BRACE || IsSpace(u)
  }

  /** The end of the run of characters that are neither structural closers, commas nor white space. */
  function PrimitiveEnd(input: Text, i: nat): (r: nat)
    requires i <= |input|
    ensures i <= r <= |input|
    ensures forall k :: i <= k < r ==> !IsDelimiter(input[k])
    ensures r < |input| ==> IsDelimiter(input[r])
    decreases |input| - i
  {
    if i < |input| && !IsDelimiter(input[i]) then PrimitiveEnd(input, i + 1) else i
  }

  function PrimitiveOf(lexeme: Text): (r: Option<Value>)
    ensures r.Some? ==> ValidValue(r.value) && PrintValue(r.value) == lexeme
  {
    if lexeme == NULL then Some(Value.Null)
    else if lexeme == TRUE then Some(Value.True)
    else if lexeme == FALSE then Some(Value.False)
    else if IsNumber(lexeme) then Some(Value.Number(lexeme))
    else None
  }

  predicate IsPrimitive(v: Value) {
    v.Null? || v.True? || v.False? || v.Number?
  }

  /** Characters of a number: digits, signs, the point and the exponent letters. */
  predicate NumberUnit(u: CodeUnit) {
    IsDigit(u) || u == 0x2d || u == 0x2b || u == 0x2e || u == 0x65 || u == 0x45
  }

  lemma NumberUnits(t: Text)
    requires IsNumber(t)
    ensures |t| >= 1 && (t[0] == 0x2d || IsDigit(t[0]))
    ensures forall k :: 0 <= k < |t| ==> NumberUnit(t[k])
  {
    var s, i, f :| 0 <= s <= i <= f <= |t| && NumberParts(t, s, i, f);
    assert t[s..i][0] == t[s];
    forall k | 0 <= k < |t| ensures NumberUnit(t[k]) {
      if k < s {
        assert t[..s][k] == t[k];
      } else if k < i {
        assert t[s..i][k - s] == t[k];
      } else if k < f {
        FractionUnits(t[i..f], k - i);
      } else {
        ExponentUnits(t[f..], k - f);
      }
    }
  }

  lemma FractionUnits(t: Text, k: nat)
    requires IsFraction(t) && k < |t|
    ensures NumberUnit(t[k])
  {
    if k > 0 {
      assert t[1..][k - 1] == t[k];
    }
  }

  lemma ExponentUnits(t: Text, k: nat)
    requires IsExponent(t) && k < |t|
    ensures NumberUnit(t[k])
  {
    if IsDigits(t[1..]) {
      if k > 0 {
        assert t[1..][k - 1] == t[k];
      }
    } else if k > 1 {
      assert t[2..][k - 2] == t[k];
    }
  }

  /** A primitive prints a non-empty text without delimiters that starts with none of the structural characters. */
  lemma PrimitiveShape(v: Value)
    requires ValidValue(v) && IsPrimitive(v)
    ensures var t := PrintValue(v);
            && t != []
            && (forall k :: 0 <= k < |t| ==> !IsDelimiter(t[k]))
            && t[0] != OPEN_BRACE && t[0] != OPEN_BRACKET && t[0] != QUOTE
    ensures PrimitiveOf(PrintValue(v)) == Some(v)
  {
    if v.Number? {
      NumberUnits(v.lexeme);
    }
  }

  lemma PrimitiveEndPrinted(input: Text, i: nat, t: Text)
    requires At(input, i, t) && forall k :: 0 <= k < |t| ==> !IsDelimiter(t[k])
    requires i + |t| < |input| ==> IsDelimiter(input[i + |t|])
    ensures PrimitiveEnd(input, i) == i + |t|
  {
    var r, j := PrimitiveEnd(input, i), i + |t|;
    if r < j {
      AtIndex(input, i, t, r - i);
    }
  }
}
