/** UTF-16 as JavaScript strings hold it, and UTF-8 as section 3 of RFC 3629 defines it. */
module Unicode {
  import opened Text
  import opened Bits

  type Byte = x: int | 0 <= x < 256

  predicate IsHigh(u: int) { 0xd800 <= u <= 0xdbff }

  predicate IsLow(u: int) { 0xdc00 <= u <= 0xdfff }

  /** A Unicode scalar value: any code point that is not a surrogate. */
  type Scalar = c: int | 0 <= c < 0x11_0000 && !(0xd800 <= c <= 0xdfff)

  // ---------- UTF-16 ----------

  function Units(c: Scalar): Text {
    if c < 0x1_0000 then [c]
    else [0xd800 + (c - 0x1_0000) / 1024, 0xdc00 + (c - 0x1_0000) % 1024]
  }

  /** The scalar value of a surrogate pair. */
  function Join(high: int, low: int): (c: int)
    requires IsHigh(high) && IsLow(low)
    ensures 0x1_0000 <= c < 0x11_0000
  {
    0x1_0000 + (high - 0xd800) * 1024 + (low - 0xdc00)
  }

  function Utf16(cs: seq<Scalar>): Text {
    if cs == [] then [] else Units(cs[0]) + Utf16(cs[1..])
  }

  /** The scalar values of a text, when all its surrogates are paired. */
  function Scalars(t: Text): Option<seq<Scalar>> {
    if t == [] then Some([])
    else if IsHigh(t[0]) then
      if |t| >= 2 && IsLow(t[1]) then
        match Scalars(t[2..])
        case None => None
        case Some(rest) => Some([Join(t[0], t[1])] + rest)
      else None
    else if IsLow(t[0]) then None
    else
      match Scalars(t[1..])
      case None => None
      case Some(rest) => Some([t[0]] + rest)
  }

  predicate WellFormed(t: Text) {
    Scalars(t).Some?
  }

  lemma ScalarsStep(c: Scalar, rest: Text)
    ensures Scalars(Units(c) + rest) ==
              match Scalars(rest)
              case None => None
              case Some(cs) => Some([c] + cs)
  {
    var t := Units(c) + rest;
    assert t[|Units(c)|..] == rest;
    assert t[0] == Units(c)[0];
    if c >= 0x1_0000 {
      assert t[1] == Units(c)[1];
      assert c == Join(t[0], t[1]);
    }
  }

  lemma {:induction false} ScalarsInvertsUtf16(cs: seq<Scalar>)
    ensures Scalars(Utf16(cs)) == Some(cs)
  {
    if cs != [] {
      ScalarsInvertsUtf16(cs[1..]);
      ScalarsStep(cs[0], Utf16(cs[1..]));
      assert cs == [cs[0]] + cs[1..];
    }
  }

  lemma {:induction false} Utf16InvertsScalars(t: Text)
    requires WellFormed(t)
    ensures Utf16(Scalars(t).value) == t
  {
    if t != [] {
      var n := if IsHigh(t[0]) then 2 else 1;
      Utf16InvertsScalars(t[n..]);
      var cs := Scalars(t).value;
      assert cs[1..] == Scalars(t[n..]).value;
      assert t == t[..n] + t[n..];
    }
  }

  /** A text is well formed iff it is the UTF-16 form of some scalar values. */
  lemma WellFormedMeaning(t: Text)
    ensures WellFormed(t) <==> exists cs :: Utf16(cs) == t
  {
    if WellFormed(t) {
      Utf16InvertsScalars(t);
    }
    if exists cs :: Utf16(cs) == t {
      var cs :| Utf16(cs) == t;
      ScalarsInvertsUtf16(cs);
    }
  }

  lemma {:induction false} WellFormedConcat(a: Text, b: Text)
    requires WellFormed(a) && WellFormed(b)
    ensures WellFormed(a + b)
  {
    if a == [] {
      assert a + b == b;
    } else {
      var n := if IsHigh(a[0]) then 2 else 1;
      WellFormedConcat(a[n..], b);
      assert (a + b)[n..] == a[n..] + b;
    }
  }

  lemma {:induction false} NoSurrogatesWellFormed(t: Text)
    requires forall i :: 0 <= i < |t| ==> t[i] < 0xd800
    ensures WellFormed(t)
  {
    if t != [] {
      NoSurrogatesWellFormed(t[1..]);
    }
  }

  // ---------- UTF-8 ----------

  function Bytes(c: Scalar): (r: seq<Byte>)
    ensures 1 <= |r| <= 4
  {
    if c <= 0x7f then [c]
    else if c <= 0x7ff then [0xc0 + c / 64, 0x80 + c % 64]
    else if c <= 0xffff then [0xe0 + c / 4096, 0x80 + c / 64 % 64, 0x80 + c % 64]
    else [0xf0 + c / 262144, 0x80 + c / 4096 % 64, 0x80 + c / 64 % 64, 0x80 + c % 64]
  }

  function Utf8(cs: seq<Scalar>): seq<Byte> {
    if cs == [] then [] else Bytes(cs[0]) + Utf8(cs[1..])
  }

  predicate Continuation(b: Byte) { 0x80 <= b <= 0xbf }

  /** The value carried by a continuation octet. */
  function Carried(b: Byte): int
  {
    b - 0x80
  }

  function DecodeTwo(a: Byte, b: Byte): Option<Scalar> {
    if 0xc2 <= a <= 0xdf && Continuation(b) then
      var c: int := (a as int - 0xc0) * 64 + Carried(b);
      Some(c)
    else None
  }

  function DecodeThree(a: Byte, b: Byte, c: Byte): Option<Scalar> {
    if 0xe0 <= a <= 0xef && Continuation(b) && Continuation(c) then
      var v: int := (a as int - 0xe0) * 4096 + Carried(b) * 64 + Carried(c);
      if 0x800 <= v && !(0xd800 <= v <= 0xdfff) then Some(v) else None
    else None
  }

  function DecodeFour(a: Byte, b: Byte, c: Byte, d: Byte): Option<Scalar> {
    if 0xf0 <= a <= 0xf4 && Continuation(b) && Continuation(c) && Continuation(d) then
      var v: int := (a as int - 0xf0) * 262144 + Carried(b) * 4096 + Carried(c) * 64 + Carried(d);
      if 0x1_0000 <= v < 0x11_0000 then Some(v) else None
    else None
  }

  /** The length announced by a leading octet, 0 for none. */
  function Announced(a: Byte): nat {
    if a <= 0x7f then 1 else if 0xc2 <= a <= 0xdf then 2 else if 0xe0 <= a <= 0xef then 3
    else if 0xf0 <= a <= 0xf4 then 4 else 0
  }

  /** One character of a UTF-8 stream, refusing overlong forms, surrogates and values out of range. */
  function DecodeOne(bs: seq<Byte>): Option<Scalar>
    requires bs != []
  {
    var n := Announced(bs[0]);
    if n == 0 || |bs| < n then None
    else if n == 1 then Some(bs[0])
    else if n == 2 then DecodeTwo(bs[0], bs[1])
    else if n == 3 then DecodeThree(bs[0], bs[1], bs[2])
    else DecodeFour(bs[0], bs[1], bs[2], bs[3])
  }

  function DecodeUtf8(bs: seq<Byte>): Option<seq<Scalar>>
    decreases |bs|
  {
    if bs == [] then Some([])
    else
      var n := Announced(bs[0]);
      if n == 0 || |bs| < n then None
      else
        match DecodeOne(bs)
        case None => None
        case Some(c) =>
          match DecodeUtf8(bs[n..])
          case None => None
          case Some(rest) => Some([c] + rest)
  }

  lemma TwoDigits(c: nat)
    ensures c == c / 64 * 64 + c % 64
  {
  }

  lemma ThreeDigits(c: nat)
    ensures c == c / 4096 * 4096 + c / 64 % 64 * 64 + c % 64
  {
    assert c / 64 / 64 == c / 4096;
  }

  lemma FourDigits(c: nat)
    ensures c == c / 262144 * 262144 + c / 4096 % 64 * 4096 + c / 64 % 64 * 64 + c % 64
  {
    ThreeDigits(c);
    assert c / 4096 / 64 == c / 262144;
    TwoDigits(c / 4096);
  }

  lemma DecodeTwoInverts(c: Scalar)
    requires 0x7f < c <= 0x7ff
    ensures DecodeTwo(Bytes(c)[0], Bytes(c)[1]) == Some(c)
  {
    TwoDigits(c);
  }

  lemma DecodeThreeInverts(c: Scalar)
    requires 0x7ff < c <= 0xffff
    ensures DecodeThree(Bytes(c)[0], Bytes(c)[1], Bytes(c)[2]) == Some(c)
  {
    ThreeDigits(c);
  }

  lemma DecodeFourInverts(c: Scalar)
    requires 0xffff < c
    ensures DecodeFour(Bytes(c)[0], Bytes(c)[1], Bytes(c)[2], Bytes(c)[3]) == Some(c)
  {
    FourDigits(c);
  }

  lemma AnnouncedLength(c: Scalar)
    ensures Announced(Bytes(c)[0]) == |Bytes(c)|
  {
  }

  lemma DecodeOneInvertsBytes(c: Scalar, rest: seq<Byte>)
    ensures Announced((Bytes(c) + rest)[0]) == |Bytes(c)|
    ensures DecodeOne(Bytes(c) + rest) == Some(c)
  {
    var n := |Bytes(c)|;
    var bs := Bytes(c) + rest;
    assert forall i :: 0 <= i < n ==> bs[i] == Bytes(c)[i];
    AnnouncedLength(c);
    if n == 2 {
      DecodeTwoInverts(c);
    } else if n == 3 {
      DecodeThreeInverts(c);
    } else if n == 4 {
      DecodeFourInverts(c);
    }
  }

  lemma {:induction false} DecodeInvertsUtf8(cs: seq<Scalar>)
    ensures DecodeUtf8(Utf8(cs)) == Some(cs)
  {
    if cs != [] {
      var rest := Utf8(cs[1..]);
      DecodeOneInvertsBytes(cs[0], rest);
      DecodeInvertsUtf8(cs[1..]);
      assert (Bytes(cs[0]) + rest)[|Bytes(cs[0])|..] == rest;
      assert cs == [cs[0]] + cs[1..];
    }
  }

  lemma DecodeTwoSound(a: Byte, b: Byte)
    requires DecodeTwo(a, b).Some?
    ensures Bytes(DecodeTwo(a, b).value) == [a, b]
  {
  }

  lemma LowDigit(q: nat, r: nat)
    requires r < 64
    ensures (q * 64 + r) / 64 == q && (q * 64 + r) % 64 == r
  {
  }

  lemma ThreeDigitsOf(a: nat, b: nat, c: nat)
    requires b < 64 && c < 64
    ensures var v := a * 4096 + b * 64 + c;
            v / 4096 == a && v / 64 % 64 == b && v % 64 == c
  {
    LowDigit(a * 64 + b, c);
    LowDigit(a, b);
    assert (a * 4096 + b * 64 + c) / 4096 == (a * 64 + b) / 64;
  }

  lemma FourDigitsOf(a: nat, b: nat, c: nat, d: nat)
    requires b < 64 && c < 64 && d < 64
    ensures var v := a * 262144 + b * 4096 + c * 64 + d;
            v / 262144 == a && v / 4096 % 64 == b && v / 64 % 64 == c && v % 64 == d
  {
    var v := a * 262144 + b * 4096 + c * 64 + d;
    var w := a * 4096 + b * 64 + c;
    LowDigit(w, d);
    ThreeDigitsOf(a, b, c);
    assert v / 64 == w;
    assert v / 262144 == w / 4096 && v / 4096 == w / 64;
  }

  lemma DecodeThreeSound(a: Byte, b: Byte, c: Byte)
    requires DecodeThree(a, b, c).Some?
    ensures Bytes(DecodeThree(a, b, c).value) == [a, b, c]
  {
    ThreeDigitsOf(a as int - 0xe0, Carried(b), Carried(c));
  }

  lemma DecodeFourSound(a: Byte, b: Byte, c: Byte, d: Byte)
    requires DecodeFour(a, b, c, d).Some?
    ensures Bytes(DecodeFour(a, b, c, d).value) == [a, b, c, d]
  {
    FourDigitsOf(a as int - 0xf0, Carried(b), Carried(c), Carried(d));
  }

  lemma DecodeOneSound(bs: seq<Byte>)
    requires bs != [] && DecodeOne(bs).Some?
    ensures 1 <= Announced(bs[0]) <= |bs| && Bytes(DecodeOne(bs).value) == bs[..Announced(bs[0])]
  {
    var n := Announced(bs[0]);
    if n == 2 {
      DecodeTwoSound(bs[0], bs[1]);
    } else if n == 3 {
      DecodeThreeSound(bs[0], bs[1], bs[2]);
    } else if n == 4 {
      DecodeFourSound(bs[0], bs[1], bs[2], bs[3]);
    }
  }

  lemma DecodeUtf8Step(bs: seq<Byte>)
    requires bs != [] && DecodeUtf8(bs).Some?
    ensures DecodeOne(bs).Some? && 1 <= Announced(bs[0]) <= |bs| && DecodeUtf8(bs[Announced(bs[0])..]).Some?
    ensures DecodeUtf8(bs).value == [DecodeOne(bs).value] + DecodeUtf8(bs[Announced(bs[0])..]).value
  {
  }

  lemma Utf8Step(c: Scalar, rest: seq<Scalar>)
    ensures Utf8([c] + rest) == Bytes(c) + Utf8(rest)
  {
    assert ([c] + rest)[1..] == rest;
  }

  lemma Utf8Whole(bs: seq<Byte>, n: nat, c: Scalar, rest: seq<Scalar>)
    requires n <= |bs| && Bytes(c) == bs[..n] && Utf8(rest) == bs[n..]
    ensures Utf8([c] + rest) == bs
  {
    Utf8Step(c, rest);
  }

  lemma {:induction false} DecodeUtf8Sound(bs: seq<Byte>)
    requires DecodeUtf8(bs).Some?
    ensures Utf8(DecodeUtf8(bs).value) == bs
    decreases |bs|
  {
    if bs != [] {
      DecodeUtf8Step(bs);
      DecodeOneSound(bs);
      var n := Announced(bs[0]);
      DecodeUtf8Sound(bs[n..]);
      Utf8Whole(bs, n, DecodeOne(bs).value, DecodeUtf8(bs[n..]).value);
    }
  }

  /** The strict decoder is exactly the inverse of the encoder. */
  lemma DecodeExact(bs: seq<Byte>, cs: seq<Scalar>)
    ensures DecodeUtf8(bs) == Some(cs) <==> bs == Utf8(cs)
  {
    if DecodeUtf8(bs) == Some(cs) {
      DecodeUtf8Sound(bs);
    }
    DecodeInvertsUtf8(cs);
  }

  // ---------- The bit patterns of the source ----------

  lemma LowSixBits(x: nat)
    ensures Or(0x80, And(x, 0x3f)) == 0x80 + x % 64
  {
    Pow2Values();
    AndMask(x, 6);
    OrConcatenates(2, x % 64, 6);
  }

  /** 0x80 | (x & 0x3f) */
  method Trailing(x: nat) returns (b: Byte)
    ensures b == 0x80 + x % 64
  {
    LowSixBits(x);
    b := Or(0x80, And(x, 0x3f));
  }

  /** mark | x, where the low n bits of the mark are free. */
  method Leading(mark: nat, x: nat, ghost h: nat, ghost n: nat) returns (b: nat)
    requires mark == h * Pow2(n) && x < Pow2(n)
    ensures b == mark + x
  {
    OrConcatenates(h, x, n);
    b := Or(mark, x);
  }

  method Shifted(x: nat, k: nat) returns (r: nat)
    ensures r == x / Pow2(k)
  {
    ShiftRightDivides(x, k);
    r := ShiftRight(x, k);
  }

  /** The four cases of canonicalBytes: their shifts, masks and ors are the octets of RFC 3629. */
  method EncodePoint(c: Scalar) returns (bytes: seq<Byte>)
    ensures bytes == Bytes(c)
  {
    Pow2Values();
    if c <= 0x7f {
      return [c];
    }
    var s6 := Shifted(c, 6);
    var low := Trailing(c);
    if c <= 0x7ff {
      var lead := Leading(0xc0, s6, 6, 5);
      return [lead, low];
    }
    var s12 := Shifted(c, 12);
    var middle := Trailing(s6);
    if c <= 0xffff {
      var lead := Leading(0xe0, s12, 14, 4);
      return [lead, middle, low];
    }
    var s18 := Shifted(c, 18);
    var upper := Trailing(s12);
    var lead := Leading(0xf0, s18, 30, 3);
    return [lead, upper, middle, low];
  }

  /** The scalar value at the front of a well-formed text, and what remains. */
  function FrontLength(t: Text): nat
    requires t != []
  {
    if IsHigh(t[0]) then 2 else 1
  }

  function Front(t: Text): Scalar
    requires WellFormed(t) && t != []
  {
    if IsHigh(t[0]) then Join(t[0], t[1]) else t[0]
  }

  function Octets(t: Text): seq<Byte>
    requires WellFormed(t)
  {
    Utf8(Scalars(t).value)
  }

  lemma NextScalar(t: Text)
    requires WellFormed(t) && t != []
    ensures FrontLength(t) <= |t| && WellFormed(t[FrontLength(t)..])
    ensures Octets(t) == Bytes(Front(t)) + Octets(t[FrontLength(t)..])
  {
    var n := FrontLength(t);
    var cs := Scalars(t).value;
    assert cs[1..] == Scalars(t[n..]).value;
  }

  /** The code point at an index of the text, a pair of surrogates counting as one. */
  method CodePointAt(t: Text, index: nat) returns (c: Scalar, next: nat)
    requires index < |t| && WellFormed(t[index..])
    ensures c == Front(t[index..]) && next == index + FrontLength(t[index..])
  {
    ghost var rest := t[index..];
    assert rest[0] == t[index];
    var codePoint: int := t[index];
    next := index + 1;
    if IsHigh(codePoint) {
      assert rest[1] == t[index + 1];
      var low: int := t[index + 1];
      codePoint := 0x1_0000 + (codePoint - 0xd800) * 1024 + (low - 0xdc00);
      next := index + 2;
    }
    c := codePoint;
  }

  /** The loop of canonicalBytes over the code units of a well-formed text. */
  method EncodeText(t: Text) returns (bytes: seq<Byte>)
    requires WellFormed(t)
    ensures bytes == Octets(t)
  {
    bytes := [];
    var index := 0;
    assert t[0..] == t;
    while index < |t|
      invariant 0 <= index <= |t| && WellFormed(t[index..])
      invariant bytes + Octets(t[index..]) == Octets(t)
    {
      ghost var rest := t[index..];
      NextScalar(rest);
      var c, next := CodePointAt(t, index);
      var encoded := EncodePoint(c);
      assert rest[FrontLength(rest)..] == t[next..];
      assert bytes + (encoded + Octets(t[next..])) == (bytes + encoded) + Octets(t[next..]);
      bytes := bytes + encoded;
      index := next;
    }
  }

  /** UTF-8 octets determine the text. */
  lemma BytesDetermineText(a: Text, b: Text)
    requires WellFormed(a) && WellFormed(b)
    requires Octets(a) == Octets(b)
    ensures a == b
  {
    DecodeInvertsUtf8(Scalars(a).value);
    DecodeInvertsUtf8(Scalars(b).value);
    Utf16InvertsScalars(a);
    Utf16InvertsScalars(b);
  }
}
