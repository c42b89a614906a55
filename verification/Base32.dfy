/** The site selector: unpadded lower-case base32 (section 6 of RFC 4648) of a site identifier. */
module Base32 {
  import opened Text
  import opened Bits
  import opened Unicode
  import Identifiers

  // ---------- Numbers written with letters and with octets ----------

  function Letter(d: nat): CodeUnit
    requires d < 32
  {
    if d < 26 then 0x61 + d else 0x32 + (d - 26)
  }

  /** [a-z2-7] */
  predicate IsLetter(u: CodeUnit) {
    0x61 <= u <= 0x7a || 0x32 <= u <= 0x37
  }

  predicate AllLetters(t: Text) {
    forall i :: 0 <= i < |t| ==> IsLetter(t[i])
  }

  function LetterValue(u: CodeUnit): (d: nat)
    requires IsLetter(u)
    ensures d < 32
  {
    if u >= 0x61 then u - 0x61 else u - 0x32 + 26
  }

  function Value32(t: Text): nat
    requires AllLetters(t)
  {
    if t == [] then 0 else Value32(t[..|t| - 1]) * 32 + LetterValue(t[|t| - 1])
  }

  function Value256(bs: seq<Byte>): nat {
    if bs == [] then 0 else Value256(bs[..|bs| - 1]) * 256 + bs[|bs| - 1]
  }

  /** The m low digits of a number, most significant first. */
  function Letters(v: nat, m: nat): (t: Text)
    ensures |t| == m
    decreases m
  {
    if m == 0 then [] else Letters(v / 32, m - 1) + [Letter(v % 32)]
  }

  function Octets256(v: nat, n: nat): (bs: seq<Byte>)
    ensures |bs| == n
    decreases n
  {
    if n == 0 then [] else Octets256(v / 256, n - 1) + [v % 256]
  }

  /** A digit below the base appended to a number. */
  lemma Pushed(f: nat, d: nat, base: nat, p: nat)
    requires f < p && d < base
    ensures f * base + d < base * p
    ensures (f * base + d) / base == f && (f * base + d) % base == d
  {
    DivModUnique(f * base + d, base, f, d);
    StepsApart(p, f, base);
  }

  lemma FiveBits(k: nat)
    ensures Pow2(5 * (k + 1)) == 32 * Pow2(5 * k)
  {
    Pow2Sum(5, 5 * k);
    Pow2Values();
  }

  lemma EightBits(k: nat)
    ensures Pow2(8 * (k + 1)) == 256 * Pow2(8 * k)
  {
    Pow2Sum(8, 8 * k);
    Pow2Values();
  }

  lemma {:induction false} ValueAppend(output: Text, d: nat)
    requires AllLetters(output) && d < 32
    ensures AllLetters(output + [Letter(d)]) && Value32(output + [Letter(d)]) == Value32(output) * 32 + d
  {
    var t := output + [Letter(d)];
    assert t[..|t| - 1] == output;
    assert LetterValue(Letter(d)) == d;
  }

  lemma TimesMonotone(j: nat, k: nat, p: nat)
    ensures j <= k ==> j * p <= k * p
  {
    if j <= k {
      assert (k - j) * p >= 0;
    }
  }

  lemma QuotientBound(v: nat, base: nat, p: nat)
    requires base > 0 && v < base * p
    ensures 0 <= v / base < p && v == v / base * base + v % base
  {
    TimesMonotone(p, v / base, base);
  }

  lemma {:induction false} LettersValue(v: nat, m: nat)
    requires v < Pow2(5 * m)
    ensures AllLetters(Letters(v, m)) && Value32(Letters(v, m)) == v
    decreases m
  {
    if m > 0 {
      FiveBits(m - 1);
      QuotientBound(v, 32, Pow2(5 * (m - 1)));
      LettersValue(v / 32, m - 1);
      ValueAppend(Letters(v / 32, m - 1), v % 32);
    }
  }

  lemma LettersPush(v: nat, d: nat, m: nat)
    requires d < 32
    ensures Letters(v * 32 + d, m + 1) == Letters(v, m) + [Letter(d)]
  {
    DivModUnique(v * 32 + d, 32, v, d);
  }

  lemma {:induction false} ValueLetters(t: Text)
    requires AllLetters(t)
    ensures Value32(t) < Pow2(5 * |t|) && Letters(Value32(t), |t|) == t
  {
    if t != [] {
      var front, d := t[..|t| - 1], LetterValue(t[|t| - 1]);
      ValueLetters(front);
      FiveBits(|front|);
      Pushed(Value32(front), d, 32, Pow2(5 * |front|));
      LettersPush(Value32(front), d, |front|);
      assert Letter(d) == t[|t| - 1] && t == front + [Letter(d)];
    }
  }

  lemma OctetsPush(v: nat, d: Byte, n: nat)
    ensures Octets256(v * 256 + d, n + 1) == Octets256(v, n) + [d]
  {
    DivModUnique(v * 256 + d, 256, v, d);
  }

  lemma {:induction false} ValueOctets(bs: seq<Byte>)
    ensures Value256(bs) < Pow2(8 * |bs|) && Octets256(Value256(bs), |bs|) == bs
  {
    if bs != [] {
      var front, d := bs[..|bs| - 1], bs[|bs| - 1];
      ValueOctets(front);
      EightBits(|front|);
      Pushed(Value256(front), d, 256, Pow2(8 * |front|));
      OctetsPush(Value256(front), d, |front|);
      assert bs == front + [d];
    }
  }

  // ---------- RFC 4648 ----------

  /** ceil(8n / 5) letters carry n octets. */
  function EncodedLength(n: nat): (m: nat)
    ensures 8 * n <= 5 * m < 8 * n + 5
  {
    (8 * n + 4) / 5
  }

  /** The whole octets in m letters. */
  function DecodedLength(m: nat): (n: nat)
    ensures 8 * n <= 5 * m < 8 * n + 8
  {
    5 * m / 8
  }

  /** The octets as one bit string, filled with zero bits to a multiple of five, five bits a letter. */
  function Encode(bs: seq<Byte>): (t: Text)
    ensures |t| == EncodedLength(|bs|)
  {
    var m := EncodedLength(|bs|);
    Letters(Value256(bs) * Pow2(5 * m - 8 * |bs|), m)
  }

  /** The whole octets in the bits of the letters. */
  function Decode(t: Text): seq<Byte>
    requires AllLetters(t)
  {
    var n := DecodedLength(|t|);
    Octets256(Quotient(Value32(t), Pow2(5 * |t| - 8 * n)), n)
  }

  function Quotient(a: nat, d: nat): nat
    requires d > 0
  {
    a / d
  }

  lemma PaddedBound(v: nat, n: nat, pad: nat)
    requires v < Pow2(8 * n)
    ensures v * Pow2(pad) < Pow2(8 * n + pad) && v * Pow2(pad) / Pow2(pad) == v
  {
    Pow2Sum(8 * n, pad);
    StepsApart(Pow2(8 * n), v, Pow2(pad));
    DivModUnique(v * Pow2(pad), Pow2(pad), v, 0);
  }

  lemma PaddedLetters(v: nat, p: nat, bits: nat, m: nat)
    requires bits == 5 * m && v * p < Pow2(bits)
    ensures AllLetters(Letters(v * p, m)) && Value32(Letters(v * p, m)) == v * p
  {
    LettersValue(v * p, m);
  }

  /** The letters hold the octets, followed by the padding bits. */
  lemma EncodedValue(bs: seq<Byte>, n: nat, m: nat, pad: nat)
    requires n == |bs| && m == EncodedLength(n) && pad == 5 * m - 8 * n
    ensures AllLetters(Encode(bs)) && Quotient(Value32(Encode(bs)), Pow2(pad)) == Value256(bs) < Pow2(8 * n)
  {
    ValueOctets(bs);
    PaddedBound(Value256(bs), n, pad);
    PaddedLetters(Value256(bs), Pow2(pad), 8 * n + pad, m);
  }

  /** Decoding gives back the octets. */
  lemma DecodeInvertsEncode(bs: seq<Byte>)
    ensures AllLetters(Encode(bs)) && Decode(Encode(bs)) == bs
  {
    var n, m := |bs|, EncodedLength(|bs|);
    EncodedValue(bs, n, m, 5 * m - 8 * n);
    ValueOctets(bs);
    assert DecodedLength(m) == n;
  }

  // ---------- The bit buffer ----------

  /** The letters written so far and the bits still in the buffer hold the octets read so far. */
  predicate Holds(output: Text, buffer: nat, bits: nat, v: nat, total: nat) {
    && AllLetters(output) && 5 * |output| + bits == total
    && buffer < Pow2(bits)
    && Value32(output) * Pow2(bits) + buffer == v
  }

  /** (buffer << 8) | byte */
  lemma Appended(output: Text, buffer: nat, bits: nat, v: nat, total: nat, byte: Byte)
    requires Holds(output, buffer, bits, v, total)
    ensures Or(buffer * Pow2(8), byte) == buffer * 256 + byte
    ensures Holds(output, buffer * 256 + byte, bits + 8, v * 256 + byte, total + 8)
  {
    Pow2Values();
    OrConcatenates(buffer, byte, 8);
    Pow2Sum(8, bits);
    var w := Value32(output);
    assert w * Pow2(bits + 8) == w * Pow2(bits) * 256 by {
      Regroup(w, Pow2(bits), 256);
    }
  }

  lemma Regroup(a: nat, b: nat, c: nat)
    ensures a * (c * b) == a * b * c
  {
  }

  /** One letter taken from the top five bits of the buffer. */
  lemma Taken(output: Text, buffer: nat, bits: nat, v: nat, total: nat)
    requires Holds(output, buffer, bits, v, total) && bits >= 5
    ensures var rest := bits - 5;
            && buffer / Pow2(rest) < 32
            && Holds(output + [Letter(buffer / Pow2(rest))], buffer % Pow2(rest), rest, v, total)
  {
    var rest := bits - 5;
    var p := Pow2(rest);
    Pow2Sum(5, rest);
    Pow2Values();
    TakenArithmetic(Value32(output), buffer, p);
    ValueAppend(output, buffer / p);
  }

  lemma TakenArithmetic(w: nat, buffer: nat, p: nat)
    requires p > 0 && buffer < 32 * p
    ensures buffer / p < 32 && 0 <= buffer % p < p
    ensures (w * 32 + buffer / p) * p + buffer % p == w * (32 * p) + buffer
  {
    var d, r := buffer / p, buffer % p;
    assert buffer == d * p + r;
    TimesMonotone(32, d, p);
    assert (w * 32 + d) * p == w * 32 * p + d * p;
    assert w * 32 * p == w * (32 * p);
  }

  /** x & 31 */
  lemma LowFive(x: nat)
    ensures And(x, 31) == x % 32
  {
    assert Pow2(5) == 32 by { Pow2Values(); }
    AndMask(x, 5);
  }

  /** (buffer >>> bits) & 31 and buffer &= (1 << bits) - 1, where the mask is 0 for no bits. */
  lemma MasksTake(buffer: nat, bits: nat)
    ensures ShiftRight(buffer, bits) == buffer / Pow2(bits)
    ensures And(ShiftRight(buffer, bits), 31) == ShiftRight(buffer, bits) % 32
    ensures And(buffer, if bits == 0 then 0 else Pow2(bits) - 1) == buffer % Pow2(bits)
  {
    ShiftRightDivides(buffer, bits);
    LowFive(ShiftRight(buffer, bits));
    AndMask(buffer, bits);
  }

  /** The letters that fit in the buffer, and what is left: always fewer than five bits. */
  method Drain(output: Text, buffer: nat, bits: nat, ghost v: nat, ghost total: nat)
    returns (text: Text, rest: nat, left: nat)
    requires Holds(output, buffer, bits, v, total)
    ensures Holds(text, rest, left, v, total) && left < 5
  {
    text, rest, left := output, buffer, bits;
    while left >= 5
      invariant Holds(text, rest, left, v, total)
    {
      Taken(text, rest, left, v, total);
      var d: nat;
      d, rest, left := TopFive(rest, left);
      text := text + [Letter(d)];
    }
  }

  lemma TopFiveBits(buffer: nat, left: nat)
    requires buffer < Pow2(left + 5)
    ensures And(ShiftRight(buffer, left), 31) == buffer / Pow2(left) < 32
    ensures And(buffer, if left == 0 then 0 else Pow2(left) - 1) == buffer % Pow2(left)
  {
    MasksTake(buffer, left);
    FiveMore(left);
    TakenArithmetic(0, buffer, Pow2(left));
    SmallMod(ShiftRight(buffer, left));
  }

  lemma FiveMore(left: nat)
    ensures Pow2(left + 5) == 32 * Pow2(left)
  {
    Pow2Sum(5, left);
    Pow2Values();
  }

  lemma SmallMod(q: nat)
    requires q < 32
    ensures q % 32 == q
  {
  }

  method TopFive(buffer: nat, bits: nat) returns (d: nat, rest: nat, left: nat)
    requires bits >= 5 && buffer < Pow2(bits)
    ensures left == bits - 5 && d == buffer / Pow2(left) && d < 32 && rest == buffer % Pow2(left)
  {
    left := bits - 5;
    TopFiveBits(buffer, left);
    d := And(ShiftRight(buffer, left), 31);
    rest := And(buffer, if left == 0 then 0 else Pow2(left) - 1);
  }

  /** (buffer << (5 - bits)) & 31 fills the last letter with zero bits. */
  lemma Filled(output: Text, buffer: nat, bits: nat, v: nat, total: nat)
    requires Holds(output, buffer, bits, v, total) && 0 < bits < 5
    ensures var d := And(buffer * Pow2(5 - bits), 31);
            && d < 32 && AllLetters(output + [Letter(d)])
            && Value32(output + [Letter(d)]) == v * Pow2(5 - bits)
  {
    var fill := 5 - bits;
    var x := buffer * Pow2(fill);
    assert Pow2(bits) * Pow2(fill) == 32 by {
      Pow2Sum(bits, fill);
      Pow2Values();
    }
    FilledArithmetic(Value32(output), buffer, Pow2(bits), Pow2(fill));
    KeptWhole(x);
    ValueAppend(output, x);
  }

  lemma KeptWhole(x: nat)
    requires x < 32
    ensures And(x, 31) == x
  {
    LowFive(x);
    SmallMod(x);
  }

  lemma FilledArithmetic(w: nat, buffer: nat, p: nat, q: nat)
    requires buffer < p && p * q == 32
    ensures buffer * q < 32
    ensures (w * p + buffer) * q == w * 32 + buffer * q
  {
    assert q > 0;
    StepsApart(p, buffer, q);
    assert w * p * q == w * (p * q);
  }

  /** Letters that hold the octets and fewer than five zero bits are the encoding. */
  lemma Finished(output: Text, bytes: seq<Byte>)
    requires AllLetters(output) && 8 * |bytes| <= 5 * |output| < 8 * |bytes| + 5
    requires Value32(output) == Value256(bytes) * Pow2(5 * |output| - 8 * |bytes|)
    ensures output == Encode(bytes)
  {
    assert |output| == EncodedLength(|bytes|);
    ValueLetters(output);
  }

  /** One octet in, one or two letters out. */
  method ReadOctet(output: Text, buffer: nat, bits: nat, bytes: seq<Byte>, i: nat)
    returns (text: Text, rest: nat, left: nat)
    requires i < |bytes| && Holds(output, buffer, bits, Value256(bytes[..i]), 8 * i)
    ensures Holds(text, rest, left, Value256(bytes[..i + 1]), 8 * (i + 1)) && left < 5
  {
    ghost var v := Value256(bytes[..i]);
    ghost var next := Value256(bytes[..i + 1]);
    ValueNext(bytes, i);
    Appended(output, buffer, bits, v, 8 * i, bytes[i]);
    text, rest, left := Drain(output, Or(buffer * Pow2(8), bytes[i]), bits + 8, next, 8 * (i + 1));
  }

  method Flush(output: Text, buffer: nat, bits: nat, ghost bytes: seq<Byte>) returns (text: Text)
    requires Holds(output, buffer, bits, Value256(bytes[..|bytes|]), 8 * |bytes|) && bits < 5
    ensures text == Encode(bytes)
  {
    assert bytes[..|bytes|] == bytes;
    text := output;
    if bits > 0 {
      Filled(output, buffer, bits, Value256(bytes), 8 * |bytes|);
      text := text + [Letter(And(buffer * Pow2(5 - bits), 31))];
    }
    Finished(text, bytes);
  }

  lemma ValueNext(bytes: seq<Byte>, i: nat)
    requires i < |bytes|
    ensures Value256(bytes[..i + 1]) == Value256(bytes[..i]) * 256 + bytes[i]
  {
    assert bytes[..i + 1][..i] == bytes[..i];
  }

  lemma NothingRead(bytes: seq<Byte>)
    ensures Holds([], 0, 0, Value256(bytes[..0]), 0)
  {
    assert bytes[..0] == [];
  }

  /** The octets of the identifier, eight bits in, five bits out. */
  method EncodeSiteSecretComponent(bytes: seq<Byte>) returns (output: Text)
    ensures output == Encode(bytes)
  {
    var buffer: nat, bits: nat := 0, 0;
    output := [];
    NothingRead(bytes);
    for i := 0 to |bytes|
      invariant Holds(output, buffer, bits, Value256(bytes[..i]), 8 * i) && bits < 5
    {
      output, buffer, bits := ReadOctet(output, buffer, bits, bytes, i);
    }
    output := Flush(output, buffer, bits, bytes);
  }

  // ---------- The selector ----------

  /** ROVAULTA_CONFIDENTIAL_EVALUATION_INPUT */
  const CONFIDENTIAL_INPUT_SECRET_ID: Text := Ascii("ROVAULTA_CONFIDENTIAL_EVALUATION_INPUT")

  const SELECTOR_PREFIX: Text := CONFIDENTIAL_INPUT_SECRET_ID + Ascii("_site_")

  /** ^ROVAULTA_CONFIDENTIAL_EVALUATION_INPUT_site_[a-z2-7]{1,160}$ */
  predicate IsSelector(t: Text) {
    && |t| > |SELECTOR_PREFIX| && t[..|SELECTOR_PREFIX|] == SELECTOR_PREFIX
    && AllLetters(t[|SELECTOR_PREFIX|..]) && |t| - |SELECTOR_PREFIX| <= 160
  }

  predicate ValidSiteId(siteId: Text) {
    Identifiers.ValidIdentifier(Identifiers.SITE, siteId)
  }

  lemma SiteIdAscii(siteId: Text)
    requires ValidSiteId(siteId)
    ensures 6 <= |siteId| <= 69 && forall i :: 0 <= i < |siteId| ==> siteId[i] < 0x80
  {
    var token := siteId[5..];
    forall i | 0 <= i < |siteId| ensures siteId[i] < 0x80 {
      if i < 4 {
        assert siteId[i] == siteId[..4][i];
      } else if i > 4 {
        assert siteId[i] == token[i - 5];
      }
    }
  }

  lemma {:induction false} AsciiOctets(t: Text)
    requires forall i :: 0 <= i < |t| ==> t[i] < 0x80
    ensures WellFormed(t) && Octets(t) == t
  {
    if t != [] {
      AsciiOctets(t[1..]);
      NextScalar(t);
      assert t == [t[0]] + t[1..];
    }
  }

  function SiteSecretId(siteId: Text): Option<Text> {
    if ValidSiteId(siteId) then
      SiteIdAscii(siteId);
      AsciiOctets(siteId);
      Some(SELECTOR_PREFIX + Encode(Octets(siteId)))
    else None
  }

  /** Every site has a selector the request parser accepts, at most 111 letters long. */
  lemma SelectorAccepted(siteId: Text)
    requires ValidSiteId(siteId)
    ensures SiteSecretId(siteId).Some? && IsSelector(SiteSecretId(siteId).value)
    ensures |SiteSecretId(siteId).value| - |SELECTOR_PREFIX| <= 111
  {
    SiteIdAscii(siteId);
    AsciiOctets(siteId);
    var code := Encode(Octets(siteId));
    DecodeInvertsEncode(Octets(siteId));
    var t := SELECTOR_PREFIX + code;
    assert t[..|SELECTOR_PREFIX|] == SELECTOR_PREFIX && t[|SELECTOR_PREFIX|..] == code;
  }

  /** Different sites have different selectors. */
  lemma SelectorsDistinct(a: Text, b: Text)
    requires ValidSiteId(a) && ValidSiteId(b) && SiteSecretId(a) == SiteSecretId(b)
    ensures a == b
  {
    SiteIdAscii(a);
    SiteIdAscii(b);
    AsciiOctets(a);
    AsciiOctets(b);
    var x, y := Encode(Octets(a)), Encode(Octets(b));
    assert x == (SELECTOR_PREFIX + x)[|SELECTOR_PREFIX|..] == (SELECTOR_PREFIX + y)[|SELECTOR_PREFIX|..] == y;
    DecodeInvertsEncode(Octets(a));
    DecodeInvertsEncode(Octets(b));
  }
}
