/** Decimal notation of integers, as String(n) and BigInt(n).toString() write it and BigInt(text) reads it. */
module Decimal {
  import opened Text

  const ZERO: CodeUnit := 0x30
  const MINUS: CodeUnit := 0x2d

  predicate IsDigit(u: CodeUnit) {
    0x30 <= u <= 0x39
  }

  predicate AllDigits(t: Text) {
    forall i :: 0 <= i < |t| ==> IsDigit(t[i])
  }

  /** Digits without a superfluous leading zero. */
  predicate Canonical(t: Text) {
    |t| >= 1 && AllDigits(t) && (t[0] == ZERO ==> |t| == 1)
  }

  function Digits(n: nat): (t: Text) {
    if n < 10 then [ZERO + n] else Digits(n / 10) + [ZERO + n % 10]
  }

  function Number(t: Text): nat
    requires AllDigits(t)
  {
    if t == [] then 0 else Number(t[..|t| - 1]) * 10 + (t[|t| - 1] - ZERO)
  }

  lemma {:induction false} DigitsCanonical(n: nat)
    ensures Canonical(Digits(n)) && Number(Digits(n)) == n
    ensures n > 0 ==> Digits(n)[0] != ZERO
  {
    if n < 10 {
      assert Number([ZERO + n]) == Number([]) * 10 + n by { assert [ZERO + n][..0] == []; }
    } else {
      DigitsCanonical(n / 10);
      var t := Digits(n);
      assert t[..|t| - 1] == Digits(n / 10);
    }
  }

  lemma NumberPush(front: Text, last: CodeUnit)
    requires AllDigits(front) && IsDigit(last)
    ensures AllDigits(front + [last]) && Number(front + [last]) == Number(front) * 10 + (last - ZERO)
  {
    assert (front + [last])[..|front|] == front;
  }

  lemma DigitsPush(n: nat, d: nat)
    requires n > 0 && d < 10
    ensures Digits(n * 10 + d) == Digits(n) + [ZERO + d]
  {
    assert (n * 10 + d) / 10 == n && (n * 10 + d) % 10 == d;
  }

  lemma {:induction false} CanonicalIsDigits(t: Text)
    requires Canonical(t)
    ensures Digits(Number(t)) == t
    ensures |t| > 1 ==> Number(t) >= 10
  {
    var front, last := t[..|t| - 1], t[|t| - 1];
    assert t == front + [last];
    NumberPush(front, last);
    if |t| == 1 {
      assert front == [];
    } else {
      assert front[0] == t[0] && Canonical(front);
      CanonicalIsDigits(front);
      assert Number(front) > 0;
      DigitsPush(Number(front), last - ZERO);
    }
  }

  /** A canonical decimal and the number it denotes determine each other. */
  lemma CanonicalInjective(a: Text, b: Text)
    requires Canonical(a) && Canonical(b) && Number(a) == Number(b)
    ensures a == b
  {
    CanonicalIsDigits(a);
    CanonicalIsDigits(b);
  }

  function Power10(n: nat): nat {
    if n == 0 then 1 else 10 * Power10(n - 1)
  }

  lemma {:induction false} NumberBound(t: Text)
    requires AllDigits(t)
    ensures Number(t) < Power10(|t|)
  {
    if t != [] {
      NumberBound(t[..|t| - 1]);
    }
  }

  lemma {:induction false} NumberAtLeast(t: Text)
    requires AllDigits(t) && t != [] && t[0] != ZERO
    ensures Number(t) >= Power10(|t| - 1)
  {
    var front := t[..|t| - 1];
    if front == [] {
      assert Number(front) == 0;
    } else {
      NumberAtLeast(front);
    }
  }

  lemma {:induction false} Power10Monotone(m: nat, n: nat)
    requires m <= n
    ensures Power10(m) <= Power10(n)
  {
    if m < n {
      Power10Monotone(m, n - 1);
    }
  }

  lemma TenTimesFront(n: nat, x: nat, p: nat, q: nat, m: nat, d: nat)
    requires n == x * p + m && q == 10 * p
    ensures n * 10 + d == x * q + (m * 10 + d)
  {
    assert x * (10 * p) == 10 * (x * p);
  }

  function DigitValue(u: CodeUnit): nat
    requires IsDigit(u)
  {
    u - ZERO
  }

  lemma FrontPush(x: nat, front: Text, middle: Text, last: CodeUnit)
    requires AllDigits(front) && AllDigits(middle) && IsDigit(last)
    requires Number(front) == x * Power10(|middle|) + Number(middle)
    ensures AllDigits(front + [last]) && AllDigits(middle + [last])
    ensures Number(front + [last]) == x * Power10(|middle| + 1) + Number(middle + [last])
  {
    NumberPush(front, last);
    NumberPush(middle, last);
    TenTimesFront(Number(front), x, Power10(|middle|), Power10(|middle| + 1), Number(middle), last - ZERO);
  }

  lemma NumberOfOne(x: CodeUnit)
    requires IsDigit(x)
    ensures Number([x]) == DigitValue(x)
  {
    NumberPush([], x);
    assert [] + [x] == [x];
  }

  /** Reading from the front: the first digit counts Power10(|rest|). */
  lemma {:induction false} NumberFromFront(t: Text)
    requires AllDigits(t) && t != []
    ensures Number(t) == DigitValue(t[0]) * Power10(|t| - 1) + Number(t[1..])
  {
    if |t| == 1 {
      assert t == [t[0]] && t[1..] == [];
      NumberOfOne(t[0]);
    } else {
      var front, middle, last := t[..|t| - 1], t[1..|t| - 1], t[|t| - 1];
      assert t == front + [last] && t[1..] == middle + [last] && front[1..] == middle;
      NumberFromFront(front);
      FrontPush(DigitValue(t[0]), front, middle, last);
    }
  }

  /** Equally long digit strings compare as their numbers do. */
  lemma {:induction false} SameLengthOrder(a: Text, b: Text)
    requires AllDigits(a) && AllDigits(b) && |a| == |b|
    ensures Less(a, b) <==> Number(a) < Number(b)
    ensures a == b <==> Number(a) == Number(b)
    decreases |a|
  {
    if a != [] {
      var ra, rb := a[1..], b[1..];
      NumberFromFront(a);
      NumberFromFront(b);
      NumberBound(ra);
      NumberBound(rb);
      SameLengthOrder(ra, rb);
      var p := Power10(|a| - 1);
      if a[0] < b[0] {
        LeadingDigitDecides(DigitValue(a[0]), DigitValue(b[0]), p, Number(ra), Number(rb));
      } else if b[0] < a[0] {
        LeadingDigitDecides(DigitValue(b[0]), DigitValue(a[0]), p, Number(rb), Number(ra));
      } else {
        assert a == [a[0]] + ra && b == [b[0]] + rb;
      }
    } else {
      assert b == [];
    }
  }

  lemma LeadingDigitDecides(x: nat, y: nat, p: nat, u: nat, v: nat)
    requires x < y && u < p && v < p
    ensures x * p + u < y * p + v
  {
    assert (y - x - 1) * p >= 0;
    assert y * p == x * p + p + (y - x - 1) * p;
  }

  /** Length first, then code units: numeric order on canonical decimals. */
  lemma LengthThenTextOrder(a: Text, b: Text)
    requires Canonical(a) && Canonical(b)
    ensures |a| < |b| ==> Number(a) < Number(b)
    ensures |a| == |b| ==> (Less(a, b) <==> Number(a) < Number(b)) && (a == b <==> Number(a) == Number(b))
  {
    if |a| < |b| {
      NumberBound(a);
      NumberAtLeast(b);
      Power10Monotone(|a|, |b| - 1);
    } else if |a| == |b| {
      SameLengthOrder(a, b);
    }
  }
}
