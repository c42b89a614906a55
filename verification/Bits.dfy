/** Bitwise operators on natural numbers, bit by bit, and their arithmetic meaning. */
module Bits {

  function Pow2(n: nat): (r: nat)
    ensures r >= 1
  {
    if n == 0 then 1 else 2 * Pow2(n - 1)
  }

  /** One bit of an exclusive or. */
  function BitXor(x: nat, y: nat): (r: nat)
    requires x < 2 && y < 2
    ensures r < 2
  {
    if x == y then 0 else 1
  }

  function Xor(a: nat, b: nat): nat
    decreases a + b
  {
    if a == 0 && b == 0 then 0 else BitXor(a % 2, b % 2) + 2 * Xor(a / 2, b / 2)
  }

  function And(a: nat, b: nat): nat
    decreases a + b
  {
    if a == 0 && b == 0 then 0 else (a % 2) * (b % 2) + 2 * And(a / 2, b / 2)
  }

  function Or(a: nat, b: nat): nat
    decreases a + b
  {
    if a == 0 && b == 0 then 0
    else (if a % 2 == 1 || b % 2 == 1 then 1 else 0) + 2 * Or(a / 2, b / 2)
  }

  /** x >>> k, one bit at a time. */
  function ShiftRight(x: nat, k: nat): nat
    decreases k
  {
    if k == 0 then x else ShiftRight(x / 2, k - 1)
  }

  // ---------- Powers ----------

  lemma {:induction false} Pow2Sum(m: nat, n: nat)
    ensures Pow2(m + n) == Pow2(m) * Pow2(n)
  {
    if m > 0 {
      Pow2Sum(m - 1, n);
    }
  }

  lemma Pow2Values()
    ensures Pow2(1) == 2 && Pow2(2) == 4 && Pow2(3) == 8 && Pow2(4) == 16 && Pow2(5) == 32
    ensures Pow2(6) == 64 && Pow2(8) == 256 && Pow2(10) == 1024 && Pow2(12) == 4096 && Pow2(18) == 262144
    ensures Pow2(32) == 0x1_0000_0000
  {
    assert Pow2(3) == 8;
    assert Pow2(6) == 64 by { Pow2Sum(3, 3); }
    assert Pow2(5) == 32 by { Pow2Sum(3, 2); }
    assert Pow2(8) == 256 by { Pow2Sum(6, 2); }
    assert Pow2(10) == 1024 by { Pow2Sum(5, 5); }
    assert Pow2(12) == 4096 by { Pow2Sum(6, 6); }
    assert Pow2(18) == 262144 by { Pow2Sum(12, 6); }
    assert Pow2(16) == 65536 by { Pow2Sum(8, 8); }
    Pow2Sum(16, 16);
  }

  lemma {:induction false} Pow2Monotone(m: nat, n: nat)
    requires m <= n
    ensures Pow2(m) <= Pow2(n)
  {
    if m < n {
      Pow2Monotone(m, n - 1);
    }
  }

  // ---------- Exclusive or is a group of order two ----------

  lemma {:induction false} XorCommutes(a: nat, b: nat)
    ensures Xor(a, b) == Xor(b, a)
    decreases a + b
  {
    if a != 0 || b != 0 {
      XorCommutes(a / 2, b / 2);
    }
  }

  lemma {:induction false} XorAssociates(a: nat, b: nat, c: nat)
    ensures Xor(Xor(a, b), c) == Xor(a, Xor(b, c))
    decreases a + b + c
  {
    if a == 0 && b == 0 && c == 0 {
    } else {
      XorAssociates(a / 2, b / 2, c / 2);
      var x, y := Xor(a, b), Xor(b, c);
      XorHalves(a, b);
      XorHalves(b, c);
      XorHalves(x, c);
      XorHalves(a, y);
      SameHalves(Xor(x, c), Xor(a, y));
    }
  }

  lemma SameHalves(a: nat, b: nat)
    requires a % 2 == b % 2 && a / 2 == b / 2
    ensures a == b
  {
  }

  lemma XorHalves(a: nat, b: nat)
    ensures Xor(a, b) % 2 == BitXor(a % 2, b % 2)
    ensures Xor(a, b) / 2 == Xor(a / 2, b / 2)
  {
  }

  lemma {:induction false} XorCancels(a: nat)
    ensures Xor(a, a) == 0
    ensures Xor(a, 0) == a
  {
    if a != 0 {
      XorCancels(a / 2);
    }
  }

  /** x ^ y ^ (y ^ z) is x ^ z. */
  lemma XorMiddle(x: nat, y: nat, z: nat)
    ensures Xor(Xor(x, y), Xor(y, z)) == Xor(x, z)
  {
    XorAssociates(x, y, Xor(y, z));
    XorAssociates(y, y, z);
    XorCancels(y);
    XorCommutes(0, z);
    XorCancels(z);
  }

  lemma {:induction false} XorBound(a: nat, b: nat, n: nat)
    requires a < Pow2(n) && b < Pow2(n)
    ensures Xor(a, b) < Pow2(n)
  {
    if n > 0 {
      XorBound(a / 2, b / 2, n - 1);
    }
  }

  lemma {:induction false} XorScales(a: nat, b: nat, k: nat)
    ensures Xor(a * Pow2(k), b * Pow2(k)) == Xor(a, b) * Pow2(k)
  {
    if k > 0 {
      XorScales(a, b, k - 1);
      ScaleOnce(a, k);
      ScaleOnce(b, k);
      ScaleOnce(Xor(a, b), k);
      XorDoubles(a * Pow2(k - 1), b * Pow2(k - 1));
    }
  }

  lemma ScaleOnce(a: nat, k: nat)
    requires k > 0
    ensures a * Pow2(k) == 2 * (a * Pow2(k - 1))
  {
  }

  lemma XorDoubles(a: nat, b: nat)
    ensures Xor(2 * a, 2 * b) == 2 * Xor(a, b)
  {
    XorJoins(0, a, 0, b);
  }

  lemma {:induction false} XorShifts(a: nat, b: nat, k: nat)
    ensures ShiftRight(Xor(a, b), k) == Xor(ShiftRight(a, k), ShiftRight(b, k))
    decreases k
  {
    if k > 0 {
      XorShifts(a / 2, b / 2, k - 1);
      XorHalves(a, b);
    }
  }

  lemma {:induction false} ShiftRightDivides(a: nat, k: nat)
    ensures ShiftRight(a, k) == a / Pow2(k)
    decreases k
  {
    if k > 0 {
      ShiftRightDivides(a / 2, k - 1);
      DivPow2(a, k);
    }
  }

  lemma {:induction false} ShiftRightAgain(a: nat, j: nat, k: nat)
    ensures ShiftRight(ShiftRight(a, j), k) == ShiftRight(a, j + k)
    decreases j
  {
    if j > 0 {
      ShiftRightAgain(a / 2, j - 1, k);
    }
  }

  lemma DivPow2(a: nat, k: nat)
    requires k > 0
    ensures a / Pow2(k) == (a / 2) / Pow2(k - 1)
    ensures a % Pow2(k) == a % 2 + 2 * ((a / 2) % Pow2(k - 1))
  {
    var p := Pow2(k - 1);
    var h := a / 2;
    var q, r := h / p, h % p;
    assert h == q * p + r;
    assert a == 2 * h + a % 2;
    assert a == q * (2 * p) + (2 * r + a % 2);
    DivModUnique(a, 2 * p, q, 2 * r + a % 2);
  }

  lemma DivModUnique(a: nat, d: nat, q: nat, r: nat)
    requires d > 0 && r < d && a == q * d + r
    ensures a / d == q && a % d == r
  {
    var q', r' := a / d, a % d;
    assert a == q' * d + r';
    if q > q' {
      StepsApart(q, q', d);
    } else if q' > q {
      StepsApart(q', q, d);
    }
  }

  lemma Distributes(q: int, k: nat, d: nat)
    ensures (q + 1 + k) * d == q * d + d + k * d
    ensures k * d >= 0
  {
  }

  lemma StepsApart(p: int, q: int, d: nat)
    requires p > q
    ensures p * d >= q * d + d
  {
    Distributes(q, p - q - 1, d);
    assert p == q + 1 + (p - q - 1);
  }

  lemma XorJoins(x: nat, u: nat, y: nat, v: nat)
    requires x < 2 && y < 2
    ensures Xor(x + 2 * u, y + 2 * v) == BitXor(x, y) + 2 * Xor(u, v)
  {
    XorHalves(x + 2 * u, y + 2 * v);
    assert (x + 2 * u) / 2 == u && (x + 2 * u) % 2 == x;
    assert (y + 2 * v) / 2 == v && (y + 2 * v) % 2 == y;
  }

  lemma {:induction false} XorMod(a: nat, b: nat, n: nat)
    ensures Xor(a, b) % Pow2(n) == Xor(a % Pow2(n), b % Pow2(n))
  {
    if n > 0 {
      var u, v := (a / 2) % Pow2(n - 1), (b / 2) % Pow2(n - 1);
      XorMod(a / 2, b / 2, n - 1);
      XorHalves(a, b);
      DivPow2(a, n);
      DivPow2(b, n);
      DivPow2(Xor(a, b), n);
      XorJoins(a % 2, u, b % 2, v);
    }
  }

  // ---------- Masks and disjoint bits ----------

  /** x & (2^n - 1) keeps the low n bits. */
  lemma {:induction false} AndMask(x: nat, n: nat)
    ensures And(x, Pow2(n) - 1) == x % Pow2(n)
    decreases n
  {
    if n == 0 {
      AndZero(x);
    } else {
      AndMask(x / 2, n - 1);
      DivPow2(x, n);
      assert (Pow2(n) - 1) / 2 == Pow2(n - 1) - 1 && (Pow2(n) - 1) % 2 == 1;
    }
  }

  lemma {:induction false} AndZero(x: nat)
    ensures And(x, 0) == 0
  {
    if x != 0 {
      AndZero(x / 2);
    }
  }

  /** (h << n) | l with l below 2^n concatenates the bits. */
  lemma {:induction false} OrConcatenates(h: nat, l: nat, n: nat)
    requires l < Pow2(n)
    ensures Or(h * Pow2(n), l) == h * Pow2(n) + l
    decreases n
  {
    if n == 0 {
      OrZero(h);
    } else {
      var p := Pow2(n - 1);
      var a := h * Pow2(n);
      assert a == 2 * (h * p);
      OrConcatenates(h, l / 2, n - 1);
      assert a / 2 == h * p && a % 2 == 0;
      if a != 0 || l != 0 {
        assert Or(a, l) == l % 2 + 2 * Or(h * p, l / 2);
      }
    }
  }

  lemma {:induction false} OrZero(h: nat)
    ensures Or(h, 0) == h
  {
    if h != 0 {
      OrZero(h / 2);
    }
  }
}
