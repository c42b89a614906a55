/** The seeded 32-bit generator, with JavaScript's signed and unsigned 32-bit operators. */
module Xorshift {
  import opened Bits
  import opened Text

  const TWO_31 := 0x8000_0000
  const TWO_32 := 0x1_0000_0000

  /** An unsigned 32-bit word. */
  type Word = x: int | 0 <= x < TWO_32

  // ---------- JavaScript's 32-bit operators on numbers ----------

  function ToUint32(n: int): Word {
    n % TWO_32
  }

  /** The signed reading of a word: what `^` and `<<` return. */
  function ToInt32(w: Word): int {
    if w >= TWO_31 then w - TWO_32 else w
  }

  function JsXor(a: int, b: int): int {
    ToInt32(XorWord(ToUint32(a), ToUint32(b)))
  }

  function JsShiftLeft(a: int, k: nat): int {
    ToInt32(ShiftLeft(ToUint32(a), k))
  }

  /** `>>>`, the only operator here whose result is unsigned. */
  function JsShiftRightUnsigned(a: int, k: nat): int {
    ShiftRight(ToUint32(a), k)
  }

  // ---------- The word specification ----------

  function XorWord(a: Word, b: Word): (r: Word) {
    Pow2Values();
    XorBound(a, b, 32);
    Xor(a, b)
  }

  function ShiftLeft(w: Word, k: nat): Word {
    (w * Pow2(k)) % TWO_32
  }

  lemma ShiftRightShrinks(w: nat, k: nat)
    ensures ShiftRight(w, k) <= w
    decreases k
  {
  }

  function Right(w: Word, k: nat): (r: Word) {
    ShiftRightShrinks(w, k);
    XorWord(w, ShiftRight(w, k))
  }

  function Left(w: Word, k: nat): (r: Word) {
    XorWord(w, ShiftLeft(w, k))
  }

  /** x ^= x << 13; x ^= x >>> 17; x ^= x << 5 on words. */
  function Next(w: Word): Word {
    Left(Right(Left(w, 13), 17), 5)
  }

  /** The state after n steps. */
  function After(w: Word, n: nat): Word
    decreases n
  {
    if n == 0 then w else After(Next(w), n - 1)
  }

  /** The first n outputs. */
  function Outputs(w: Word, n: nat): (r: seq<Word>)
    ensures |r| == n
    decreases n
  {
    if n == 0 then [] else [Next(w)] + Outputs(Next(w), n - 1)
  }

  /** All the outputs for one seed. */
  function Stream(seed: Word): nat -> Word {
    (k: nat) => After(seed, k + 1)
  }

  // ---------- The signed operators compute the word specification ----------

  lemma SignedReadingKeepsWord(w: Word)
    ensures ToUint32(ToInt32(w)) == w
    ensures ToUint32(w) == w
  {
  }

  /** The four assignments of the source, signed intermediates included, are one word step. */
  lemma SignedStepIsWordStep(s: Word)
    ensures var a := JsXor(s, JsShiftLeft(s, 13));
            var b := JsXor(a, JsShiftRightUnsigned(a, 17));
            var c := JsXor(b, JsShiftLeft(b, 5));
            JsShiftRightUnsigned(c, 0) == Next(s)
  {
    var a := JsXor(s, JsShiftLeft(s, 13));
    SignedReadingKeepsWord(s);
    SignedReadingKeepsWord(ShiftLeft(s, 13));
    var w1 := Left(s, 13);
    SignedReadingKeepsWord(w1);
    assert ToUint32(a) == w1;
    var b := JsXor(a, JsShiftRightUnsigned(a, 17));
    ShiftRightShrinks(w1, 17);
    SignedReadingKeepsWord(ShiftRight(w1, 17));
    var w2 := Right(w1, 17);
    SignedReadingKeepsWord(w2);
    assert ToUint32(b) == w2;
    SignedReadingKeepsWord(ShiftLeft(w2, 5));
    SignedReadingKeepsWord(Left(w2, 5));
  }

  // ---------- The step is a bijection ----------

  lemma XorMod32(x: nat, y: nat)
    ensures Xor(x, y) % TWO_32 == Xor(x % TWO_32, y % TWO_32)
  {
    Pow2Values();
    XorMod(x, y, 32);
  }

  lemma ShiftLeftDistributes(a: Word, b: Word, k: nat)
    ensures ShiftLeft(XorWord(a, b), k) == XorWord(ShiftLeft(a, k), ShiftLeft(b, k))
  {
    XorScales(a, b, k);
    XorMod32(a * Pow2(k), b * Pow2(k));
  }

  lemma ShiftLeftAgain(w: Word, j: nat, k: nat)
    ensures ShiftLeft(ShiftLeft(w, j), k) == ShiftLeft(w, j + k)
  {
    Pow2Sum(j, k);
    Regroup(w, Pow2(j), Pow2(k));
    ModThenScale(w * Pow2(j), Pow2(k));
  }

  lemma Regroup(a: nat, b: nat, c: nat)
    ensures (a * b) * c == a * (b * c)
  {
  }

  lemma ModThenScale(x: nat, p: nat)
    ensures ((x % TWO_32) * p) % TWO_32 == (x * p) % TWO_32
  {
    var q, r := x / TWO_32, x % TWO_32;
    Spread(q, TWO_32, r, p);
    DropMultiple(q * p, r * p);
  }

  lemma Spread(q: nat, m: nat, r: nat, p: nat)
    ensures (q * m + r) * p == (q * p) * m + r * p
  {
  }

  lemma DropMultiple(q: nat, r: nat)
    ensures (q * TWO_32 + r) % TWO_32 == r % TWO_32
  {
  }

  lemma ShiftLeftAllOut(w: Word, k: nat)
    requires k >= 32
    ensures ShiftLeft(w, k) == 0
  {
    Pow2Sum(32, k - 32);
    Pow2Values();
    assert w * Pow2(k) == (w * Pow2(k - 32)) * TWO_32;
    DropMultiple(w * Pow2(k - 32), 0);
  }

  /** Applying a left step twice doubles its distance. */
  lemma LeftTwice(w: Word, k: nat)
    ensures Left(Left(w, k), k) == Left(w, 2 * k)
  {
    var s := ShiftLeft(w, k);
    ShiftLeftDistributes(w, s, k);
    ShiftLeftAgain(w, k, k);
    XorMiddle(w, s, ShiftLeft(w, 2 * k));
  }

  lemma LeftAllOut(w: Word, k: nat)
    requires k >= 32
    ensures Left(w, k) == w
  {
    ShiftLeftAllOut(w, k);
    XorCancels(w);
  }

  lemma ShiftRightAllOut(w: Word, k: nat)
    requires k >= 32
    ensures ShiftRight(w, k) == 0
  {
    ShiftRightDivides(w, k);
    Pow2Values();
    Pow2Monotone(32, k);
    SmallQuotient(w, Pow2(k));
  }

  lemma SmallQuotient(a: nat, d: nat)
    requires a < d
    ensures a / d == 0
  {
  }

  lemma RightTwice(w: Word)
    ensures Right(Right(w, 17), 17) == w
  {
    ShiftRightShrinks(w, 17);
    var s: Word := ShiftRight(w, 17);
    XorShifts(w, s, 17);
    ShiftRightAgain(w, 17, 17);
    ShiftRightAllOut(w, 34);
    XorMiddle(w, s, 0);
    XorCancels(w);
  }

  function Left3(w: Word, k: nat): Word {
    Left(Left(Left(w, k), k), k)
  }

  /** A left step by 13 has order four. */
  lemma Undo13(w: Word)
    ensures Left3(Left(w, 13), 13) == w
    ensures Left(Left3(w, 13), 13) == w
  {
    LeftTwice(w, 13);
    LeftTwice(Left(w, 26), 13);
    LeftTwice(w, 26);
    LeftAllOut(w, 52);
  }

  function Left7(w: Word, k: nat): Word {
    Left(Left3(Left3(w, k), k), k)
  }

  /** A left step by 5 has order eight. */
  lemma Undo5(w: Word)
    ensures Left7(Left(w, 5), 5) == w
    ensures Left(Left7(w, 5), 5) == w
  {
    LeftTwice(w, 5);
    LeftTwice(Left(w, 10), 5);
    LeftTwice(w, 10);
    LeftTwice(Left(w, 20), 5);
    LeftTwice(Left(Left(w, 20), 10), 5);
    LeftTwice(Left(w, 20), 10);
    LeftTwice(w, 20);
    LeftAllOut(w, 40);
  }

  function Previous(w: Word): Word {
    Left3(Right(Left7(w, 5), 17), 13)
  }

  /** The step is a bijection on words, with an explicit inverse. */
  lemma StepIsBijective(w: Word)
    ensures Previous(Next(w)) == w
    ensures Next(Previous(w)) == w
  {
    var l := Left(w, 13);
    Undo5(Right(l, 17));
    RightTwice(l);
    Undo13(w);
    Undo5(w);
    RightTwice(Left7(w, 5));
    Undo13(Right(Left7(w, 5), 17));
  }

  lemma ZeroIsFixed()
    ensures Previous(0) == 0 && Next(0) == 0
  {
    forall k: nat ensures Left(0, k) == 0 {
    }
    assert ShiftRight(0, 17) == 0 by { ShiftRightShrinks(0, 17); }
    assert Right(0, 17) == 0;
  }

  /** From a valid seed the absorbing zero state is never reached, after any number of steps. */
  lemma {:induction false} NeverZero(seed: Word, n: nat)
    requires seed != 0
    ensures After(seed, n) != 0
    decreases n
  {
    if n > 0 {
      NonZeroStep(seed);
      AfterUnfolds(seed, n - 1);
      NeverZero(Next(seed), n - 1);
    }
  }

  lemma NonZeroStep(w: Word)
    requires w != 0
    ensures Next(w) != 0
  {
    StepIsBijective(w);
    ZeroIsFixed();
  }

  lemma {:induction false} AfterAppend(w: Word, n: nat)
    ensures After(w, n + 1) == Next(After(w, n))
    decreases n
  {
    AfterUnfolds(w, n);
    if n > 0 {
      AfterUnfolds(w, n - 1);
      AfterAppend(Next(w), n - 1);
    }
  }

  /** The k-th listed value is what the (k + 1)-th call of the closure returns. */
  lemma {:induction false} SequenceAgreesWithClosure(w: Word, n: nat, k: nat)
    requires k < n
    ensures Outputs(w, n)[k] == After(w, k + 1)
    decreases n
  {
    if k == 0 {
      assert After(w, 1) == After(Next(w), 0);
    } else {
      SequenceAgreesWithClosure(Next(w), n - 1, k - 1);
    }
  }

  lemma {:induction false} OutputsAppend(w: Word, n: nat)
    ensures Outputs(w, n + 1) == Outputs(w, n) + [After(w, n + 1)]
    decreases n
  {
    if n == 0 {
      assert Outputs(w, 1) == [Next(w)] + Outputs(Next(w), 0);
      assert After(w, 1) == After(Next(w), 0);
    } else {
      OutputsAppend(Next(w), n - 1);
    }
  }

  // ---------- The source's two forms ----------

  /** The four updates of the state, as both forms of the source write them. */
  method SignedStep(before: Word) returns (state: int)
    ensures state == Next(before)
  {
    SignedStepIsWordStep(before);
    state := before;
    state := JsXor(state, JsShiftLeft(state, 13));
    state := JsXor(state, JsShiftRightUnsigned(state, 17));
    state := JsXor(state, JsShiftLeft(state, 5));
    state := JsShiftRightUnsigned(state, 0);
  }

  /** The closure made by createXorshift32. */
  class Generator {
    var state: int

    constructor (seed: Word)
      ensures Valid() && state == seed && Follows(Stream(seed), 0)
    {
      state := seed;
    }

    ghost predicate Valid()
      reads this
    {
      0 <= state < TWO_32
    }

    method NextUint32() returns (output: Word)
      requires Valid()
      modifies this
      ensures Valid() && state == Next(old(state)) && output == state
    {
      state := SignedStep(state);
      output := state;
    }

    /** From here on the generator will output draw(k), draw(k + 1), and so on. */
    ghost predicate Follows(draw: nat -> Word, k: nat)
      reads this
    {
      Valid() && AgreesFrom(draw, state, k)
    }

    /** One more call of the closure, read off the stream of its outputs. */
    method Draw(ghost draw: nat -> Word, ghost k: nat) returns (output: Word)
      requires Follows(draw, k)
      modifies this
      ensures output == draw(k) && Follows(draw, k + 1)
    {
      AgreesStep(draw, state, k);
      output := NextUint32();
    }
  }

  /** draw(m) is what a generator in state w returns on its (m - k + 1)-th call. */
  ghost predicate Agrees(draw: nat -> Word, w: Word, k: nat, m: nat)
    requires k <= m
  {
    draw(m) == After(w, m - k + 1)
  }

  ghost predicate AgreesFrom(draw: nat -> Word, w: Word, k: nat) {
    forall m: nat | m >= k :: Agrees(draw, w, k, m)
  }

  lemma AgreesStep(draw: nat -> Word, w: Word, k: nat)
    requires AgreesFrom(draw, w, k)
    ensures draw(k) == Next(w)
    ensures AgreesFrom(draw, Next(w), k + 1)
  {
    assert Agrees(draw, w, k, k);
    AfterUnfolds(w, 0);
    var w', k' := Next(w), k + 1;
    forall m: nat | m >= k' ensures Agrees(draw, w', k', m) {
      assert Agrees(draw, w, k, m);
      AfterUnfolds(w, m - k);
    }
  }

  lemma AfterUnfolds(w: Word, n: nat)
    ensures After(w, n + 1) == After(Next(w), n)
    ensures After(w, 0) == w
  {
  }

  const MAX_COUNT := 1024

  /** xorshift32Sequence, with its two argument checks. */
  method Sequence(seed: int, count: int) returns (values: Option<seq<int>>)
    ensures values.Some? <==> 1 <= seed < TWO_32 && 0 <= count <= MAX_COUNT
    ensures values.Some? ==> values.value == Outputs(seed, count)
  {
    if !(1 <= seed < TWO_32) || !(0 <= count <= MAX_COUNT) {
      return None;
    }
    var state := seed;
    var list: seq<int> := [];
    for index := 0 to count
      invariant state == After(seed, index)
      invariant list == Outputs(seed, index)
    {
      AfterAppend(seed, index);
      OutputsAppend(seed, index);
      state := SignedStep(state);
      list := list + [state];
    }
    values := Some(list);
  }
}
