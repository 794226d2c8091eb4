/** EXPACC: one square-and-multiply step of exponentiation. */
module ExpaccOps {
  import opened Goldilocks
  import opened CoreTrace
  import opened HelperRegisters

  // Cells: base, accumulator and exponent sit below the bit that the step pops off
  function Peeled(r: Row): int { Stack(r, 0) }
  function Base(r: Row): int { Stack(r, 1) }
  function Acc(r: Row): int { Stack(r, 2) }
  function Exponent(r: Row): int { Stack(r, 3) }

  function Flag(r: Row): int {
    (1 - OpBit(r, 5)) * (1 - OpBit(r, 4)) * (1 - OpBit(r, 6)) * (OpBit(r, 3) * OpBit(r, 2) * OpBit(r, 1)) * OpBit(r, 0)
  }

  predicate IsExpacc(r: Row) {
    !On(r, 6) && !On(r, 5) && !On(r, 4) && On(r, 3) && On(r, 2) && On(r, 1) && On(r, 0)
  }

  ghost predicate ExpaccConstraints(m0: Row, m1: Row) {
    var f := Flag(m0);
    && Zero(f * (Base(m1) - Base(m0) * Base(m0)))
    && Zero(f * (Helper(m0, 0) - ((Base(m0) - 1) * Peeled(m1) + 1)))
    && Zero(f * (Acc(m1) - Acc(m0) * Helper(m0, 0)))
    && Zero(f * (Exponent(m0) - (Exponent(m1) * 2 + Peeled(m1))))
    && Zero(f * (Peeled(m1) * (Peeled(m1) - 1)))
  }

  lemma FlagMeaning(r: Row)
    requires OpBits(r)
    ensures Flag(r) == AsBit(IsExpacc(r))
  {
    assert BitAt(r, 0) && BitAt(r, 1) && BitAt(r, 2) && BitAt(r, 3) && BitAt(r, 4) && BitAt(r, 5) && BitAt(r, 6);
  }

  // Congruence
  // ----------------------------------------------------------------------------

  lemma MulZero(a: int, a': int, b: int, b': int)
    requires Zero(a - a') && Zero(b - b')
    ensures Zero(a * b - a' * b')
  {
    Rewrite(0, a - a', b);
    Rewrite((a - a') * b, b - b', a');
    assert (a - a') * b + (b - b') * a' == a * b - a' * b';
  }

  lemma ChainZero(a: int, b: int, c: int)
    requires Zero(a - b) && Zero(b - c)
    ensures Zero(a - c)
  {
    Rewrite(a - b, b - c, 1);
  }

  lemma {:induction false} PowZero(a: int, b: int, n: nat)
    requires Zero(a - b)
    ensures Zero(Pow(a, n) - Pow(b, n))
  {
    if n > 0 {
      PowZero(a, b, n - 1);
      MulZero(a, b, Pow(a, n - 1), Pow(b, n - 1));
    }
  }

  // Runs
  // ----------------------------------------------------------------------------

  ghost predicate StepAt(t: seq<Row>, i: nat)
    requires i + 1 < |t|
  {
    OpBits(t[i]) && IsExpacc(t[i]) && ExpaccConstraints(t[i], t[i + 1])
  }

  /** Rows lo up to hi all execute EXPACC. */
  ghost predicate Run(t: seq<Row>, lo: nat, hi: nat) {
    lo <= hi < |t| && forall i: nat | lo <= i < hi :: StepAt(t, i)
  }

  lemma StepMeaning(t: seq<Row>, i: nat)
    requires i + 1 < |t| && StepAt(t, i)
    ensures Bit(Peeled(t[i + 1])) && Zero(Base(t[i + 1]) - Pow(Base(t[i]), 2))
    ensures Zero(Acc(t[i + 1]) - Acc(t[i]) * Pow(Base(t[i]), Peeled(t[i + 1])))
    ensures Zero(Exponent(t[i]) - (Exponent(t[i + 1]) * 2 + Peeled(t[i + 1])))
  {
    FlagMeaning(t[i]);
    var m0, m1 := t[i], t[i + 1];
    ZeroIsBit(Peeled(m1));
    Powers(Base(m0));
    var h := Helper(m0, 0);
    MulZero(Acc(m0), Acc(m0), h, (Base(m0) - 1) * Peeled(m1) + 1);
    ChainZero(Acc(m1), Acc(m0) * h, Acc(m0) * ((Base(m0) - 1) * Peeled(m1) + 1));
  }

  lemma Powers(b: int)
    ensures Pow(b, 0) == 1 && Pow(b, 1) == b && Pow(b, 2) == b * b
  {
    assert Pow(b, 2) == b * Pow(b, 1);
  }

  /** acc * b^bit * (b*b)^n == acc * b^(2n + bit) */
  lemma SquareAndMultiply(acc: int, b: int, bit: nat, n: nat)
    ensures acc * Pow(b, bit) * Pow(Pow(b, 2), n) == acc * Pow(b, n * 2 + bit)
  {
    PowMul(b, 2, n);
    PowAdd(b, bit, 2 * n);
    assert acc * Pow(b, bit) * Pow(b, 2 * n) == acc * (Pow(b, bit) * Pow(b, 2 * n));
  }

  lemma AccStep(acc': int, acc: int, b': int, b: int, bit: nat, n: nat, out: int)
    requires Zero(acc' - acc * Pow(b, bit)) && Zero(b' - Pow(b, 2)) && Zero(out - acc' * Pow(b', n))
    ensures Zero(out - acc * Pow(b, n * 2 + bit))
  {
    PowZero(b', Pow(b, 2), n);
    MulZero(acc', acc * Pow(b, bit), Pow(b', n), Pow(Pow(b, 2), n));
    ChainZero(out, acc' * Pow(b', n), acc * Pow(b, bit) * Pow(Pow(b, 2), n));
    SquareAndMultiply(acc, b, bit, n);
  }

  /** The bits peeled off in rows lo up to hi, lowest first. */
  function Bits(t: seq<Row>, lo: nat, hi: nat): int
    requires lo <= hi < |t|
    decreases hi - lo
  {
    if lo == hi then 0 else Peeled(t[lo + 1]) + Bits(t, lo + 1, hi) * 2
  }

  lemma ExponentStep(e: int, e': int, bit: int, bits: int, p: int, last: int)
    requires Zero(e - (e' * 2 + bit)) && Zero(e' - (bits + p * last))
    ensures Zero(e - (bit + bits * 2 + 2 * p * last))
  {
    Rewrite(e - (e' * 2 + bit), e' - (bits + p * last), 2);
    assert e - (e' * 2 + bit) + (e' - (bits + p * last)) * 2 == e - (bit + bits * 2 + 2 * p * last);
  }

  /** Any number of steps shifts the exponent right by the bits it peels off, and multiplies the
      accumulator by the base to the power those bits spell. */
  lemma {:induction false} RunMultiplies(t: seq<Row>, lo: nat, hi: nat)
    requires Run(t, lo, hi)
    ensures 0 <= Bits(t, lo, hi) < Pow2(hi - lo)
    ensures Zero(Exponent(t[lo]) - (Bits(t, lo, hi) + Pow2(hi - lo) * Exponent(t[hi])))
    ensures Zero(Acc(t[hi]) - Acc(t[lo]) * Pow(Base(t[lo]), Bits(t, lo, hi)))
    decreases hi - lo
  {
    if lo < hi {
      assert StepAt(t, lo);
      StepMeaning(t, lo);
      RunMultiplies(t, lo + 1, hi);
      var m0, m1, bits := t[lo], t[lo + 1], Bits(t, lo + 1, hi);
      ExponentStep(Exponent(m0), Exponent(m1), Peeled(m1), bits, Pow2(hi - lo - 1), Exponent(t[hi]));
      AccStep(Acc(m1), Acc(m0), Base(m1), Base(m0), Peeled(m1), bits, Acc(t[hi]));
    }
  }

  /** At most 63 steps that use the exponent up leave base^exponent: that many bits cannot
      spell a value that wraps around P. */
  lemma ExpaccComputesPower(t: seq<Row>, lo: nat, hi: nat)
    requires Run(t, lo, hi) && hi - lo <= 63 && Stack(t[hi], 3) == 0 && Stack(t[lo], 2) == 1
    ensures 0 <= Stack(t[lo], 3) && Stack(t[hi], 2) == Pow(Stack(t[lo], 1), Stack(t[lo], 3)) % P
  {
    RunMultiplies(t, lo, hi);
    Pow2Monotone(hi - lo, 63);
    Pow2Values();
    ZeroIsSmall(Exponent(t[lo]) - Bits(t, lo, hi));
    IsReduced(Acc(t[hi]), Pow(Base(t[lo]), Exponent(t[lo])));
  }

  lemma IsReduced(a: int, x: int)
    requires 0 <= a < P && Zero(a - x)
    ensures a == x % P
  {
    ModZero(x);
    ChainZero(a, x, x % P);
    ZeroIsSmall(a - x % P);
  }

  // Completeness
  // ----------------------------------------------------------------------------

  /** The processor's step and the tracer's helper satisfy the constraints. */
  lemma ExpaccComplete(m0: Row, m1: Row)
    requires OpBits(m0)
    requires Stack(m1, 0) == Stack(m0, 3) % 2 && Stack(m1, 3) == Stack(m0, 3) / 2
    requires var update := if Stack(m0, 3) % 2 == 1 then Stack(m0, 1) else 1;
             && Helped(m0, ToUserOpHelpers(Expacc(update)))
             && Stack(m1, 2) == Stack(m0, 2) * update % P
    requires Stack(m1, 1) == Stack(m0, 1) * Stack(m0, 1) % P
    ensures ExpaccConstraints(m0, m1)
  {
    FlagMeaning(m0);
    assert Helper(m0, 0) == if Exponent(m0) % 2 == 1 then Base(m0) else 1;
    ModZero(Base(m0) * Base(m0));
    ModZero(Acc(m0) * Helper(m0, 0));
  }
}
