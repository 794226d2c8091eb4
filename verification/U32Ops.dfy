/** The u32 operations: constraints over 16-bit limbs, and the helper registers the prover fills in. */
module U32Ops {
  import opened Goldilocks
  import opened CoreTrace
  import opened HelperRegisters

  const TWO16: int := 0x1_0000
  const TWO32: int := 0x1_0000_0000
  const TWO48: int := 0x1_0000_0000_0000

  // Cells
  function Lo(r: Row): int { Helper(r, 1) * TWO16 + Helper(r, 0) }
  function Hi(r: Row): int { Helper(r, 3) * TWO16 + Helper(r, 2) }
  function ThreeLimbs(r: Row): int { Helper(r, 2) * TWO32 + Lo(r) }
  function FourLimbs(r: Row): int { Helper(r, 3) * TWO48 + ThreeLimbs(r) }
  function DivDiff(r: Row): int { Helper(r, 5) * TWO16 + Helper(r, 4) }

  // Operation flags
  // ----------------------------------------------------------------------------

  datatype Op = Add | Sub | Mul | Div | Split | Assert2 | Add3 | Madd {
    // opcode bits 3, 2 and 1 below the prefix 100
    predicate Bit3() { Split? || Assert2? || Add3? || Madd? }
    predicate Bit2() { Mul? || Div? || Add3? || Madd? }
    predicate Bit1() { Sub? || Div? || Assert2? || Madd? }
  }

  function Literal(r: Row, k: nat, b: bool): int
    requires k < 7
  {
    if b then OpBit(r, k) else 1 - OpBit(r, k)
  }

  /** u32 prefix times the three selecting bits. */
  function Flag(r: Row, op: Op): int {
    OpBit(r, 6) * (1 - OpBit(r, 5)) * (1 - OpBit(r, 4))
    * (Literal(r, 3, op.Bit3()) * Literal(r, 2, op.Bit2()) * Literal(r, 1, op.Bit1()))
  }

  predicate Executes(r: Row, op: Op) {
    On(r, 6) && !On(r, 5) && !On(r, 4) && On(r, 3) == op.Bit3() && On(r, 2) == op.Bit2() && On(r, 1) == op.Bit1()
  }

  lemma FlagMeaning(r: Row, op: Op)
    requires OpBits(r)
    ensures Flag(r, op) == AsBit(Executes(r, op))
  {
    assert BitAt(r, 6) && BitAt(r, 5) && BitAt(r, 4) && BitAt(r, 3) && BitAt(r, 2) && BitAt(r, 1);
  }

  // Constraints
  // ----------------------------------------------------------------------------

  ghost predicate LimbConstraints(m0: Row, m1: Row) {
    var wide := Flag(m0, Split) + Flag(m0, Mul) + Flag(m0, Madd);
    var both := Flag(m0, Split) + Flag(m0, Add) + Flag(m0, Add3) + Flag(m0, Mul) + Flag(m0, Madd);
    && Zero(wide * ((1 - Helper(m0, 4) * (0xFFFF_FFFF - Hi(m0))) * Lo(m0)))
    && Zero(both * (Stack(m1, 0) - Lo(m0)))
    && Zero(both * (Stack(m1, 1) - Hi(m0)))
  }

  ghost predicate SumConstraints(m0: Row, m1: Row) {
    && Zero(Flag(m0, Split) * (Stack(m0, 0) - FourLimbs(m0)))
    && Zero(Flag(m0, Add) * (Stack(m0, 0) + Stack(m0, 1) - ThreeLimbs(m0)))
    && Zero(Flag(m0, Add3) * (Stack(m0, 0) + Stack(m0, 1) + Stack(m0, 2) - ThreeLimbs(m0)))
    && Zero((Flag(m0, Add) + Flag(m0, Add3)) * Helper(m0, 3))
    && Zero(Flag(m0, Sub) * (Stack(m0, 1) - (Stack(m0, 0) + Stack(m1, 1) - Stack(m1, 0) * TWO32)))
    && Zero(Flag(m0, Sub) * (Stack(m1, 0) * (Stack(m1, 0) - 1)))
    && Zero(Flag(m0, Sub) * (Stack(m1, 1) - Lo(m0)))
  }

  ghost predicate ProductConstraints(m0: Row, m1: Row) {
    && Zero(Flag(m0, Mul) * (Stack(m0, 0) * Stack(m0, 1) - FourLimbs(m0)))
    && Zero(Flag(m0, Madd) * (Stack(m0, 0) * Stack(m0, 1) + Stack(m0, 2) - FourLimbs(m0)))
    && Zero(Flag(m0, Div) * (Stack(m0, 1) - (Stack(m0, 0) * Stack(m1, 1) + Stack(m1, 0))))
    && Zero(Flag(m0, Div) * (Stack(m1, 1) - Lo(m0)))
    && Zero(Flag(m0, Div) * (Stack(m1, 0) - Hi(m0)))
    && Zero(Flag(m0, Div) * (Stack(m0, 0) - Stack(m1, 0) - (DivDiff(m0) + 1)))
    && Zero(Flag(m0, Assert2) * (Stack(m1, 0) - Hi(m0)))
    && Zero(Flag(m0, Assert2) * (Stack(m1, 1) - Lo(m0)))
  }

  ghost predicate U32Constraints(m0: Row, m1: Row) {
    LimbConstraints(m0, m1) && SumConstraints(m0, m1) && ProductConstraints(m0, m1)
  }

  /** Range checks of a u32 row: four limbs always, two more for a division. */
  ghost predicate LimbsChecked(r: Row) {
    && U16(Helper(r, 0)) && U16(Helper(r, 1)) && U16(Helper(r, 2)) && U16(Helper(r, 3))
    && (Executes(r, Div) ==> U16(Helper(r, 4)) && U16(Helper(r, 5)))
  }

  // What the instructions mean
  // ----------------------------------------------------------------------------

  /** The two cells that operation op leaves on top for the operands a (top), b and c. */
  function Result(op: Op, a: int, b: int, c: int): (int, int)
    requires op == Div ==> a != 0
  {
    match op
    case Split => (a % TWO32, a / TWO32)
    case Add => ((a + b) % TWO32, (a + b) / TWO32)
    case Add3 => ((a + b + c) % TWO32, (a + b + c) / TWO32)
    case Sub => (AsBit(b < a), (b - a) % TWO32)
    case Mul => (a * b % TWO32, a * b / TWO32)
    case Madd => ((a * b + c) % TWO32, (a * b + c) / TWO32)
    case Div => (b % a, b / a)
    case Assert2 => (a, b)
  }

  ghost predicate U32Operands(op: Op, a: int, b: int, c: int) {
    match op
    case Split => 0 <= a < P
    case Assert2 => true
    case _ => U32(a) && U32(b) && (op == Add3 || op == Madd ==> U32(c))
  }

  // Soundness
  // ----------------------------------------------------------------------------

  lemma LoHi(r: Row)
    requires LimbsChecked(r)
    ensures U32(Lo(r)) && U32(Hi(r)) && FourLimbs(r) == Hi(r) * TWO32 + Lo(r)
    ensures Executes(r, Div) ==> U32(DivDiff(r))
  {
  }

  /** The inverse check keeps a 64-bit recomposition below P. */
  lemma NoWrap(hi: int, lo: int, m: int)
    requires U32(hi) && U32(lo) && Zero((1 - m * (0xFFFF_FFFF - hi)) * lo)
    ensures hi * TWO32 + lo < P
  {
    if hi == 0xFFFF_FFFF && lo != 0 {
      ZeroIsSmall(lo);
    }
  }

  lemma SplitExact(v: int, hi: int, lo: int)
    requires 0 <= v < P && U32(hi) && U32(lo) && hi * TWO32 + lo < P && Zero(v - (hi * TWO32 + lo))
    ensures lo == v % TWO32 && hi == v / TWO32
  {
    ZeroIsSmall(v - (hi * TWO32 + lo));
  }

  /** (2^32 - 1)^2 + 2^32 - 1 is P - 1, so a u32 multiply-add never wraps. */
  lemma ProductFits(a: int, b: int, c: int)
    requires U32(a) && U32(b) && U32(c)
    ensures 0 <= a * b && a * b + c < P
  {
    ProductMonotone(a, b, 0xFFFF_FFFF);
  }

  lemma ProductMonotone(a: int, b: int, m: int)
    requires 0 <= a <= m && 0 <= b <= m
    ensures 0 <= a * b <= m * m
  {
    assert (m - a) * b >= 0;
    assert m * (m - b) >= 0;
  }

  lemma DivExact(a: int, b: int, q: int, r: int)
    requires U32(a) && U32(b) && U32(q) && 0 <= r < a && b == a * q + r
    ensures q == b / a && r == b % a
  {
    assert b % a - r == a * (q - b / a);
    SmallMultiple(a, q - b / a);
  }

  /** The flags of a row that executes op. */
  lemma FlagsOf(r: Row, op: Op)
    requires OpBits(r) && Executes(r, op)
    ensures forall o: Op :: Flag(r, o) == AsBit(o == op)
  {
    forall o: Op
      ensures Flag(r, o) == AsBit(o == op)
    {
      FlagMeaning(r, o);
    }
  }

  ghost predicate Computes(m0: Row, m1: Row, op: Op) {
    var a, b, c := Stack(m0, 0), Stack(m0, 1), Stack(m0, 2);
    (op == Div ==> a != 0) && (Stack(m1, 0), Stack(m1, 1)) == Result(op, a, b, c)
  }

  lemma OutputsAreLimbs(m0: Row, m1: Row, op: Op)
    requires OpBits(m0) && Executes(m0, op) && LimbConstraints(m0, m1) && LimbsChecked(m0)
    requires op == Split || op == Add || op == Add3 || op == Mul || op == Madd
    ensures Stack(m1, 0) == Lo(m0) && Stack(m1, 1) == Hi(m0)
  {
    FlagsOf(m0, op);
    LoHi(m0);
    ZeroIsSmall(Stack(m1, 0) - Lo(m0));
    ZeroIsSmall(Stack(m1, 1) - Hi(m0));
  }

  lemma WideFits(m0: Row, m1: Row, op: Op)
    requires OpBits(m0) && Executes(m0, op) && LimbConstraints(m0, m1) && LimbsChecked(m0)
    requires op == Split || op == Mul || op == Madd
    ensures FourLimbs(m0) < P
  {
    FlagsOf(m0, op);
    LoHi(m0);
    NoWrap(Hi(m0), Lo(m0), Helper(m0, 4));
  }

  lemma SplitSound(m0: Row, m1: Row)
    requires OpBits(m0) && Executes(m0, Split) && U32Constraints(m0, m1) && LimbsChecked(m0)
    ensures Computes(m0, m1, Split)
  {
    FlagsOf(m0, Split);
    LoHi(m0);
    OutputsAreLimbs(m0, m1, Split);
    WideFits(m0, m1, Split);
    SplitExact(Stack(m0, 0), Hi(m0), Lo(m0));
  }

  lemma AddSound(m0: Row, m1: Row, op: Op)
    requires OpBits(m0) && Executes(m0, op) && (op == Add || op == Add3)
    requires U32Constraints(m0, m1) && LimbsChecked(m0)
    requires U32Operands(op, Stack(m0, 0), Stack(m0, 1), Stack(m0, 2))
    ensures Computes(m0, m1, op)
  {
    FlagsOf(m0, op);
    LoHi(m0);
    OutputsAreLimbs(m0, m1, op);
    ZeroIsSmall(Helper(m0, 3));
    var v := Stack(m0, 0) + Stack(m0, 1) + if op == Add3 then Stack(m0, 2) else 0;
    SplitExact(v, Hi(m0), Lo(m0));
  }

  lemma SubSound(m0: Row, m1: Row)
    requires OpBits(m0) && Executes(m0, Sub) && U32Constraints(m0, m1) && LimbsChecked(m0)
    requires U32(Stack(m0, 0)) && U32(Stack(m0, 1))
    ensures Computes(m0, m1, Sub)
  {
    FlagsOf(m0, Sub);
    LoHi(m0);
    ZeroIsBit(Stack(m1, 0));
    ZeroIsSmall(Stack(m1, 1) - Lo(m0));
    ZeroIsSmall(Stack(m0, 1) - (Stack(m0, 0) + Stack(m1, 1) - Stack(m1, 0) * TWO32));
  }

  lemma MulSound(m0: Row, m1: Row, op: Op)
    requires OpBits(m0) && Executes(m0, op) && (op == Mul || op == Madd)
    requires U32Constraints(m0, m1) && LimbsChecked(m0)
    requires U32Operands(op, Stack(m0, 0), Stack(m0, 1), Stack(m0, 2))
    ensures Computes(m0, m1, op)
  {
    FlagsOf(m0, op);
    LoHi(m0);
    OutputsAreLimbs(m0, m1, op);
    WideFits(m0, m1, op);
    var a, b, c := Stack(m0, 0), Stack(m0, 1), if op == Madd then Stack(m0, 2) else 0;
    ProductFits(a, b, c);
    SplitExact(a * b + c, Hi(m0), Lo(m0));
  }

  lemma DivSound(m0: Row, m1: Row)
    requires OpBits(m0) && Executes(m0, Div) && U32Constraints(m0, m1) && LimbsChecked(m0)
    requires U32(Stack(m0, 0)) && U32(Stack(m0, 1))
    ensures Computes(m0, m1, Div)
  {
    FlagsOf(m0, Div);
    LoHi(m0);
    var a, b, q, r := Stack(m0, 0), Stack(m0, 1), Stack(m1, 1), Stack(m1, 0);
    ZeroIsSmall(q - Lo(m0));
    ZeroIsSmall(r - Hi(m0));
    ZeroIsSmall(a - r - (DivDiff(m0) + 1));
    ProductFits(a, q, r);
    ZeroIsSmall(b - (a * q + r));
    DivExact(a, b, q, r);
  }

  /** Every satisfying row of a u32 operation leaves the exact integer result on the stack. */
  lemma U32Sound(m0: Row, m1: Row, op: Op)
    requires OpBitConstraints(m0) && Executes(m0, op) && U32Constraints(m0, m1) && LimbsChecked(m0)
    requires U32Operands(op, Stack(m0, 0), Stack(m0, 1), Stack(m0, 2))
    ensures if op == Assert2 then U32(Stack(m1, 0)) && U32(Stack(m1, 1)) else Computes(m0, m1, op)
  {
    OpBitMeaning(m0);
    match op
    case Split => SplitSound(m0, m1);
    case Add => AddSound(m0, m1, Add);
    case Add3 => AddSound(m0, m1, Add3);
    case Sub => SubSound(m0, m1);
    case Mul => MulSound(m0, m1, Mul);
    case Madd => MulSound(m0, m1, Madd);
    case Div => DivSound(m0, m1);
    case Assert2 =>
      FlagsOf(m0, Assert2);
      LoHi(m0);
      ZeroIsSmall(Stack(m1, 0) - Hi(m0));
      ZeroIsSmall(Stack(m1, 1) - Lo(m0));
  }

  // Completeness: the tracer's helpers satisfy the constraints
  // ----------------------------------------------------------------------------

  /** The registers the processor hands to the tracer for op on operands a (top), b and c. */
  function RegistersFor(op: Op, a: Felt, b: Felt, c: Felt): Registers
    requires op != Split ==> U32(a) && U32(b)
    requires op == Add3 || op == Madd ==> U32(c)
    requires op == Div ==> a != 0
  {
    match op
    case Split => Registers.U32Split(a % TWO32, a / TWO32)
    case Add => U32Add((a + b) % TWO32, (a + b) / TWO32)
    case Add3 => U32Add3((a + b + c) % TWO32, (a + b + c) / TWO32)
    case Sub => U32Sub((b - a) % TWO32)
    case Mul => ProductFits(a, b, 0); U32Mul(a * b % TWO32, a * b / TWO32)
    case Madd => ProductFits(a, b, c); U32Madd((a * b + c) % TWO32, (a * b + c) / TWO32)
    case Div => QuotientFits(a, b); U32Div(b / a, b % a, a - b % a - 1)
    case Assert2 => U32Assert2(a, b)
  }

  lemma QuotientFits(a: int, b: int)
    requires 0 < a && 0 <= b
    ensures 0 <= b / a <= b && b == a * (b / a) + b % a
  {
    QuotientBounds(a, b, b / a, b % a);
  }

  lemma QuotientBounds(a: int, b: int, q: int, r: int)
    requires 0 <= r < a && 0 <= b && b == a * q + r
    ensures 0 <= q <= b
  {
    assert a * (q + 1) > 0;
    if q >= 1 {
      assert a * q >= q;
    }
  }

  lemma LimbsRecompose(r: Row, lo: Felt, hi: Felt)
    requires U32(lo) && U32(hi)
    requires Helper(r, 0) == Limb0(lo) && Helper(r, 1) == Limb1(lo) && Helper(r, 2) == Limb0(hi) && Helper(r, 3) == Limb1(hi)
    ensures Lo(r) == lo && Hi(r) == hi && FourLimbs(r) == hi * TWO32 + lo
    ensures U16(Helper(r, 0)) && U16(Helper(r, 1)) && U16(Helper(r, 2)) && U16(Helper(r, 3))
  {
  }

  /** The supplied inverse discharges the wrap-around check for every value below P. */
  lemma InverseCheck(hi: int, lo: int, m: int)
    requires U32(hi) && U32(lo) && hi * TWO32 + lo < P && m == InverseOrZero((0xFFFF_FFFF - hi) % P)
    ensures Zero((1 - m * (0xFFFF_FFFF - hi)) * lo)
  {
    var d := 0xFFFF_FFFF - hi;
    if d == 0 {
      assert lo == 0;
    } else {
      InverseCancels(d, m, lo);
    }
  }

  lemma InverseCancels(d: int, m: int, lo: int)
    requires 0 < d < P && m == InverseOrZero(d)
    ensures Zero((1 - m * d) * lo)
  {
    Rewrite(0, d * m - 1, -lo);
    assert 0 + (d * m - 1) * -lo == (1 - m * d) * lo;
  }

  ghost predicate Prepared(m0: Row, m1: Row, op: Op) {
    var a, b, c := Stack(m0, 0), Stack(m0, 1), Stack(m0, 2);
    && OpBits(m0) && Executes(m0, op)
    && (op != Split ==> U32(a) && U32(b)) && (op == Add3 || op == Madd ==> U32(c)) && (op == Div ==> a != 0)
    && (Stack(m1, 0), Stack(m1, 1)) == Result(op, a, b, c)
    && Helped(m0, ToUserOpHelpers(RegistersFor(op, a, b, c)))
  }

  function Value(op: Op, a: int, b: int, c: int): int {
    match op
    case Add => a + b
    case Add3 => a + b + c
    case Mul => a * b
    case Madd => a * b + c
    case _ => a
  }

  predicate TwoWord(op: Op) { op == Add || op == Add3 || Wide(op) }

  predicate Wide(op: Op) { op == Split || op == Mul || op == Madd }

  /** What the constraints ask of a row that executes op, as facts about integers. */
  ghost predicate Obligations(m0: Row, m1: Row, op: Op) {
    var a, b, c := Stack(m0, 0), Stack(m0, 1), Stack(m0, 2);
    && (TwoWord(op) ==> Stack(m1, 0) == Lo(m0) && Stack(m1, 1) == Hi(m0) && FourLimbs(m0) == Value(op, a, b, c))
    && (Wide(op) ==> Zero((1 - Helper(m0, 4) * (0xFFFF_FFFF - Hi(m0))) * Lo(m0)))
    && (op == Add || op == Add3 ==> Helper(m0, 3) == 0)
    && (op == Sub ==> b == a + Stack(m1, 1) - Stack(m1, 0) * TWO32 && Bit(Stack(m1, 0)) && Stack(m1, 1) == Lo(m0))
    && (op == Div ==> b == a * Stack(m1, 1) + Stack(m1, 0) && a - Stack(m1, 0) == DivDiff(m0) + 1)
    && (op == Div || op == Assert2 ==> if op == Div then Stack(m1, 1) == Lo(m0) && Stack(m1, 0) == Hi(m0)
                                       else Stack(m1, 0) == Hi(m0) && Stack(m1, 1) == Lo(m0))
  }

  lemma Gated(g: int, e: int)
    requires g == 0 || Zero(e)
    ensures Zero(g * e)
  {
    if g != 0 {
      Rewrite(0, e, g);
    }
  }

  lemma LimbGates(m0: Row, m1: Row, op: Op)
    requires OpBits(m0) && Executes(m0, op) && Obligations(m0, m1, op)
    ensures LimbConstraints(m0, m1)
  {
    FlagsOf(m0, op);
    Gated(Flag(m0, Split) + Flag(m0, Mul) + Flag(m0, Madd), (1 - Helper(m0, 4) * (0xFFFF_FFFF - Hi(m0))) * Lo(m0));
    var both := Flag(m0, Split) + Flag(m0, Add) + Flag(m0, Add3) + Flag(m0, Mul) + Flag(m0, Madd);
    Gated(both, Stack(m1, 0) - Lo(m0));
    Gated(both, Stack(m1, 1) - Hi(m0));
  }

  lemma SumGates(m0: Row, m1: Row, op: Op)
    requires OpBits(m0) && Executes(m0, op) && Obligations(m0, m1, op)
    ensures SumConstraints(m0, m1)
  {
    FlagsOf(m0, op);
    Gated(Flag(m0, Split), Stack(m0, 0) - FourLimbs(m0));
    Gated(Flag(m0, Add), Stack(m0, 0) + Stack(m0, 1) - ThreeLimbs(m0));
    Gated(Flag(m0, Add3), Stack(m0, 0) + Stack(m0, 1) + Stack(m0, 2) - ThreeLimbs(m0));
    Gated(Flag(m0, Add) + Flag(m0, Add3), Helper(m0, 3));
    Gated(Flag(m0, Sub), Stack(m0, 1) - (Stack(m0, 0) + Stack(m1, 1) - Stack(m1, 0) * TWO32));
    Gated(Flag(m0, Sub), Stack(m1, 0) * (Stack(m1, 0) - 1));
    Gated(Flag(m0, Sub), Stack(m1, 1) - Lo(m0));
  }

  lemma ProductGates(m0: Row, m1: Row, op: Op)
    requires OpBits(m0) && Executes(m0, op) && Obligations(m0, m1, op)
    ensures ProductConstraints(m0, m1)
  {
    FlagsOf(m0, op);
    Gated(Flag(m0, Mul), Stack(m0, 0) * Stack(m0, 1) - FourLimbs(m0));
    Gated(Flag(m0, Madd), Stack(m0, 0) * Stack(m0, 1) + Stack(m0, 2) - FourLimbs(m0));
    Gated(Flag(m0, Div), Stack(m0, 1) - (Stack(m0, 0) * Stack(m1, 1) + Stack(m1, 0)));
    Gated(Flag(m0, Div), Stack(m1, 1) - Lo(m0));
    Gated(Flag(m0, Div), Stack(m1, 0) - Hi(m0));
    Gated(Flag(m0, Div), Stack(m0, 0) - Stack(m1, 0) - (DivDiff(m0) + 1));
    Gated(Flag(m0, Assert2), Stack(m1, 0) - Hi(m0));
    Gated(Flag(m0, Assert2), Stack(m1, 1) - Lo(m0));
  }

  lemma ValueFits(op: Op, a: int, b: int, c: int)
    requires TwoWord(op) && 0 <= a < P && (op != Split ==> U32(a) && U32(b)) && (op == Add3 || op == Madd ==> U32(c))
    ensures 0 <= Value(op, a, b, c) < P
  {
    if op == Mul {
      ProductFits(a, b, 0);
    } else if op == Madd {
      ProductFits(a, b, c);
    }
  }

  lemma TwoWordHelpers(m0: Row, m1: Row, op: Op, v: int)
    requires Prepared(m0, m1, op) && TwoWord(op)
    requires v == Value(op, Stack(m0, 0), Stack(m0, 1), Stack(m0, 2)) && 0 <= v < P
    ensures Helper(m0, 0) == Limb0(v % TWO32) && Helper(m0, 1) == Limb1(v % TWO32)
    ensures Helper(m0, 2) == Limb0(v / TWO32) && Helper(m0, 3) == Limb1(v / TWO32)
    ensures Wide(op) ==> Helper(m0, 4) == InverseOrZero((0xFFFF_FFFF - v / TWO32) % P)
  {
    assert Helped(m0, ToUserOpHelpers(RegistersFor(op, Stack(m0, 0), Stack(m0, 1), Stack(m0, 2))));
  }

  lemma TwoWordRow(m0: Row, m1: Row, op: Op, v: int)
    requires Prepared(m0, m1, op) && TwoWord(op)
    requires v == Value(op, Stack(m0, 0), Stack(m0, 1), Stack(m0, 2)) && 0 <= v < P
    ensures Obligations(m0, m1, op) && LimbsChecked(m0)
  {
    TwoWordHelpers(m0, m1, op, v);
    LimbsRecompose(m0, v % TWO32, v / TWO32);
    if Wide(op) {
      InverseCheck(v / TWO32, v % TWO32, Helper(m0, 4));
    }
  }

  lemma DivRow(m0: Row, m1: Row)
    requires Prepared(m0, m1, Div)
    ensures Obligations(m0, m1, Div) && LimbsChecked(m0)
  {
    var a, b := Stack(m0, 0), Stack(m0, 1);
    QuotientFits(a, b);
    LimbsRecompose(m0, b / a, b % a);
  }

  lemma SubRow(m0: Row, m1: Row)
    requires Prepared(m0, m1, Sub)
    ensures Obligations(m0, m1, Sub) && LimbsChecked(m0)
  {
    LimbsRecompose(m0, (Stack(m0, 1) - Stack(m0, 0)) % TWO32, 0);
  }

  lemma Assert2Row(m0: Row, m1: Row)
    requires Prepared(m0, m1, Assert2)
    ensures Obligations(m0, m1, Assert2) && LimbsChecked(m0)
  {
    LimbsRecompose(m0, Stack(m0, 1), Stack(m0, 0));
  }

  /** For all operands the processor accepts, the tracer's helpers and the processor's results
      satisfy every u32 constraint and every range check. */
  lemma U32Complete(m0: Row, m1: Row, op: Op)
    requires Prepared(m0, m1, op)
    ensures U32Constraints(m0, m1) && LimbsChecked(m0)
  {
    var a, b, c := Stack(m0, 0), Stack(m0, 1), Stack(m0, 2);
    if TwoWord(op) {
      ValueFits(op, a, b, c);
      TwoWordRow(m0, m1, op, Value(op, a, b, c));
    } else if op == Sub {
      SubRow(m0, m1);
    } else if op == Div {
      DivRow(m0, m1);
    } else {
      Assert2Row(m0, m1);
    }
    LimbGates(m0, m1, op);
    SumGates(m0, m1, op);
    ProductGates(m0, m1, op);
  }
}
