/** The bitwise chiplet: AND and XOR, one nibble per row, over aligned cycles of L rows. */
module BitwiseChiplet {
  import opened Goldilocks
  import opened ChipletSelectors

  // Columns of a bitwise row
  function Op(r: Row): int { r[2] }
  function A(r: Row): int { r[3] }
  function B(r: Row): int { r[4] }
  function PrevOut(r: Row): int { r[13] }
  function Out(r: Row): int { r[14] }

  /** Little-endian Horner evaluation of four bits. */
  function HornerBits(x0: int, x1: int, x2: int, x3: int): int {
    ((x3 * 2 + x2) * 2 + x1) * 2 + x0
  }

  function NibbleA(r: Row): int { HornerBits(r[5], r[6], r[7], r[8]) }
  function NibbleB(r: Row): int { HornerBits(r[9], r[10], r[11], r[12]) }
  function NibbleAnd(r: Row): int { HornerBits(r[5] * r[9], r[6] * r[10], r[7] * r[11], r[8] * r[12]) }

  function XorBit(x: int, y: int): int {
    x + y - (x * y + x * y)
  }

  function NibbleXor(r: Row): int {
    HornerBits(XorBit(r[5], r[9]), XorBit(r[6], r[10]), XorBit(r[7], r[11]), XorBit(r[8], r[12]))
  }

  // Periodic columns of a cycle of L rows: first row, and every row but the last
  function First(L: nat, i: nat): int
    requires L > 0
  {
    AsBit(i % L == 0)
  }

  function NotLast(L: nat, i: nat): int
    requires L > 0
  {
    AsBit(i % L != L - 1)
  }

  ghost predicate RowConstraints(m: Row) {
    var act := BitwiseFlag(m);
    && Zero(act * (Op(m) * (Op(m) - 1)))
    && (forall j | 5 <= j <= 12 :: Zero(act * (m[j] * (m[j] - 1))))
    && Zero(act * (Out(m) - (PrevOut(m) * 16 + NibbleAnd(m) + Op(m) * (NibbleXor(m) - NibbleAnd(m)))))
  }

  ghost predicate FirstConstraints(m: Row, k0: int) {
    var act := BitwiseFlag(m);
    && Zero(act * (k0 * (A(m) - NibbleA(m))))
    && Zero(act * (k0 * (B(m) - NibbleB(m))))
    && Zero(act * (k0 * PrevOut(m)))
  }

  ghost predicate CycleConstraints(m0: Row, m1: Row, k1: int) {
    var act := BitwiseFlag(m0);
    && Zero(act * (k1 * (Op(m0) - Op(m1))))
    && Zero(act * (k1 * (A(m1) - (A(m0) * 16 + NibbleA(m1)))))
    && Zero(act * (k1 * (B(m1) - (B(m0) * 16 + NibbleB(m1)))))
    && Zero(act * (k1 * (Out(m0) - PrevOut(m1))))
  }

  /** The section starts on a cycle boundary. */
  ghost predicate AlignConstraint(m0: Row, m1: Row, k1: int) {
    Zero((1 - m0[0]) * m1[0] * (1 - m1[1]) * k1)
  }

  ghost predicate BitwiseAt(t: seq<Row>, L: nat, i: nat)
    requires i < |t| && L > 0
  {
    && AlignConstraint(t[i], Next(t, i), NotLast(L, i))
    && RowConstraints(t[i])
    && FirstConstraints(t[i], First(L, i))
    && CycleConstraints(t[i], Next(t, i), NotLast(L, i))
  }

  ghost predicate BitwiseTrace(t: seq<Row>, L: nat) {
    L > 0 && Selected(t) && forall i | 0 <= i < |t| :: BitwiseAt(t, L, i)
  }

  // Reference semantics
  // ----------------------------------------------------------------------------

  predicate Apply(xor: bool, x: bool, y: bool) {
    if xor then x != y else x && y
  }

  /** AND or XOR of two naturals, by their binary digits. */
  function BitOp(xor: bool, a: nat, b: nat): nat
    decreases a + b
  {
    if a == 0 && b == 0 then 0
    else AsBit(Apply(xor, a % 2 == 1, b % 2 == 1)) + 2 * BitOp(xor, a / 2, b / 2)
  }

  predicate Digit(a: nat, k: nat) {
    if k == 0 then a % 2 == 1 else Digit(a / 2, k - 1)
  }

  /** Every binary digit of the result is the AND or XOR of the operands' digits. */
  lemma {:induction false} BitOpDigits(xor: bool, a: nat, b: nat, k: nat)
    ensures Digit(BitOp(xor, a, b), k) == Apply(xor, Digit(a, k), Digit(b, k))
    decreases k
  {
    BitOpStep(xor, a, b);
    if k > 0 { BitOpDigits(xor, a / 2, b / 2, k - 1); }
  }

  lemma BitOpStep(xor: bool, a: nat, b: nat)
    ensures BitOp(xor, a, b) / 2 == BitOp(xor, a / 2, b / 2)
    ensures (BitOp(xor, a, b) % 2 == 1) == Apply(xor, a % 2 == 1, b % 2 == 1)
  {
    assert BitOp(xor, 0, 0) == 0;
  }

  /** A bit string, least significant bit first. */
  datatype Bits = Nil | Cons(head: bool, tail: Bits)

  function Length(s: Bits): nat {
    if s.Nil? then 0 else 1 + Length(s.tail)
  }

  function Value(s: Bits): nat {
    if s.Nil? then 0 else AsBit(s.head) + 2 * Value(s.tail)
  }

  function Zip(xor: bool, s: Bits, t: Bits): Bits {
    if s.Nil? || t.Nil? then Nil else Cons(Apply(xor, s.head, t.head), Zip(xor, s.tail, t.tail))
  }

  lemma {:induction false} ValueBound(s: Bits)
    ensures Value(s) < Pow2(Length(s))
  {
    if s.Cons? { ValueBound(s.tail); }
  }

  lemma {:induction false} ZipIsBitOp(xor: bool, s: Bits, t: Bits)
    requires Length(s) == Length(t)
    ensures Value(Zip(xor, s, t)) == BitOp(xor, Value(s), Value(t))
    ensures Length(Zip(xor, s, t)) == Length(s)
  {
    assert BitOp(xor, 0, 0) == 0;
    if s.Cons? { ZipIsBitOp(xor, s.tail, t.tail); }
  }

  function Prepend(x0: bool, x1: bool, x2: bool, x3: bool, s: Bits): Bits {
    Cons(x0, Cons(x1, Cons(x2, Cons(x3, s))))
  }

  lemma ValuePrepend(x0: bool, x1: bool, x2: bool, x3: bool, s: Bits)
    ensures Value(Prepend(x0, x1, x2, x3, s)) == Value(s) * 16 + HornerBits(AsBit(x0), AsBit(x1), AsBit(x2), AsBit(x3))
  {
    assert Value(Cons(x3, s)) == AsBit(x3) + 2 * Value(s);
    assert Value(Cons(x2, Cons(x3, s))) == AsBit(x2) + 2 * Value(Cons(x3, s));
    assert Value(Cons(x1, Cons(x2, Cons(x3, s)))) == AsBit(x1) + 2 * Value(Cons(x2, Cons(x3, s)));
  }

  lemma ZipPrepend(xor: bool, x0: bool, x1: bool, x2: bool, x3: bool, s: Bits,
                   y0: bool, y1: bool, y2: bool, y3: bool, t: Bits)
    ensures Zip(xor, Prepend(x0, x1, x2, x3, s), Prepend(y0, y1, y2, y3, t))
         == Prepend(Apply(xor, x0, y0), Apply(xor, x1, y1), Apply(xor, x2, y2), Apply(xor, x3, y3), Zip(xor, s, t))
  {
    assert Zip(xor, Cons(x2, Cons(x3, s)), Cons(y2, Cons(y3, t)))
        == Cons(Apply(xor, x2, y2), Cons(Apply(xor, x3, y3), Zip(xor, s, t)));
  }

  // Meaning of a row
  // ----------------------------------------------------------------------------

  ghost predicate BitCell(r: Row, j: nat)
    requires j < 22
  {
    Bit(r[j])
  }

  ghost predicate BitCells(r: Row) {
    forall j | 5 <= j <= 12 :: BitCell(r, j)
  }

  lemma RowBits(r: Row)
    requires RowConstraints(r) && BitwiseFlag(r) == 1
    ensures BitCells(r) && Bit(Op(r))
  {
    ZeroIsBit(Op(r));
    forall j | 5 <= j <= 12
      ensures BitCell(r, j)
    {
      ZeroIsBit(r[j]);
    }
  }

  function BitsA(r: Row, s: Bits): Bits {
    Prepend(r[5] == 1, r[6] == 1, r[7] == 1, r[8] == 1, s)
  }

  function BitsB(r: Row, s: Bits): Bits {
    Prepend(r[9] == 1, r[10] == 1, r[11] == 1, r[12] == 1, s)
  }

  /** Output bit j of the row under the selected operation. */
  predicate OutBit(r: Row, j: nat)
    requires j < 4
  {
    Apply(Op(r) == 1, r[5 + j] == 1, r[9 + j] == 1)
  }

  function OutNibble(r: Row): int {
    HornerBits(AsBit(OutBit(r, 0)), AsBit(OutBit(r, 1)), AsBit(OutBit(r, 2)), AsBit(OutBit(r, 3)))
  }

  lemma InputNibble(r: Row, j: nat, s: Bits)
    requires BitCells(r) && (j == 5 || j == 9)
    ensures Value(Prepend(r[j] == 1, r[j + 1] == 1, r[j + 2] == 1, r[j + 3] == 1, s))
         == Value(s) * 16 + HornerBits(r[j], r[j + 1], r[j + 2], r[j + 3])
    ensures 0 <= HornerBits(r[j], r[j + 1], r[j + 2], r[j + 3]) < 16
  {
    ValuePrepend(r[j] == 1, r[j + 1] == 1, r[j + 2] == 1, r[j + 3] == 1, s);
    BooleanCell(r, j);
    BooleanCell(r, j + 1);
    BooleanCell(r, j + 2);
    BooleanCell(r, j + 3);
  }

  lemma BooleanCell(r: Row, j: nat)
    requires BitCells(r) && 5 <= j <= 12
    ensures AsBit(r[j] == 1) == r[j] && 0 <= r[j] <= 1
  {
    assert BitCell(r, j);
  }

  lemma OutputNibble(r: Row, s: Bits, t: Bits)
    ensures Value(Zip(Op(r) == 1, BitsA(r, s), BitsB(r, t))) == Value(Zip(Op(r) == 1, s, t)) * 16 + OutNibble(r)
  {
    var x := Op(r) == 1;
    ZipPrepend(x, r[5] == 1, r[6] == 1, r[7] == 1, r[8] == 1, s, r[9] == 1, r[10] == 1, r[11] == 1, r[12] == 1, t);
    ValuePrepend(OutBit(r, 0), OutBit(r, 1), OutBit(r, 2), OutBit(r, 3), Zip(x, s, t));
  }

  /** On boolean cells the product polynomials are AND and XOR. */
  ghost predicate Meant(x: int, y: int) {
    x * y == AsBit(Apply(false, x == 1, y == 1)) && XorBit(x, y) == AsBit(Apply(true, x == 1, y == 1))
  }

  lemma BitMeaning(r: Row, j: nat)
    requires BitCells(r) && 5 <= j <= 8
    ensures Meant(r[j], r[j + 4])
  {
    assert BitCell(r, j) && BitCell(r, j + 4);
  }

  function OpNibble(r: Row, xor: bool): int {
    HornerBits(AsBit(Apply(xor, r[5] == 1, r[9] == 1)), AsBit(Apply(xor, r[6] == 1, r[10] == 1)),
               AsBit(Apply(xor, r[7] == 1, r[11] == 1)), AsBit(Apply(xor, r[8] == 1, r[12] == 1)))
  }

  lemma NibblesFromBits(r: Row)
    requires Meant(r[5], r[9]) && Meant(r[6], r[10]) && Meant(r[7], r[11]) && Meant(r[8], r[12])
    ensures NibbleAnd(r) == OpNibble(r, false) && NibbleXor(r) == OpNibble(r, true)
  {
  }

  lemma NibblePolynomials(r: Row)
    requires BitCells(r)
    ensures NibbleAnd(r) == OpNibble(r, false) && NibbleXor(r) == OpNibble(r, true)
  {
    BitMeaning(r, 5);
    BitMeaning(r, 6);
    BitMeaning(r, 7);
    BitMeaning(r, 8);
    NibblesFromBits(r);
  }

  lemma OpNibbleBound(r: Row, xor: bool)
    ensures 0 <= OpNibble(r, xor) < 16
  {
  }

  /** After n nibbles the aggregates hold the strings s and t and the running result is exact. */
  ghost predicate Aggregated(r: Row, s: Bits, t: Bits) {
    && Bit(Op(r)) && Length(s) == Length(t)
    && A(r) == Value(s) && B(r) == Value(t)
    && Out(r) == Value(Zip(Op(r) == 1, s, t))
  }

  lemma OutMeaning(out: Felt, prev: nat, and: int, xor: int, op: int)
    requires Zero(out - (prev * 16 + and + op * (xor - and))) && Bit(op)
    requires prev * 16 + 16 <= P && 0 <= and < 16 && 0 <= xor < 16
    ensures out == prev * 16 + (if op == 1 then xor else and)
  {
    if op == 1 {
      ZeroIsSmall(out - (prev * 16 + xor));
    } else {
      ZeroIsSmall(out - (prev * 16 + and));
    }
  }

  lemma RowOut(r: Row)
    requires RowConstraints(r) && BitwiseFlag(r) == 1 && BitCells(r) && Bit(Op(r)) && PrevOut(r) * 16 + 16 <= P
    ensures Out(r) == PrevOut(r) * 16 + OpNibble(r, Op(r) == 1)
  {
    NibblePolynomials(r);
    OpNibbleBound(r, false);
    OpNibbleBound(r, true);
    OutMeaning(Out(r), PrevOut(r), NibbleAnd(r), NibbleXor(r), Op(r));
  }

  ghost predicate RowChecked(r: Row) {
    && BitCells(r) && Bit(Op(r))
    && (PrevOut(r) * 16 + 16 <= P ==> Out(r) == PrevOut(r) * 16 + OpNibble(r, Op(r) == 1))
  }

  lemma RowMeaning(r: Row)
    requires RowConstraints(r) && BitwiseFlag(r) == 1
    ensures RowChecked(r)
  {
    RowBits(r);
    if PrevOut(r) * 16 + 16 <= P {
      RowOut(r);
    }
  }

  lemma PrependLength(r: Row, s: Bits, t: Bits)
    ensures Length(BitsA(r, s)) == Length(s) + 4 && Length(BitsB(r, t)) == Length(t) + 4
  {
    assert Length(Cons(r[7] == 1, Cons(r[8] == 1, s))) == Length(s) + 2;
    assert Length(Cons(r[11] == 1, Cons(r[12] == 1, t))) == Length(t) + 2;
  }

  lemma AppendInput(x: Felt, r: Row, j: nat, s: Bits)
    requires BitCells(r) && (j == 5 || j == 9) && Value(s) * 16 + 16 <= P
    requires Zero(x - (Value(s) * 16 + HornerBits(r[j], r[j + 1], r[j + 2], r[j + 3])))
    ensures x == Value(Prepend(r[j] == 1, r[j + 1] == 1, r[j + 2] == 1, r[j + 3] == 1, s))
  {
    InputNibble(r, j, s);
    ZeroIsSmall(x - (Value(s) * 16 + HornerBits(r[j], r[j + 1], r[j + 2], r[j + 3])));
  }

  lemma AppendOutput(r: Row, s: Bits, t: Bits)
    requires RowChecked(r)
    requires PrevOut(r) == Value(Zip(Op(r) == 1, s, t)) && PrevOut(r) * 16 + 16 <= P
    ensures Out(r) == Value(Zip(Op(r) == 1, BitsA(r, s), BitsB(r, t)))
  {
    OutputNibble(r, s, t);
  }

  lemma CycleStart(r: Row)
    requires RowChecked(r) && FirstConstraints(r, 1) && BitwiseFlag(r) == 1
    ensures Aggregated(r, BitsA(r, Nil), BitsB(r, Nil))
  {
    AppendInput(A(r), r, 5, Nil);
    AppendInput(B(r), r, 9, Nil);
    ZeroIsSmall(PrevOut(r));
    AppendOutput(r, Nil, Nil);
    PrependLength(r, Nil, Nil);
  }

  lemma CarriedOver(m0: Row, m1: Row)
    requires CycleConstraints(m0, m1, 1) && BitwiseFlag(m0) == 1
    ensures Op(m1) == Op(m0) && PrevOut(m1) == Out(m0)
    ensures Zero(A(m1) - (A(m0) * 16 + NibbleA(m1))) && Zero(B(m1) - (B(m0) * 16 + NibbleB(m1)))
  {
    ZeroIsSmall(Op(m0) - Op(m1));
    ZeroIsSmall(Out(m0) - PrevOut(m1));
  }

  lemma AppendInputs(m0: Row, m1: Row, s: Bits, t: Bits)
    requires BitCells(m1) && A(m0) == Value(s) && B(m0) == Value(t) && Value(s) * 16 + 16 < P && Value(t) * 16 + 16 < P
    requires Zero(A(m1) - (A(m0) * 16 + NibbleA(m1))) && Zero(B(m1) - (B(m0) * 16 + NibbleB(m1)))
    ensures A(m1) == Value(BitsA(m1, s)) && B(m1) == Value(BitsB(m1, t))
  {
    AppendInput(A(m1), m1, 5, s);
    AppendInput(B(m1), m1, 9, t);
  }

  lemma CycleStep(m0: Row, m1: Row, s: Bits, t: Bits)
    requires CycleConstraints(m0, m1, 1) && BitwiseFlag(m0) == 1 && RowChecked(m1)
    requires Aggregated(m0, s, t) && Pow2(Length(s) + 4) < P
    ensures Aggregated(m1, BitsA(m1, s), BitsB(m1, t))
  {
    AggregateBound(s, t, Op(m0) == 1);
    CarriedOver(m0, m1);
    AppendInputs(m0, m1, s, t);
    AppendOutput(m1, s, t);
    PrependLength(m1, s, t);
  }

  lemma AggregateBound(s: Bits, t: Bits, xor: bool)
    requires Length(s) == Length(t) && Pow2(Length(s) + 4) < P
    ensures Value(s) * 16 + 16 < P && Value(t) * 16 + 16 < P && Value(Zip(xor, s, t)) * 16 + 16 < P
  {
    ValueBound(s);
    ValueBound(t);
    ZipIsBitOp(xor, s, t);
    ValueBound(Zip(xor, s, t));
    Pow2Add(Length(s), 4);
    assert Pow2(4) == 16;
  }

  // Meaning of a trace
  // ----------------------------------------------------------------------------

  lemma BitwiseRow(t: seq<Row>, L: nat, i: nat)
    requires BitwiseTrace(t, L) && i < |t| && RegionOf(t[i]) == Bitwise
    ensures BitwiseFlag(t[i]) == 1
  {
    assert SelectorsAt(t, i);
    PrefixIsBoolean(t, i);
    FlagsOneHot(t[i]);
  }

  /** A row that is not the first of its cycle is preceded by another bitwise row. */
  lemma Aligned(t: seq<Row>, L: nat, i: nat)
    requires BitwiseTrace(t, L) && i < |t| && RegionOf(t[i]) == Bitwise && i % L != 0
    ensures i > 0 && RegionOf(t[i - 1]) == Bitwise && NotLast(L, i - 1) == 1
    ensures (i - 1) % L == i % L - 1
  {
    PreviousPhase(L, i);
    RankMonotone(t, i - 1, i);
    if RegionOf(t[i - 1]) == Controller {
      assert BitwiseAt(t, L, i - 1) && SelectorsAt(t, i);
      PrefixIsBoolean(t, i);
      StartsOnBoundary(t[i - 1], t[i], NotLast(L, i - 1));
    }
  }

  lemma StartsOnBoundary(m0: Row, m1: Row, k1: int)
    requires AlignConstraint(m0, m1, k1) && Bit(k1) && m0[0] == 0 && m1[0] == 1 && m1[1] == 0
    ensures k1 == 0
  {
  }

  lemma PreviousPhase(L: nat, i: nat)
    requires L > 0 && i % L != 0
    ensures i > 0 && (i - 1) % L == i % L - 1
  {
    var q, r := i / L, (i - 1) % L;
    assert r - (i % L - 1) == L * (q - (i - 1) / L);
    SmallMultiple(L, q - (i - 1) / L);
  }

  /** The rows of a cycle seen so far hold one nibble each. */
  lemma {:induction false} CycleInvariant(t: seq<Row>, L: nat, i: nat) returns (a: Bits, b: Bits)
    requires BitwiseTrace(t, L) && i < |t| && RegionOf(t[i]) == Bitwise && Pow2(4 * L) < P
    ensures Aggregated(t[i], a, b) && Length(a) == 4 * (i % L + 1)
    decreases i
  {
    BitwiseRow(t, L, i);
    assert BitwiseAt(t, L, i);
    RowMeaning(t[i]);
    if i % L == 0 {
      CycleStart(t[i]);
      a, b := BitsA(t[i], Nil), BitsB(t[i], Nil);
      PrependLength(t[i], Nil, Nil);
    } else {
      Aligned(t, L, i);
      var s, u := CycleInvariant(t, L, i - 1);
      BitwiseRow(t, L, i - 1);
      assert BitwiseAt(t, L, i - 1);
      Pow2Monotone(Length(s) + 4, 4 * L);
      CycleStep(t[i - 1], t[i], s, u);
      a, b := BitsA(t[i], s), BitsB(t[i], u);
      PrependLength(t[i], s, u);
    }
  }

  /** Every row that answers a bitwise request holds operands of 4L bits and the bitwise AND or
      XOR of them, as its operation flag says. */
  lemma MessagesAreRight(t: seq<Row>, L: nat, i: nat)
    requires BitwiseTrace(t, L) && Pow2(4 * L) < P && i < |t|
    requires BitwiseFlag(t[i]) * (1 - NotLast(L, i)) != 0
    ensures A(t[i]) < Pow2(4 * L) && B(t[i]) < Pow2(4 * L)
    ensures Bit(Op(t[i])) && Out(t[i]) == BitOp(Op(t[i]) == 1, A(t[i]), B(t[i]))
  {
    assert SelectorsAt(t, i);
    PrefixIsBoolean(t, i);
    FlagsOneHot(t[i]);
    var s, u := CycleInvariant(t, L, i);
    ValueBound(s);
    ValueBound(u);
    ZipIsBitOp(Op(t[i]) == 1, s, u);
  }
}
