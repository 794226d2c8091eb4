/** The sixteen visible stack cells: how every operation routes them, and the one stack they form
    with the overflow chain. */
module VisibleStack {
  import opened Goldilocks
  import opened CoreTrace
  import opened StackOverflow

  // Flag factors
  // ----------------------------------------------------------------------------

  function Pre000(r: Row): int { (1 - OpBit(r, 5)) * (1 - OpBit(r, 4)) * (1 - OpBit(r, 6)) }
  function Pre001(r: Row): int { (1 - OpBit(r, 5)) * OpBit(r, 4) * (1 - OpBit(r, 6)) }
  function Pre010(r: Row): int { OpBit(r, 5) * (1 - OpBit(r, 4)) * (1 - OpBit(r, 6)) }
  function Pre011(r: Row): int { OpBit(r, 5) * OpBit(r, 4) * (1 - OpBit(r, 6)) }

  function Bit3(r: Row, b: bool): int { if b then OpBit(r, 3) else 1 - OpBit(r, 3) }
  function Bit2(r: Row, b: bool): int { if b then OpBit(r, 2) else 1 - OpBit(r, 2) }
  function Bit1(r: Row, b: bool): int { if b then OpBit(r, 1) else 1 - OpBit(r, 1) }
  function Low(r: Row, b: bool): int { if b then OpBit(r, 0) else 1 - OpBit(r, 0) }

  /** Product of the literals of opcode bits 3, 2 and 1. */
  function Mid(r: Row, m: nat): int
    requires m < 8
  {
    Bit3(r, m >= 4) * Bit2(r, m % 4 >= 2) * Bit1(r, m % 2 == 1)
  }

  /** MOVUPn and MOVDNn together, for n from 2 to 8. */
  function Mov(r: Row, n: nat): int
    requires 2 <= n <= 8
  {
    match n
    case 2 => Pre000(r) * Mid(r, 5)
    case 3 => Pre000(r) * Mid(r, 6)
    case 4 => Pre001(r) * Mid(r, 0)
    case 5 => Pre001(r) * Mid(r, 1)
    case 6 => Pre001(r) * Mid(r, 2)
    case 7 => Pre001(r) * Mid(r, 3)
    case _ => Pre001(r) * Mid(r, 5)
  }

  function AllMov(r: Row): int {
    Mov(r, 2) + Mov(r, 3) + (Mov(r, 4) + Mov(r, 5)) + (Mov(r, 6) + Mov(r, 7) + Mov(r, 8))
  }

  /** Both operations of a prefix and a middle. */
  function Pair(pre: int, r: Row, m: nat): int
    requires m < 8
  {
    pre * Mid(r, m) * Low(r, false) + pre * Mid(r, m) * Low(r, true)
  }

  function LowerHalf(pre: int, r: Row): int { Pair(pre, r, 0) + Pair(pre, r, 1) + Pair(pre, r, 2) + Pair(pre, r, 3) }
  function UpperHalf(pre: int, r: Row): int { Pair(pre, r, 4) + Pair(pre, r, 5) + Pair(pre, r, 6) + Pair(pre, r, 7) }

  /** An operation of prefix 101. */
  function Wide(r: Row, m: nat, low: bool): int
    requires m < 8
  {
    Extra0(r) * (Mid(r, m) * Low(r, low))
  }

  /** An operation of prefix 11. */
  function VeryWide(r: Row, b4: bool, b3: bool, b2: bool): int {
    (if b4 then OpBit(r, 4) else 1 - OpBit(r, 4)) * (Bit3(r, b3) * Bit2(r, b2)) * Extra1(r)
  }

  function Cswap8(r: Row): int { Wide(r, 1, true) + Wide(r, 1, false) }
  function Horner(r: Row): int { Wide(r, 4, true) + Wide(r, 5, false) }

  // Selectors of each position: cell kept, moved up by one, moved down by one
  // ----------------------------------------------------------------------------

  function Keep0(r: Row): int {
    Pre000(r) * Mid(r, 0) * Low(r, false) + U32Prefix(r) * Mid(r, 5) + (Wide(r, 0, true) + Wide(r, 3, false))
    + (Wide(r, 3, true) + Wide(r, 2, true) + (Pre001(r) * Mid(r, 7) * Low(r, true) + VeryWide(r, true, true, false)))
    + (VeryWide(r, true, true, true) + CallFlag(r) + (SyscallFlag(r) + EndFlag(r) * (1 - HasherState(r, 5)))
       + (Wide(r, 6, true) + Horner(r)))
  }

  function Left0(r: Row): int {
    Pre010(r) * Mid(r, 0) * Low(r, false) + AllMov(r) * Low(r, true)
    + (Pre010(r) * Mid(r, 4) * Low(r, true) + Pre010(r) * Mid(r, 6) * Low(r, true))
    + (Pair(Pre010(r), r, 7) + (Wide(r, 2, false) + VeryWide(r, true, false, true)))
    + (EndFlag(r) * HasherState(r, 5) + Wide(r, 4, false) + DyncallFlag(r))
  }

  function Right1(r: Row): int {
    LowerHalf(Pre011(r), r) + UpperHalf(Pre011(r), r) + Wide(r, 5, true) + AllMov(r) * Low(r, false)
  }

  /** What position i adds to the selectors of the position above it. */
  function KeepDelta(r: Row, i: nat): int {
    match i
    case 1 => LowerHalf(Pre000(r), r) - Pre000(r) * Mid(r, 0) * Low(r, false)
    case 2 => Pre000(r) * Mid(r, 4) * Low(r, false) + U32Prefix(r) * Bit3(r, false)
    case 3 => Mov(r, 2)
    case 4 => Mov(r, 3) + Pre000(r) * Mid(r, 7) + (Pre001(r) * Mid(r, 6) + Pre001(r) * Mid(r, 4) * Low(r, true))
              + (VeryWide(r, false, false, false) + Pre000(r) * Mid(r, 4) * Low(r, true))
    case 5 => Mov(r, 4)
    case 6 => Mov(r, 5)
    case 7 => Mov(r, 6)
    case 8 => Mov(r, 7) + Pre001(r) * Mid(r, 4) * Low(r, false) + Cswap8(r) - Pre001(r) * Mid(r, 6) * Low(r, false)
    case 9 => Mov(r, 8)
    case 12 => Pre001(r) * Mid(r, 6) * Low(r, false) + Wide(r, 0, false) + Wide(r, 7, false) - Cswap8(r)
               - Pre001(r) * Mid(r, 6) * Low(r, true)
    case 13 => Cswap8(r)
    case 14 => -Horner(r)
    case _ => 0
  }

  function LeftDelta(r: Row, i: nat): int {
    match i
    case 1 => LowerHalf(Pre010(r), r) - Pre010(r) * Mid(r, 0) * Low(r, false)
    case 2 => Pre010(r) * Mid(r, 5) * Low(r, false) + U32Prefix(r) * Mid(r, 6) + U32Prefix(r) * Mid(r, 7)
              - Mov(r, 2) * Low(r, true)
    case 3 => -(Mov(r, 3) * Low(r, true))
    case 4 => Pre010(r) * Mid(r, 6) * Low(r, false) - Mov(r, 4) * Low(r, true)
    case 5 => -(Mov(r, 5) * Low(r, true))
    case 6 => -(Mov(r, 6) * Low(r, true))
    case 7 => -(Mov(r, 7) * Low(r, true))
    case 8 => Pre010(r) * Mid(r, 5) * Low(r, true) - Mov(r, 8) * Low(r, true)
    case _ => 0
  }

  function RightDelta(r: Row, i: nat): int {
    match i
    case 2 => U32Prefix(r) * Mid(r, 4)
    case 3 => -(Mov(r, 2) * Low(r, false))
    case 4 => -(Mov(r, 3) * Low(r, false))
    case 5 => -(Mov(r, 4) * Low(r, false))
    case 6 => -(Mov(r, 5) * Low(r, false))
    case 7 => -(Mov(r, 6) * Low(r, false))
    case 8 => -(Mov(r, 7) * Low(r, false))
    case 9 => -(Mov(r, 8) * Low(r, false))
    case _ => 0
  }

  function Keep(r: Row, i: nat): int { if i == 0 then Keep0(r) else Keep(r, i - 1) + KeepDelta(r, i) }
  function Left(r: Row, i: nat): int { if i == 0 then Left0(r) else Left(r, i - 1) + LeftDelta(r, i) }
  function Right(r: Row, i: nat): int { if i == 0 then 0 else if i == 1 then Right1(r) else Right(r, i - 1) + RightDelta(r, i) }

  /** The routing constraint of position i under given selectors. */
  ghost predicate Routes(m0: Row, m1: Row, i: nat, n: int, l: int, g: int)
    requires i < 16
  {
    Zero(Stack(m1, i) * (n + l + g)
         - (n * Stack(m0, i) + (if i == 15 then 0 else l * Stack(m0, i + 1)) + (if i == 0 then 0 else g * Stack(m0, i - 1))))
  }

  ghost predicate RoutedAt(m0: Row, m1: Row, i: nat)
    requires i < 16
  {
    Routes(m0, m1, i, Keep(m0, i), if i == 15 then 0 else Left(m0, i), Right(m0, i))
  }

  // Evaluating the selectors
  // ----------------------------------------------------------------------------

  lemma Prefixes(r: Row)
    requires OpBits(r)
    ensures Pre000(r) == AsBit(!On(r, 6) && !On(r, 5) && !On(r, 4)) && Pre001(r) == AsBit(!On(r, 6) && !On(r, 5) && On(r, 4))
    ensures Pre010(r) == AsBit(!On(r, 6) && On(r, 5) && !On(r, 4)) && Pre011(r) == AsBit(!On(r, 6) && On(r, 5) && On(r, 4))
    ensures U32Prefix(r) == AsBit(On(r, 6) && !On(r, 5) && !On(r, 4))
  {
    assert BitAt(r, 6) && BitAt(r, 5) && BitAt(r, 4);
  }

  lemma MidIs(r: Row, m: nat)
    requires OpBits(r) && m < 8
    ensures Mid(r, m) == AsBit(On(r, 3) == (m >= 4) && On(r, 2) == (m % 4 >= 2) && On(r, 1) == (m % 2 == 1))
  {
    assert BitAt(r, 3) && BitAt(r, 2) && BitAt(r, 1);
  }

  lemma WideIs(r: Row, m: nat, low: bool)
    requires OpBits(r) && m < 8
    ensures Wide(r, m, low) == Extra0(r) * AsBit(On(r, 3) == (m >= 4) && On(r, 2) == (m % 4 >= 2) && On(r, 1) == (m % 2 == 1) && On(r, 0) == low)
  {
    MidIs(r, m);
    assert BitAt(r, 0);
  }

  lemma PairIs(pre: int, r: Row, m: nat)
    requires m < 8
    ensures Pair(pre, r, m) == pre * Mid(r, m)
  {
    var x, y := pre * Mid(r, m), OpBit(r, 0);
    assert x * (1 - y) + x * y == x;
  }

  lemma MidSum(r: Row)
    ensures Mid(r, 0) + Mid(r, 1) + Mid(r, 2) + Mid(r, 3) == 1 - OpBit(r, 3)
    ensures Mid(r, 4) + Mid(r, 5) + Mid(r, 6) + Mid(r, 7) == OpBit(r, 3)
  {
    SumOfProducts(1 - OpBit(r, 3), OpBit(r, 2), OpBit(r, 1));
    SumOfProducts(OpBit(r, 3), OpBit(r, 2), OpBit(r, 1));
  }

  lemma SumOfProducts(a: int, b: int, c: int)
    ensures a * (1 - b) * (1 - c) + a * (1 - b) * c + a * b * (1 - c) + a * b * c == a
  {
  }

  /** All operations of a prefix together. */
  lemma WholePrefix(pre: int, r: Row)
    ensures LowerHalf(pre, r) == pre * (1 - OpBit(r, 3)) && UpperHalf(pre, r) == pre * OpBit(r, 3)
  {
    PairIs(pre, r, 0);
    PairIs(pre, r, 1);
    PairIs(pre, r, 2);
    PairIs(pre, r, 3);
    PairIs(pre, r, 4);
    PairIs(pre, r, 5);
    PairIs(pre, r, 6);
    PairIs(pre, r, 7);
    MidSum(r);
    var p := pre;
    assert p * Mid(r, 0) + p * Mid(r, 1) + p * Mid(r, 2) + p * Mid(r, 3) == p * (Mid(r, 0) + Mid(r, 1) + Mid(r, 2) + Mid(r, 3));
    assert p * Mid(r, 4) + p * Mid(r, 5) + p * Mid(r, 6) + p * Mid(r, 7) == p * (Mid(r, 4) + Mid(r, 5) + Mid(r, 6) + Mid(r, 7));
  }

  /** Outside the prefixes 000 and 001 nothing of the MOVUP and MOVDN family is left. */
  lemma NoMov(r: Row, n: nat)
    requires Pre000(r) == 0 && Pre001(r) == 0 && 2 <= n <= 8
    ensures Mov(r, n) == 0 && AllMov(r) == 0
  {
  }

  lemma Deltas(r: Row, i: nat)
    requires Pre000(r) == 0 && Pre001(r) == 0 && 1 <= i < 16
    ensures KeepDelta(r, i) == match i
                               case 2 => U32Prefix(r) * Bit3(r, false)
                               case 4 => VeryWide(r, false, false, false)
                               case 8 => Cswap8(r)
                               case 12 => Wide(r, 0, false) + Wide(r, 7, false) - Cswap8(r)
                               case 13 => Cswap8(r)
                               case 14 => -Horner(r)
                               case _ => 0
    ensures LeftDelta(r, i) == match i
                               case 1 => Pre010(r) * (1 - OpBit(r, 3)) - Pre010(r) * Mid(r, 0) * Low(r, false)
                               case 2 => Pre010(r) * Mid(r, 5) * Low(r, false) + U32Prefix(r) * Mid(r, 6) + U32Prefix(r) * Mid(r, 7)
                               case 4 => Pre010(r) * Mid(r, 6) * Low(r, false)
                               case 8 => Pre010(r) * Mid(r, 5) * Low(r, true)
                               case _ => 0
    ensures RightDelta(r, i) == if i == 2 then U32Prefix(r) * Mid(r, 4) else 0
    ensures Right1(r) == Pre011(r) + Wide(r, 5, true)
  {
    WholePrefix(Pre000(r), r);
    WholePrefix(Pre010(r), r);
    WholePrefix(Pre011(r), r);
    NoMov(r, 2);
  }

  /** A row whose deltas keep no cell in place and, past the first positions, move none. */
  lemma NoKeep(r: Row, i: nat)
    requires OpBits(r) && Pre000(r) == 0 && Pre001(r) == 0 && 1 <= i < 16
    requires U32Prefix(r) == 0 || On(r, 3)
    requires Extra0(r) == 0 || (On(r, 3) && !On(r, 2) && On(r, 1) == On(r, 0)) || (!On(r, 3) && On(r, 2))
    requires Extra1(r) == 0 || On(r, 4)
    ensures KeepDelta(r, i) == 0
  {
    Deltas(r, i);
    assert BitAt(r, 4) && BitAt(r, 3);
    WideIs(r, 0, false);
    WideIs(r, 7, false);
    WideIs(r, 1, true);
    WideIs(r, 1, false);
    WideIs(r, 4, true);
    WideIs(r, 5, false);
  }

  // Pushing operations
  // ----------------------------------------------------------------------------

  /** Position whose cell and all deeper ones a pushing operation moves down. */
  function PushArity(r: Row): nat { if On(r, 6) && !On(r, 4) then 1 else 0 }

  lemma PushBase(r: Row)
    requires OpBits(r) && Pushes(r)
    ensures Keep(r, 0) == 0 && Left(r, 0) == 0
  {
    assert BitAt(r, 6) && BitAt(r, 5) && BitAt(r, 4) && BitAt(r, 3) && BitAt(r, 2) && BitAt(r, 1) && BitAt(r, 0);
  }

  lemma PushDeltas(r: Row, i: nat)
    requires OpBits(r) && Pushes(r) && 1 <= i < 16
    ensures KeepDelta(r, i) == 0 && LeftDelta(r, i) == 0 && Right1(r) == AsBit(PushArity(r) == 0)
    ensures RightDelta(r, i) == AsBit(i == 2 && PushArity(r) == 1)
  {
    Prefixes(r);
    Deltas(r, i);
    NoKeep(r, i);
    MidIs(r, 4);
    MidIs(r, 6);
    MidIs(r, 7);
    WideIs(r, 5, true);
  }

  lemma {:induction false} PushSelectors(r: Row, i: nat)
    requires OpBits(r) && Pushes(r) && i < 16
    ensures Keep(r, i) == 0 && Left(r, i) == 0 && Right(r, i) == AsBit(PushArity(r) < i)
  {
    if i == 0 {
      PushBase(r);
    } else {
      PushSelectors(r, i - 1);
      PushDeltas(r, i);
    }
  }

  // Popping operations
  // ----------------------------------------------------------------------------

  /** Position whose cell and all deeper ones a popping operation refills from below. */
  function PopArity(r: Row): nat {
    if On(r, 6) then (if !On(r, 5) && !On(r, 4) then 2 else 0)
    else if !On(r, 3) then (if On(r, 2) || On(r, 1) || On(r, 0) then 1 else 0)
    else if !On(r, 2) then (if On(r, 1) then (if On(r, 0) then 8 else 2) else (if On(r, 0) then 0 else 15))
    else if !On(r, 1) && !On(r, 0) then 4 else 0
  }

  lemma PopKeeps(r: Row)
    requires OpBits(r) && EndFlags(r) && Pops(r)
    ensures Keep0(r) == 0
  {
    assert BitAt(r, 6) && BitAt(r, 5) && BitAt(r, 4) && BitAt(r, 3) && BitAt(r, 2) && BitAt(r, 1) && BitAt(r, 0);
  }

  lemma PopBase(r: Row)
    requires OpBits(r) && EndFlags(r) && Pops(r)
    ensures Keep(r, 0) == 0 && Left(r, 0) == AsBit(PopArity(r) == 0)
  {
    PopKeeps(r);
    Prefixes(r);
    NoMov(r, 2);
    assert BitAt(r, 6) && BitAt(r, 5) && BitAt(r, 4) && BitAt(r, 3) && BitAt(r, 2) && BitAt(r, 1) && BitAt(r, 0);
  }

  lemma PopDeltas(r: Row, i: nat)
    requires OpBits(r) && Pops(r) && 1 <= i < 16
    ensures KeepDelta(r, i) == 0 && RightDelta(r, i) == 0 && Right1(r) == 0
    ensures i < 15 ==> LeftDelta(r, i) == AsBit(PopArity(r) == i)
  {
    Prefixes(r);
    Deltas(r, i);
    NoKeep(r, i);
    MidIs(r, 0);
    MidIs(r, 4);
    MidIs(r, 5);
    MidIs(r, 6);
    MidIs(r, 7);
    WideIs(r, 5, true);
    assert BitAt(r, 3) && BitAt(r, 0);
  }

  lemma {:induction false} PopSelectors(r: Row, i: nat)
    requires OpBits(r) && EndFlags(r) && Pops(r) && i < 15
    ensures Keep(r, i) == 0 && Right(r, i) == 0 && Left(r, i) == AsBit(PopArity(r) <= i)
  {
    if i == 0 {
      PopBase(r);
    } else {
      PopSelectors(r, i - 1);
      PopDeltas(r, i);
    }
  }

  /** At the bottom a popping operation routes nothing; what comes in is left to the overflow table. */
  lemma PopBottom(r: Row)
    requires OpBits(r) && EndFlags(r) && Pops(r)
    ensures Keep(r, 15) == 0 && Right(r, 15) == 0
  {
    PopSelectors(r, 14);
    PopDeltas(r, 15);
  }

  // Operations that neither push nor pop
  // ----------------------------------------------------------------------------

  /** Operations that stay in their context and leave the depth as it is. */
  predicate Stays(r: Row) { !Pushes(r) && !Pops(r) && !Opens(r) && !Closes(r) }

  /** Operations that move no cell in or out at the bottom, CALL, SYSCALL and END included. */
  predicate Level(r: Row) { !Pushes(r) && !Pops(r) && !IsDyncall(r) }

  /** The four low opcode bits as a number. */
  function Nibble(r: Row): (n: nat)
    ensures n < 16
  {
    8 * AsBit(On(r, 3)) + 4 * AsBit(On(r, 2)) + 2 * AsBit(On(r, 1)) + AsBit(On(r, 0))
  }

  /** Position from which on such an operation keeps every cell; 16 where no cell is sure to stay. */
  function KeepArity(r: Row): (k: nat)
    ensures k <= 16
  {
    var n := Nibble(r);
    if !On(r, 6) && !On(r, 4) then [0, 1, 1, 1, 1, 1, 1, 1, 2, 4, 3, 3, 4, 4, 4, 4][n]
    else if !On(r, 6) then [5, 5, 6, 6, 7, 7, 8, 8, 8, 4, 9, 9, 12, 16, 16, 0][n]
    else if !On(r, 5) && !On(r, 4) then (if n < 8 then 2 else 0)
    else if !On(r, 5) then [12, 0, 13, 13, 16, 0, 0, 0, 16, 16, 16, 16, 16, 0, 12, 16][n]
    else if !On(r, 4) then (if n < 4 then 4 else if n < 8 then 16 else 0)
    else 0
  }

  /** The positions an operation keeps. SWAPW2, SWAPW3, PIPE and MSTREAM keep a word between the ones
      they change, and the Horner operations change only the last two cells. */
  predicate Kept(r: Row, i: nat) {
    var n := Nibble(r);
    if !On(r, 6) && On(r, 4) && n == 12 then 4 <= i < 8 || 12 <= i
    else if !On(r, 6) && On(r, 4) && n == 13 then 4 <= i < 12
    else if On(r, 6) && !On(r, 5) && On(r, 4) && (n == 2 || n == 3) then 8 <= i < 12 || 13 <= i
    else if On(r, 6) && !On(r, 5) && On(r, 4) && (n == 9 || n == 10) then i < 14
    else KeepArity(r) <= i
  }

  predicate MovesUp(r: Row) {
    !On(r, 6) && !On(r, 5) && if On(r, 4) then Nibble(r) in [0, 2, 4, 6, 10] else Nibble(r) in [10, 12]
  }

  predicate MovesDown(r: Row) {
    !On(r, 6) && !On(r, 5) && if On(r, 4) then Nibble(r) in [1, 3, 5, 7, 11] else Nibble(r) in [11, 13]
  }

  ghost predicate MidAt(r: Row, m: nat)
    requires m < 8
  {
    Mid(r, m) == AsBit(Nibble(r) / 2 == m)
  }

  lemma Mids(r: Row)
    requires OpBits(r)
    ensures forall m: nat | m < 8 :: MidAt(r, m)
    ensures Low(r, true) == AsBit(Nibble(r) % 2 == 1) && Low(r, false) == AsBit(Nibble(r) % 2 == 0)
  {
    assert BitAt(r, 3) && BitAt(r, 2) && BitAt(r, 1) && BitAt(r, 0);
    forall m: nat | m < 8
      ensures MidAt(r, m)
    {
      MidIs(r, m);
    }
  }

  lemma Keep000(r: Row, i: nat)
    requires OpBits(r) && !On(r, 6) && !On(r, 5) && !On(r, 4) && 1 <= i < 16
    ensures KeepDelta(r, i) == AsBit(KeepArity(r) == i)
  {
    Mids(r);
    Prefixes(r);
    WholePrefix(Pre000(r), r);
    assert BitAt(r, 3);
    assert MidAt(r, 0) && MidAt(r, 4) && MidAt(r, 5) && MidAt(r, 6) && MidAt(r, 7);
  }

  lemma Keep001(r: Row, i: nat)
    requires OpBits(r) && !On(r, 6) && !On(r, 5) && On(r, 4) && 1 <= i < 16
    ensures KeepDelta(r, i) == AsBit(Kept(r, i)) - AsBit(Kept(r, i - 1))
  {
    Mids(r);
    Prefixes(r);
    WholePrefix(Pre000(r), r);
    assert MidAt(r, 0) && MidAt(r, 1) && MidAt(r, 2) && MidAt(r, 3) && MidAt(r, 4) && MidAt(r, 5) && MidAt(r, 6);
  }

  lemma Moves000(r: Row, i: nat)
    requires OpBits(r) && !On(r, 6) && !On(r, 5) && !On(r, 4) && 1 <= i < 16
    ensures LeftDelta(r, i) == -AsBit(MovesDown(r) && KeepArity(r) == i + 1)
    ensures RightDelta(r, i) == -AsBit(MovesUp(r) && KeepArity(r) == i)
  {
    Mids(r);
    Prefixes(r);
    WholePrefix(Pre010(r), r);
    assert MidAt(r, 5) && MidAt(r, 6);
  }

  lemma Moves001(r: Row, i: nat)
    requires OpBits(r) && !On(r, 6) && !On(r, 5) && On(r, 4) && 1 <= i < 16
    ensures LeftDelta(r, i) == -AsBit(MovesDown(r) && KeepArity(r) == i + 1)
    ensures RightDelta(r, i) == -AsBit(MovesUp(r) && KeepArity(r) == i)
  {
    Mids(r);
    Prefixes(r);
    WholePrefix(Pre010(r), r);
    assert MidAt(r, 0) && MidAt(r, 1) && MidAt(r, 2) && MidAt(r, 3) && MidAt(r, 5);
  }

  lemma KeepBase00(r: Row)
    requires OpBits(r) && !On(r, 6) && !On(r, 5)
    ensures Keep0(r) == AsBit(Kept(r, 0))
  {
    Mids(r);
    Prefixes(r);
    assert Extra0(r) == 0 && Extra1(r) == 0;
    assert MidAt(r, 0) && MidAt(r, 7);
  }

  lemma AllMoves(r: Row)
    requires OpBits(r) && !On(r, 6) && !On(r, 5)
    ensures AllMov(r) * Low(r, true) == AsBit(MovesDown(r)) && AllMov(r) * Low(r, false) == AsBit(MovesUp(r))
  {
    Mids(r);
    Prefixes(r);
    assert MidAt(r, 0) && MidAt(r, 1) && MidAt(r, 2) && MidAt(r, 3) && MidAt(r, 5) && MidAt(r, 6);
  }

  lemma MoveBase00(r: Row)
    requires OpBits(r) && !On(r, 6) && !On(r, 5)
    ensures Left0(r) == AsBit(MovesDown(r)) && Right1(r) == AsBit(MovesUp(r))
  {
    AllMoves(r);
    Prefixes(r);
    WholePrefix(Pre011(r), r);
    assert Extra0(r) == 0 && Extra1(r) == 0;
  }

  lemma Base1(r: Row)
    requires OpBits(r) && EndFlags(r) && Level(r) && On(r, 6)
    ensures Keep0(r) == AsBit(Kept(r, 0)) && Left0(r) == 0 && Right1(r) == 0
  {
    Mids(r);
    Prefixes(r);
    NoMov(r, 2);
    assert BitAt(r, 5) && BitAt(r, 4) && BitAt(r, 3) && BitAt(r, 2) && BitAt(r, 1) && BitAt(r, 0);
  }

  lemma KeepDeltas1(r: Row, i: nat)
    requires OpBits(r) && Level(r) && On(r, 6) && 1 <= i < 16
    ensures KeepDelta(r, i) == AsBit(Kept(r, i)) - AsBit(Kept(r, i - 1))
  {
    Mids(r);
    Prefixes(r);
    Deltas(r, i);
    assert MidAt(r, 0) && MidAt(r, 1) && MidAt(r, 4) && MidAt(r, 5) && MidAt(r, 7);
    assert BitAt(r, 5) && BitAt(r, 4) && BitAt(r, 3) && BitAt(r, 2) && BitAt(r, 1) && BitAt(r, 0);
  }

  lemma MoveDeltas1(r: Row, i: nat)
    requires OpBits(r) && Level(r) && On(r, 6) && 1 <= i < 16
    ensures LeftDelta(r, i) == 0 && RightDelta(r, i) == 0
  {
    Mids(r);
    Prefixes(r);
    Deltas(r, i);
    assert MidAt(r, 4) && MidAt(r, 6) && MidAt(r, 7);
  }

  lemma {:induction false} KeptCells(r: Row, i: nat)
    requires OpBits(r) && EndFlags(r) && Level(r) && i < 16
    ensures Keep(r, i) == AsBit(Kept(r, i))
  {
    if i == 0 {
      if On(r, 6) { Base1(r); } else { KeepBase00(r); }
    } else {
      KeptCells(r, i - 1);
      if On(r, 6) {
        KeepDeltas1(r, i);
      } else if On(r, 4) {
        Keep001(r, i);
      } else {
        Keep000(r, i);
      }
    }
  }

  lemma MoveDeltas(r: Row, i: nat)
    requires OpBits(r) && Level(r) && 1 <= i < 16
    ensures LeftDelta(r, i) == -AsBit(MovesDown(r) && KeepArity(r) == i + 1)
    ensures RightDelta(r, i) == -AsBit(MovesUp(r) && KeepArity(r) == i)
  {
    if On(r, 6) {
      MoveDeltas1(r, i);
    } else if On(r, 4) {
      Moves001(r, i);
    } else {
      Moves000(r, i);
    }
  }

  lemma MoveBase(r: Row)
    requires OpBits(r) && EndFlags(r) && Level(r)
    ensures Left0(r) == AsBit(MovesDown(r)) && Right1(r) == AsBit(MovesUp(r))
    ensures MovesDown(r) || MovesUp(r) ==> KeepArity(r) >= 2
  {
    if On(r, 6) { Base1(r); } else { MoveBase00(r); }
  }

  lemma {:induction false} LeftCells(r: Row, i: nat)
    requires OpBits(r) && EndFlags(r) && Level(r) && i < 16
    ensures Left(r, i) == AsBit(MovesDown(r) && i + 1 < KeepArity(r))
  {
    if i == 0 {
      MoveBase(r);
    } else {
      LeftCells(r, i - 1);
      MoveDeltas(r, i);
    }
  }

  lemma {:induction false} RightCells(r: Row, i: nat)
    requires OpBits(r) && EndFlags(r) && Level(r) && i < 16
    ensures Right(r, i) == AsBit(MovesUp(r) && 0 < i < KeepArity(r))
  {
    if i == 1 {
      MoveBase(r);
    } else if i > 1 {
      RightCells(r, i - 1);
      MoveDeltas(r, i);
    }
  }

  /** An operation that neither pushes nor pops keeps every cell from its arity on. */
  lemma KeepSelectors(r: Row, i: nat)
    requires OpBits(r) && EndFlags(r) && Level(r) && KeepArity(r) <= i < 16
    ensures Keep(r, i) == 1 && Left(r, i) == 0 && Right(r, i) == 0
  {
    KeptCells(r, i);
    LeftCells(r, i);
    RightCells(r, i);
  }

  // DYNCALL
  // ----------------------------------------------------------------------------

  lemma DyncallBase(r: Row)
    requires OpBits(r) && IsDyncall(r)
    ensures Keep0(r) == 0 && Left0(r) == 1 && Right1(r) == 0
  {
    Prefixes(r);
    NoMov(r, 2);
    WholePrefix(Pre011(r), r);
    assert BitAt(r, 3) && BitAt(r, 2) && BitAt(r, 1) && BitAt(r, 0);
  }

  lemma DyncallDeltas(r: Row, i: nat)
    requires OpBits(r) && IsDyncall(r) && 1 <= i < 16
    ensures KeepDelta(r, i) == 0 && LeftDelta(r, i) == 0 && RightDelta(r, i) == 0
  {
    Prefixes(r);
    Deltas(r, i);
    WideIs(r, 0, false);
    WideIs(r, 7, false);
    WideIs(r, 1, true);
    WideIs(r, 1, false);
    WideIs(r, 4, true);
    WideIs(r, 5, false);
  }

  /** DYNCALL takes its operand off the top: every visible cell comes from the one below. */
  lemma {:induction false} DyncallSelectors(r: Row, i: nat)
    requires OpBits(r) && IsDyncall(r) && i < 16
    ensures Keep(r, i) == 0 && Left(r, i) == 1 && Right(r, i) == 0
  {
    DyncallBase(r);
    if i > 0 {
      DyncallSelectors(r, i - 1);
      DyncallDeltas(r, i);
    }
  }

  // One stack
  // ----------------------------------------------------------------------------

  ghost predicate Routed(m0: Row, m1: Row) {
    forall j: nat | j < 16 :: RoutedAt(m0, m1, j)
  }

  ghost predicate RoutedRow(t: seq<Row>, i: nat)
    requires i + 1 < |t|
  {
    Routed(t[i], t[i + 1])
  }

  ghost predicate StackTrace(t: seq<Row>) {
    OverflowTrace(t) && forall i: nat | i + 1 < |t| :: RoutedRow(t, i)
  }

  function Visible(r: Row): (s: seq<int>)
    ensures |s| == 16
  {
    seq(16, j requires 0 <= j < 16 => Stack(r, j))
  }

  /** The whole operand stack, top first: the visible cells, then the overflow chain. */
  function Whole(t: seq<Row>, i: nat): seq<int>
    requires i < |t|
  {
    Visible(t[i]) + Below(t, i)
  }

  lemma RouteOne(m0: Row, m1: Row, j: nat)
    requires j < 16
    ensures Routes(m0, m1, j, 1, 0, 0) ==> Stack(m1, j) == Stack(m0, j)
    ensures j < 15 && Routes(m0, m1, j, 0, 1, 0) ==> Stack(m1, j) == Stack(m0, j + 1)
    ensures j > 0 && Routes(m0, m1, j, 0, 0, 1) ==> Stack(m1, j) == Stack(m0, j - 1)
  {
    if Routes(m0, m1, j, 1, 0, 0) { ZeroIsSmall(Stack(m1, j) - Stack(m0, j)); }
    if j < 15 && Routes(m0, m1, j, 0, 1, 0) { ZeroIsSmall(Stack(m1, j) - Stack(m0, j + 1)); }
    if j > 0 && Routes(m0, m1, j, 0, 0, 1) { ZeroIsSmall(Stack(m1, j) - Stack(m0, j - 1)); }
  }

  lemma MoveDown(m0: Row, m1: Row, j: nat)
    requires OpBits(m0) && Pushes(m0) && PushArity(m0) < j < 16 && RoutedAt(m0, m1, j)
    ensures Stack(m1, j) == Stack(m0, j - 1)
  {
    PushSelectors(m0, j);
    RouteOne(m0, m1, j);
  }

  lemma MoveUp(m0: Row, m1: Row, j: nat)
    requires OpBits(m0) && EndFlags(m0) && Pops(m0) && PopArity(m0) <= j < 15 && RoutedAt(m0, m1, j)
    ensures Stack(m1, j) == Stack(m0, j + 1)
  {
    PopSelectors(m0, j);
    RouteOne(m0, m1, j);
  }

  lemma StayPut(m0: Row, m1: Row, j: nat)
    requires OpBits(m0) && EndFlags(m0) && Level(m0) && KeepArity(m0) <= j < 16 && RoutedAt(m0, m1, j)
    ensures Stack(m1, j) == Stack(m0, j)
  {
    KeepSelectors(m0, j);
    RouteOne(m0, m1, j);
  }

  /** Depth and chain agree at the start of the run, at the start of every context, and on every row
      of a run whose returns go well. */
  lemma SoundAt(t: seq<Row>, i: nat)
    requires StackTrace(t) && i < |t| && (i == 0 || Opens(t[i - 1]) || AllReturnWell(t))
    ensures Sound(t, i)
  {
    if AllReturnWell(t) {
      OverflowIsAStack(t, i);
    } else if i == 0 {
      EmptyAtEnds(t, 0);
    } else {
      OpenLaw(t, i - 1);
    }
  }

  lemma RowIsRouted(t: seq<Row>, i: nat)
    requires StackTrace(t) && i + 1 < |t| && !Closes(t[i])
    ensures OpBits(t[i]) && EndFlags(t[i]) && Routed(t[i], t[i + 1])
  {
    assert OverflowAt(t, i) && RoutedRow(t, i);
    OpBitMeaning(t[i]);
    EndFlagsHold(t, i);
  }

  /** A pushing operation moves the whole stack from its arity on down by one cell. */
  lemma PushMovesAll(t: seq<Row>, i: nat)
    requires StackTrace(t) && i + 1 < |t| && Sound(t, i) && Pushes(t[i])
    ensures Sound(t, i + 1)
    ensures var k := PushArity(t[i]); k < |Whole(t, i)| < |Whole(t, i + 1)| && Whole(t, i + 1)[k + 1..] == Whole(t, i)[k..]
  {
    var k := PushArity(t[i]);
    PushLaw(t, i);
    RowIsRouted(t, i);
    var u, v := Whole(t, i), Whole(t, i + 1);
    assert |v| == |u| + 1;
    forall j: nat | k <= j < |u|
      ensures v[j + 1] == u[j]
    {
      if j < 15 {
        assert RoutedAt(t[i], t[i + 1], j + 1);
        MoveDown(t[i], t[i + 1], j + 1);
      }
    }
  }

  /** A popping operation moves it up by one; when nothing is spilled a zero comes in at the bottom. */
  lemma PopMovesAll(t: seq<Row>, i: nat)
    requires StackTrace(t) && i + 1 < |t| && Sound(t, i) && Pops(t[i]) && !Closes(t[i])
    ensures Sound(t, i + 1)
    ensures var k := PopArity(t[i]);
            && k < |Whole(t, i)| && k <= |Whole(t, i + 1)|
            && Whole(t, i + 1)[k..] == Whole(t, i)[k + 1..] + (if Below(t, i) == [] then [0] else [])
  {
    var k := PopArity(t[i]);
    RowIsRouted(t, i);
    PopLaw(t, i);
    var u, v := Whole(t, i) + (if Below(t, i) == [] then [0] else []), Whole(t, i + 1);
    assert |v| == |u| - 1;
    forall j: nat | k <= j < 15
      ensures v[j] == u[j + 1]
    {
      assert RoutedAt(t[i], t[i + 1], j);
      MoveUp(t[i], t[i + 1], j);
    }
    SameFrom(v, u, k);
  }

  lemma SameFrom(v: seq<int>, u: seq<int>, k: nat)
    requires k <= |v| == |u| - 1 && forall j: nat | k <= j < |v| :: v[j] == u[j + 1]
    ensures v[k..] == u[k + 1..]
  {
  }

  lemma CellsStay(t: seq<Row>, i: nat)
    requires StackTrace(t) && i + 1 < |t| && Stays(t[i])
    ensures forall j: nat | KeepArity(t[i]) <= j < 16 :: Stack(t[i + 1], j) == Stack(t[i], j)
  {
    RowIsRouted(t, i);
    forall j: nat | KeepArity(t[i]) <= j < 16
      ensures Stack(t[i + 1], j) == Stack(t[i], j)
    {
      assert RoutedAt(t[i], t[i + 1], j);
      StayPut(t[i], t[i + 1], j);
    }
  }

  /** Every other operation within a context leaves the whole stack from its arity on in place. */
  lemma OthersKeepAll(t: seq<Row>, i: nat)
    requires StackTrace(t) && i + 1 < |t| && Sound(t, i) && Stays(t[i])
    ensures Sound(t, i + 1)
    ensures var k := KeepArity(t[i]); k <= |Whole(t, i)| == |Whole(t, i + 1)| && Whole(t, i + 1)[k..] == Whole(t, i)[k..]
  {
    KeepLaw(t, i);
    CellsStay(t, i);
    WholeStays(t, i, KeepArity(t[i]));
  }

  lemma WholeStays(t: seq<Row>, i: nat, k: nat)
    requires i + 1 < |t| && k <= 16 && Below(t, i + 1) == Below(t, i)
    requires forall j: nat | k <= j < 16 :: Stack(t[i + 1], j) == Stack(t[i], j)
    ensures |Whole(t, i)| == |Whole(t, i + 1)| && Whole(t, i + 1)[k..] == Whole(t, i)[k..]
  {
  }

  /** Dropping what was just pushed gives back the whole stack, the overflow chain included. */
  lemma DropUndoesPush(t: seq<Row>, i: nat)
    requires StackTrace(t) && i + 2 < |t| && Sound(t, i) && !Closes(t[i + 1])
    requires Pushes(t[i]) && PushArity(t[i]) == 0 && Pops(t[i + 1]) && PopArity(t[i + 1]) == 0
    ensures Whole(t, i + 2) == Whole(t, i)
  {
    PushMovesAll(t, i);
    PopMovesAll(t, i + 1);
    PushLaw(t, i);
    assert Whole(t, i + 2)[0..] == Whole(t, i + 2) && Whole(t, i)[0..] == Whole(t, i);
  }

  // Runs within one context: an unbounded stack over zeros
  // ----------------------------------------------------------------------------

  /** Entry p from the top of the unbounded stack, which holds zeros below its last cell. */
  function Entry(t: seq<Row>, i: nat, p: nat): int
    requires i < |t|
  {
    if p < |Whole(t, i)| then Whole(t, i)[p] else 0
  }

  /** Entries from the top that an operation may read, change or move among themselves. */
  function Reach(r: Row): nat {
    if Pushes(r) then PushArity(r) else if Pops(r) then PopArity(r) + 1 else KeepArity(r)
  }

  function Shift(r: Row): int { AsBit(Pushes(r)) - AsBit(Pops(r)) }

  /** How far rows i to k - 1 move the entries they do not reach. */
  function Moved(t: seq<Row>, i: nat, k: nat): int
    requires i <= k <= |t|
    decreases k
  {
    if i == k then 0 else Moved(t, i, k - 1) + Shift(t[k - 1])
  }

  lemma EntryMoves(t: seq<Row>, i: nat, p: nat)
    requires StackTrace(t) && i + 1 < |t| && Sound(t, i) && SameContext(t, i, i + 1) && Reach(t[i]) <= p
    ensures Sound(t, i + 1) && 0 <= p + Shift(t[i]) && Entry(t, i + 1, p + Shift(t[i])) == Entry(t, i, p)
  {
    RowIsRouted(t, i);
    ClassesDisjoint(t[i]);
    if Pushes(t[i]) {
      PushMovesAll(t, i);
      SuffixEntry(Whole(t, i + 1), Whole(t, i), PushArity(t[i]) + 1, PushArity(t[i]), p + 1, p);
    } else if Pops(t[i]) {
      PopMovesEntry(t, i, p);
    } else {
      OthersKeepAll(t, i);
      SuffixEntry(Whole(t, i + 1), Whole(t, i), KeepArity(t[i]), KeepArity(t[i]), p, p);
    }
  }

  lemma PopMovesEntry(t: seq<Row>, i: nat, p: nat)
    requires StackTrace(t) && i + 1 < |t| && Sound(t, i) && !Closes(t[i]) && Pops(t[i]) && PopArity(t[i]) < p
    ensures Sound(t, i + 1) && Entry(t, i + 1, p - 1) == Entry(t, i, p)
  {
    PopMovesAll(t, i);
    PoppedEntry(Whole(t, i + 1), Whole(t, i), if Below(t, i) == [] then [0] else [], PopArity(t[i]), p);
  }

  lemma SuffixEntry(v: seq<int>, u: seq<int>, a: nat, b: nat, p: nat, q: nat)
    requires a <= |v| && b <= |u| && v[a..] == u[b..] && a <= p && p - a == q - b
    ensures p < |v| <==> q < |u|
    ensures p < |v| ==> v[p] == u[q]
  {
    if p < |v| || q < |u| {
      assert |v[a..]| == |u[b..]|;
    }
    if p < |v| {
      assert v[p] == v[a..][p - a] == u[b..][q - b];
    }
  }

  lemma PoppedEntry(v: seq<int>, u: seq<int>, z: seq<int>, k: nat, p: nat)
    requires k < |u| && k <= |v| && v[k..] == u[k + 1..] + z && (z == [] || z == [0]) && k < p
    ensures (if p - 1 < |v| then v[p - 1] else 0) == if p < |u| then u[p] else 0
  {
    var w := u + z;
    assert w[k + 1..] == v[k..];
    SuffixEntry(v, w, k, k + 1, p - 1, p);
  }

  ghost predicate Unreached(t: seq<Row>, i: nat, j: nat, x: nat)
    requires i <= j < |t|
  {
    Reach(t[j]) <= x + Moved(t, i, j)
  }

  /** One unbounded stack: over any operations of one context, an entry that none of them reaches is
      found again where the pushes and pops have moved it. */
  lemma {:induction false} RunKeepsEntry(t: seq<Row>, i: nat, k: nat, x: nat)
    requires StackTrace(t) && i <= k < |t| && Sound(t, i) && SameContext(t, i, k)
    requires forall j: nat | i <= j < k :: Unreached(t, i, j, x)
    ensures Sound(t, k) && 0 <= x + Moved(t, i, k) && Entry(t, k, x + Moved(t, i, k)) == Entry(t, i, x)
    decreases k
  {
    if i < k {
      RunKeepsEntry(t, i, k - 1, x);
      assert Unreached(t, i, k - 1, x);
      EntryMoves(t, k - 1, x + Moved(t, i, k - 1));
    }
  }

  ghost predicate KeptEntry(t: seq<Row>, i: nat, k: nat, y: nat)
    requires i <= k < |t|
  {
    0 <= y + Moved(t, i, k) && Entry(t, k, y + Moved(t, i, k)) == Entry(t, i, y)
  }

  lemma DeeperUnreached(t: seq<Row>, i: nat, k: nat, x: nat, y: nat)
    requires i <= k < |t| && x <= y && forall j: nat | i <= j < k :: Unreached(t, i, j, x)
    ensures forall j: nat | i <= j < k :: Unreached(t, i, j, y)
  {
    forall j: nat | i <= j < k
      ensures Unreached(t, i, j, y)
    {
      assert Unreached(t, i, j, x);
    }
  }

  /** Everything from an entry on that is never reached stays as it is, however deep. */
  lemma RunKeepsBelow(t: seq<Row>, i: nat, k: nat, x: nat)
    requires StackTrace(t) && i <= k < |t| && Sound(t, i) && SameContext(t, i, k)
    requires forall j: nat | i <= j < k :: Unreached(t, i, j, x)
    ensures forall y: nat | x <= y :: KeptEntry(t, i, k, y)
  {
    forall y: nat | x <= y
      ensures KeptEntry(t, i, k, y)
    {
      DeeperUnreached(t, i, k, x, y);
      RunKeepsEntry(t, i, k, y);
    }
  }
}
