/** The stack overflow table: cells that leave the sixteen visible ones are linked into a chain
    through the clock cycle of the push that spilled them. */
module StackOverflow {
  import opened Goldilocks
  import opened CoreTrace

  // Operation flags
  // ----------------------------------------------------------------------------

  function CallFlag(r: Row): int {
    (1 - OpBit(r, 4)) * (OpBit(r, 3) * OpBit(r, 2)) * Extra1(r)
  }

  function DyncallFlag(r: Row): int {
    Extra0(r) * (OpBit(r, 3) * OpBit(r, 2) * (1 - OpBit(r, 1)) * (1 - OpBit(r, 0)))
  }

  function SyscallFlag(r: Row): int {
    (1 - OpBit(r, 4)) * (OpBit(r, 3) * (1 - OpBit(r, 2))) * Extra1(r)
  }

  function OpenFlag(r: Row): int {
    CallFlag(r) + DyncallFlag(r) + SyscallFlag(r)
  }

  function CloseFlag(r: Row): int {
    EndFlag(r) * (HasherState(r, 6) + HasherState(r, 7))
  }

  function U32Prefix(r: Row): int {
    OpBit(r, 6) * (1 - OpBit(r, 5)) * (1 - OpBit(r, 4))
  }

  function LeftFlag(r: Row): int {
    (1 - OpBit(r, 6)) * OpBit(r, 5) * (1 - OpBit(r, 4))
    + U32Prefix(r) * OpBit(r, 3) * OpBit(r, 2)
    + (Extra0(r) * ((1 - OpBit(r, 3)) * OpBit(r, 2) * (1 - OpBit(r, 1)) * (1 - OpBit(r, 0)))
       + OpBit(r, 4) * ((1 - OpBit(r, 3)) * OpBit(r, 2)) * Extra1(r))
    + (EndFlag(r) * HasherState(r, 5)
       + Extra0(r) * (OpBit(r, 3) * (1 - OpBit(r, 2)) * (1 - OpBit(r, 1)) * (1 - OpBit(r, 0))))
  }

  function RightFlag(r: Row): int {
    (1 - OpBit(r, 6)) * OpBit(r, 5) * OpBit(r, 4)
    + Extra0(r) * (OpBit(r, 3) * (1 - OpBit(r, 2)) * OpBit(r, 1) * OpBit(r, 0))
    + U32Prefix(r) * (OpBit(r, 3) * (1 - OpBit(r, 2)) * (1 - OpBit(r, 1)))
  }

  function OverflowFlag(r: Row): int {
    (Depth(r) - 16) * DepthInv(r)
  }

  // Constraints
  // ----------------------------------------------------------------------------

  ghost predicate ClockConstraints(m0: Row, m1: Row, tr: int, fst: int) {
    && Zero(fst * Clk(m0))
    && Zero(tr * (Clk(m1) - (Clk(m0) + 1)))
  }

  ghost predicate DepthConstraints(m0: Row, m1: Row, tr: int, fst: int, lst: int) {
    && Zero(fst * (Depth(m0) - 16))
    && Zero(lst * (Depth(m0) - 16))
    && Zero(tr * ((Depth(m1) - Depth(m0)) * (1 - OpenFlag(m0) - CloseFlag(m0)) + LeftFlag(m0) * OverflowFlag(m0)
                  - RightFlag(m0) + OpenFlag(m0) * (Depth(m1) - 16)))
    && Zero((1 - OverflowFlag(m0)) * (Depth(m0) - 16))
  }

  ghost predicate PointerConstraints(m0: Row, m1: Row, tr: int, fst: int, lst: int) {
    && Zero(fst * Pointer(m0))
    && Zero(lst * Pointer(m0))
    && Zero(RightFlag(m0) * (Pointer(m1) - Clk(m0)))
    && Zero(tr * (OpenFlag(m0) * Pointer(m1)))
    && Zero(tr * ((1 - (OpenFlag(m0) + CloseFlag(m0) + RightFlag(m0) + LeftFlag(m0) * OverflowFlag(m0)))
                  * (Pointer(m1) - Pointer(m0))))
    && Zero((1 - OverflowFlag(m0)) * (LeftFlag(m0) * Stack(m1, 15)))
  }

  ghost predicate OverflowAt(t: seq<Row>, i: nat)
    requires i < |t|
  {
    && OpBitConstraints(t[i])
    && ClockConstraints(t[i], Next(t, i), Tr(t, i), Fst(i))
    && DepthConstraints(t[i], Next(t, i), Tr(t, i), Fst(i), Lst(t, i))
    && PointerConstraints(t[i], Next(t, i), Tr(t, i), Fst(i), Lst(t, i))
  }

  // Operation classes
  // ----------------------------------------------------------------------------

  predicate IsCall(r: Row) { On(r, 6) && On(r, 5) && !On(r, 4) && On(r, 3) && On(r, 2) }
  predicate IsSyscall(r: Row) { On(r, 6) && On(r, 5) && !On(r, 4) && On(r, 3) && !On(r, 2) }

  predicate IsDyncall(r: Row) {
    On(r, 6) && !On(r, 5) && On(r, 4) && On(r, 3) && On(r, 2) && !On(r, 1) && !On(r, 0)
  }

  /** Entering a new context: CALL, SYSCALL or DYNCALL. */
  predicate Opens(r: Row) { IsCall(r) || IsSyscall(r) || IsDyncall(r) }

  /** END of a context. */
  predicate Closes(r: Row) { IsEnd(r) && HasherState(r, 6) + HasherState(r, 7) == 1 }

  /** Pushing operations: prefix 011, PUSH and U32SPLIT. */
  predicate Pushes(r: Row) {
    || (!On(r, 6) && On(r, 5) && On(r, 4))
    || (On(r, 6) && !On(r, 5) && On(r, 4) && On(r, 3) && !On(r, 2) && On(r, 1) && On(r, 0))
    || (On(r, 6) && !On(r, 5) && !On(r, 4) && On(r, 3) && !On(r, 2) && !On(r, 1))
  }

  /** Popping operations: prefix 010, U32ADD3 and U32MADD, SPLIT, REPEAT, END of a loop, DYN. */
  predicate Pops(r: Row) {
    || (!On(r, 6) && On(r, 5) && !On(r, 4))
    || (On(r, 6) && !On(r, 5) && !On(r, 4) && On(r, 3) && On(r, 2))
    || (On(r, 6) && !On(r, 5) && On(r, 4) && !On(r, 3) && On(r, 2) && !On(r, 1) && !On(r, 0))
    || (On(r, 6) && On(r, 5) && On(r, 4) && !On(r, 3) && On(r, 2))
    || (IsEnd(r) && HasherState(r, 5) == 1)
    || (On(r, 6) && !On(r, 5) && On(r, 4) && On(r, 3) && !On(r, 2) && !On(r, 1) && !On(r, 0))
  }

  /** Block-stack flags carried by an END row. */
  ghost predicate EndFlags(r: Row) {
    IsEnd(r) ==>
      && Bit(HasherState(r, 5)) && Bit(HasherState(r, 6) + HasherState(r, 7))
      && !(HasherState(r, 5) == 1 && HasherState(r, 6) + HasherState(r, 7) == 1)
  }

  lemma ControlFlags(r: Row)
    requires OpBits(r)
    ensures CallFlag(r) == AsBit(IsCall(r)) && SyscallFlag(r) == AsBit(IsSyscall(r))
    ensures EndFlag(r) == AsBit(IsEnd(r)) && DyncallFlag(r) == AsBit(IsDyncall(r))
  {
    assert BitAt(r, 4) && BitAt(r, 3) && BitAt(r, 2) && BitAt(r, 1) && BitAt(r, 0);
  }

  lemma OpenMeaning(r: Row)
    requires OpBits(r)
    ensures OpenFlag(r) == AsBit(Opens(r))
  {
    ControlFlags(r);
  }

  lemma CloseMeaning(r: Row)
    requires OpBits(r) && EndFlags(r)
    ensures CloseFlag(r) == AsBit(Closes(r))
  {
    ControlFlags(r);
  }

  lemma RightMeaning(r: Row)
    requires OpBits(r)
    ensures RightFlag(r) == AsBit(Pushes(r))
  {
    GrowingPrefix(r);
    GrowingFlags(r);
  }

  lemma GrowingPrefix(r: Row)
    requires OpBits(r)
    ensures (1 - OpBit(r, 6)) * OpBit(r, 5) * OpBit(r, 4) == AsBit(!On(r, 6) && On(r, 5) && On(r, 4))
    ensures U32Prefix(r) == AsBit(On(r, 6) && !On(r, 5) && !On(r, 4))
  {
    assert BitAt(r, 6) && BitAt(r, 5) && BitAt(r, 4);
  }

  lemma GrowingFlags(r: Row)
    requires OpBits(r)
    ensures OpBit(r, 3) * (1 - OpBit(r, 2)) * OpBit(r, 1) * OpBit(r, 0) == AsBit(On(r, 3) && !On(r, 2) && On(r, 1) && On(r, 0))
    ensures OpBit(r, 3) * (1 - OpBit(r, 2)) * (1 - OpBit(r, 1)) == AsBit(On(r, 3) && !On(r, 2) && !On(r, 1))
  {
    assert BitAt(r, 3) && BitAt(r, 2) && BitAt(r, 1) && BitAt(r, 0);
  }

  lemma ShrinkingPrefixes(r: Row)
    requires OpBits(r)
    ensures (1 - OpBit(r, 6)) * OpBit(r, 5) * (1 - OpBit(r, 4)) == AsBit(!On(r, 6) && On(r, 5) && !On(r, 4))
    ensures U32Prefix(r) * OpBit(r, 3) * OpBit(r, 2) == AsBit(On(r, 6) && !On(r, 5) && !On(r, 4) && On(r, 3) && On(r, 2))
  {
    assert BitAt(r, 6) && BitAt(r, 5) && BitAt(r, 4) && BitAt(r, 3) && BitAt(r, 2);
  }

  lemma ShrinkingControl(r: Row)
    requires OpBits(r)
    ensures Extra0(r) * ((1 - OpBit(r, 3)) * OpBit(r, 2) * (1 - OpBit(r, 1)) * (1 - OpBit(r, 0)))
         == AsBit(On(r, 6) && !On(r, 5) && On(r, 4) && !On(r, 3) && On(r, 2) && !On(r, 1) && !On(r, 0))
    ensures OpBit(r, 4) * ((1 - OpBit(r, 3)) * OpBit(r, 2)) * Extra1(r) == AsBit(On(r, 6) && On(r, 5) && On(r, 4) && !On(r, 3) && On(r, 2))
    ensures Extra0(r) * (OpBit(r, 3) * (1 - OpBit(r, 2)) * (1 - OpBit(r, 1)) * (1 - OpBit(r, 0)))
         == AsBit(On(r, 6) && !On(r, 5) && On(r, 4) && On(r, 3) && !On(r, 2) && !On(r, 1) && !On(r, 0))
  {
    assert BitAt(r, 4) && BitAt(r, 3) && BitAt(r, 2) && BitAt(r, 1) && BitAt(r, 0);
  }

  lemma LeftMeaning(r: Row)
    requires OpBits(r) && EndFlags(r)
    ensures LeftFlag(r) == AsBit(Pops(r))
  {
    ControlFlags(r);
    ShrinkingPrefixes(r);
    ShrinkingControl(r);
  }

  lemma ClassesDisjoint(r: Row)
    requires EndFlags(r)
    ensures !(Pushes(r) && Pops(r)) && !(Pushes(r) && Opens(r)) && !(Pushes(r) && Closes(r))
    ensures !(Pops(r) && Opens(r)) && !(Pops(r) && Closes(r)) && !(Opens(r) && Closes(r))
  {
  }

  // One step
  // ----------------------------------------------------------------------------

  /** Number of spilled cells, as the depth column counts them modulo P. */
  function Spilled(r: Row): nat {
    (Depth(r) - 16) % P
  }

  /** The overflow flag is 1 exactly when cells are spilled. */
  ghost predicate DepthLaw(m0: Row, m1: Row) {
    && (Pushes(m0) ==> Zero(Depth(m1) - Depth(m0) - 1))
    && (Pops(m0) && Depth(m0) != 16 ==> Zero(Depth(m1) - Depth(m0) + 1))
    && (Pops(m0) && Depth(m0) == 16 ==> Depth(m1) == 16)
    && (Opens(m0) ==> Depth(m1) == 16)
    && (!Pushes(m0) && !Pops(m0) && !Opens(m0) && !Closes(m0) ==> Depth(m1) == Depth(m0))
  }

  ghost predicate PointerLaw(m0: Row, m1: Row) {
    && (Pushes(m0) ==> Pointer(m1) == Clk(m0))
    && (Pops(m0) && Depth(m0) == 16 ==> Pointer(m1) == Pointer(m0) && Stack(m1, 15) == 0)
    && (Opens(m0) ==> Pointer(m1) == 0)
    && (!Pushes(m0) && !Pops(m0) && !Opens(m0) && !Closes(m0) ==> Pointer(m1) == Pointer(m0))
  }

  /** The depth constraint with its flags evaluated. */
  lemma DepthStep(d0: Felt, d1: Felt, open: bool, close: bool, left: bool, right: bool, ov: int)
    requires Zero((d1 - d0) * (1 - AsBit(open) - AsBit(close)) + AsBit(left) * ov - AsBit(right) + AsBit(open) * (d1 - 16))
    requires !(open && close) && !(left && right) && (open || close ==> !left && !right)
    requires d0 == 16 ==> ov == 0
    requires d0 != 16 ==> Zero(ov - 1)
    ensures right ==> Zero(d1 - d0 - 1)
    ensures left && d0 != 16 ==> Zero(d1 - d0 + 1)
    ensures left && d0 == 16 ==> d1 == 16
    ensures open ==> d1 == 16
    ensures !right && !left && !open && !close ==> d1 == d0
  {
  }

  lemma PointerStep(p0: Felt, p1: Felt, clk: Felt, s: Felt, open: bool, close: bool, left: bool, right: bool, ov: int)
    requires Zero(AsBit(right) * (p1 - clk)) && Zero(AsBit(open) * p1)
    requires Zero((1 - (AsBit(open) + AsBit(close) + AsBit(right) + AsBit(left) * ov)) * (p1 - p0))
    requires Zero((1 - ov) * (AsBit(left) * s))
    requires !(open && close) && !(left && right) && (open || close ==> !left && !right)
    ensures right ==> p1 == clk
    ensures left && ov == 0 ==> p1 == p0 && s == 0
    ensures open ==> p1 == 0
    ensures !right && !left && !open && !close ==> p1 == p0
  {
  }

  ghost predicate RowFacts(t: seq<Row>, i: nat)
    requires i < |t|
  {
    && OpBits(t[i]) && EndFlags(t[i])
    && OpenFlag(t[i]) == AsBit(Opens(t[i])) && CloseFlag(t[i]) == AsBit(Closes(t[i]))
    && LeftFlag(t[i]) == AsBit(Pops(t[i])) && RightFlag(t[i]) == AsBit(Pushes(t[i]))
  }

  lemma RowMeaning(t: seq<Row>, i: nat)
    requires i < |t| && OverflowAt(t, i) && EndFlags(t[i])
    ensures RowFacts(t, i)
  {
    OpBitMeaning(t[i]);
    OpenMeaning(t[i]);
    CloseMeaning(t[i]);
    LeftMeaning(t[i]);
    RightMeaning(t[i]);
  }

  lemma StepDepth(t: seq<Row>, i: nat)
    requires i + 1 < |t| && OverflowAt(t, i) && EndFlags(t[i])
    ensures DepthLaw(t[i], t[i + 1])
  {
    var m0, m1 := t[i], t[i + 1];
    RowMeaning(t, i);
    ClassesDisjoint(m0);
    if Depth(m0) != 16 {
      ForcedOne(OverflowFlag(m0), Depth(m0) - 16);
    }
    DepthStep(Depth(m0), Depth(m1), Opens(m0), Closes(m0), Pops(m0), Pushes(m0), OverflowFlag(m0));
  }

  lemma StepPointer(t: seq<Row>, i: nat)
    requires i + 1 < |t| && OverflowAt(t, i) && EndFlags(t[i])
    ensures PointerLaw(t[i], t[i + 1])
  {
    var m0, m1 := t[i], t[i + 1];
    RowMeaning(t, i);
    ClassesDisjoint(m0);
    if Depth(m0) != 16 {
      ForcedOne(OverflowFlag(m0), Depth(m0) - 16);
    }
    PointerStep(Pointer(m0), Pointer(m1), Clk(m0), Stack(m1, 15), Opens(m0), Closes(m0), Pops(m0), Pushes(m0), OverflowFlag(m0));
  }

  // Buses
  // ----------------------------------------------------------------------------

  /** The record (clk, s15, b1) that row j adds to the overflow table is (c, v, p). */
  ghost predicate Adds(t: seq<Row>, j: nat, c: int, v: int, p: int)
    requires j < |t|
  {
    Pushes(t[j]) && Clk(t[j]) == c && Stack(t[j], 15) == v && Pointer(t[j]) == p
  }

  ghost predicate Added(t: seq<Row>, c: int, v: int, p: int) {
    exists j | 0 <= j < |t| :: Adds(t, j, c, v, p)
  }

  /** Every record removed from the overflow table was added to it. */
  ghost predicate OverflowBusAt(t: seq<Row>, i: nat)
    requires i + 1 < |t|
  {
    && (Pops(t[i]) && Depth(t[i]) != 16 ==> Added(t, Pointer(t[i]), Stack(t[i + 1], 15), Pointer(t[i + 1])))
    && (IsDyncall(t[i]) && Depth(t[i]) != 16 ==> Added(t, Pointer(t[i]), Stack(t[i + 1], 15), HasherState(t[i], 5)))
  }

  /** Depth and pointer that an opening row leaves on the block stack. */
  function SavedDepth(r: Row): int {
    if IsDyncall(r) then HasherState(r, 4) else Depth(r)
  }

  function SavedPointer(r: Row): int {
    if IsDyncall(r) then HasherState(r, 5) else Pointer(r)
  }

  /** A block stack record. Blocks without a caller leave the caller's fields zero. */
  datatype BlockRecord = BlockRecord(block: int, parent: int, isLoop: int, ctx: int, depth: int, pointer: int, fnHash: seq<int>)

  function Simple(block: int, parent: int, isLoop: int): BlockRecord {
    BlockRecord(block, parent, isLoop, 0, 0, 0, [0, 0, 0, 0])
  }

  /** JOIN, SPLIT, SPAN, LOOP, DYN and RESPAN: blocks without a caller. */
  predicate OpensSimple(r: Row) {
    || (On(r, 6) && !On(r, 5) && On(r, 4) && !On(r, 3) && On(r, 2))
    || (On(r, 6) && !On(r, 5) && On(r, 4) && On(r, 3) && !On(r, 2) && !On(r, 1) && !On(r, 0))
    || IsRespan(r)
  }

  predicate IsLoop(r: Row) {
    On(r, 6) && !On(r, 5) && On(r, 4) && !On(r, 3) && On(r, 2) && !On(r, 1) && On(r, 0)
  }

  /** What an opening row puts on the block stack. */
  function Pushed(t: seq<Row>, q: nat): BlockRecord
    requires q + 1 < |t|
  {
    if Opens(t[q]) then
      BlockRecord(Addr(t[q + 1]), Addr(t[q]), 0, Ctx(t[q]), SavedDepth(t[q]), SavedPointer(t[q]), FnHash(t[q]))
    else
      Simple(Addr(t[q + 1]), if IsRespan(t[q]) then HasherState(t[q + 1], 1) else Addr(t[q]), AsBit(IsLoop(t[q])))
  }

  /** What an END row takes off it; its call flags say whether the caller's fields are restored. */
  function Popped(t: seq<Row>, i: nat): BlockRecord
    requires i + 1 < |t|
  {
    if Closes(t[i]) then
      BlockRecord(Addr(t[i]), Addr(t[i + 1]), HasherState(t[i], 5), Ctx(t[i + 1]), Depth(t[i + 1]), Pointer(t[i + 1]), FnHash(t[i + 1]))
    else
      Simple(Addr(t[i]), Addr(t[i + 1]), HasherState(t[i], 5))
  }

  ghost predicate Matches(t: seq<Row>, i: nat, q: nat)
    requires q + 1 < |t| && i + 1 < |t|
  {
    (Opens(t[q]) || OpensSimple(t[q])) && Popped(t, i) == Pushed(t, q)
  }

  /** An END row removes one record, and the block it ends was opened earlier. */
  ghost predicate BlockBusAt(t: seq<Row>, i: nat)
    requires i + 1 < |t|
  {
    IsEnd(t[i]) ==> Bit(HasherState(t[i], 6) + HasherState(t[i], 7)) && exists q: nat | q < i :: Matches(t, i, q)
  }

  ghost predicate OverflowTrace(t: seq<Row>) {
    && 0 < |t| <= P - 16
    && (forall i | 0 <= i < |t| :: OverflowAt(t, i))
    && (forall i | 0 <= i < |t| - 1 :: OverflowBusAt(t, i))
    && (forall i | 0 <= i < |t| - 1 :: BlockBusAt(t, i))
  }

  lemma EndFlagsHold(t: seq<Row>, i: nat)
    requires OverflowTrace(t) && i + 1 < |t|
    requires forall q: nat | q < i && Closes(t[i]) && Matches(t, i, q) :: Opens(t[q])
    ensures EndFlags(t[i])
  {
    assert BlockBusAt(t, i);
  }

  // The chain
  // ----------------------------------------------------------------------------

  lemma {:induction false} ClockIsIndex(t: seq<Row>, i: nat)
    requires OverflowTrace(t) && i < |t|
    ensures Clk(t[i]) == i
  {
    if i == 0 {
      assert OverflowAt(t, 0);
      ZeroIsSmall(Clk(t[0]));
    } else {
      ClockIsIndex(t, i - 1);
      assert OverflowAt(t, i - 1);
      ZeroIsSmall(Clk(t[i]) - i);
    }
  }

  /** The n values linked from pointer p: the record of clock cycle p is the push in row p. */
  function Chain(t: seq<Row>, p: int, n: nat): seq<int>
    decreases n
  {
    if n == 0 || !(0 <= p < |t|) || !Pushes(t[p]) then []
    else [Stack(t[p], 15)] + Chain(t, Pointer(t[p]), n - 1)
  }

  /** The cells below the visible sixteen, nearest first, as row i sees them. */
  function Below(t: seq<Row>, i: nat): seq<int>
    requires i < |t|
  {
    Chain(t, Pointer(t[i]), Spilled(t[i]))
  }

  /** The caller's cells: what row q has below the visible ones once DYNCALL has popped its operand. */
  function Caller(t: seq<Row>, q: nat): seq<int>
    requires q < |t|
  {
    if IsDyncall(t[q]) && Below(t, q) != [] then Below(t, q)[1..] else Below(t, q)
  }

  /** A DYNCALL row stages the depth after its pop, which nothing but this predicate demands. */
  ghost predicate StagesDepth(r: Row) {
    if Depth(r) == 16 then HasherState(r, 4) == 16 else Zero(HasherState(r, 4) - Depth(r) + 1)
  }

  /** If row i returns to a caller, then row q, whose record it takes, opened a context, and a
      DYNCALL there staged its depth. */
  ghost predicate ReturnsWell(t: seq<Row>, i: nat, q: nat)
    requires q < i && i + 1 < |t|
  {
    Closes(t[i]) && Matches(t, i, q) ==> Opens(t[q]) && (IsDyncall(t[q]) ==> StagesDepth(t[q]))
  }

  ghost predicate AllReturnWell(t: seq<Row>) {
    forall i: nat, q: nat | q < i && i + 1 < |t| :: ReturnsWell(t, i, q)
  }

  lemma RecordIsRow(t: seq<Row>, c: int, v: int, p: int)
    requires OverflowTrace(t) && Added(t, c, v, p)
    ensures 0 <= c < |t| && Pushes(t[c]) && Stack(t[c], 15) == v && Pointer(t[c]) == p
  {
    var j: nat :| j < |t| && Adds(t, j, c, v, p);
    ClockIsIndex(t, j);
  }

  /** Depth, pointer and chain agree, and no more cells are spilled than rows have passed. */
  ghost predicate Sound(t: seq<Row>, i: nat)
    requires i < |t|
  {
    Spilled(t[i]) <= i && |Below(t, i)| == Spilled(t[i])
  }

  lemma SpilledStep(d0: Felt, d1: Felt, k: int, n: nat)
    requires Zero(d1 - d0 - k) && (d0 - 16) % P == n && 0 <= n + k < P
    ensures (d1 - 16) % P == n + k
  {
  }

  /** Returning from a context hands the caller its own cells back. */
  ghost predicate Restores(t: seq<Row>, i: nat, q: nat)
    requires q < i && i + 1 < |t|
  {
    Closes(t[i]) && Matches(t, i, q) ==> Below(t, i + 1) == Caller(t, q)
  }

  ghost predicate StackLaw(t: seq<Row>, i: nat)
    requires i + 1 < |t|
  {
    var c, c' := Below(t, i), Below(t, i + 1);
    && (Pushes(t[i]) ==> c' == [Stack(t[i], 15)] + c)
    && (Pops(t[i]) ==> if c == [] then c' == [] && Stack(t[i + 1], 15) == 0
                       else c' == c[1..] && Stack(t[i + 1], 15) == c[0])
    && (Opens(t[i]) ==> c' == [])
    && (Closes(t[i]) ==> exists q: nat | q < i :: Matches(t, i, q) && Opens(t[q]) && c' == Caller(t, q))
    && (!Pushes(t[i]) && !Pops(t[i]) && !Opens(t[i]) && !Closes(t[i]) ==> c' == c)
  }

  lemma PushLaw(t: seq<Row>, i: nat)
    requires OverflowTrace(t) && i + 1 < |t| && Sound(t, i) && Pushes(t[i])
    ensures Below(t, i + 1) == [Stack(t[i], 15)] + Below(t, i)
    ensures Sound(t, i + 1)
  {
    assert OverflowAt(t, i);
    EndFlagsHold(t, i);
    StepDepth(t, i);
    StepPointer(t, i);
    ClockIsIndex(t, i);
    SpilledStep(Depth(t[i]), Depth(t[i + 1]), 1, Spilled(t[i]));
  }

  lemma PopLaw(t: seq<Row>, i: nat)
    requires OverflowTrace(t) && i + 1 < |t| && Sound(t, i) && Pops(t[i]) && EndFlags(t[i])
    ensures var c := Below(t, i);
            if c == [] then Below(t, i + 1) == [] && Stack(t[i + 1], 15) == 0
            else Below(t, i + 1) == c[1..] && Stack(t[i + 1], 15) == c[0]
    ensures Sound(t, i + 1)
  {
    assert OverflowAt(t, i);
    StepDepth(t, i);
    if Depth(t[i]) == 16 {
      StepPointer(t, i);
    } else {
      PopsRecord(t, i);
      SpilledStep(Depth(t[i]), Depth(t[i + 1]), -1, Spilled(t[i]));
      ChainStep(t, Pointer(t[i]), Spilled(t[i]));
    }
  }

  lemma PopsRecord(t: seq<Row>, i: nat)
    requires OverflowTrace(t) && i + 1 < |t| && Pops(t[i]) && Depth(t[i]) != 16
    ensures var p := Pointer(t[i]);
            0 <= p < |t| && Pushes(t[p]) && Stack(t[p], 15) == Stack(t[i + 1], 15) && Pointer(t[p]) == Pointer(t[i + 1])
  {
    assert OverflowBusAt(t, i);
    RecordIsRow(t, Pointer(t[i]), Stack(t[i + 1], 15), Pointer(t[i + 1]));
  }

  lemma ChainStep(t: seq<Row>, p: int, n: nat)
    requires 0 <= p < |t| && Pushes(t[p]) && n > 0
    ensures Chain(t, p, n) == [Stack(t[p], 15)] + Chain(t, Pointer(t[p]), n - 1)
  {
  }

  lemma OpenLaw(t: seq<Row>, i: nat)
    requires OverflowTrace(t) && i + 1 < |t| && Opens(t[i])
    ensures Below(t, i + 1) == [] && Sound(t, i + 1)
  {
    assert OverflowAt(t, i);
    EndFlagsHold(t, i);
    StepDepth(t, i);
  }

  /** CALL and SYSCALL save the caller's cells; DYNCALL saves them after its own pop. */
  lemma SaveLaw(t: seq<Row>, q: nat, n: nat)
    requires OverflowTrace(t) && q + 1 < |t| && Sound(t, q) && Opens(t[q]) && (IsDyncall(t[q]) ==> StagesDepth(t[q]))
    requires n == (SavedDepth(t[q]) - 16) % P
    ensures n <= q && |Caller(t, q)| == n && Chain(t, SavedPointer(t[q]), n) == Caller(t, q)
  {
    if IsDyncall(t[q]) {
      assert OverflowBusAt(t, q);
      if Depth(t[q]) != 16 {
        RecordIsRow(t, Pointer(t[q]), Stack(t[q + 1], 15), HasherState(t[q], 5));
        SpilledStep(Depth(t[q]), HasherState(t[q], 4), -1, Spilled(t[q]));
      }
    }
  }

  lemma CloseLaw(t: seq<Row>, i: nat, q: nat)
    requires OverflowTrace(t) && q < i && i + 1 < |t| && Closes(t[i]) && Matches(t, i, q) && ReturnsWell(t, i, q)
    requires Sound(t, q)
    ensures Below(t, i + 1) == Caller(t, q)
    ensures Sound(t, i + 1)
  {
    SaveLaw(t, q, Spilled(t[i + 1]));
  }

  lemma KeepLaw(t: seq<Row>, i: nat)
    requires OverflowTrace(t) && i + 1 < |t| && Sound(t, i)
    requires !Pushes(t[i]) && !Pops(t[i]) && !Opens(t[i]) && !Closes(t[i])
    ensures Below(t, i + 1) == Below(t, i) && Sound(t, i + 1)
  {
    assert OverflowAt(t, i);
    EndFlagsHold(t, i);
    StepDepth(t, i);
    StepPointer(t, i);
  }

  lemma StepLaw(t: seq<Row>, i: nat)
    requires OverflowTrace(t) && AllReturnWell(t) && i + 1 < |t|
    requires forall j: nat | j <= i :: Sound(t, j)
    ensures StackLaw(t, i) && Sound(t, i + 1)
  {
    forall q: nat | q < i && Closes(t[i]) && Matches(t, i, q)
      ensures Opens(t[q])
    {
      assert ReturnsWell(t, i, q);
    }
    EndFlagsHold(t, i);
    ClassesDisjoint(t[i]);
    if Pushes(t[i]) {
      PushLaw(t, i);
    } else if Pops(t[i]) {
      PopLaw(t, i);
    } else if Opens(t[i]) {
      OpenLaw(t, i);
    } else if Closes(t[i]) {
      assert BlockBusAt(t, i);
      var q: nat :| q < i && Matches(t, i, q);
      assert ReturnsWell(t, i, q);
      CloseLaw(t, i, q);
    } else {
      KeepLaw(t, i);
    }
  }

  lemma {:induction false} SoundUpTo(t: seq<Row>, i: nat)
    requires OverflowTrace(t) && AllReturnWell(t) && i < |t|
    ensures forall j: nat | j <= i :: Sound(t, j)
  {
    if i == 0 {
      assert OverflowAt(t, 0);
      ZeroIsSmall(Depth(t[0]) - 16);
    } else {
      SoundUpTo(t, i - 1);
      StepLaw(t, i - 1);
    }
  }

  // Whole runs
  // ----------------------------------------------------------------------------

  ghost predicate DepthCounts(t: seq<Row>, i: nat)
    requires i < |t|
  {
    Depth(t[i]) == 16 + |Below(t, i)|
  }

  /** The depth column counts the chain on every row, and every return restores its caller's chain. */
  ghost predicate RunIsAStack(t: seq<Row>) {
    && (forall i: nat | i < |t| :: DepthCounts(t, i))
    && (forall i: nat, q: nat | q < i && i + 1 < |t| :: Restores(t, i, q))
  }

  /** Exactly the runs whose returns go well act as one stack. */
  lemma StackIffStaged(t: seq<Row>)
    requires OverflowTrace(t)
    ensures RunIsAStack(t) <==> AllReturnWell(t)
  {
    if AllReturnWell(t) {
      WellReturnsStack(t);
    }
    if RunIsAStack(t) {
      forall i: nat, q: nat | q < i && i + 1 < |t|
        ensures ReturnsWell(t, i, q)
      {
        assert DepthCounts(t, i + 1) && DepthCounts(t, q) && Restores(t, i, q);
      }
    }
  }

  lemma WellReturnsStack(t: seq<Row>)
    requires OverflowTrace(t) && AllReturnWell(t)
    ensures RunIsAStack(t)
  {
    SoundUpTo(t, |t| - 1);
    forall i: nat | i < |t|
      ensures DepthCounts(t, i)
    {
      assert Sound(t, i);
    }
    forall i: nat, q: nat | q < i && i + 1 < |t|
      ensures Restores(t, i, q)
    {
      if Closes(t[i]) && Matches(t, i, q) {
        assert ReturnsWell(t, i, q) && Sound(t, q);
        CloseLaw(t, i, q);
      }
    }
  }

  /** In such a run, across context switches, the spilled cells form one last-in first-out stack
      whose height the depth column counts exactly. */
  lemma OverflowIsAStack(t: seq<Row>, i: nat)
    requires OverflowTrace(t) && AllReturnWell(t) && i < |t|
    ensures Sound(t, i) && DepthCounts(t, i)
    ensures i + 1 < |t| ==> StackLaw(t, i)
    ensures i == 0 || i + 1 == |t| ==> Below(t, i) == []
  {
    SoundUpTo(t, i);
    assert Sound(t, i);
    if i + 1 < |t| { StepLaw(t, i); }
    EmptyAtEnds(t, i);
  }

  lemma EmptyAtEnds(t: seq<Row>, i: nat)
    requires OverflowTrace(t) && i < |t|
    ensures i == 0 || i + 1 == |t| ==> Depth(t[i]) == 16
  {
    assert OverflowAt(t, i);
    if i == 0 || i + 1 == |t| { ZeroIsSmall(Depth(t[i]) - 16); }
  }

  /** A run whose contexts are all opened by CALL and SYSCALL acts as one stack. */
  lemma CallsAreStacks(t: seq<Row>)
    requires OverflowTrace(t)
    requires forall i: nat, q: nat | q < i && i + 1 < |t| && Closes(t[i]) && Matches(t, i, q) :: IsCall(t[q]) || IsSyscall(t[q])
    ensures RunIsAStack(t)
  {
    forall i: nat, q: nat | q < i && i + 1 < |t|
      ensures ReturnsWell(t, i, q)
    {
    }
    WellReturnsStack(t);
  }

  /** Blocks are hashed at distinct addresses. */
  ghost predicate DistinctBlocks(t: seq<Row>) {
    forall q: nat, q': nat | q + 1 < |t| && q' + 1 < |t| && Addr(t[q + 1]) == Addr(t[q' + 1]) ::
      (Opens(t[q]) || OpensSimple(t[q])) && (Opens(t[q']) || OpensSimple(t[q'])) ==> q == q'
  }

  lemma OneCaller(t: seq<Row>, i: nat, q: nat, p: nat)
    requires DistinctBlocks(t) && q < i && p < i && i + 1 < |t| && Matches(t, i, q) && Matches(t, i, p)
    ensures p == q
  {
    assert Addr(t[q + 1]) == Popped(t, i).block == Addr(t[p + 1]);
  }

  /** Returning from a context hands its own caller, and no other, its cells, context and address back. */
  lemma ReturnRestoresCaller(t: seq<Row>, i: nat) returns (q: nat)
    requires OverflowTrace(t) && AllReturnWell(t) && DistinctBlocks(t) && i + 1 < |t| && Closes(t[i])
    ensures q < i && Opens(t[q]) && Matches(t, i, q) && forall p: nat | p < i && Matches(t, i, p) :: p == q
    ensures Below(t, i + 1) == Caller(t, q) && Ctx(t[i + 1]) == Ctx(t[q]) && Addr(t[i + 1]) == Addr(t[q])
  {
    assert BlockBusAt(t, i);
    q :| q < i && Matches(t, i, q);
    assert ReturnsWell(t, i, q);
    forall p: nat | p < i && Matches(t, i, p)
      ensures p == q
    {
      OneCaller(t, i, q, p);
    }
    RestoredBy(t, i, q);
  }

  lemma RestoredBy(t: seq<Row>, i: nat, q: nat)
    requires OverflowTrace(t) && AllReturnWell(t) && q < i && i + 1 < |t| && Closes(t[i]) && Matches(t, i, q)
    ensures Below(t, i + 1) == Caller(t, q)
  {
    WellReturnsStack(t);
    assert Restores(t, i, q);
  }

  // Runs within one context
  // ----------------------------------------------------------------------------

  /** Rows i..k-1 stay in one context. */
  predicate SameContext(t: seq<Row>, i: nat, k: nat)
    requires i <= k <= |t|
  {
    forall j | i <= j < k :: !Opens(t[j]) && !Closes(t[j])
  }

  /** The push row reached by following n links from pointer p. */
  function Follow(t: seq<Row>, p: int, n: nat): int
    decreases n
  {
    if n == 0 || !(0 <= p < |t|) || !Pushes(t[p]) then p else Follow(t, Pointer(t[p]), n - 1)
  }

  /** One step leaves the row found n links below level d in place, if the depth stays at or above d. */
  lemma LevelStep(t: seq<Row>, k: nat, d: nat)
    requires OverflowTrace(t) && k + 1 < |t| && SameContext(t, k, k + 1)
    requires 16 < d <= Depth(t[k]) && d <= Depth(t[k + 1])
    ensures Follow(t, Pointer(t[k + 1]), Depth(t[k + 1]) - d) == Follow(t, Pointer(t[k]), Depth(t[k]) - d)
  {
    SingleStep(t, k);
    if Pushes(t[k]) {
      ClockIsIndex(t, k);
      ZeroIsSmall(Depth(t[k + 1]) - Depth(t[k]) - 1);
    } else if Pops(t[k]) {
      ZeroIsSmall(Depth(t[k + 1]) - Depth(t[k]) + 1);
      PopsRecord(t, k);
    }
  }

  lemma SingleStep(t: seq<Row>, k: nat)
    requires OverflowTrace(t) && k + 1 < |t| && SameContext(t, k, k + 1)
    ensures DepthLaw(t[k], t[k + 1]) && PointerLaw(t[k], t[k + 1]) && !Opens(t[k]) && !Closes(t[k])
  {
    assert OverflowAt(t, k);
    EndFlagsHold(t, k);
    StepDepth(t, k);
    StepPointer(t, k);
  }

  /** While the depth stays above that of row i, its push is found as many links away as cells were
      spilled since. */
  lemma {:induction false} LevelKept(t: seq<Row>, i: nat, k: nat)
    requires OverflowTrace(t) && i < k < |t| && SameContext(t, i, k) && Pushes(t[i]) && Depth(t[i]) >= 16
    requires forall j | i < j <= k :: Depth(t[j]) > Depth(t[i])
    ensures Follow(t, Pointer(t[k]), Depth(t[k]) - Depth(t[i]) - 1) == i
    decreases k
  {
    if k == i + 1 {
      SingleStep(t, i);
      ClockIsIndex(t, i);
      ZeroIsSmall(Depth(t[k]) - Depth(t[i]) - 1);
    } else {
      LevelKept(t, i, k - 1);
      LevelStep(t, k - 1, Depth(t[i]) + 1);
    }
  }

  /** Last in, first out: a pop that returns to the level of an earlier push restores exactly the
      cell that push spilled and what was below it, whatever happened in between above that level. */
  lemma LastInFirstOut(t: seq<Row>, i: nat, k: nat)
    requires OverflowTrace(t) && i < k && k + 1 < |t| && SameContext(t, i, k + 1)
    requires Pushes(t[i]) && Pops(t[k]) && Depth(t[i]) >= 16
    requires forall j | i < j <= k :: Depth(t[j]) > Depth(t[i])
    requires Depth(t[k]) == Depth(t[i + 1])
    ensures Stack(t[k + 1], 15) == Stack(t[i], 15)
    ensures Depth(t[k + 1]) == Depth(t[i]) && Pointer(t[k + 1]) == Pointer(t[i]) && Below(t, k + 1) == Below(t, i)
  {
    LevelKept(t, i, k);
    SingleStep(t, i);
    SingleStep(t, k);
    ZeroIsSmall(Depth(t[k]) - Depth(t[i]) - 1);
    ZeroIsSmall(Depth(t[k + 1]) - Depth(t[k]) + 1);
    PopsRecord(t, k);
  }
}
