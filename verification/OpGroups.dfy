/** Decoding of basic blocks: operations are peeled off 7 bits at a time from committed op groups,
    and PUSH immediates take whole groups of their own. */
module OpGroups {
  import opened Goldilocks
  import opened CoreTrace
  import opened Wrappers

  // Cells
  function InSpan(r: Row): int { r[22] }
  function GroupCount(r: Row): int { r[23] }
  function OpIndex(r: Row): int { r[24] }
  function Remaining(r: Row): int { HasherState(r, 0) }

  function BatchBit(r: Row, k: nat): int
    requires k < 3
  {
    r[25 + k]
  }

  /** Opcode as the Horner value of its seven bits. */
  function Opcode(r: Row): int {
    2 * (2 * (2 * (2 * (2 * (2 * OpBit(r, 6) + OpBit(r, 5)) + OpBit(r, 4)) + OpBit(r, 3)) + OpBit(r, 2)) + OpBit(r, 1)) + OpBit(r, 0)
  }

  const PUSH: int := 0x5B

  // Operation flags
  // ----------------------------------------------------------------------------

  function SpanFlag(r: Row): int {
    Extra0(r) * ((1 - OpBit(r, 3)) * OpBit(r, 2) * OpBit(r, 1) * (1 - OpBit(r, 0)))
  }

  function PushFlag(r: Row): int {
    Extra0(r) * (OpBit(r, 3) * (1 - OpBit(r, 2)) * OpBit(r, 1) * OpBit(r, 0))
  }

  function RespanFlag(r: Row): int {
    OpBit(r, 4) * (OpBit(r, 3) * (1 - OpBit(r, 2))) * Extra1(r)
  }

  function ControlFlag(r: Row): int {
    (1 - OpBit(r, 3)) * OpBit(r, 2) * Extra0(r) + OpBit(r, 4) * Extra1(r)
    + (Extra0(r) * (OpBit(r, 3) * OpBit(r, 2) * (1 - OpBit(r, 1)) * (1 - OpBit(r, 0)))
       + Extra0(r) * (OpBit(r, 3) * (1 - OpBit(r, 2)) * (1 - OpBit(r, 1)) * (1 - OpBit(r, 0))))
    + ((1 - OpBit(r, 4)) * (OpBit(r, 3) * (1 - OpBit(r, 2))) * Extra1(r)
       + (1 - OpBit(r, 4)) * (OpBit(r, 3) * OpBit(r, 2)) * Extra1(r))
  }

  predicate IsSpan(r: Row) {
    On(r, 6) && !On(r, 5) && On(r, 4) && !On(r, 3) && On(r, 2) && On(r, 1) && !On(r, 0)
  }

  predicate IsPush(r: Row) {
    On(r, 6) && !On(r, 5) && On(r, 4) && On(r, 3) && !On(r, 2) && On(r, 1) && On(r, 0)
  }

  /** A batch of op groups is opened by SPAN or RESPAN and closed by END or RESPAN. */
  predicate OpensBatch(r: Row) { IsSpan(r) || IsRespan(r) }
  predicate ClosesBatch(r: Row) { IsEnd(r) || IsRespan(r) }

  // Constraints
  // ----------------------------------------------------------------------------

  function Delta(m0: Row, m1: Row): int { GroupCount(m0) - GroupCount(m1) }

  ghost predicate InSpanConstraints(m0: Row, m1: Row, fst: int) {
    && Zero(fst * InSpan(m0))
    && Zero(InSpan(m0) * (InSpan(m0) - 1))
    && Zero(SpanFlag(m0) * (InSpan(m1) - 1))
    && Zero(RespanFlag(m0) * (InSpan(m1) - 1))
    && Zero(InSpan(m0) + ControlFlag(m0) - 1)
  }

  ghost predicate CountConstraints(m0: Row, m1: Row, tr: int) {
    var d := Delta(m0, m1);
    && Zero(tr * InSpan(m0) * (d * (d - 1)))
    && Zero(tr * InSpan(m0) * (d * ((1 - PushFlag(m0)) * Remaining(m0))))
    && Zero((SpanFlag(m0) + RespanFlag(m0) + PushFlag(m0)) * (d - 1))
    && Zero(tr * (d * (EndFlag(m1) + RespanFlag(m1))))
    && Zero(EndFlag(m0) * GroupCount(m0))
  }

  ghost predicate GroupConstraints(m0: Row, m1: Row, tr: int) {
    && Zero(tr * ((SpanFlag(m0) + RespanFlag(m0) + PushFlag(m0) + InSpan(m0) * InSpan(m1) * (1 - Delta(m0, m1)))
                  * (Remaining(m0) - 128 * Remaining(m1) - Opcode(m1))))
    && Zero(tr * (InSpan(m0) * ((EndFlag(m1) + RespanFlag(m1)) * Remaining(m0))))
    && Zero(tr * (InSpan(m0) * (Addr(m1) - Addr(m0))))
  }

  ghost predicate IndexConstraints(m0: Row, m1: Row, tr: int) {
    var ng := Delta(m0, m1) - PushFlag(m0);
    var x := OpIndex(m0);
    && Zero((SpanFlag(m0) + RespanFlag(m0)) * OpIndex(m1))
    && Zero(tr * (InSpan(m0) * (ng * OpIndex(m1))))
    && Zero(tr * (InSpan(m0) * (InSpan(m1) * ((1 - ng) * (OpIndex(m1) - (x + 1))))))
    && Zero(Falling(x, 9))
  }

  function OneGroup(r: Row): int { (1 - BatchBit(r, 0)) * BatchBit(r, 1) * BatchBit(r, 2) }
  function TwoGroups(r: Row): int { (1 - BatchBit(r, 0)) * (1 - BatchBit(r, 1)) * BatchBit(r, 2) }
  function FourGroups(r: Row): int { (1 - BatchBit(r, 0)) * BatchBit(r, 1) * (1 - BatchBit(r, 2)) }

  ghost predicate BatchConstraints(m: Row) {
    && (forall k: nat | k < 3 :: Zero(BatchBit(m, k) * (BatchBit(m, k) - 1)))
    && Zero(SpanFlag(m) + RespanFlag(m) - (OneGroup(m) + TwoGroups(m) + FourGroups(m) + BatchBit(m, 0)))
    && Zero((1 - (SpanFlag(m) + RespanFlag(m))) * (BatchBit(m, 0) + BatchBit(m, 1) + BatchBit(m, 2)))
    && (forall k: nat | 4 <= k < 8 :: Zero((OneGroup(m) + TwoGroups(m) + FourGroups(m)) * HasherState(m, k)))
    && (forall k: nat | 2 <= k < 4 :: Zero((OneGroup(m) + TwoGroups(m)) * HasherState(m, k)))
    && Zero(OneGroup(m) * HasherState(m, 1))
  }

  ghost predicate OpGroupsAt(t: seq<Row>, i: nat)
    requires i < |t|
  {
    && OpBitConstraints(t[i]) && BatchConstraints(t[i])
    && InSpanConstraints(t[i], Next(t, i), Fst(i))
    && CountConstraints(t[i], Next(t, i), Tr(t, i))
    && GroupConstraints(t[i], Next(t, i), Tr(t, i))
    && IndexConstraints(t[i], Next(t, i), Tr(t, i))
  }

  function HaltFlag(r: Row): int { OpBit(r, 4) * (OpBit(r, 3) * OpBit(r, 2)) * Extra1(r) }

  predicate IsHalt(r: Row) { On(r, 6) && On(r, 5) && On(r, 4) && On(r, 3) && On(r, 2) }

  /** Unused opcodes, the address after RESPAN, and HALT: at address 0, absorbing, and on the last row. */
  ghost predicate FrameAt(t: seq<Row>, i: nat)
    requires i < |t|
  {
    var m0, m1 := t[i], Next(t, i);
    && Zero((OpBit(m0, 6) - Extra1(m0) - Extra0(m0)) * OpBit(m0, 0))
    && Zero(Extra1(m0) * OpBit(m0, 0)) && Zero(Extra1(m0) * OpBit(m0, 1))
    && Zero(RespanFlag(m0) * (Addr(m1) - (Addr(m0) + 2)))
    && Zero(HaltFlag(m0) * Addr(m0))
    && Zero(Tr(t, i) * (HaltFlag(m0) * (HaltFlag(m1) - 1)))
    && Zero(Lst(t, i) * (HaltFlag(m0) - 1))
  }

  /** Groups the batch flags of a SPAN or RESPAN row put on the bus, the first group included. */
  function BatchSize(r: Row): nat {
    if BatchBit(r, 0) == 1 then 8
    else if BatchBit(r, 1) == 1 && BatchBit(r, 2) == 0 then 4
    else if BatchBit(r, 1) == 0 && BatchBit(r, 2) == 1 then 2
    else 1
  }

  /** Value a row takes off the op group table when the group count drops. */
  function Taken(m0: Row, m1: Row): int {
    PushFlag(m0) * Stack(m1, 0) + (1 - PushFlag(m0)) * (128 * Remaining(m1) + Opcode(m1))
  }

  /** The removed tuple (address, number, value) is one that the SPAN or RESPAN in row s added. */
  ghost predicate AddedBy(t: seq<Row>, i: nat, s: nat, k: nat)
    requires i + 1 < |t| && s + 1 < |t|
  {
    && OpensBatch(t[s]) && 1 <= k < BatchSize(t[s]) && k < 8
    && Addr(t[s + 1]) == Addr(t[i])
    && Zero(GroupCount(t[s]) - k - GroupCount(t[i]))
    && Zero(Taken(t[i], t[i + 1]) - HasherState(t[s], k))
  }

  /** Row i takes group k of the batch that row s opens. */
  ghost predicate Takes(t: seq<Row>, i: nat, s: nat, k: nat)
    requires i + 1 < |t| && s + 1 < |t|
  {
    InSpan(t[i]) == 1 && !Zero(Delta(t[i], t[i + 1])) && AddedBy(t, i, s, k)
  }

  /** Every tuple that is removed from the op group table was added to it. */
  ghost predicate GroupBusAt(t: seq<Row>, i: nat)
    requires i < |t|
  {
    i + 1 < |t| && InSpan(t[i]) == 1 && !Zero(Delta(t[i], t[i + 1])) ==>
      exists s: nat, k: nat | s + 1 < |t| :: AddedBy(t, i, s, k)
  }

  /** Group k, which row s adds to the table, is removed from it. */
  ghost predicate IsTaken(t: seq<Row>, s: nat, k: nat)
    requires s + 1 < |t|
  {
    OpensBatch(t[s]) && 1 <= k < BatchSize(t[s]) ==> exists i: nat | i + 1 < |t| :: Takes(t, i, s, k)
  }

  ghost predicate TakenOnce(t: seq<Row>, i: nat, i': nat, s: nat, k: nat)
    requires i + 1 < |t| && i' + 1 < |t| && s + 1 < |t|
  {
    Takes(t, i, s, k) && Takes(t, i', s, k) ==> i == i'
  }

  /** Batches are hashed at distinct addresses. */
  ghost predicate Distinct(t: seq<Row>, s: nat, s': nat)
    requires s + 1 < |t| && s' + 1 < |t|
  {
    OpensBatch(t[s]) && OpensBatch(t[s']) && Addr(t[s + 1]) == Addr(t[s' + 1]) ==> s == s'
  }

  ghost predicate DecoderTrace(t: seq<Row>) {
    && |t| < P
    && (forall i: nat | i < |t| :: OpGroupsAt(t, i))
    && (forall i: nat | i < |t| :: FrameAt(t, i))
    && (forall i: nat | i < |t| :: GroupBusAt(t, i))
    && (forall s: nat, k: nat | s + 1 < |t| :: IsTaken(t, s, k))
    && (forall i: nat, i': nat, s: nat, k: nat | i + 1 < |t| && i' + 1 < |t| && s + 1 < |t| :: TakenOnce(t, i, i', s, k))
    && (forall s: nat, s': nat | s + 1 < |t| && s' + 1 < |t| :: Distinct(t, s, s'))
  }

  // Meaning of one step
  // ----------------------------------------------------------------------------

  lemma OpcodeRange(r: Row)
    requires OpBits(r)
    ensures 0 <= Opcode(r) < 128 && (Opcode(r) == PUSH <==> IsPush(r))
  {
    assert BitAt(r, 0) && BitAt(r, 1) && BitAt(r, 2) && BitAt(r, 3) && BitAt(r, 4) && BitAt(r, 5) && BitAt(r, 6);
  }

  lemma SpanMeaning(r: Row)
    requires OpBits(r)
    ensures SpanFlag(r) == AsBit(IsSpan(r)) && PushFlag(r) == AsBit(IsPush(r))
  {
    assert BitAt(r, 0) && BitAt(r, 1) && BitAt(r, 2) && BitAt(r, 3);
  }

  lemma EndMeaning(r: Row)
    requires OpBits(r)
    ensures RespanFlag(r) == AsBit(IsRespan(r)) && EndFlag(r) == AsBit(IsEnd(r))
  {
    assert BitAt(r, 2) && BitAt(r, 3) && BitAt(r, 4);
  }

  /** Inside a block no row opens or closes a batch; a PUSH is always inside a block. */
  lemma ControlMeaning(r: Row)
    requires OpBits(r)
    ensures OpensBatch(r) || ClosesBatch(r) ==> ControlFlag(r) == 1
    ensures IsPush(r) ==> ControlFlag(r) == 0
  {
    assert BitAt(r, 0) && BitAt(r, 1) && BitAt(r, 2) && BitAt(r, 3) && BitAt(r, 4);
  }

  ghost predicate Drops(m0: Row, m1: Row) { Zero(Delta(m0, m1) - 1) }

  /** The next row takes its opcode from the group the current row is in. */
  ghost predicate Continues(m0: Row, m1: Row) { IsPush(m0) || GroupCount(m1) == GroupCount(m0) }

  /** The group of row m0 is used up: the next row starts another one or closes the batch. */
  ghost predicate Exhausts(m0: Row, m1: Row) { ClosesBatch(m1) || !Continues(m0, m1) }

  ghost predicate GroupStep(m0: Row, m1: Row) {
    && (GroupCount(m1) == GroupCount(m0) || Drops(m0, m1))
    && (IsPush(m0) ==> Drops(m0, m1))
    && (ClosesBatch(m1) ==> GroupCount(m1) == GroupCount(m0))
    && (Exhausts(m0, m1) ==> Remaining(m0) == 0)
    && (Continues(m0, m1) && InSpan(m1) == 1 ==> Zero(Remaining(m0) - 128 * Remaining(m1) - Opcode(m1)))
    && Addr(m1) == Addr(m0)
  }

  ghost predicate IndexStep(m0: Row, m1: Row) {
    && (!Continues(m0, m1) ==> OpIndex(m1) == 0)
    && (Continues(m0, m1) && InSpan(m1) == 1 ==> OpIndex(m1) == OpIndex(m0) + 1)
  }

  /** x * (x - 1) * ... * (x - (n - 1)) */
  function Falling(x: int, n: nat): int {
    if n == 0 then 1 else Falling(x, n - 1) * (x - (n - 1))
  }

  lemma {:induction false} FallingRoots(x: int, n: nat)
    requires 0 <= x < P && Zero(Falling(x, n)) && n <= P
    ensures x < n
  {
    if n == 0 {
      ZeroIsSmall(1);
    } else if x != n - 1 {
      ZeroProduct(Falling(x, n - 1), x - (n - 1));
      if Zero(x - (n - 1)) {
        ZeroIsSmall(x - (n - 1));
      }
      FallingRoots(x, n - 1);
    }
  }

  lemma DeltaCases(m0: Row, m1: Row)
    requires CountConstraints(m0, m1, 1) && InSpan(m0) == 1
    ensures GroupCount(m1) == GroupCount(m0) || Drops(m0, m1)
    ensures Drops(m0, m1) ==> !Zero(Delta(m0, m1))
  {
    var d := Delta(m0, m1);
    ZeroProduct(d, d - 1);
    if Zero(d) {
      ZeroIsSmall(d);
    }
  }

  lemma CountStep(m0: Row, m1: Row)
    requires CountConstraints(m0, m1, 1) && InSpan(m0) == 1 && OpBits(m0) && OpBits(m1)
    ensures IsPush(m0) ==> Drops(m0, m1)
    ensures ClosesBatch(m1) ==> GroupCount(m1) == GroupCount(m0)
    ensures Drops(m0, m1) && !IsPush(m0) ==> Remaining(m0) == 0
  {
    SpanMeaning(m0);
    EndMeaning(m0);
    EndMeaning(m1);
    DeltaCases(m0, m1);
    var d := Delta(m0, m1);
    if ClosesBatch(m1) {
      ZeroIsSmall(d);
    }
    if Drops(m0, m1) && !IsPush(m0) {
      Ungate(d, (1 - PushFlag(m0)) * Remaining(m0));
      ZeroIsSmall(Remaining(m0));
    }
  }

  lemma ValueStep(m0: Row, m1: Row)
    requires GroupConstraints(m0, m1, 1) && InSpan(m0) == 1 && OpBits(m0) && OpBits(m1)
    requires !IsSpan(m0) && !IsRespan(m0) && (IsPush(m0) ==> Drops(m0, m1))
    ensures ClosesBatch(m1) ==> Remaining(m0) == 0
    ensures Continues(m0, m1) && InSpan(m1) == 1 ==> Zero(Remaining(m0) - 128 * Remaining(m1) - Opcode(m1))
    ensures Addr(m1) == Addr(m0)
  {
    SpanMeaning(m0);
    EndMeaning(m0);
    EndMeaning(m1);
    ZeroIsSmall(Addr(m1) - Addr(m0));
    if ClosesBatch(m1) {
      ZeroIsSmall(Remaining(m0));
    }
    if Continues(m0, m1) && InSpan(m1) == 1 {
      Peels(PushFlag(m0), Delta(m0, m1), Remaining(m0) - 128 * Remaining(m1) - Opcode(m1));
    }
  }

  lemma Peels(push: int, d: int, e: int)
    requires Zero((push + (1 - d)) * e) && ((push == 0 && d == 0) || (push == 1 && Zero(d - 1)))
    ensures Zero(e)
  {
    if push == 1 {
      DropDelta(d, e);
    }
  }

  lemma DropDelta(d: int, e: int)
    requires Zero(d - 1) && Zero((1 + (1 - d)) * e)
    ensures Zero(e)
  {
    Rewrite((1 + (1 - d)) * e, d - 1, e);
    assert (1 + (1 - d)) * e + (d - 1) * e == e;
  }

  lemma IndexMeaning(m0: Row, m1: Row)
    requires IndexConstraints(m0, m1, 1) && InSpan(m0) == 1 && OpBits(m0) && OpIndex(m1) <= 8
    requires GroupCount(m1) == GroupCount(m0) || Drops(m0, m1)
    requires IsPush(m0) ==> Drops(m0, m1)
    ensures IndexStep(m0, m1)
  {
    SpanMeaning(m0);
    FallingRoots(OpIndex(m0), 9);
    var d := Delta(m0, m1);
    if !Continues(m0, m1) {
      Ungate(d, OpIndex(m1));
      ZeroIsSmall(OpIndex(m1));
    } else if InSpan(m1) == 1 {
      var e := OpIndex(m1) - (OpIndex(m0) + 1);
      Peels(PushFlag(m0), d, e) by {
        assert (1 - (d - PushFlag(m0))) * e == (PushFlag(m0) + (1 - d)) * e;
      }
      ZeroIsSmall(e);
    }
  }

  lemma StepMeaning(t: seq<Row>, i: nat)
    requires DecoderTrace(t) && i + 1 < |t| && InSpan(t[i]) == 1
    ensures OpBits(t[i]) && OpBits(t[i + 1]) && OpIndex(t[i]) <= 8
    ensures GroupStep(t[i], t[i + 1]) && IndexStep(t[i], t[i + 1])
  {
    var m0, m1 := t[i], t[i + 1];
    assert OpGroupsAt(t, i) && OpGroupsAt(t, i + 1);
    OpBitMeaning(m0);
    OpBitMeaning(m1);
    NotBoundary(m0, m1, i);
    DeltaCases(m0, m1);
    CountStep(m0, m1);
    ValueStep(m0, m1);
    FallingRoots(OpIndex(m0), 9);
    FallingRoots(OpIndex(m1), 9);
    IndexMeaning(m0, m1);
  }

  lemma NotBoundary(m0: Row, m1: Row, i: nat)
    requires OpBits(m0) && InSpan(m0) == 1 && InSpanConstraints(m0, m1, Fst(i))
    ensures !IsSpan(m0) && !IsRespan(m0)
  {
    ControlMeaning(m0);
    if IsSpan(m0) || IsRespan(m0) {
      ZeroIsSmall(1);
    }
  }

  lemma PushInSpan(t: seq<Row>, i: nat)
    requires DecoderTrace(t) && i < |t|
    ensures InSpan(t[i]) == 0 || InSpan(t[i]) == 1
    ensures OpBits(t[i])
    ensures ClosesBatch(t[i]) || OpensBatch(t[i]) ==> InSpan(t[i]) == 0
  {
    assert OpGroupsAt(t, i);
    OpBitMeaning(t[i]);
    ControlMeaning(t[i]);
    ZeroIsBit(InSpan(t[i]));
    if ClosesBatch(t[i]) || OpensBatch(t[i]) {
      ZeroIsSmall(InSpan(t[i]));
    }
  }

  // Runs: exact base-128 digits
  // ----------------------------------------------------------------------------

  ghost predicate Inside(t: seq<Row>, s: nat, e: nat) {
    e < |t| && ClosesBatch(t[e]) && forall i: nat | s < i < e :: InSpan(t[i]) == 1
  }

  /** Rows s to e hold one batch: SPAN or RESPAN, operations, then END or RESPAN. */
  ghost predicate Batch(t: seq<Row>, s: nat, e: nat) {
    s < e && Inside(t, s, e) && OpensBatch(t[s])
  }

  function Pow128(n: nat): (p: int)
    ensures p >= 1
  {
    if n == 0 then 1 else 128 * Pow128(n - 1)
  }

  lemma Pow128Small(n: nat)
    requires n <= 9
    ensures Pow128(n) < P
    decreases 9 - n
  {
    if n < 9 {
      Pow128Small(n + 1);
    } else {
      assert Pow128(9) == 128 * (128 * (128 * Pow128(6)));
      assert Pow128(6) == 128 * (128 * (128 * Pow128(3)));
    }
  }

  lemma PeelExact(v: int, rest: int, op: int, n: nat)
    requires 0 <= v < P && 0 <= rest < Pow128(n) && 0 <= op < 128 && n <= 8
    requires Zero(v - 128 * rest - op)
    ensures v == 128 * rest + op < Pow128(n + 1)
  {
    Pow128Small(n + 1);
    ZeroIsSmall(v - 128 * rest - op);
  }

  /** The value still held by a row is bounded by the operations the index still allows. */
  lemma {:induction false} RemainingFits(t: seq<Row>, s: nat, i: nat, e: nat)
    requires DecoderTrace(t) && Inside(t, s, e) && s < i < e
    ensures OpIndex(t[i]) <= 8 && Remaining(t[i]) < Pow128(8 - OpIndex(t[i]))
    decreases e - i
  {
    StepMeaning(t, i);
    PushInSpan(t, i + 1);
    if Exhausts(t[i], t[i + 1]) {
    } else {
      assert i + 1 < e;
      RemainingFits(t, s, i + 1, e);
      OpcodeRange(t[i + 1]);
      PeelExact(Remaining(t[i]), Remaining(t[i + 1]), Opcode(t[i + 1]), 8 - OpIndex(t[i + 1]));
    }
  }

  lemma PeelsDigit(t: seq<Row>, s: nat, i: nat, e: nat)
    requires DecoderTrace(t) && Inside(t, s, e) && s < i < e && !Exhausts(t[i], t[i + 1])
    ensures i + 1 < e && OpIndex(t[i + 1]) == OpIndex(t[i]) + 1
    ensures Remaining(t[i]) == 128 * Remaining(t[i + 1]) + Opcode(t[i + 1]) && 0 <= Opcode(t[i + 1]) < 128
  {
    StepMeaning(t, i);
    PushInSpan(t, i + 1);
    assert i + 1 < e;
    RemainingFits(t, s, i + 1, e);
    OpcodeRange(t[i + 1]);
    PeelExact(Remaining(t[i]), Remaining(t[i + 1]), Opcode(t[i + 1]), 8 - OpIndex(t[i + 1]));
  }

  /** Opcodes of rows lo up to hi, read as base-128 digits. */
  function Digits(t: seq<Row>, lo: nat, hi: nat): int
    requires lo <= hi <= |t|
    decreases hi - lo
  {
    if lo == hi then 0 else Opcode(t[lo]) + 128 * Digits(t, lo + 1, hi)
  }

  ghost predicate ExhaustsAt(t: seq<Row>, i: nat)
    requires i + 1 < |t|
  {
    Exhausts(t[i], t[i + 1])
  }

  /** Rows first to last execute one op group from beginning to end. */
  ghost predicate Group(t: seq<Row>, first: nat, last: nat) {
    && first <= last && last + 1 < |t|
    && (forall i: nat | first <= i < last :: !ExhaustsAt(t, i))
    && ExhaustsAt(t, last)
  }

  lemma {:induction false} RemainingIsDigits(t: seq<Row>, s: nat, i: nat, last: nat, e: nat)
    requires DecoderTrace(t) && Inside(t, s, e) && s < i <= last < e && Group(t, i, last)
    ensures Remaining(t[i]) == Digits(t, i + 1, last + 1)
    ensures OpIndex(t[i]) + (last - i) <= 8
    decreases last - i
  {
    StepMeaning(t, i);
    if i < last {
      assert !ExhaustsAt(t, i);
      PeelsDigit(t, s, i, e);
      RemainingIsDigits(t, s, i + 1, last, e);
    }
  }

  /** Value of the group that starts in row first: what SPAN or RESPAN held, or what was taken from the table. */
  function GroupValue(t: seq<Row>, first: nat): int
    requires 0 < first < |t|
  {
    if OpensBatch(t[first - 1]) then Remaining(t[first - 1]) else Taken(t[first - 1], t[first]) % P
  }

  lemma OpeningFlags(m0: Row)
    requires OpBits(m0) && OpensBatch(m0)
    ensures SpanFlag(m0) + RespanFlag(m0) == 1 && PushFlag(m0) == 0
    ensures SpanFlag(m0) == 1 || RespanFlag(m0) == 1
  {
    SpanMeaning(m0);
    EndMeaning(m0);
  }

  lemma OpeningValues(span: int, respan: int, push: int, inSpan': int, d: int, e: int, x: int)
    requires span + respan == 1 && push == 0
    requires Zero((span + respan + push) * (d - 1)) && Zero((span + respan) * x)
    requires Zero(1 * ((span + respan + push + 0 * inSpan' * (1 - d)) * e))
    ensures Zero(d - 1) && Zero(e) && Zero(x)
  {
  }

  lemma OpeningRow(m0: Row, m1: Row)
    requires InSpan(m0) == 0 && OpIndex(m1) <= 8
    requires SpanFlag(m0) + RespanFlag(m0) == 1 && PushFlag(m0) == 0
    requires CountConstraints(m0, m1, 1) && GroupConstraints(m0, m1, 1) && IndexConstraints(m0, m1, 1)
    ensures Drops(m0, m1) && OpIndex(m1) == 0
    ensures Zero(Remaining(m0) - 128 * Remaining(m1) - Opcode(m1))
  {
    OpeningValues(SpanFlag(m0), RespanFlag(m0), PushFlag(m0), InSpan(m1), Delta(m0, m1),
                  Remaining(m0) - 128 * Remaining(m1) - Opcode(m1), OpIndex(m1));
    ZeroIsSmall(OpIndex(m1));
  }

  lemma OpeningStep(t: seq<Row>, s: nat)
    requires DecoderTrace(t) && s + 1 < |t| && OpensBatch(t[s])
    ensures Drops(t[s], t[s + 1]) && InSpan(t[s + 1]) == 1 && OpIndex(t[s + 1]) == 0
    ensures Zero(Remaining(t[s]) - 128 * Remaining(t[s + 1]) - Opcode(t[s + 1]))
  {
    assert OpGroupsAt(t, s) && OpGroupsAt(t, s + 1);
    OpBitMeaning(t[s]);
    OpeningFlags(t[s]);
    PushInSpan(t, s);
    FallingRoots(OpIndex(t[s + 1]), 9);
    OpeningRow(t[s], t[s + 1]);
    EntersSpan(SpanFlag(t[s]), RespanFlag(t[s]), InSpan(t[s + 1]));
  }

  lemma EntersSpan(span: int, respan: int, inSpan: Felt)
    requires span == 1 || respan == 1
    requires Zero(span * (inSpan - 1)) && Zero(respan * (inSpan - 1))
    ensures inSpan == 1
  {
    ZeroIsSmall(inSpan - 1);
  }

  lemma FirstIsExact(t: seq<Row>, s: nat, e: nat)
    requires DecoderTrace(t) && Batch(t, s, e)
    ensures s + 1 < e && Remaining(t[s]) == 128 * Remaining(t[s + 1]) + Opcode(t[s + 1])
  {
    OpeningStep(t, s);
    PushInSpan(t, s + 1);
    PushInSpan(t, e);
    RemainingFits(t, s, s + 1, e);
    OpcodeRange(t[s + 1]);
    PeelExact(Remaining(t[s]), Remaining(t[s + 1]), Opcode(t[s + 1]), 8);
  }

  /** A group taken from the table is recomposed exactly. */
  lemma NextIsExact(t: seq<Row>, s: nat, i: nat, e: nat)
    requires DecoderTrace(t) && Inside(t, s, e) && s < i < e && !Continues(t[i], t[i + 1])
    ensures i + 1 < e && OpIndex(t[i + 1]) == 0 && !OpensBatch(t[i])
    ensures Taken(t[i], t[i + 1]) == 128 * Remaining(t[i + 1]) + Opcode(t[i + 1]) < P
    ensures 0 <= Opcode(t[i + 1]) < 128
  {
    StepMeaning(t, i);
    PushInSpan(t, i);
    assert i + 1 < e;
    RemainingFits(t, s, i + 1, e);
    OpcodeRange(t[i + 1]);
    SpanMeaning(t[i]);
    TakenExact(t, i + 1, 8);
  }

  /** One op group is executed as at most nine operations, and these are exactly the
      base-128 digits of its value, without wrap-around. */
  lemma GroupIsItsDigits(t: seq<Row>, s: nat, first: nat, last: nat, e: nat)
    requires DecoderTrace(t) && Batch(t, s, e) && s < first <= last < e && Group(t, first, last)
    requires first == s + 1 || ExhaustsAt(t, first - 1)
    ensures last - first + 1 <= 9
    ensures GroupValue(t, first) == Digits(t, first, last + 1)
  {
    RemainingIsDigits(t, s, first, last, e);
    assert Digits(t, first, last + 1) == Opcode(t[first]) + 128 * Digits(t, first + 1, last + 1);
    if first == s + 1 {
      FirstIsExact(t, s, e);
    } else {
      GroupStarts(t, s, first, e);
    }
  }

  lemma GroupStarts(t: seq<Row>, s: nat, first: nat, e: nat)
    requires DecoderTrace(t) && Inside(t, s, e) && s + 1 < first < e && ExhaustsAt(t, first - 1)
    ensures GroupValue(t, first) == 128 * Remaining(t[first]) + Opcode(t[first])
  {
    PushInSpan(t, first);
    NextIsExact(t, s, first - 1, e);
  }

  lemma TakenExact(t: seq<Row>, j: nat, n: nat)
    requires 0 < j < |t| && n <= 8 && Remaining(t[j]) < Pow128(n) && 0 <= Opcode(t[j]) < 128 && PushFlag(t[j - 1]) == 0
    ensures Taken(t[j - 1], t[j]) == 128 * Remaining(t[j]) + Opcode(t[j]) < Pow128(n + 1) < P
  {
    Pow128Small(n + 1);
  }

  // The executed program is a function of the committed groups
  // ----------------------------------------------------------------------------

  datatype Instr = Op(code: int) | Push(value: int)

  /** Instruction of row i; opcode 0 is the no-op that pads groups. */
  function Emit(t: seq<Row>, i: nat): seq<Instr>
    requires i + 1 < |t|
  {
    if Opcode(t[i]) == 0 then []
    else if Opcode(t[i]) == PUSH then [Push(Stack(t[i + 1], 0))]
    else [Op(Opcode(t[i]))]
  }

  function Executed(t: seq<Row>, lo: nat, hi: nat): seq<Instr>
    requires lo <= hi < |t|
    decreases hi - lo
  {
    if lo == hi then [] else Emit(t, lo) + Executed(t, lo + 1, hi)
  }

  /** Reference decoder: v holds the rest of the current group, and k groups are used up. */
  function Decode(g: seq<nat>, k: nat, v: nat): seq<Instr>
    requires k <= |g|
    decreases |g| - k, v
  {
    if v == 0 then
      if k == |g| then [] else Decode(g, k + 1, g[k])
    else if v % 128 == 0 then Decode(g, k, v / 128)
    else if v % 128 != PUSH then [Op(v % 128)] + Decode(g, k, v / 128)
    else if k == |g| then []
    else [Push(g[k])] + Decode(g, k + 1, v / 128)
  }

  /** Groups used up before row i. */
  function Used(t: seq<Row>, s: nat, i: nat): (n: nat)
    requires s < |t| && i < |t|
    ensures Zero(GroupCount(t[s]) - GroupCount(t[i]) - n) && n < P
  {
    ModZero(GroupCount(t[s]) - GroupCount(t[i]));
    (GroupCount(t[s]) - GroupCount(t[i])) % P
  }

  lemma UsedIs(t: seq<Row>, s: nat, i: nat, n: nat)
    requires s < |t| && i < |t| && n < P && Zero(GroupCount(t[s]) - GroupCount(t[i]) - n)
    ensures Used(t, s, i) == n
  {
    Rewrite(GroupCount(t[s]) - GroupCount(t[i]) - n, GroupCount(t[s]) - GroupCount(t[i]) - Used(t, s, i), -1);
    ZeroIsSmall(Used(t, s, i) - n);
  }

  lemma UsedStep(t: seq<Row>, s: nat, i: nat)
    requires s < |t| && i + 1 < |t| && Used(t, s, i) + 1 < P
    ensures GroupCount(t[i + 1]) == GroupCount(t[i]) ==> Used(t, s, i + 1) == Used(t, s, i)
    ensures Drops(t[i], t[i + 1]) ==> Used(t, s, i + 1) == Used(t, s, i) + 1
  {
    if Drops(t[i], t[i + 1]) {
      Rewrite(GroupCount(t[s]) - GroupCount(t[i]) - Used(t, s, i), Delta(t[i], t[i + 1]) - 1, 1);
      UsedIs(t, s, i + 1, Used(t, s, i) + 1);
    }
  }

  lemma {:induction false} SameAddress(t: seq<Row>, s: nat, i: nat, e: nat)
    requires DecoderTrace(t) && Inside(t, s, e) && s < i < e
    ensures Addr(t[i]) == Addr(t[s + 1])
    decreases i
  {
    if i > s + 1 {
      SameAddress(t, s, i - 1, e);
      StepMeaning(t, i - 1);
    }
  }

  /** A row that lowers the group count takes the next group of its own batch. */
  lemma TakesNextGroup(t: seq<Row>, s: nat, i: nat, e: nat)
    requires DecoderTrace(t) && Batch(t, s, e) && s < i < e && Drops(t[i], t[i + 1])
    ensures 1 <= Used(t, s, i) < BatchSize(t[s]) && Takes(t, i, s, Used(t, s, i))
    ensures Used(t, s, i) < 8 && Zero(Taken(t[i], t[i + 1]) - HasherState(t[s], Used(t, s, i)))
  {
    assert OpGroupsAt(t, i);
    DeltaCases(t[i], t[i + 1]);
    assert GroupBusAt(t, i);
    var s': nat, k: nat :| s' + 1 < |t| && AddedBy(t, i, s', k);
    SameAddress(t, s, i, e);
    assert Distinct(t, s, s');
    UsedIs(t, s, i, k);
  }

  lemma {:induction false} UsedBounds(t: seq<Row>, s: nat, i: nat, e: nat)
    requires DecoderTrace(t) && Batch(t, s, e) && s < i <= e
    ensures 1 <= Used(t, s, i) <= BatchSize(t[s]) <= 8
    decreases i
  {
    if i == s + 1 {
      OpeningStep(t, s);
      UsedIs(t, s, i, 1);
    } else {
      UsedBounds(t, s, i - 1, e);
      StepMeaning(t, i - 1);
      UsedStep(t, s, i - 1);
      if Drops(t[i - 1], t[i]) {
        TakesNextGroup(t, s, i - 1, e);
      }
    }
  }

  lemma {:induction false} UsedGrows(t: seq<Row>, s: nat, i: nat, e: nat)
    requires DecoderTrace(t) && Batch(t, s, e) && s < i <= e
    ensures Used(t, s, i) <= Used(t, s, e) <= 8
    decreases e - i
  {
    UsedBounds(t, s, i, e);
    if i < e {
      StepMeaning(t, i);
      UsedStep(t, s, i);
      UsedGrows(t, s, i + 1, e);
    }
  }

  /** g holds the used-up groups, and only empty groups after them. */
  ghost predicate Covers(t: seq<Row>, s: nat, e: nat, g: seq<nat>)
    requires s < |t| && e < |t|
  {
    && Used(t, s, e) <= 8 && Used(t, s, e) <= |g|
    && (forall k: nat | k < Used(t, s, e) :: g[k] == HasherState(t[s], k))
    && (forall k: nat | Used(t, s, e) <= k < |g| :: g[k] == 0)
  }

  /** Empty groups decode to nothing. */
  lemma {:induction false} DecodeEmpty(g: seq<nat>, k: nat)
    requires k <= |g| && forall j: nat | k <= j < |g| :: g[j] == 0
    ensures Decode(g, k, 0) == []
    decreases |g| - k
  {
    if k < |g| {
      DecodeEmpty(g, k + 1);
    }
  }

  /** Groups used up once the immediate of row i, if any, is taken. */
  function After(t: seq<Row>, s: nat, i: nat): nat
    requires s < |t| && i + 1 < |t|
  {
    if IsPush(t[i]) then Used(t, s, i + 1) else Used(t, s, i)
  }

  lemma DecodeDigit(g: seq<nat>, k: nat, v: nat, op: int)
    requires k <= |g| && 0 <= op < 128 && (op == PUSH ==> k < |g|)
    ensures Decode(g, k, 128 * v + op) ==
            if op == 0 then Decode(g, k, v)
            else if op == PUSH then [Push(g[k])] + Decode(g, k + 1, v)
            else [Op(op)] + Decode(g, k, v)
  {
    assert (128 * v + op) % 128 == op && (128 * v + op) / 128 == v;
  }

  lemma DecodeStep(g: seq<nat>, k: nat, op: int, v: nat, emit: seq<Instr>, rest: seq<Instr>)
    requires k <= |g| && 0 <= op < 128 && (op == PUSH ==> k < |g|)
    requires emit == if op == 0 then [] else if op == PUSH then [Push(g[k])] else [Op(op)]
    requires rest == Decode(g, if op == PUSH then k + 1 else k, v)
    ensures emit + rest == Decode(g, k, 128 * v + op)
  {
    DecodeDigit(g, k, v, op);
  }

  /** Executing row i and what follows it decodes the digit of row i and what remains of its group. */
  lemma DecodeRow(t: seq<Row>, s: nat, i: nat, e: nat, g: seq<nat>, op: int, v: nat, w: nat)
    requires DecoderTrace(t) && Batch(t, s, e) && s < i < e && Covers(t, s, e, g)
    requires op == Opcode(t[i]) >= 0 && v == Remaining(t[i]) && w == 128 * v + op
    requires After(t, s, i) <= |g| && Used(t, s, i) <= |g|
    requires Executed(t, i + 1, e) == Decode(g, After(t, s, i), v)
    ensures Executed(t, i, e) == Decode(g, Used(t, s, i), w)
  {
    PushRow(t, s, i, e);
    EmitIs(t, i, op);
    ExecutedStep(t, i, e);
    DecodeStep(g, Used(t, s, i), op, v, Emit(t, i), Executed(t, i + 1, e));
  }

  lemma EmitIs(t: seq<Row>, i: nat, op: int)
    requires i + 1 < |t| && op == Opcode(t[i])
    ensures Emit(t, i) == if op == 0 then [] else if op == PUSH then [Push(Stack(t[i + 1], 0))] else [Op(op)]
  {
  }

  lemma PushRow(t: seq<Row>, s: nat, i: nat, e: nat)
    requires DecoderTrace(t) && Batch(t, s, e) && s < i < e && Used(t, s, e) <= 8
    ensures Opcode(t[i]) < 128 && (Opcode(t[i]) == PUSH <==> IsPush(t[i]))
    ensures IsPush(t[i]) ==> Used(t, s, i + 1) == Used(t, s, i) + 1 <= Used(t, s, e)
                             && Stack(t[i + 1], 0) == HasherState(t[s], Used(t, s, i))
  {
    StepMeaning(t, i);
    OpcodeRange(t[i]);
    if IsPush(t[i]) {
      UsedGrows(t, s, i + 1, e);
      ImmediateIsGroup(t, s, i, e);
      UsedStep(t, s, i);
    }
  }

  lemma ImmediateIsGroup(t: seq<Row>, s: nat, i: nat, e: nat)
    requires DecoderTrace(t) && Batch(t, s, e) && s < i < e && IsPush(t[i])
    ensures Used(t, s, i) < 8 && Stack(t[i + 1], 0) == HasherState(t[s], Used(t, s, i))
  {
    StepMeaning(t, i);
    TakesNextGroup(t, s, i, e);
    TakenIsImmediate(t[i], t[i + 1]);
    ZeroIsSmall(Stack(t[i + 1], 0) - HasherState(t[s], Used(t, s, i)));
  }

  lemma TakenIsImmediate(m0: Row, m1: Row)
    requires OpBits(m0) && IsPush(m0)
    ensures Taken(m0, m1) == Stack(m1, 0)
  {
    SpanMeaning(m0);
  }

  lemma NextGroupIsTaken(t: seq<Row>, s: nat, i: nat, e: nat)
    requires DecoderTrace(t) && Batch(t, s, e) && s < i < e && !Continues(t[i], t[i + 1])
    ensures i + 1 < e && Used(t, s, i) < 8
    ensures HasherState(t[s], Used(t, s, i)) == 128 * Remaining(t[i + 1]) + Opcode(t[i + 1])
  {
    StepMeaning(t, i);
    NextIsExact(t, s, i, e);
    TakesNextGroup(t, s, i, e);
    ZeroIsSmall(128 * Remaining(t[i + 1]) + Opcode(t[i + 1]) - HasherState(t[s], Used(t, s, i)));
  }

  /** Groups used up by the end of row i, and by the start of the next row. */
  lemma AfterStep(t: seq<Row>, s: nat, i: nat, e: nat)
    requires DecoderTrace(t) && Batch(t, s, e) && s < i < e
    ensures 0 <= Opcode(t[i + 1]) && Used(t, s, i) <= Used(t, s, i + 1) <= Used(t, s, e) <= 8
    ensures After(t, s, i) <= Used(t, s, e)
    ensures Continues(t[i], t[i + 1]) ==> After(t, s, i) == Used(t, s, i + 1)
    ensures !Continues(t[i], t[i + 1]) ==> After(t, s, i) == Used(t, s, i) == Used(t, s, i + 1) - 1 && Remaining(t[i]) == 0
    ensures ClosesBatch(t[i + 1]) ==> Continues(t[i], t[i + 1]) && Remaining(t[i]) == 0
  {
    StepMeaning(t, i);
    OpcodeRange(t[i + 1]);
    UsedGrows(t, s, i, e);
    UsedGrows(t, s, i + 1, e);
    UsedStep(t, s, i);
  }

  lemma {:induction false} DecodesRest(t: seq<Row>, s: nat, i: nat, e: nat, g: seq<nat>)
    requires DecoderTrace(t) && Batch(t, s, e) && s < i < e && Covers(t, s, e, g)
    ensures After(t, s, i) <= |g|
    ensures Executed(t, i + 1, e) == Decode(g, After(t, s, i), Remaining(t[i]))
    decreases e - i
  {
    if i + 1 == e {
      LastRow(t, s, i, e, g);
    } else {
      AfterStep(t, s, i, e);
      DecodesRest(t, s, i + 1, e, g);
      var w := 128 * Remaining(t[i + 1]) + Opcode(t[i + 1]);
      DecodeRow(t, s, i + 1, e, g, Opcode(t[i + 1]), Remaining(t[i + 1]), w);
      NextValue(t, s, i, e, g, w);
    }
  }

  /** The last operation of a batch leaves nothing to decode. */
  lemma LastRow(t: seq<Row>, s: nat, i: nat, e: nat, g: seq<nat>)
    requires DecoderTrace(t) && Batch(t, s, e) && s < i && i + 1 == e && Covers(t, s, e, g)
    ensures After(t, s, i) == Used(t, s, e) && Remaining(t[i]) == 0
    ensures Executed(t, i + 1, e) == [] == Decode(g, After(t, s, i), Remaining(t[i]))
  {
    AfterStep(t, s, i, e);
    DecodeEmpty(g, Used(t, s, e));
  }

  /** What row i leaves to decode is what the next row starts from. */
  lemma NextValue(t: seq<Row>, s: nat, i: nat, e: nat, g: seq<nat>, v: nat)
    requires DecoderTrace(t) && Batch(t, s, e) && s < i && i + 1 < e && Covers(t, s, e, g)
    requires v == 128 * Remaining(t[i + 1]) + Opcode(t[i + 1])
    ensures After(t, s, i) <= |g| && Used(t, s, i + 1) <= |g|
    ensures Decode(g, After(t, s, i), Remaining(t[i])) == Decode(g, Used(t, s, i + 1), v)
  {
    AfterStep(t, s, i, e);
    PushInSpan(t, i + 1);
    if Continues(t[i], t[i + 1]) {
      PeelsDigit(t, s, i, e);
    } else {
      NextGroupIsTaken(t, s, i, e);
      assert g[Used(t, s, i)] == v;
    }
  }

  /** What a batch executes, no-ops aside, is the decoding of the groups it uses up. */
  lemma PrefixDecodes(t: seq<Row>, s: nat, e: nat, g: seq<nat>)
    requires DecoderTrace(t) && Batch(t, s, e) && Covers(t, s, e, g) && |g| > 0
    ensures s + 1 < e && Executed(t, s + 1, e) == Decode(g, 1, g[0])
  {
    FirstGroup(t, s, e);
    DecodesFromFirst(t, s, e, g, Used(t, s, s + 1), g[0]);
  }

  lemma DecodesFromFirst(t: seq<Row>, s: nat, e: nat, g: seq<nat>, k: nat, v: nat)
    requires DecoderTrace(t) && Batch(t, s, e) && s + 1 < e && k == Used(t, s, s + 1) <= Used(t, s, e) && Covers(t, s, e, g)
    requires 0 <= Opcode(t[s + 1]) && v == 128 * Remaining(t[s + 1]) + Opcode(t[s + 1])
    ensures Executed(t, s + 1, e) == Decode(g, k, v)
  {
    DecodesRest(t, s, s + 1, e, g);
    DecodeRow(t, s, s + 1, e, g, Opcode(t[s + 1]), Remaining(t[s + 1]), v);
  }

  lemma FirstGroup(t: seq<Row>, s: nat, e: nat)
    requires DecoderTrace(t) && Batch(t, s, e)
    ensures s + 1 < e && 1 == Used(t, s, s + 1) <= Used(t, s, e) <= 8 && 0 <= Opcode(t[s + 1])
    ensures HasherState(t[s], 0) == 128 * Remaining(t[s + 1]) + Opcode(t[s + 1])
  {
    FirstIsExact(t, s, e);
    OpeningStep(t, s);
    UsedIs(t, s, s + 1, 1);
    UsedGrows(t, s, s + 1, e);
    PushInSpan(t, s + 1);
    OpcodeRange(t[s + 1]);
  }

  // A batch uses up all of its groups
  // ----------------------------------------------------------------------------

  /** Row i changes the group count at the address of the batch that row s opens. */
  ghost predicate CountsAt(t: seq<Row>, i: nat, s: nat)
    requires i + 1 < |t| && s + 1 < |t|
  {
    InSpan(t[i]) == 1 && Addr(t[i]) == Addr(t[s + 1]) && GroupCount(t[i + 1]) != GroupCount(t[i])
  }

  /** No row outside s to e changes the group count at the address of the batch in those rows. */
  ghost predicate Own(t: seq<Row>, s: nat, e: nat)
    requires s + 1 < |t|
  {
    forall i: nat | i + 1 < |t| && CountsAt(t, i, s) :: s < i < e
  }

  /** Such a row takes one of the groups of the batch. */
  lemma CountingTakes(t: seq<Row>, i: nat, s: nat) returns (k: nat)
    requires DecoderTrace(t) && i + 1 < |t| && s + 1 < |t| && OpensBatch(t[s]) && CountsAt(t, i, s)
    ensures Takes(t, i, s, k)
  {
    if Zero(Delta(t[i], t[i + 1])) {
      ZeroIsSmall(Delta(t[i], t[i + 1]));
    }
    assert GroupBusAt(t, i);
    var s': nat, j: nat :| s' + 1 < |t| && AddedBy(t, i, s', j);
    assert Distinct(t, s, s');
    k := j;
  }

  lemma TakingCounts(t: seq<Row>, i: nat, s: nat, k: nat)
    requires i + 1 < |t| && s + 1 < |t| && Takes(t, i, s, k)
    ensures CountsAt(t, i, s)
  {
  }

  lemma TakenInside(t: seq<Row>, s: nat, i: nat, e: nat, k: nat)
    requires DecoderTrace(t) && Batch(t, s, e) && s < i < e && Takes(t, i, s, k)
    ensures k < Used(t, s, e)
  {
    StepMeaning(t, i);
    UsedIs(t, s, i, k);
    UsedStep(t, s, i);
    UsedGrows(t, s, i + 1, e);
    DeltaCases(t[i], t[i + 1]) by { assert OpGroupsAt(t, i); }
  }

  /** Each used-up group but the first is taken by a row of the batch. */
  lemma {:induction false} InsideTake(t: seq<Row>, s: nat, e: nat, j: nat, k: nat) returns (i: nat)
    requires DecoderTrace(t) && Batch(t, s, e) && s < j <= e && 1 <= k < Used(t, s, j)
    ensures s < i < e && Takes(t, i, s, k)
    decreases j
  {
    if j == s + 1 {
      FirstGroup(t, s, e);
      assert false;
    } else {
      i := j - 1;
      UsedBounds(t, s, i, e);
      StepMeaning(t, i);
      UsedStep(t, s, i);
      if Used(t, s, i) == k {
        TakesNextGroup(t, s, i, e);
      } else {
        i := InsideTake(t, s, e, i, k);
      }
    }
  }

  /** A batch uses up all of its groups exactly when no row outside it counts at its address. */
  lemma CompleteIffOwn(t: seq<Row>, s: nat, e: nat)
    requires DecoderTrace(t) && Batch(t, s, e)
    ensures s + 1 < |t| && (Used(t, s, e) == BatchSize(t[s]) <==> Own(t, s, e))
  {
    UsedBounds(t, s, e, e);
    if Own(t, s, e) && BatchSize(t[s]) > 1 {
      var k := BatchSize(t[s]) - 1;
      assert IsTaken(t, s, k);
      var i: nat :| i + 1 < |t| && Takes(t, i, s, k);
      TakingCounts(t, i, s, k);
      TakenInside(t, s, i, e, k);
    }
    if Used(t, s, e) == BatchSize(t[s]) {
      forall i: nat | i + 1 < |t| && CountsAt(t, i, s)
        ensures s < i < e
      {
        var k := CountingTakes(t, i, s);
        var i' := InsideTake(t, s, e, e, k);
        assert TakenOnce(t, i, i', s, k);
      }
    }
  }

  /** A basic block is entered through SPAN or RESPAN only. */
  ghost predicate EntersBySpan(t: seq<Row>, i: nat)
    requires i + 1 < |t|
  {
    InSpan(t[i + 1]) == 1 ==> InSpan(t[i]) == 1 || OpensBatch(t[i])
  }

  ghost predicate BlocksOnly(t: seq<Row>) {
    forall i: nat | i + 1 < |t| :: EntersBySpan(t, i)
  }

  /** Row i belongs to the batch that row s opens. */
  ghost predicate OpenedBy(t: seq<Row>, i: nat, s: nat)
    requires i < |t|
  {
    s < i && OpensBatch(t[s]) && Addr(t[i]) == Addr(t[s + 1]) && forall j: nat | s < j <= i :: InSpan(t[j]) == 1
  }

  lemma {:induction false} BatchOf(t: seq<Row>, i: nat) returns (s: nat)
    requires DecoderTrace(t) && BlocksOnly(t) && i < |t| && InSpan(t[i]) == 1
    ensures OpenedBy(t, i, s)
    decreases i
  {
    if i == 0 {
      assert OpGroupsAt(t, 0);
      ZeroIsSmall(InSpan(t[0]));
      assert false;
    } else if OpensBatch(t[i - 1]) {
      s := i - 1;
    } else {
      assert EntersBySpan(t, i - 1);
      s := BatchOf(t, i - 1);
      StepMeaning(t, i - 1);
    }
  }

  ghost predicate Opened(t: seq<Row>, i: nat)
    requires i < |t|
  {
    InSpan(t[i]) == 1 ==> exists s: nat :: OpenedBy(t, i, s)
  }

  /** Every operation belongs to a batch exactly when basic blocks are entered through SPAN and RESPAN only. */
  lemma OpenedIffEntered(t: seq<Row>)
    requires DecoderTrace(t)
    ensures (forall i: nat | i < |t| :: Opened(t, i)) <==> BlocksOnly(t)
  {
    if BlocksOnly(t) {
      forall i: nat | i < |t|
        ensures Opened(t, i)
      {
        if InSpan(t[i]) == 1 {
          var s := BatchOf(t, i);
        }
      }
    }
    if forall i: nat | i < |t| :: Opened(t, i) {
      forall i: nat | i + 1 < |t|
        ensures EntersBySpan(t, i)
      {
        assert Opened(t, i + 1);
      }
    }
  }

  lemma BlocksOwn(t: seq<Row>, s: nat, e: nat)
    requires DecoderTrace(t) && BlocksOnly(t) && Batch(t, s, e)
    ensures s + 1 < |t| && Own(t, s, e)
  {
    PushInSpan(t, e);
    forall i: nat | i + 1 < |t| && CountsAt(t, i, s)
      ensures s < i < e
    {
      var s' := BatchOf(t, i);
      assert Distinct(t, s, s');
    }
  }

  // Whole blocks
  // ----------------------------------------------------------------------------

  lemma BatchBits(r: Row)
    requires OpBits(r) && OpensBatch(r)
    requires (forall k: nat | k < 3 :: Bit(BatchBit(r, k)))
    requires Zero(SpanFlag(r) + RespanFlag(r) - (OneGroup(r) + TwoGroups(r) + FourGroups(r) + BatchBit(r, 0)))
    ensures BatchBit(r, 0) == 1 || BatchBit(r, 1) == 1 || BatchBit(r, 2) == 1
  {
    OpeningFlags(r);
    assert Bit(BatchBit(r, 0)) && Bit(BatchBit(r, 1)) && Bit(BatchBit(r, 2));
    ZeroIsSmall(1 - (OneGroup(r) + TwoGroups(r) + FourGroups(r) + BatchBit(r, 0)));
  }

  lemma BatchBitsAre(r: Row)
    requires OpBits(r) && BatchConstraints(r) && OpensBatch(r)
    ensures Bit(BatchBit(r, 0)) && Bit(BatchBit(r, 1)) && Bit(BatchBit(r, 2))
    ensures BatchBit(r, 0) == 1 || BatchBit(r, 1) == 1 || BatchBit(r, 2) == 1
  {
    forall k: nat | k < 3
      ensures Bit(BatchBit(r, k))
    {
      ZeroIsBit(BatchBit(r, k));
    }
    BatchBits(r);
    assert Bit(BatchBit(r, 0)) && Bit(BatchBit(r, 1)) && Bit(BatchBit(r, 2));
  }

  lemma SelectedGroups(c0: int, c1: int, c2: int)
    requires c0 == 0 && Bit(c1) && Bit(c2) && (c1 == 1 || c2 == 1)
    ensures (1 - c0) * c1 * c2 + (1 - c0) * (1 - c1) * c2 + (1 - c0) * c1 * (1 - c2) == 1
    ensures (1 - c0) * c1 * c2 + (1 - c0) * (1 - c1) * c2 == c2
    ensures (1 - c0) * c1 * c2 == c1 * c2
  {
  }

  lemma EmptyCell(g: int, h: Felt)
    requires g == 1 && Zero(g * h)
    ensures h == 0
  {
    ZeroIsSmall(h);
  }

  /** Cells beyond the groups of a batch are empty. */
  lemma UnusedAreEmpty(r: Row)
    requires OpBits(r) && BatchConstraints(r) && OpensBatch(r)
    ensures forall k: nat | BatchSize(r) <= k < 8 :: HasherState(r, k) == 0
  {
    BatchBitsAre(r);
    var c0, c1, c2 := BatchBit(r, 0), BatchBit(r, 1), BatchBit(r, 2);
    if c0 == 0 {
      SelectedGroups(c0, c1, c2);
      forall k: nat | BatchSize(r) <= k < 8
        ensures HasherState(r, k) == 0
      {
        if k >= 4 {
          EmptyCell(OneGroup(r) + TwoGroups(r) + FourGroups(r), HasherState(r, k));
        } else if k >= 2 {
          EmptyCell(OneGroup(r) + TwoGroups(r), HasherState(r, k));
        } else {
          EmptyCell(OneGroup(r), HasherState(r, k));
        }
      }
    }
  }

  /** The eight cells of a batch that are hashed into the block's commitment. */
  function Cells(r: Row): (g: seq<nat>)
    ensures |g| == 8
  {
    seq(8, k requires 0 <= k < 8 => HasherState(r, k) as nat)
  }

  /** Whether END or RESPAN closes it, a batch executes exactly what its eight committed cells decode to. */
  lemma BatchDecodes(t: seq<Row>, s: nat, e: nat)
    requires DecoderTrace(t) && Batch(t, s, e) && Own(t, s, e)
    ensures s + 1 < e && Used(t, s, e) == BatchSize(t[s])
    ensures Executed(t, s + 1, e) == Decode(Cells(t[s]), 1, Cells(t[s])[0])
  {
    CompleteIffOwn(t, s, e);
    UsedBounds(t, s, e, e);
    assert OpGroupsAt(t, s);
    OpBitMeaning(t[s]);
    UnusedAreEmpty(t[s]);
    PrefixDecodes(t, s, e, Cells(t[s]));
  }

  ghost predicate BatchAt(t: seq<Row>, b: seq<nat>, j: nat)
    requires j + 1 < |b|
  {
    Batch(t, b[j], b[j + 1]) && Own(t, b[j], b[j + 1])
  }

  /** Boundary rows of consecutive batches that use their own groups. */
  ghost predicate Batches(t: seq<Row>, b: seq<nat>) {
    |b| > 0 && (forall j: nat | j < |b| :: b[j] < |t|) && forall j: nat | j + 1 < |b| :: BatchAt(t, b, j)
  }

  /** A basic block: SPAN, batches separated by RESPAN, END. */
  ghost predicate Block(t: seq<Row>, b: seq<nat>) {
    |b| >= 2 && Batches(t, b) && IsSpan(t[b[0]]) && IsEnd(t[b[|b| - 1]])
  }

  function Program(t: seq<Row>, b: seq<nat>): seq<Instr>
    requires forall j: nat | j < |b| :: b[j] < |t|
  {
    if |b| < 2 || b[0] >= b[1] then [] else Executed(t, b[0] + 1, b[1]) + Program(t, b[1..])
  }

  /** What is committed to: the cells of each batch in turn. */
  function Commitment(t: seq<Row>, b: seq<nat>): seq<seq<nat>>
    requires forall j: nat | j < |b| :: b[j] < |t|
  {
    if |b| < 2 then [] else [Cells(t[b[0]])] + Commitment(t, b[1..])
  }

  function DecodeAll(c: seq<seq<nat>>): seq<Instr> {
    if c == [] then [] else (if c[0] == [] then [] else Decode(c[0], 1, c[0][0])) + DecodeAll(c[1..])
  }

  function TotalGroups(t: seq<Row>, b: seq<nat>): nat
    requires forall j: nat | j < |b| :: b[j] < |t|
  {
    if |b| < 2 then 0 else BatchSize(t[b[0]]) + TotalGroups(t, b[1..])
  }

  lemma BatchesTail(t: seq<Row>, b: seq<nat>)
    requires Batches(t, b) && |b| >= 2
    ensures Batches(t, b[1..])
  {
    forall j: nat | j + 1 < |b[1..]|
      ensures BatchAt(t, b[1..], j)
    {
      assert BatchAt(t, b, j + 1);
    }
  }

  lemma {:induction false} BatchesDecode(t: seq<Row>, b: seq<nat>)
    requires DecoderTrace(t) && Batches(t, b)
    ensures Program(t, b) == DecodeAll(Commitment(t, b))
    decreases |b|
  {
    if |b| >= 2 {
      BatchesTail(t, b);
      BatchesDecode(t, b[1..]);
      assert BatchAt(t, b, 0);
      BatchDecodes(t, b[0], b[1]);
      DecodeFirst(Cells(t[b[0]]), Commitment(t, b[1..]));
    }
  }

  lemma DecodeFirst(g: seq<nat>, c: seq<seq<nat>>)
    requires g != []
    ensures DecodeAll([g] + c) == Decode(g, 1, g[0]) + DecodeAll(c)
  {
    assert ([g] + c)[1..] == c;
  }

  lemma {:induction false} BatchesCount(t: seq<Row>, b: seq<nat>, last: nat)
    requires DecoderTrace(t) && Batches(t, b) && last == b[|b| - 1]
    ensures Zero(GroupCount(t[b[0]]) - GroupCount(t[last]) - TotalGroups(t, b))
    decreases |b|
  {
    if |b| >= 2 {
      BatchesTail(t, b);
      BatchesCount(t, b[1..], last);
      assert BatchAt(t, b, 0);
      BatchDecodes(t, b[0], b[1]);
      AddCounts(GroupCount(t[b[0]]), GroupCount(t[b[1]]), GroupCount(t[last]), BatchSize(t[b[0]]), TotalGroups(t, b[1..]));
    }
  }

  lemma AddCounts(x: int, y: int, z: int, m: int, n: int)
    requires Zero(x - y - m) && Zero(y - z - n)
    ensures Zero(x - z - (m + n))
  {
    Rewrite(x - y - m, y - z - n, 1);
  }

  /** What a basic block of any number of batches executes, no-ops aside, is the decoding of its
      committed groups, and its group count is the number of groups of all its batches. */
  lemma BlockDecodes(t: seq<Row>, b: seq<nat>)
    requires DecoderTrace(t) && Block(t, b)
    ensures Program(t, b) == DecodeAll(Commitment(t, b))
    ensures GroupCount(t[b[0]]) == TotalGroups(t, b) % P
  {
    BatchesDecode(t, b);
    BatchesCount(t, b, b[|b| - 1]);
    EndsEmpty(t, b[|b| - 1]);
    ModUniqueFelt(GroupCount(t[b[0]]), TotalGroups(t, b));
  }

  lemma ModUniqueFelt(x: Felt, n: nat)
    requires Zero(x - n)
    ensures x == n % P
  {
    Rewrite(x - n, n - n % P, 1) by { ModZero(n); }
    ZeroIsSmall(x - n % P);
  }

  lemma EndsEmpty(t: seq<Row>, e: nat)
    requires DecoderTrace(t) && e < |t| && IsEnd(t[e])
    ensures GroupCount(t[e]) == 0
  {
    assert OpGroupsAt(t, e);
    OpBitMeaning(t[e]);
    EndMeaning(t[e]);
    ZeroIsSmall(GroupCount(t[e]));
  }

  /** Blocks with the same committed cells execute the same instructions, in any two runs. */
  lemma DecodingIsUnique(t: seq<Row>, b: seq<nat>, t': seq<Row>, b': seq<nat>)
    requires DecoderTrace(t) && Block(t, b)
    requires DecoderTrace(t') && Block(t', b')
    requires Commitment(t, b) == Commitment(t', b')
    ensures Program(t, b) == Program(t', b')
  {
    BlockDecodes(t, b);
    BlockDecodes(t', b');
  }

  /** Where basic blocks are entered through SPAN and RESPAN only, every SPAN and its batches form such a block. */
  lemma SpansAreBlocks(t: seq<Row>, b: seq<nat>)
    requires DecoderTrace(t) && BlocksOnly(t) && |b| >= 2 && (forall j: nat | j < |b| :: b[j] < |t|)
    requires forall j: nat | j + 1 < |b| :: Batch(t, b[j], b[j + 1])
    requires IsSpan(t[b[0]]) && IsEnd(t[b[|b| - 1]])
    ensures Block(t, b)
  {
    forall j: nat | j + 1 < |b|
      ensures BatchAt(t, b, j)
    {
      BlocksOwn(t, b[j], b[j + 1]);
    }
  }

  // Whole runs
  // ----------------------------------------------------------------------------

  /** A basic block is left through END or RESPAN only. */
  ghost predicate LeavesByEnd(t: seq<Row>, i: nat)
    requires i + 1 < |t|
  {
    InSpan(t[i]) == 1 ==> InSpan(t[i + 1]) == 1 || ClosesBatch(t[i + 1])
  }

  /** Basic blocks are entered through SPAN and RESPAN and left through END and RESPAN only. */
  ghost predicate Framed(t: seq<Row>) {
    BlocksOnly(t) && forall i: nat | i + 1 < |t| :: LeavesByEnd(t, i)
  }

  ghost predicate InBatch(t: seq<Row>, i: nat)
    requires i < |t|
  {
    InSpan(t[i]) == 1 ==> exists s: nat, e: nat | s < i < e :: Batch(t, s, e)
  }

  lemma LastHalts(t: seq<Row>)
    requires DecoderTrace(t) && |t| > 0
    ensures InSpan(t[|t| - 1]) == 0 && !OpensBatch(t[|t| - 1])
  {
    var l := |t| - 1;
    assert OpGroupsAt(t, l) && FrameAt(t, l);
    OpBitMeaning(t[l]);
    HaltMeaning(t[l]);
    ZeroIsSmall(InSpan(t[l]));
  }

  lemma HaltMeaning(r: Row)
    requires OpBits(r) && Zero(HaltFlag(r) - 1)
    ensures IsHalt(r) && ControlFlag(r) == 1 && !OpensBatch(r)
  {
    assert BitAt(r, 4) && BitAt(r, 3) && BitAt(r, 2);
    if !IsHalt(r) {
      ZeroIsSmall(0 - 1);
    }
  }

  /** The row that closes the batch of row i. */
  lemma {:induction false} ClosedBy(t: seq<Row>, s: nat, i: nat) returns (e: nat)
    requires DecoderTrace(t) && Framed(t) && s < i < |t| && forall j: nat | s < j <= i :: InSpan(t[j]) == 1
    ensures i < e && Inside(t, s, e)
    decreases |t| - i
  {
    LastHalts(t);
    assert LeavesByEnd(t, i);
    if ClosesBatch(t[i + 1]) {
      e := i + 1;
    } else {
      e := ClosedBy(t, s, i + 1);
    }
  }

  /** Every operation of a run lies inside a batch of committed groups exactly when basic blocks are
      entered and left in the proper way. */
  lemma CommittedIffFramed(t: seq<Row>)
    requires DecoderTrace(t)
    ensures (forall i: nat | i < |t| :: InBatch(t, i)) <==> Framed(t)
  {
    if Framed(t) {
      forall i: nat | i < |t|
        ensures InBatch(t, i)
      {
        if InSpan(t[i]) == 1 {
          var s := BatchOf(t, i);
          var e := ClosedBy(t, s, i);
          assert Batch(t, s, e);
        }
      }
    }
    if forall i: nat | i < |t| :: InBatch(t, i) {
      forall i: nat | i + 1 < |t|
        ensures EntersBySpan(t, i) && LeavesByEnd(t, i)
      {
        assert InBatch(t, i) && InBatch(t, i + 1);
      }
    }
  }

  /** Instructions of rows i on, wherever they stand in the trace. */
  function RunFrom(t: seq<Row>, i: nat): seq<Instr>
    decreases |t| - i
  {
    if i + 1 >= |t| then [] else (if InSpan(t[i]) == 1 then Emit(t, i) else []) + RunFrom(t, i + 1)
  }

  /** Cells of the batches that rows i on open. */
  function CommittedFrom(t: seq<Row>, i: nat): seq<seq<nat>>
    decreases |t| - i
  {
    if i >= |t| then [] else (if OpensBatch(t[i]) then [Cells(t[i])] else []) + CommittedFrom(t, i + 1)
  }

  lemma RunStep(t: seq<Row>, i: nat)
    requires i + 1 < |t|
    ensures RunFrom(t, i) == if InSpan(t[i]) == 1 then Emit(t, i) + RunFrom(t, i + 1) else RunFrom(t, i + 1)
  {
    assert [] + RunFrom(t, i + 1) == RunFrom(t, i + 1);
  }

  lemma ExecutedStep(t: seq<Row>, lo: nat, hi: nat)
    requires lo < hi < |t|
    ensures Executed(t, lo, hi) == Emit(t, lo) + Executed(t, lo + 1, hi)
  {
  }

  lemma Prepended(emit: seq<Instr>, exec: seq<Instr>, exec': seq<Instr>, run: seq<Instr>, run': seq<Instr>, tail: seq<Instr>)
    requires exec == emit + exec' && run == emit + run' && run' == exec' + tail
    ensures run == exec + tail
  {
    Assoc(emit, exec', tail);
  }

  lemma {:induction false} RunInside(t: seq<Row>, i: nat, e: nat)
    requires i <= e < |t| && forall j: nat | i <= j < e :: InSpan(t[j]) == 1
    ensures RunFrom(t, i) == Executed(t, i, e) + RunFrom(t, e)
    decreases e - i
  {
    if i < e {
      RunInside(t, i + 1, e);
      RunStep(t, i);
      ExecutedStep(t, i, e);
      Prepended(Emit(t, i), Executed(t, i, e), Executed(t, i + 1, e), RunFrom(t, i), RunFrom(t, i + 1), RunFrom(t, e));
    } else {
      assert Executed(t, i, e) == [];
    }
  }

  lemma {:induction false} NoneOpened(t: seq<Row>, i: nat, e: nat)
    requires DecoderTrace(t) && i <= e < |t| && forall j: nat | i <= j < e :: InSpan(t[j]) == 1
    ensures CommittedFrom(t, i) == CommittedFrom(t, e)
    decreases e - i
  {
    if i < e {
      NoneOpened(t, i + 1, e);
      PushInSpan(t, i);
    }
  }

  lemma {:induction false} RunDecodesFrom(t: seq<Row>, i: nat)
    requires DecoderTrace(t) && Framed(t) && i < |t| && InSpan(t[i]) == 0
    ensures RunFrom(t, i) == DecodeAll(CommittedFrom(t, i))
    decreases |t| - i
  {
    LastHalts(t);
    if i + 1 == |t| {
      assert CommittedFrom(t, i) == CommittedFrom(t, i + 1) == [];
    } else if OpensBatch(t[i]) {
      OpeningStep(t, i);
      var e := ClosedBy(t, i, i + 1);
      PushInSpan(t, e);
      RunInside(t, i + 1, e);
      NoneOpened(t, i + 1, e);
      RunDecodesFrom(t, e);
      BlocksOwn(t, i, e);
      BatchDecodes(t, i, e);
      DecodeFirst(Cells(t[i]), CommittedFrom(t, e));
    } else {
      PushInSpan(t, i + 1);
      assert EntersBySpan(t, i);
      RunDecodesFrom(t, i + 1);
      assert CommittedFrom(t, i) == CommittedFrom(t, i + 1) && RunFrom(t, i) == RunFrom(t, i + 1);
    }
  }

  /** Everything such a run executes, no-ops aside, is the decoding of the groups that its SPAN and
      RESPAN rows commit to, batch after batch. */
  lemma RunDecodes(t: seq<Row>)
    requires DecoderTrace(t) && Framed(t)
    ensures RunFrom(t, 0) == DecodeAll(CommittedFrom(t, 0))
  {
    if |t| > 0 {
      assert OpGroupsAt(t, 0);
      ZeroIsSmall(InSpan(t[0]));
      RunDecodesFrom(t, 0);
    }
  }

  /** So runs with the same committed cells execute the same instructions. */
  lemma RunIsDecided(t: seq<Row>, t': seq<Row>)
    requires DecoderTrace(t) && Framed(t) && DecoderTrace(t') && Framed(t') && CommittedFrom(t, 0) == CommittedFrom(t', 0)
    ensures RunFrom(t, 0) == RunFrom(t', 0)
  {
    RunDecodes(t);
    RunDecodes(t');
  }
}
