/** A run that meets the constraints of decoder and stack and balances their tables, and executes an
    operation that no SPAN or RESPAN commits to: the in-span flag may rise after any control row. */
module LooseOperation {
  import opened Goldilocks
  import opened CoreTrace
  import opened StackOverflow
  import opened VisibleStack
  import opened ConcreteRows
  import opened OpGroups

  const EMPTY: Eight := [0, 0, 0, 0, 0, 0, 0, 0]
  const ZEROS: Sixteen := [0, 0, 0, 0, 0, 0, 0, 0, 0, 0, 0, 0, 0, 0, 0, 0]
  const ONES: Sixteen := [1, 0, 0, 0, 0, 0, 0, 0, 0, 0, 0, 0, 0, 0, 0, 0]

  function Top(one: bool): Operands { Operands(if one then ONES else ZEROS, 16, 0, 0) }

  /** SPLIT takes its second branch, a basic block with one empty group. INCR stands between the two. */
  function At(i: nat): ConcreteRows.Cells
    requires i < 7
  {
    match i
    case 0 => Cells(Split, System(0, 0), Decoder(0, [0, 0, 0, 0, 5, 6, 7, 8], 0, 1, [0, 0, 0]), Top(false))
    case 1 => Cells(Incr,  System(1, 0), Decoder(2, EMPTY, 1, 1, [0, 0, 0]),                    Top(false))
    case 2 => Cells(Span,  System(2, 0), Decoder(2, EMPTY, 0, 1, [0, 1, 1]),                    Top(true))
    case 3 => Cells(Noop,  System(3, 0), Decoder(4, EMPTY, 1, 0, [0, 0, 0]),                    Top(true))
    case 4 => Cells(End,   System(4, 0), Decoder(4, [5, 6, 7, 8, 0, 0, 0, 0], 0, 0, [0, 0, 0]), Top(true))
    case 5 => Cells(End,   System(5, 0), Decoder(2, [1, 2, 3, 4, 0, 0, 0, 0], 0, 0, [0, 0, 0]), Top(true))
    case _ => Cells(Halt,  System(6, 0), Decoder(0, EMPTY, 0, 0, [0, 0, 0]),                    Top(true))
  }

  function AllCells(): (vs: seq<ConcreteRows.Cells>)
    ensures |vs| == 7 && forall i: nat | i < 7 :: vs[i] == At(i)
  {
    seq(7, i requires 0 <= i < 7 => At(i))
  }

  function Run(): (t: seq<Row>)
    ensures |t| == 7 && forall i: nat | i < 7 :: t[i] == MakeRow(At(i))
  {
    Rows(AllCells())
  }

  // Stack
  // ----------------------------------------------------------------------------

  lemma RowsProper(i: nat)
    requires i < 7
    ensures Proper(At(i))
  {
  }

  lemma RunIsLawful()
    ensures Lawful(AllCells())
  {
    var vs := AllCells();
    forall i: nat | i < 7
      ensures Proper(vs[i])
    {
      RowsProper(i);
    }
    forall i: nat | i < 6
      ensures StepAt(vs, i)
    {
    }
  }

  /** What is read off row i. */
  lemma RowRead(i: nat)
    requires i < 7
    ensures var r, v := Run()[i], At(i);
            && OpBits(r) && EndFlags(r) && !Pushes(r) && Pops(r) == v.c.Split? && !Closes(r) && !Opens(r) && !IsDyncall(r)
            && IsEnd(r) == v.c.End? && OpensSimple(r) == (v.c.Split? || v.c.Span?) && !IsLoop(r) && !IsRespan(r)
            && Addr(r) == v.dec.addr && Depth(r) == 16
  {
    RowsProper(i);
    RowBits(At(i));
    RowClass(At(i));
    RowBlocks(At(i));
    RowCells(At(i));
  }

  lemma RowState(i: nat)
    requires i < 7
    ensures forall k: nat | k < 8 :: HasherState(Run()[i], k) == At(i).dec.hasher[k]
    ensures forall k: nat | k < 16 :: Stack(Run()[i], k) == At(i).stack.cells[k]
  {
    RowHasher(At(i));
    RowStack(At(i));
  }

  lemma BlocksReturn()
    ensures Matches(Run(), 4, 2) && Matches(Run(), 5, 0)
  {
    RowRead(0);
    RowRead(1);
    RowRead(2);
    RowRead(3);
    RowRead(4);
    RowRead(5);
    RowRead(6);
    RowState(4);
    RowState(5);
    assert Popped(Run(), 4) == Simple(4, 2, 0) == Pushed(Run(), 2);
    assert Popped(Run(), 5) == Simple(2, 0, 0) == Pushed(Run(), 0);
  }

  lemma StackBuses(i: nat)
    requires i < 6
    ensures OverflowBusAt(Run(), i) && BlockBusAt(Run(), i)
  {
    RowRead(i);
    if IsEnd(Run()[i]) {
      assert i == 4 || i == 5;
      RowState(i);
      BlocksReturn();
    }
  }

  lemma StackHolds()
    ensures StackTrace(Run())
  {
    var t := Run();
    RunIsLawful();
    LawfulHolds(AllCells());
    forall i | 0 <= i < |t| - 1
      ensures OverflowBusAt(t, i) && BlockBusAt(t, i)
    {
      StackBuses(i);
    }
  }

  // Decoder
  // ----------------------------------------------------------------------------

  lemma DecoderFlags(v: ConcreteRows.Cells)
    ensures var r := MakeRow(v);
            && SpanFlag(r) == AsBit(v.c.Span?) && RespanFlag(r) == 0 && PushFlag(r) == 0
            && EndFlag(r) == AsBit(v.c.End?) && HaltFlag(r) == AsBit(v.c.Halt?)
  {
    RowOps(v);
  }

  lemma ControlRows(v: ConcreteRows.Cells)
    requires v.c.Noop? || v.c.Incr? || v.c.Split? || v.c.Span? || v.c.End? || v.c.Halt?
    ensures ControlFlag(MakeRow(v)) == AsBit(!v.c.Noop? && !v.c.Incr?)
    ensures Opcode(MakeRow(v)) == match v.c case Noop => 0 case Incr => 4 case Split => 84 case Span => 86 case End => 112 case _ => 124
  {
    RowOps(v);
  }

  lemma DecoderCells(v: ConcreteRows.Cells)
    ensures var r := MakeRow(v);
            && InSpan(r) == v.dec.inSpan && GroupCount(r) == v.dec.count && OpIndex(r) == 0 && Remaining(r) == v.dec.hasher[0]
            && BatchBit(r, 0) == v.dec.batch[0] && BatchBit(r, 1) == v.dec.batch[1] && BatchBit(r, 2) == v.dec.batch[2]
  {
  }

  lemma {:induction false} FallingAtZero(n: nat)
    requires n > 0
    ensures Falling(0, n) == 0
  {
    if n > 1 {
      FallingAtZero(n - 1);
    }
  }

  lemma PlainBatch(r: Row)
    requires SpanFlag(r) == 0 && RespanFlag(r) == 0 && BatchBit(r, 0) == 0 && BatchBit(r, 1) == 0 && BatchBit(r, 2) == 0
    ensures BatchConstraints(r)
  {
    assert OneGroup(r) == 0 && TwoGroups(r) == 0 && FourGroups(r) == 0;
  }

  lemma EmptyBatch(r: Row)
    requires SpanFlag(r) == 1 && RespanFlag(r) == 0 && BatchBit(r, 0) == 0 && BatchBit(r, 1) == 1 && BatchBit(r, 2) == 1
    requires forall k: nat | k < 8 :: HasherState(r, k) == 0
    ensures BatchConstraints(r)
  {
    assert OneGroup(r) == 1 && TwoGroups(r) == 0 && FourGroups(r) == 0;
  }

  lemma BatchHolds(i: nat)
    requires i < 7
    ensures BatchConstraints(Run()[i])
  {
    DecoderFlags(At(i));
    DecoderCells(At(i));
    if i == 2 {
      RowState(2);
      EmptyBatch(Run()[2]);
    } else {
      PlainBatch(Run()[i]);
    }
  }

  function Following(i: nat): nat { if i < 6 then i + 1 else 0 }

  /** A step that changes the group count on SPAN only, and takes nothing off the group in hand. */
  ghost predicate Quiet(m0: Row, m1: Row, last: bool) {
    && RespanFlag(m0) == 0 && PushFlag(m0) == 0 && RespanFlag(m1) == 0
    && Bit(SpanFlag(m0)) && Bit(EndFlag(m0)) && Bit(EndFlag(m1)) && OpIndex(m0) == 0 && OpIndex(m1) == 0
    && InSpan(m0) == 1 - ControlFlag(m0) && Bit(InSpan(m0)) && (InSpan(m0) == 1 ==> SpanFlag(m0) == 0)
    && (SpanFlag(m0) == 1 ==> InSpan(m1) == 1 && Delta(m0, m1) == 1 && EndFlag(m1) == 0
                              && Remaining(m0) == 0 && Remaining(m1) == 0 && Opcode(m1) == 0)
    && (SpanFlag(m0) == 0 && !last ==> Delta(m0, m1) == 0 || EndFlag(m1) == 0)
    && (InSpan(m0) == 1 ==> InSpan(m1) == 0 && Delta(m0, m1) == 0 && Remaining(m0) == 0 && Addr(m1) == Addr(m0) && !last)
    && (EndFlag(m0) == 1 ==> GroupCount(m0) == 0)
  }

  lemma QuietCounts(m0: Row, m1: Row, last: bool, fst: int)
    requires Quiet(m0, m1, last) && (fst == 0 || InSpan(m0) == 0)
    ensures InSpanConstraints(m0, m1, fst) && CountConstraints(m0, m1, AsBit(!last))
  {
  }

  lemma NoGroup(span: int, other: int, in0: int, in1: int, d: int, e: int)
    requires span == 0 && other == 0 && (in0 == 0 || in1 == 0)
    ensures (span + other + in0 * in1 * (1 - d)) * e == 0
  {
  }

  lemma QuietGroups(m0: Row, m1: Row, last: bool)
    requires Quiet(m0, m1, last)
    ensures GroupConstraints(m0, m1, AsBit(!last))
  {
    if SpanFlag(m0) == 0 {
      NoGroup(SpanFlag(m0), RespanFlag(m0) + PushFlag(m0), InSpan(m0), InSpan(m1), Delta(m0, m1),
              Remaining(m0) - 128 * Remaining(m1) - Opcode(m1));
    }
  }

  lemma QuietIndex(m0: Row, m1: Row, last: bool)
    requires Quiet(m0, m1, last)
    ensures IndexConstraints(m0, m1, AsBit(!last))
  {
    FallingAtZero(9);
    assert InSpan(m0) == 0 || InSpan(m1) == 0;
  }

  lemma DecoderRead(i: nat)
    requires i < 7
    ensures var r := Run()[i];
            && RespanFlag(r) == 0 && PushFlag(r) == 0 && SpanFlag(r) == AsBit(i == 2) && EndFlag(r) == AsBit(i == 4 || i == 5)
            && HaltFlag(r) == AsBit(i == 6) && OpIndex(r) == 0 && InSpan(r) == AsBit(i == 1 || i == 3) == 1 - ControlFlag(r)
            && GroupCount(r) == AsBit(i < 3) && Addr(r) == (if i == 0 || i == 6 then 0 else if i == 3 || i == 4 then 4 else 2)
            && (1 <= i <= 3 ==> Remaining(r) == 0) && (i == 3 ==> Opcode(r) == 0)
  {
    DecoderFlags(At(i));
    ControlRows(At(i));
    DecoderCells(At(i));
    RowCells(At(i));
  }

  lemma StepIsQuiet(i: nat)
    requires i < 7
    ensures Quiet(Run()[i], Run()[Following(i)], i == 6)
  {
    DecoderRead(i);
    DecoderRead(Following(i));
  }

  lemma RowHolds(i: nat)
    requires i < 7
    ensures OpGroupsAt(Run(), i)
  {
    var m0, m1 := Run()[i], Run()[Following(i)];
    RowBits(At(i));
    BatchHolds(i);
    StepIsQuiet(i);
    DecoderCells(At(i));
    QuietCounts(m0, m1, i == 6, Fst(i));
    QuietGroups(m0, m1, i == 6);
    QuietIndex(m0, m1, i == 6);
    assert Next(Run(), i) == m1;
  }

  lemma OpcodesUsed(v: ConcreteRows.Cells)
    ensures var r := MakeRow(v);
            && (OpBit(r, 6) - Extra1(r) - Extra0(r)) * OpBit(r, 0) == 0 && Extra1(r) * OpBit(r, 0) == 0 && Extra1(r) * OpBit(r, 1) == 0
  {
    RowOps(v);
  }

  lemma FrameFrom(t: seq<Row>, i: nat)
    requires i < |t|
    requires var r := t[i];
             && (OpBit(r, 6) - Extra1(r) - Extra0(r)) * OpBit(r, 0) == 0 && Extra1(r) * OpBit(r, 0) == 0 && Extra1(r) * OpBit(r, 1) == 0
             && RespanFlag(r) == 0 && HaltFlag(r) == AsBit(i + 1 == |t|) && (i + 1 == |t| ==> Addr(r) == 0)
    ensures FrameAt(t, i)
  {
  }

  lemma FrameHolds(i: nat)
    requires i < 7
    ensures FrameAt(Run(), i)
  {
    OpcodesUsed(At(i));
    DecoderRead(i);
    FrameFrom(Run(), i);
  }

  lemma Opening(i: nat)
    requires i < 7
    ensures OpensBatch(Run()[i]) <==> i == 2
    ensures i == 2 ==> BatchSize(Run()[i]) == 1
    ensures InSpan(Run()[i]) == AsBit(i == 1 || i == 3)
  {
    RowOps(At(i));
    DecoderCells(At(i));
  }

  /** No row of a basic block changes the group count. */
  lemma NothingTaken(i: nat)
    requires i < 6 && InSpan(Run()[i]) == 1
    ensures Delta(Run()[i], Run()[i + 1]) == 0
  {
    Opening(i);
    DecoderCells(At(i));
    DecoderCells(At(i + 1));
  }

  lemma TableIsEmpty(i: nat, s: nat, k: nat)
    requires s < 6
    ensures i < 7 ==> GroupBusAt(Run(), i)
    ensures IsTaken(Run(), s, k)
    ensures i < 6 ==> !Takes(Run(), i, s, k)
  {
    Opening(s);
    if i < 6 && InSpan(Run()[i]) == 1 {
      NothingTaken(i);
    }
  }

  lemma DecoderHolds()
    ensures DecoderTrace(Run())
  {
    var t := Run();
    forall i: nat | i < |t|
      ensures OpGroupsAt(t, i) && FrameAt(t, i) && GroupBusAt(t, i)
    {
      RowHolds(i);
      FrameHolds(i);
      TableIsEmpty(i, 0, 0);
    }
    forall s: nat, k: nat | s + 1 < |t|
      ensures IsTaken(t, s, k)
    {
      TableIsEmpty(0, s, k);
    }
    forall i: nat, i': nat, s: nat, k: nat | i + 1 < |t| && i' + 1 < |t| && s + 1 < |t|
      ensures TakenOnce(t, i, i', s, k)
    {
      TableIsEmpty(i, s, k);
    }
    forall s: nat, s': nat | s + 1 < |t| && s' + 1 < |t|
      ensures Distinct(t, s, s')
    {
      Opening(s);
      Opening(s');
    }
  }

  // Block hash table
  // ----------------------------------------------------------------------------

  /** Parent, digest, first child of a JOIN, body of a loop. */
  datatype HashRecord = HashRecord(parent: int, digest: seq<int>, first: int, body: int)

  /** SPLIT adds the digest of the branch that its operand selects. */
  function Branch(t: seq<Row>, q: nat): HashRecord
    requires q + 1 < |t|
  {
    var s := Stack(t[q], 0);
    HashRecord(Addr(t[q + 1]), seq(4, k requires 0 <= k < 4 => s * HasherState(t[q], k) + (1 - s) * HasherState(t[q], 4 + k)), 0, 0)
  }

  predicate IsRepeat(r: Row) { On(r, 6) && On(r, 5) && On(r, 4) && !On(r, 3) && On(r, 2) }

  /** END removes the digest of its block. */
  function Ended(t: seq<Row>, i: nat): HashRecord
    requires i + 1 < |t|
  {
    var r := t[i + 1];
    HashRecord(Addr(r), seq(4, k requires 0 <= k < 4 => HasherState(t[i], k)),
               AsBit(!IsEnd(r) && !IsRepeat(r) && !IsRespan(r) && !IsHalt(r)), HasherState(t[i], 4))
  }

  lemma BranchIs()
    ensures Branch(Run(), 0) == HashRecord(2, [5, 6, 7, 8], 0, 0)
  {
    RowState(0);
    RowCells(At(1));
    assert Stack(Run()[0], 0) == 0;
  }

  lemma InnerIs()
    ensures Ended(Run(), 4) == HashRecord(2, [5, 6, 7, 8], 0, 0)
  {
    RowState(4);
    RowRead(5);
  }

  lemma OuterIs()
    ensures Ended(Run(), 5) == HashRecord(0, [1, 2, 3, 4], 0, 0)
  {
    RowState(5);
    RowCells(At(6));
    RowOps(At(6));
  }

  /** The inner END removes what SPLIT added, the outer one the record of the program. */
  lemma HashesMatch()
    ensures Ended(Run(), 4) == Branch(Run(), 0)
    ensures Ended(Run(), 5) == HashRecord(0, [1, 2, 3, 4], 0, 0)
  {
    BranchIs();
    InnerIs();
    OuterIs();
  }

  // What is executed and what is committed
  // ----------------------------------------------------------------------------

  lemma Emits()
    ensures Emit(Run(), 1) == [Op(4)] && Emit(Run(), 3) == []
  {
    ControlRows(At(1));
    ControlRows(At(3));
    EmitIs(Run(), 1, 4);
    EmitIs(Run(), 3, 0);
  }

  lemma LastRuns()
    ensures RunFrom(Run(), 2) == []
  {
    var t := Run();
    Emits();
    Opening(2);
    Opening(3);
    Opening(4);
    Opening(5);
    RunStep(t, 5);
    RunStep(t, 4);
    RunStep(t, 3);
    RunStep(t, 2);
    assert RunFrom(t, 6) == [] && Emit(t, 3) + [] == [];
  }

  lemma Executes()
    ensures RunFrom(Run(), 0) == [Op(4)]
  {
    Emits();
    LastRuns();
    Opening(0);
    Opening(1);
    RunStep(Run(), 1);
    RunStep(Run(), 0);
    assert [Op(4)] + [] == [Op(4)];
  }

  lemma Commits()
    ensures DecodeAll(CommittedFrom(Run(), 0)) == []
  {
    var t := Run();
    var g := OpGroups.Cells(t[2]);
    RowState(2);
    assert forall k: nat | k < 8 :: g[k] == 0;
    DecodeEmpty(g, 1);
    Opening(0);
    Opening(1);
    Opening(2);
    Opening(3);
    Opening(4);
    Opening(5);
    Opening(6);
    assert CommittedFrom(t, 6) == CommittedFrom(t, 7) == [];
    assert CommittedFrom(t, 3) == CommittedFrom(t, 4) == CommittedFrom(t, 5) == [];
    assert CommittedFrom(t, 2) == [g] + [];
    assert CommittedFrom(t, 0) == CommittedFrom(t, 1) == [g] + [];
    DecodeFirst(g, []);
  }

  /** The run executes INCR, and its one batch commits to nothing. */
  lemma LooseOperationRuns()
    ensures DecoderTrace(Run()) && StackTrace(Run()) && !BlocksOnly(Run())
    ensures InSpan(Run()[1]) == 1 && Opcode(Run()[1]) == 4 && !OpensBatch(Run()[0]) && !OpensBatch(Run()[1])
    ensures Matches(Run(), 4, 2) && Matches(Run(), 5, 0)
    ensures Ended(Run(), 4) == Branch(Run(), 0) && Ended(Run(), 5) == HashRecord(0, [1, 2, 3, 4], 0, 0)
    ensures RunFrom(Run(), 0) == [Op(4)] && DecodeAll(CommittedFrom(Run(), 0)) == []
  {
    BlocksReturn();
    HashesMatch();
    DecoderHolds();
    StackHolds();
    Opening(0);
    Opening(1);
    ControlRows(At(1));
    assert !EntersBySpan(Run(), 0);
    Executes();
    Commits();
  }
}
