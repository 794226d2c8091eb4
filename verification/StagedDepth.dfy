/** Two runs that meet every constraint of the stack and balance its buses, and still do not act as
    one stack. In the first, DYNCALL stages a depth that is not tied to the depth of its own row; in
    the second, a return takes the record of a block without a caller. */
module StagedDepth {
  import opened Goldilocks
  import opened CoreTrace
  import opened StackOverflow
  import opened VisibleStack
  import opened ConcreteRows

  const HALF: Felt := 9223372034707292161

  const EMPTY: Eight := [0, 0, 0, 0, 0, 0, 0, 0]
  const LEAVE: Eight := [0, 0, 0, 0, 0, 0, 1, 0]

  function Dec(addr: Felt, hasher: Eight): Decoder { Decoder(addr, hasher, 0, 0, [0, 0, 0]) }

  /** Visible cells: zeros above the last four. */
  function Bottom(a: Felt, b: Felt, c: Felt, d: Felt): Sixteen {
    [0, 0, 0, 0, 0, 0, 0, 0, 0, 0, 0, 0, a, b, c, d]
  }

  /** Row i of the run in which two cells are spilled. The first DYNCALL stages depth 16 where its own
      pop leaves 17; the second stages 17 where its own depth is 16. */
  function At(i: nat): Cells
    requires i < 10
  {
    match i
    case 0 => Cells(Noop,    System(0, 0), Dec(1, EMPTY),                      Operands(Bottom(0, 0, 8, 7), 16, 0, 0))
    case 1 => Cells(Pad,     System(1, 0), Dec(1, EMPTY),                      Operands(Bottom(0, 0, 8, 7), 16, 0, 0))
    case 2 => Cells(Pad,     System(2, 0), Dec(1, EMPTY),                      Operands(Bottom(0, 0, 0, 8), 17, 1, 1))
    case 3 => Cells(Dyncall, System(3, 0), Dec(1, [0, 0, 0, 0, 16, 1, 0, 0]),  Operands(Bottom(0, 0, 0, 0), 18, 2, HALF))
    case 4 => Cells(End,     System(4, 4), Dec(10, LEAVE),                     Operands(Bottom(0, 0, 0, 8), 16, 0, 0))
    case 5 => Cells(Drop,    System(5, 0), Dec(1, EMPTY),                      Operands(Bottom(0, 0, 0, 8), 16, 1, 0))
    case 6 => Cells(Dyncall, System(6, 0), Dec(1, [0, 0, 0, 0, 17, 1, 0, 0]),  Operands(Bottom(0, 0, 8, 0), 16, 1, 0))
    case 7 => Cells(End,     System(7, 7), Dec(20, LEAVE),                     Operands(Bottom(0, 8, 0, 0), 16, 0, 0))
    case 8 => Cells(Drop,    System(8, 0), Dec(1, EMPTY),                      Operands(Bottom(0, 8, 0, 0), 17, 1, 1))
    case _ => Cells(Noop,    System(9, 0), Dec(1, EMPTY),                      Operands(Bottom(8, 0, 0, 7), 16, 0, 0))
  }

  function AllCells(): (vs: seq<Cells>)
    ensures |vs| == 10 && forall i: nat | i < 10 :: vs[i] == At(i)
  {
    seq(10, i requires 0 <= i < 10 => At(i))
  }

  function Run(): (t: seq<Row>)
    ensures |t| == 10 && forall i: nat | i < 10 :: t[i] == MakeRow(At(i))
  {
    Rows(AllCells())
  }

  lemma RowsProper(i: nat)
    requires i < 10
    ensures Proper(At(i))
  {
    assert (18 - 16) * HALF - 1 == P;
  }

  lemma RunCounts(i: nat)
    requires i < 9
    ensures Counts(At(i), At(i + 1))
  {
  }

  lemma BottomCells(a: Felt, b: Felt, c: Felt, d: Felt, j: nat)
    requires j < 16
    ensures Bottom(a, b, c, d)[j] == if j < 12 then 0 else if j == 12 then a else if j == 13 then b else if j == 14 then c else d
  {
  }

  lemma Down(v: Cells, w: Cells, a: Felt, b: Felt, c: Felt, d: Felt)
    requires v.c.Pad? && v.stack.cells == Bottom(a, b, c, d) && w.stack.cells == Bottom(0, a, b, c)
    ensures Moves(v, w)
  {
    forall j: nat | 1 <= j < 16
      ensures w.stack.cells[j] == v.stack.cells[j - 1]
    {
      BottomCells(0, a, b, c, j);
      BottomCells(a, b, c, d, j - 1);
    }
  }

  lemma Up(v: Cells, w: Cells, b: Felt, c: Felt, d: Felt, e: Felt)
    requires (v.c.Drop? || v.c.Dyncall?) && v.stack.cells == Bottom(0, b, c, d) && w.stack.cells == Bottom(b, c, d, e)
    ensures Moves(v, w)
  {
    forall j: nat | j < 15
      ensures w.stack.cells[j] == v.stack.cells[j + 1]
    {
      BottomCells(b, c, d, e, j);
      BottomCells(0, b, c, d, j + 1);
    }
  }

  lemma RunMoves(i: nat)
    requires i < 9
    ensures Moves(At(i), At(i + 1))
  {
    match i
    case 1 => Down(At(1), At(2), 0, 0, 8, 7);
    case 2 => Down(At(2), At(3), 0, 0, 0, 8);
    case 3 => Up(At(3), At(4), 0, 0, 0, 8);
    case 5 => Up(At(5), At(6), 0, 0, 8, 0);
    case 6 => Up(At(6), At(7), 0, 8, 0, 0);
    case 8 => Up(At(8), At(9), 8, 0, 0, 7);
    case _ =>
  }

  lemma RunIsLawful()
    ensures Lawful(AllCells())
  {
    var vs := AllCells();
    forall i: nat | i < 10
      ensures Proper(vs[i])
    {
      RowsProper(i);
    }
    forall i: nat | i < 9
      ensures StepAt(vs, i)
    {
      RunCounts(i);
      RunMoves(i);
    }
  }

  // The buses of the run
  // ----------------------------------------------------------------------------

  /** What is read off row i. */
  lemma RowRead(i: nat)
    requires i < 10
    ensures var r, v := Run()[i], At(i);
            && EndFlags(r) && Pushes(r) == v.c.Pad? && Pops(r) == v.c.Drop? && Closes(r) == v.c.End? == IsEnd(r)
            && Opens(r) == v.c.Dyncall? == IsDyncall(r)
            && Clk(r) == i && Ctx(r) == v.sys.ctx && Addr(r) == v.dec.addr && FnHash(r) == [0, 0, 0, 0]
            && Depth(r) == v.stack.depth && Pointer(r) == v.stack.pointer && Stack(r, 15) == v.stack.cells[15]
            && HasherState(r, 4) == v.dec.hasher[4] && HasherState(r, 5) == v.dec.hasher[5]
            && HasherState(r, 6) + HasherState(r, 7) == AsBit(v.c.End?)
  {
    RowsProper(i);
    RowClass(At(i));
    RowCells(At(i));
    RowHasher(At(i));
    RowStack(At(i));
  }

  lemma RunAdds()
    ensures Adds(Run(), 1, 1, 7, 0) && Adds(Run(), 2, 2, 8, 1)
  {
    RowRead(1);
    RowRead(2);
  }

  /** Row i removes the record that row j added. */
  ghost predicate Removes(t: seq<Row>, i: nat, j: nat)
    requires i + 1 < |t| && j < |t|
  {
    && Depth(t[i]) != 16 && (Pops(t[i]) || IsDyncall(t[i]))
    && Adds(t, j, Pointer(t[i]), Stack(t[i + 1], 15), if IsDyncall(t[i]) then HasherState(t[i], 5) else Pointer(t[i + 1]))
  }

  lemma FirstTake()
    ensures Added(Run(), Pointer(Run()[3]), Stack(Run()[4], 15), HasherState(Run()[3], 5)) && Removes(Run(), 3, 2)
  {
    RunAdds();
    RowRead(3);
    RowRead(4);
    assert Adds(Run(), 2, 2, 8, 1);
  }

  lemma SecondTake()
    ensures Added(Run(), Pointer(Run()[8]), Stack(Run()[9], 15), Pointer(Run()[9])) && Removes(Run(), 8, 1)
  {
    RunAdds();
    RowRead(8);
    RowRead(9);
    assert Adds(Run(), 1, 1, 7, 0);
  }

  lemma RunTakes(i: nat)
    requires i < 9
    ensures OverflowBusAt(Run(), i)
  {
    RowRead(i);
    if i == 3 {
      FirstTake();
    } else if i == 8 {
      SecondTake();
    }
  }

  lemma FirstReturn()
    ensures Matches(Run(), 4, 3)
  {
    RowRead(3);
    RowRead(4);
    RowRead(5);
    assert Popped(Run(), 4) == BlockRecord(10, 1, 0, 0, 16, 1, [0, 0, 0, 0]) == Pushed(Run(), 3);
  }

  lemma SecondReturn()
    ensures Matches(Run(), 7, 6)
  {
    RowRead(6);
    RowRead(7);
    RowRead(8);
    assert Popped(Run(), 7) == BlockRecord(20, 1, 0, 0, 17, 1, [0, 0, 0, 0]) == Pushed(Run(), 6);
  }

  lemma RunReturns(i: nat)
    requires i < 9
    ensures BlockBusAt(Run(), i)
  {
    RowRead(i);
    if IsEnd(Run()[i]) {
      assert i == 4 || i == 7;
      FirstReturn();
      SecondReturn();
    }
  }

  ghost predicate IsRemoved(t: seq<Row>, j: nat)
    requires j < |t|
  {
    exists i: nat | i + 1 < |t| :: Removes(t, i, j)
  }

  ghost predicate IsReturned(t: seq<Row>, q: nat)
    requires q + 1 < |t|
  {
    exists i: nat | i + 1 < |t| :: IsEnd(t[i]) && Matches(t, i, q)
  }

  /** Every record added to the overflow table is removed, and every block record is taken by an END. */
  ghost predicate Balanced(t: seq<Row>) {
    && (forall j: nat | j < |t| && Pushes(t[j]) :: IsRemoved(t, j))
    && (forall q: nat | q + 1 < |t| && (Opens(t[q]) || OpensSimple(t[q])) :: IsReturned(t, q))
  }

  lemma RunRemoves()
    ensures IsRemoved(Run(), 1) && IsRemoved(Run(), 2)
  {
    FirstTake();
    SecondTake();
  }

  lemma Returned(t: seq<Row>, i: nat, q: nat)
    requires i + 1 < |t| && q + 1 < |t| && IsEnd(t[i]) && Matches(t, i, q)
    ensures IsReturned(t, q)
  {
  }

  lemma RunReturnsAll()
    ensures IsReturned(Run(), 3) && IsReturned(Run(), 6)
  {
    RowRead(4);
    FirstReturn();
    Returned(Run(), 4, 3);
    RowRead(7);
    SecondReturn();
    Returned(Run(), 7, 6);
  }

  lemma RunKinds(i: nat)
    requires i < 10
    ensures Pushes(Run()[i]) ==> i == 1 || i == 2
    ensures Opens(Run()[i]) || OpensSimple(Run()[i]) ==> i == 3 || i == 6
  {
    RowRead(i);
    RowBlocks(At(i));
  }

  lemma RunBalances()
    ensures Balanced(Run())
  {
    RunRemoves();
    RunReturnsAll();
    var t := Run();
    forall j: nat | j < |t|
      ensures Pushes(t[j]) ==> IsRemoved(t, j)
    {
      RunKinds(j);
    }
    forall q: nat | q + 1 < |t|
      ensures Opens(t[q]) || OpensSimple(t[q]) ==> IsReturned(t, q)
    {
      RunKinds(q);
    }
  }

  lemma CallerCells()
    ensures Caller(Run(), 3) == [7]
  {
    RowRead(3);
    TwoLinks();
    assert Below(Run(), 3) == [8, 7];
  }

  lemma ReturnedCells()
    ensures Below(Run(), 5) == []
  {
    RowRead(5);
  }

  lemma TwoLinks()
    ensures Chain(Run(), 2, 2) == [8, 7]
  {
    RowRead(1);
    RowRead(2);
    ChainStep(Run(), 2, 2);
    ChainStep(Run(), 1, 1);
  }

  lemma RunSatisfies()
    ensures StackTrace(Run())
  {
    var t := Run();
    RunIsLawful();
    LawfulHolds(AllCells());
    forall i | 0 <= i < |t| - 1
      ensures OverflowBusAt(t, i) && BlockBusAt(t, i)
    {
      RunTakes(i);
      RunReturns(i);
    }
  }

  lemma RunFails()
    ensures Closes(Run()[4]) && Matches(Run(), 4, 3) && Caller(Run(), 3) == [7] && Below(Run(), 5) == []
  {
    RowRead(4);
    FirstReturn();
    CallerCells();
    ReturnedCells();
  }

  /** Constraints and balanced buses alone do not make every run a stack. */
  lemma StagingMatters()
    ensures StackTrace(Run()) && Balanced(Run()) && !RunIsAStack(Run())
    ensures Closes(Run()[4]) && Matches(Run(), 4, 3) && Caller(Run(), 3) == [7] && Below(Run(), 5) == []
  {
    RunSatisfies();
    RunBalances();
    RunFails();
    NotRestored(Run(), 4, 3);
  }

  lemma NotRestored(t: seq<Row>, i: nat, q: nat)
    requires q < i && i + 1 < |t| && Closes(t[i]) && Matches(t, i, q) && Below(t, i + 1) != Caller(t, q)
    ensures !RunIsAStack(t)
  {
    assert !Restores(t, i, q);
  }

  // A return to a block without a caller
  // ----------------------------------------------------------------------------

  const MINUS_SIXTEENTH: Felt := 1152921504338411520

  /** Row i of the run in which the END of a JOIN says that it leaves a context. */
  function JoinAt(i: nat): Cells
    requires i < 6
  {
    match i
    case 0 => Cells(Noop, System(0, 0), Dec(1, EMPTY),  Operands(Bottom(0, 0, 0, 0), 16, 0, 0))
    case 1 => Cells(Call, System(1, 0), Dec(1, EMPTY),  Operands(Bottom(0, 0, 0, 0), 16, 0, 0))
    case 2 => Cells(Join, System(2, 2), Dec(10, EMPTY), Operands(Bottom(0, 0, 0, 0), 16, 0, 0))
    case 3 => Cells(End,  System(3, 2), Dec(20, LEAVE), Operands(Bottom(0, 0, 0, 0), 16, 0, 0))
    case 4 => Cells(End,  System(4, 0), Dec(10, LEAVE), Operands(Bottom(0, 0, 0, 0), 0, 0, MINUS_SIXTEENTH))
    case _ => Cells(Noop, System(5, 0), Dec(1, EMPTY),  Operands(Bottom(0, 0, 0, 0), 16, 0, 0))
  }

  function JoinRun(): (t: seq<Row>)
    ensures |t| == 6 && forall i: nat | i < 6 :: t[i] == MakeRow(JoinAt(i))
  {
    Rows(JoinCells())
  }

  function JoinCells(): (vs: seq<Cells>)
    ensures |vs| == 6 && forall i: nat | i < 6 :: vs[i] == JoinAt(i)
  {
    seq(6, i requires 0 <= i < 6 => JoinAt(i))
  }

  lemma JoinProper(i: nat)
    requires i < 6
    ensures Proper(JoinAt(i))
  {
    assert (0 - 16) * MINUS_SIXTEENTH - 1 == -P;
  }

  lemma JoinIsLawful()
    ensures Lawful(JoinCells())
  {
    var vs := JoinCells();
    forall i: nat | i < 6
      ensures Proper(vs[i])
    {
      JoinProper(i);
    }
    forall i: nat | i < 5
      ensures StepAt(vs, i)
    {
    }
  }

  lemma JoinRead(i: nat)
    requires i < 6
    ensures var r, v := JoinRun()[i], JoinAt(i);
            && EndFlags(r) && !Pushes(r) && !Pops(r) && Closes(r) == v.c.End? == IsEnd(r)
            && Opens(r) == v.c.Call? && !IsDyncall(r) && OpensSimple(r) == v.c.Join? && !IsLoop(r) && !IsRespan(r)
            && Ctx(r) == v.sys.ctx && Addr(r) == v.dec.addr && FnHash(r) == [0, 0, 0, 0]
            && Depth(r) == v.stack.depth && Pointer(r) == 0 && HasherState(r, 5) == 0
            && HasherState(r, 6) + HasherState(r, 7) == AsBit(v.c.End?)
  {
    JoinProper(i);
    RowClass(JoinAt(i));
    RowBlocks(JoinAt(i));
    RowCells(JoinAt(i));
    RowHasher(JoinAt(i));
  }

  lemma JoinReturns()
    ensures Matches(JoinRun(), 3, 2) && Matches(JoinRun(), 4, 1)
  {
    JoinTaken();
    CallTaken();
  }

  lemma JoinTaken()
    ensures Matches(JoinRun(), 3, 2)
  {
    JoinRead(2);
    JoinRead(3);
    JoinRead(4);
    assert Popped(JoinRun(), 3) == Simple(20, 10, 0) == Pushed(JoinRun(), 2);
  }

  lemma CallTaken()
    ensures Matches(JoinRun(), 4, 1)
  {
    JoinRead(1);
    JoinRead(2);
    JoinRead(4);
    JoinRead(5);
    assert Popped(JoinRun(), 4) == BlockRecord(10, 1, 0, 0, 16, 0, [0, 0, 0, 0]) == Pushed(JoinRun(), 1);
  }

  lemma JoinBuses(i: nat)
    requires i < 5
    ensures OverflowBusAt(JoinRun(), i) && BlockBusAt(JoinRun(), i)
  {
    JoinRead(i);
    if IsEnd(JoinRun()[i]) {
      assert i == 3 || i == 4;
      JoinReturns();
    }
  }

  lemma JoinKinds(i: nat)
    requires i < 6
    ensures !Pushes(JoinRun()[i])
    ensures Opens(JoinRun()[i]) || OpensSimple(JoinRun()[i]) ==> i == 1 || i == 2
  {
    JoinRead(i);
  }

  lemma JoinBalances()
    ensures Balanced(JoinRun())
  {
    JoinReturnsAll();
    var t := JoinRun();
    forall j: nat | j < |t|
      ensures Pushes(t[j]) ==> IsRemoved(t, j)
    {
      JoinKinds(j);
    }
    forall q: nat | q + 1 < |t|
      ensures Opens(t[q]) || OpensSimple(t[q]) ==> IsReturned(t, q)
    {
      JoinKinds(q);
    }
  }

  lemma JoinReturnsAll()
    ensures IsReturned(JoinRun(), 1) && IsReturned(JoinRun(), 2)
  {
    JoinRead(3);
    JoinTaken();
    Returned(JoinRun(), 3, 2);
    JoinRead(4);
    CallTaken();
    Returned(JoinRun(), 4, 1);
  }

  /** Nothing else keeps a return from taking such a record: the depth column then says 0. */
  lemma CallersMatter()
    ensures StackTrace(JoinRun()) && Balanced(JoinRun()) && !RunIsAStack(JoinRun())
    ensures Closes(JoinRun()[3]) && Matches(JoinRun(), 3, 2) && !Opens(JoinRun()[2]) && Depth(JoinRun()[4]) == 0
  {
    var t := JoinRun();
    JoinIsLawful();
    LawfulHolds(JoinCells());
    forall i | 0 <= i < |t| - 1
      ensures OverflowBusAt(t, i) && BlockBusAt(t, i)
    {
      JoinBuses(i);
    }
    JoinBalances();
    JoinReturns();
    JoinRead(2);
    JoinRead(3);
    JoinRead(4);
    assert !DepthCounts(t, 4);
  }
}
