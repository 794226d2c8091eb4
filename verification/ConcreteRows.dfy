/** Core trace rows given by their cells, and what makes a run of them satisfy the stack constraints. */
module ConcreteRows {
  import opened Goldilocks
  import opened CoreTrace
  import opened StackOverflow
  import opened VisibleStack

  datatype Code = Noop | Incr | Pad | Drop | Split | Span | Join | Dyncall | Call | End | Halt

  /** Opcode bits 0 to 6. */
  function OpcodeBits(c: Code): (b: seq<int>)
    ensures |b| == 7
  {
    match c
    case Noop => [0, 0, 0, 0, 0, 0, 0]
    case Incr => [0, 0, 1, 0, 0, 0, 0]
    case Pad => [0, 0, 0, 0, 1, 1, 0]
    case Drop => [1, 0, 0, 1, 0, 1, 0]
    case Split => [0, 0, 1, 0, 1, 0, 1]
    case Span => [0, 1, 1, 0, 1, 0, 1]
    case Join => [1, 1, 1, 0, 1, 0, 1]
    case Dyncall => [0, 0, 1, 1, 1, 0, 1]
    case Call => [0, 0, 1, 1, 0, 1, 1]
    case End => [0, 0, 0, 0, 1, 1, 1]
    case Halt => [0, 0, 1, 1, 1, 1, 1]
  }

  type Three = s: seq<Felt> | |s| == 3 witness [0, 0, 0]
  type Eight = s: seq<Felt> | |s| == 8 witness [0, 0, 0, 0, 0, 0, 0, 0]
  type Sixteen = s: seq<Felt> | |s| == 16 witness [0, 0, 0, 0, 0, 0, 0, 0, 0, 0, 0, 0, 0, 0, 0, 0]

  datatype System = System(clk: Felt, ctx: Felt)
  datatype Decoder = Decoder(addr: Felt, hasher: Eight, inSpan: Felt, count: Felt, batch: Three)
  datatype Operands = Operands(cells: Sixteen, depth: Felt, pointer: Felt, inv: Felt)

  /** The cells of a row. Function hash, operation index and range table are zero. */
  datatype Cells = Cells(c: Code, sys: System, dec: Decoder, stack: Operands)

  function Cell(v: Cells, k: nat): (x: Felt)
  {
    if k == 0 then v.sys.clk
    else if k == 1 then v.sys.ctx
    else if k == 6 then v.dec.addr
    else if 7 <= k < 14 then BitCell(v.c, k - 7)
    else if 14 <= k < 22 then v.dec.hasher[k - 14]
    else if k == 22 then v.dec.inSpan
    else if k == 23 then v.dec.count
    else if 25 <= k < 28 then v.dec.batch[k - 25]
    else if k == 28 then AsBit(v.c.Split? || v.c.Span? || v.c.Join? || v.c.Dyncall?)
    else if k == 29 then AsBit(v.c.Call? || v.c.End? || v.c.Halt?)
    else if 30 <= k < 46 then v.stack.cells[k - 30]
    else if k == 46 then v.stack.depth
    else if k == 47 then v.stack.pointer
    else if k == 48 then v.stack.inv
    else 0
  }

  function BitCell(c: Code, k: nat): (x: Felt)
    requires k < 7
    ensures Bit(x)
  {
    OpcodeBits(c)[k]
  }

  function MakeRow(v: Cells): (r: Row)
    ensures forall k: nat | k < 51 :: r[k] == Cell(v, k)
  {
    seq(51, k requires 0 <= k < 51 => Cell(v, k))
  }

  function Rows(vs: seq<Cells>): (t: seq<Row>)
    ensures |t| == |vs| && forall i: nat | i < |vs| :: t[i] == MakeRow(vs[i])
  {
    seq(|vs|, i requires 0 <= i < |vs| => MakeRow(vs[i]))
  }

  // Reading a row
  // ----------------------------------------------------------------------------

  lemma RowCells(v: Cells)
    ensures var r := MakeRow(v);
            && Clk(r) == v.sys.clk && Ctx(r) == v.sys.ctx && Addr(r) == v.dec.addr && FnHash(r) == [0, 0, 0, 0]
            && Depth(r) == v.stack.depth && Pointer(r) == v.stack.pointer && DepthInv(r) == v.stack.inv
  {
  }

  lemma RowHasher(v: Cells)
    ensures forall k: nat | k < 8 :: HasherState(MakeRow(v), k) == v.dec.hasher[k]
  {
  }

  lemma RowStack(v: Cells)
    ensures forall k: nat | k < 16 :: Stack(MakeRow(v), k) == v.stack.cells[k]
  {
  }

  lemma RowOps(v: Cells)
    ensures var r, b := MakeRow(v), OpcodeBits(v.c);
            && OpBit(r, 0) == b[0] && OpBit(r, 1) == b[1] && OpBit(r, 2) == b[2] && OpBit(r, 3) == b[3]
            && OpBit(r, 4) == b[4] && OpBit(r, 5) == b[5] && OpBit(r, 6) == b[6]
            && Extra0(r) == AsBit(v.c.Split? || v.c.Span? || v.c.Join? || v.c.Dyncall?)
            && Extra1(r) == AsBit(v.c.Call? || v.c.End? || v.c.Halt?)
  {
  }

  lemma RowBits(v: Cells)
    ensures OpBits(MakeRow(v)) && OpBitConstraints(MakeRow(v))
  {
    var r := MakeRow(v);
    RowOps(v);
    forall k: nat | k < 7
      ensures BitAt(r, k) && Zero(OpBit(r, k) * (OpBit(r, k) - 1))
    {
      assert OpBit(r, k) == BitCell(v.c, k);
    }
  }

  /** The flags of an END row say whether a context is left; no loop is. */
  ghost predicate Flagged(v: Cells) {
    v.c.End? ==> v.dec.hasher[5] == 0 && Bit(v.dec.hasher[6]) && v.dec.hasher[7] == 0
  }

  predicate Leaving(v: Cells) { v.c.End? && v.dec.hasher[6] == 1 }
  predicate Entering(v: Cells) { v.c.Dyncall? || v.c.Call? }
  predicate Popping(v: Cells) { v.c.Drop? || v.c.Split? }

  lemma RowClass(v: Cells)
    requires Flagged(v)
    ensures var r := MakeRow(v);
            && EndFlags(r) && Pushes(r) == v.c.Pad? && Pops(r) == Popping(v) && Closes(r) == Leaving(v)
            && Opens(r) == Entering(v) && IsDyncall(r) == v.c.Dyncall? && IsEnd(r) == v.c.End?
  {
    RowHasher(v);
    RowOps(v);
  }

  lemma RowBlocks(v: Cells)
    ensures var r := MakeRow(v);
            && OpensSimple(r) == (v.c.Split? || v.c.Span? || v.c.Join?) && !IsLoop(r) && !IsRespan(r)
  {
    RowOps(v);
  }

  lemma RowFlags(v: Cells)
    requires Flagged(v)
    ensures var r := MakeRow(v);
            && OpenFlag(r) == AsBit(Entering(v)) && CloseFlag(r) == AsBit(Leaving(v))
            && LeftFlag(r) == AsBit(Popping(v)) && RightFlag(r) == AsBit(v.c.Pad?)
            && OverflowFlag(r) == (v.stack.depth - 16) * v.stack.inv
  {
    var r := MakeRow(v);
    RowBits(v);
    RowClass(v);
    RowCells(v);
    OpenMeaning(r);
    CloseMeaning(r);
    LeftMeaning(r);
    RightMeaning(r);
  }

  // Depth, pointer and clock
  // ----------------------------------------------------------------------------

  ghost predicate Inverted(o: Operands) { o.depth == 16 || Zero((o.depth - 16) * o.inv - 1) }

  /** What a row does to clock, depth and pointer, and to the cell that comes in at the bottom. */
  ghost predicate Counts(v: Cells, w: Cells) {
    var o, o' := v.stack, w.stack;
    && w.sys.clk == v.sys.clk + 1
    && (v.c.Pad? ==> o'.depth == o.depth + 1 && o'.pointer == v.sys.clk)
    && (Popping(v) ==> if o.depth == 16 then o'.depth == 16 && o'.pointer == o.pointer && o'.cells[15] == 0 else o'.depth == o.depth - 1)
    && (Entering(v) ==> o'.depth == 16 && o'.pointer == 0)
    && (!v.c.Pad? && !Popping(v) && !Entering(v) && !Leaving(v) ==> o'.depth == o.depth && o'.pointer == o.pointer)
  }

  lemma DepthHolds(d: Felt, d': Felt, ov: int, open: bool, close: bool, left: bool, right: bool)
    requires if d == 16 then ov == 0 else Zero(ov - 1)
    requires !(open && (close || left || right)) && !(close && (left || right)) && !(left && right)
    requires (right ==> d' == d + 1) && (left ==> if d == 16 then d' == 16 else d' == d - 1) && (open ==> d' == 16)
    requires !right && !left && !open && !close ==> d' == d
    ensures Zero((d' - d) * (1 - AsBit(open) - AsBit(close)) + AsBit(left) * ov - AsBit(right) + AsBit(open) * (d' - 16))
    ensures Zero((1 - ov) * (d - 16))
  {
    if d != 16 {
      Rewrite(0, ov - 1, 16 - d);
      assert (ov - 1) * (16 - d) == (1 - ov) * (d - 16);
    }
  }

  lemma PointerHolds(p: int, p': int, clk: int, x: int, spilled: bool, ov: int, open: bool, close: bool, left: bool, right: bool)
    requires if spilled then Zero(ov - 1) else ov == 0
    requires !(open && (close || left || right)) && !(close && (left || right)) && !(left && right)
    requires (right ==> p' == clk) && (left && !spilled ==> p' == p && x == 0) && (open ==> p' == 0)
    requires !right && !left && !open && !close ==> p' == p
    ensures Zero(AsBit(right) * (p' - clk)) && Zero(AsBit(open) * p')
    ensures Zero((1 - (AsBit(open) + AsBit(close) + AsBit(right) + AsBit(left) * ov)) * (p' - p))
    ensures Zero((1 - ov) * (AsBit(left) * x))
  {
    if left && spilled {
      Rewrite(0, ov - 1, p - p');
      Rewrite(0, ov - 1, -x);
      assert (ov - 1) * (p - p') == (1 - ov) * (p' - p) && (ov - 1) * -x == (1 - ov) * x;
    }
    if spilled && !left {
      assert (1 - ov) * (AsBit(left) * x) == 0;
    }
  }

  lemma DepthStepHolds(v: Cells, w: Cells, fst: int)
    requires Flagged(v) && Inverted(v.stack) && Counts(v, w)
    requires fst == 0 || (fst == 1 && v.stack.depth == 16)
    ensures DepthConstraints(MakeRow(v), MakeRow(w), 1, fst, 0)
  {
    RowCells(v);
    RowCells(w);
    RowFlags(v);
    DepthHolds(v.stack.depth, w.stack.depth, (v.stack.depth - 16) * v.stack.inv, Entering(v), Leaving(v), Popping(v), v.c.Pad?);
  }

  lemma PointerStepHolds(v: Cells, w: Cells, fst: int)
    requires Flagged(v) && Inverted(v.stack) && Counts(v, w)
    requires fst == 0 || (fst == 1 && v.stack.pointer == 0)
    ensures PointerConstraints(MakeRow(v), MakeRow(w), 1, fst, 0)
  {
    RowCells(v);
    RowCells(w);
    RowStack(w);
    RowFlags(v);
    PointerHolds(v.stack.pointer, w.stack.pointer, v.sys.clk, w.stack.cells[15], v.stack.depth != 16,
                 (v.stack.depth - 16) * v.stack.inv, Entering(v), Leaving(v), Popping(v), v.c.Pad?);
  }

  lemma StepHolds(v: Cells, w: Cells, fst: int)
    requires Flagged(v) && Inverted(v.stack) && Counts(v, w)
    requires fst == 0 || (fst == 1 && v.sys.clk == 0 && v.stack.depth == 16 && v.stack.pointer == 0)
    ensures var (m0, m1) := (MakeRow(v), MakeRow(w));
            && ClockConstraints(m0, m1, 1, fst) && DepthConstraints(m0, m1, 1, fst, 0) && PointerConstraints(m0, m1, 1, fst, 0)
  {
    RowCells(v);
    RowCells(w);
    DepthStepHolds(v, w, fst);
    PointerStepHolds(v, w, fst);
  }

  lemma LastHolds(v: Cells, w: Cells)
    requires (v.c.Noop? || v.c.Halt?) && v.stack.depth == 16 && v.stack.pointer == 0
    ensures var (m0, m1) := (MakeRow(v), MakeRow(w));
            && ClockConstraints(m0, m1, 0, 0) && DepthConstraints(m0, m1, 0, 0, 1) && PointerConstraints(m0, m1, 0, 0, 1)
  {
    RowCells(v);
    RowFlags(v);
  }

  // Visible cells
  // ----------------------------------------------------------------------------

  /** Where a row takes the cells of the next row from. */
  ghost predicate Moves(v: Cells, w: Cells) {
    var x, y := v.stack.cells, w.stack.cells;
    if v.c.Pad? then forall j: nat | 1 <= j < 16 :: y[j] == x[j - 1]
    else if Popping(v) || v.c.Dyncall? then forall j: nat | j < 15 :: y[j] == x[j + 1]
    else forall j: nat | AsBit(v.c.Incr?) <= j < 16 :: y[j] == x[j]
  }

  lemma RowArity(v: Cells)
    requires Flagged(v)
    ensures var r := MakeRow(v);
            && (v.c.Pad? ==> PushArity(r) == 0) && (Popping(v) ==> PopArity(r) == 0)
            && (!v.c.Pad? && !Popping(v) && !v.c.Dyncall? ==> Level(r) && KeepArity(r) == AsBit(v.c.Incr?))
  {
    RowOps(v);
    RowClass(v);
  }

  /** The converse of reading a route: equal cells satisfy it. */
  lemma RouteHolds(m0: Row, m1: Row, j: nat)
    requires j < 16
    ensures Stack(m1, j) == Stack(m0, j) ==> Routes(m0, m1, j, 1, 0, 0)
    ensures j < 15 && Stack(m1, j) == Stack(m0, j + 1) ==> Routes(m0, m1, j, 0, 1, 0)
    ensures j > 0 && Stack(m1, j) == Stack(m0, j - 1) ==> Routes(m0, m1, j, 0, 0, 1)
    ensures Routes(m0, m1, j, 0, 0, 0)
  {
  }

  lemma PushRoutes(v: Cells, w: Cells, j: nat)
    requires v.c.Pad? && Moves(v, w) && j < 16
    ensures RoutedAt(MakeRow(v), MakeRow(w), j)
  {
    var m0, m1 := MakeRow(v), MakeRow(w);
    RowBits(v);
    RowClass(v);
    RowArity(v);
    RowStack(v);
    RowStack(w);
    PushSelectors(m0, j);
    RouteHolds(m0, m1, j);
  }

  lemma PopRoutes(v: Cells, w: Cells, j: nat)
    requires (Popping(v) || v.c.Dyncall?) && Moves(v, w) && j < 16
    ensures RoutedAt(MakeRow(v), MakeRow(w), j)
  {
    var m0, m1 := MakeRow(v), MakeRow(w);
    RowBits(v);
    RowClass(v);
    RowArity(v);
    RowStack(v);
    RowStack(w);
    if v.c.Dyncall? {
      DyncallSelectors(m0, j);
    } else if j < 15 {
      PopSelectors(m0, j);
    } else {
      PopBottom(m0);
    }
    RouteHolds(m0, m1, j);
  }

  lemma KeepRoutes(v: Cells, w: Cells, j: nat)
    requires !v.c.Pad? && !Popping(v) && !v.c.Dyncall? && Flagged(v) && Moves(v, w) && j < 16
    ensures RoutedAt(MakeRow(v), MakeRow(w), j)
  {
    var m0, m1 := MakeRow(v), MakeRow(w);
    RowBits(v);
    RowClass(v);
    RowArity(v);
    RowStack(v);
    RowStack(w);
    RouteHolds(m0, m1, j);
    if KeepArity(m0) <= j {
      KeepSelectors(m0, j);
    } else {
      IncrTop(v);
    }
  }

  lemma IncrTop(v: Cells)
    requires v.c.Incr?
    ensures var r := MakeRow(v); Keep(r, 0) == 0 && Left(r, 0) == 0 && Right(r, 0) == 0
  {
    var r := MakeRow(v);
    RowBits(v);
    RowClass(v);
    RowOps(v);
    KeptCells(r, 0);
    LeftCells(r, 0);
    RightCells(r, 0);
  }

  lemma RoutesHold(v: Cells, w: Cells)
    requires Flagged(v) && Moves(v, w)
    ensures Routed(MakeRow(v), MakeRow(w))
  {
    forall j: nat | j < 16
      ensures RoutedAt(MakeRow(v), MakeRow(w), j)
    {
      if v.c.Pad? {
        PushRoutes(v, w, j);
      } else if Popping(v) || v.c.Dyncall? {
        PopRoutes(v, w, j);
      } else {
        KeepRoutes(v, w, j);
      }
    }
  }

  // Whole runs
  // ----------------------------------------------------------------------------

  ghost predicate Proper(v: Cells) { Flagged(v) && Inverted(v.stack) }

  ghost predicate Step(v: Cells, w: Cells) { Counts(v, w) && Moves(v, w) }

  ghost predicate StepAt(vs: seq<Cells>, i: nat)
    requires i + 1 < |vs|
  {
    Step(vs[i], vs[i + 1])
  }

  /** A run that does what its operations say, from an empty chain to an empty chain. */
  ghost predicate Lawful(vs: seq<Cells>) {
    && 0 < |vs| <= P - 16
    && vs[0].sys.clk == 0 && vs[0].stack.depth == 16 && vs[0].stack.pointer == 0
    && (var v := vs[|vs| - 1]; (v.c.Noop? || v.c.Halt?) && v.stack.depth == 16 && v.stack.pointer == 0)
    && (forall i: nat | i < |vs| :: Proper(vs[i]))
    && (forall i: nat | i + 1 < |vs| :: StepAt(vs, i))
  }

  lemma RowHolds(vs: seq<Cells>, i: nat)
    requires Lawful(vs) && |vs| > 1 && i < |vs|
    ensures OverflowAt(Rows(vs), i)
  {
    var t := Rows(vs);
    assert Proper(vs[i]);
    RowBits(vs[i]);
    if i + 1 < |vs| {
      assert StepAt(vs, i);
      StepHolds(vs[i], vs[i + 1], Fst(i));
    } else {
      LastHolds(vs[i], vs[0]);
    }
  }

  /** It meets every constraint on clock, depth, pointer and visible cells. */
  lemma LawfulHolds(vs: seq<Cells>)
    requires Lawful(vs) && |vs| > 1
    ensures forall i: nat | i < |vs| :: OverflowAt(Rows(vs), i)
    ensures forall i: nat | i + 1 < |vs| :: RoutedRow(Rows(vs), i)
  {
    var t := Rows(vs);
    forall i: nat | i < |vs|
      ensures OverflowAt(t, i)
    {
      RowHolds(vs, i);
    }
    forall i: nat | i + 1 < |vs|
      ensures RoutedRow(t, i)
    {
      assert StepAt(vs, i) && Proper(vs[i]);
      RoutesHold(vs[i], vs[i + 1]);
    }
  }
}
