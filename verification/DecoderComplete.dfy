/** Completeness of op group decoding: every basic block of batches, written out as its rows, satisfies
    the decoder's constraints and balances the op group table. */
module DecoderComplete {
  import opened Goldilocks
  import opened CoreTrace
  import opened OpGroups

  // Rows given by their cells
  // ----------------------------------------------------------------------------

  type Opcode7 = c: nat | c < 128
  type Eight = s: seq<Felt> | |s| == 8 witness [0, 0, 0, 0, 0, 0, 0, 0]
  type Three = s: seq<Felt> | |s| == 3 witness [0, 0, 0]

  datatype Cells = Cells(code: Opcode7, addr: Felt, hasher: Eight, inSpan: Felt, count: Felt, index: Felt, batch: Three, top: Felt)

  function Bits(c: Opcode7): (b: seq<Felt>)
    ensures |b| == 7 && forall k: nat | k < 7 :: Bit(b[k])
  {
    [c % 2, c / 2 % 2, c / 4 % 2, c / 8 % 2, c / 16 % 2, c / 32 % 2, c / 64]
  }

  function Cell(v: Cells, k: nat): Felt {
    if k == 6 then v.addr
    else if 7 <= k < 14 then Bits(v.code)[k - 7]
    else if 14 <= k < 22 then v.hasher[k - 14]
    else if k == 22 then v.inSpan
    else if k == 23 then v.count
    else if k == 24 then v.index
    else if 25 <= k < 28 then v.batch[k - 25]
    else if k == 28 then AsBit(80 <= v.code < 96)
    else if k == 29 then AsBit(v.code >= 96)
    else if k == 30 then v.top
    else 0
  }

  function MakeRow(v: Cells): (r: Row)
    ensures forall k: nat | k < 51 :: r[k] == Cell(v, k)
  {
    seq(51, k requires 0 <= k < 51 => Cell(v, k))
  }

  /** Opcode numbers of the control operations. */
  predicate IsControl(c: int) { 84 <= c <= 88 || c == 92 || c >= 104 }

  /** Opcode numbers that an operation inside a basic block may have. */
  predicate IsUser(c: int) {
    0 <= c < 128 && !IsControl(c) && (64 <= c < 80 ==> c % 2 == 0) && (c >= 96 ==> c % 4 == 0)
  }

  /** What is read off a row. */
  ghost predicate Reads(r: Row, v: Cells) {
    && OpBits(r) && Opcode(r) == v.code
    && SpanFlag(r) == AsBit(v.code == 86) && PushFlag(r) == AsBit(v.code == 91) && RespanFlag(r) == AsBit(120 <= v.code < 124)
    && EndFlag(r) == AsBit(112 <= v.code < 116) && HaltFlag(r) == AsBit(v.code >= 124) && ControlFlag(r) == AsBit(IsControl(v.code))
    && Addr(r) == v.addr && InSpan(r) == v.inSpan && GroupCount(r) == v.count && OpIndex(r) == v.index
    && Remaining(r) == v.hasher[0] && Stack(r, 0) == v.top
  }

  lemma RowOps(v: Cells)
    ensures var r, b := MakeRow(v), Bits(v.code);
            && OpBit(r, 0) == b[0] && OpBit(r, 1) == b[1] && OpBit(r, 2) == b[2] && OpBit(r, 3) == b[3]
            && OpBit(r, 4) == b[4] && OpBit(r, 5) == b[5] && OpBit(r, 6) == b[6]
            && Extra0(r) == AsBit(80 <= v.code < 96) && Extra1(r) == AsBit(v.code >= 96)
  {
  }

  lemma HighBits(c: Opcode7)
    ensures (Bits(c)[6] == 1 && Bits(c)[5] == 0 && Bits(c)[4] == 1) <==> 80 <= c < 96
    ensures (Bits(c)[6] == 1 && Bits(c)[5] == 1) <==> c >= 96
  {
  }

  lemma RowBits(v: Cells)
    ensures OpBits(MakeRow(v)) && OpBitConstraints(MakeRow(v))
  {
    var r := MakeRow(v);
    RowOps(v);
    HighBits(v.code);
    forall k: nat | k < 7
      ensures BitAt(r, k) && Zero(OpBit(r, k) * (OpBit(r, k) - 1))
    {
      assert OpBit(r, k) == Bits(v.code)[k];
    }
    ExtraProducts(OpBit(r, 6), OpBit(r, 5), OpBit(r, 4));
  }

  lemma ExtraProducts(a: int, b: int, c: int)
    requires Bit(a) && Bit(b) && Bit(c)
    ensures a * (1 - b) * c == AsBit(a == 1 && b == 0 && c == 1) && a * b == AsBit(a == 1 && b == 1)
  {
  }

  /** The flags, by opcode number. */
  lemma FlagNumbers(r: Row)
    requires OpBits(r)
    ensures var c := Opcode(r);
            && (IsSpan(r) <==> c == 86) && (IsPush(r) <==> c == 91) && (IsRespan(r) <==> 120 <= c < 124)
            && (IsEnd(r) <==> 112 <= c < 116) && (IsHalt(r) <==> c >= 124)
  {
    assert BitAt(r, 0) && BitAt(r, 1) && BitAt(r, 2) && BitAt(r, 3) && BitAt(r, 4) && BitAt(r, 5) && BitAt(r, 6);
  }

  lemma HaltIs(r: Row)
    requires OpBits(r)
    ensures HaltFlag(r) == AsBit(IsHalt(r))
  {
    assert BitAt(r, 4) && BitAt(r, 3) && BitAt(r, 2);
  }

  lemma ControlNumbers(r: Row)
    requires OpBits(r)
    ensures ControlFlag(r) == AsBit(IsControl(Opcode(r)))
  {
    assert BitAt(r, 0) && BitAt(r, 1) && BitAt(r, 2) && BitAt(r, 3) && BitAt(r, 4) && BitAt(r, 5) && BitAt(r, 6);
  }

  lemma OpcodeIs(v: Cells)
    ensures Opcode(MakeRow(v)) == v.code
  {
    RowOps(v);
    HornerBits(v.code);
  }

  lemma HornerBits(c: Opcode7)
    ensures var b := Bits(c); 2 * (2 * (2 * (2 * (2 * (2 * b[6] + b[5]) + b[4]) + b[3]) + b[2]) + b[1]) + b[0] == c
  {
    Halve(c, 1);
    Halve(c, 2);
    Halve(c, 4);
    Halve(c, 8);
    Halve(c, 16);
    Halve(c, 32);
  }

  lemma Halve(c: nat, m: nat)
    requires m == 1 || m == 2 || m == 4 || m == 8 || m == 16 || m == 32
    ensures c / m == 2 * (c / (2 * m)) + c / m % 2
  {
  }

  lemma RowReads(v: Cells)
    ensures Reads(MakeRow(v), v)
  {
    var r := MakeRow(v);
    RowBits(v);
    OpcodeIs(v);
    FlagNumbers(r);
    SpanMeaning(r);
    EndMeaning(r);
    HaltIs(r);
    ControlNumbers(r);
  }

  lemma RowHasher(v: Cells)
    ensures forall k: nat | k < 8 :: HasherState(MakeRow(v), k) == v.hasher[k]
    ensures forall k: nat | k < 3 :: BatchBit(MakeRow(v), k) == v.batch[k]
  {
  }

  lemma OpcodeFormat(v: Cells)
    requires IsUser(v.code) || v.code == 86 || v.code == 112 || v.code == 120 || v.code == 124
    ensures var r := MakeRow(v);
            && (OpBit(r, 6) - Extra1(r) - Extra0(r)) * OpBit(r, 0) == 0 && Extra1(r) * OpBit(r, 0) == 0 && Extra1(r) * OpBit(r, 1) == 0
  {
    RowOps(v);
  }

  // Steps of a block
  // ----------------------------------------------------------------------------

  /** Batch flags for a number of groups. */
  function Flags(size: nat): Three {
    if size == 8 then [1, 0, 0] else if size == 4 then [0, 1, 0] else if size == 2 then [0, 0, 1] else [0, 1, 1]
  }

  predicate IsSize(size: nat) { size == 1 || size == 2 || size == 4 || size == 8 }

  lemma FlagsAre(r: Row, size: nat)
    requires IsSize(size) && forall k: nat | k < 3 :: BatchBit(r, k) == Flags(size)[k]
    ensures Bit(BatchBit(r, 0)) && Bit(BatchBit(r, 1)) && Bit(BatchBit(r, 2)) && BatchSize(r) == size
    ensures BatchBit(r, 0) == 1 || BatchBit(r, 1) == 1 || BatchBit(r, 2) == 1
  {
    assert BatchBit(r, 0) == Flags(size)[0] && BatchBit(r, 1) == Flags(size)[1] && BatchBit(r, 2) == Flags(size)[2];
  }

  lemma GroupFlags(c0: int, c1: int, c2: int)
    requires Bit(c0) && Bit(c1) && Bit(c2)
    ensures (1 - c0) * c1 * c2 == AsBit(c0 == 0 && c1 == 1 && c2 == 1) && (1 - c0) * (1 - c1) * c2 == AsBit(c0 == 0 && c1 == 0 && c2 == 1)
    ensures (1 - c0) * c1 * (1 - c2) == AsBit(c0 == 0 && c1 == 1 && c2 == 0)
  {
  }

  /** Batch flags are bits; a row that opens a batch has one set and zeros beyond the groups they announce, another row
      has none set. */
  ghost predicate BatchLaw(r: Row) {
    && Bit(BatchBit(r, 0)) && Bit(BatchBit(r, 1)) && Bit(BatchBit(r, 2))
    && (OpensBatch(r) <==> BatchBit(r, 0) == 1 || BatchBit(r, 1) == 1 || BatchBit(r, 2) == 1)
    && (OpensBatch(r) ==> forall k: nat | BatchSize(r) <= k < 8 :: HasherState(r, k) == 0)
  }

  lemma Boolean(x: Felt)
    ensures Zero(x * (x - 1)) <==> Bit(x)
  {
    if Zero(x * (x - 1)) {
      ZeroIsBit(x);
    }
  }

  lemma BatchBitsIff(r: Row)
    ensures (forall k: nat | k < 3 :: Zero(BatchBit(r, k) * (BatchBit(r, k) - 1)))
       <==> Bit(BatchBit(r, 0)) && Bit(BatchBit(r, 1)) && Bit(BatchBit(r, 2))
  {
    Boolean(BatchBit(r, 0));
    Boolean(BatchBit(r, 1));
    Boolean(BatchBit(r, 2));
  }

  /** The two constraints that tie the batch flags to the operation. */
  lemma FlagSum(open: int, c0: int, c1: int, c2: int, g1: int, g2: int, g4: int)
    requires Bit(open) && Bit(c0) && Bit(c1) && Bit(c2)
    requires g1 == AsBit(c0 == 0 && c1 == 1 && c2 == 1) && g2 == AsBit(c0 == 0 && c1 == 0 && c2 == 1) && g4 == AsBit(c0 == 0 && c1 == 1 && c2 == 0)
    ensures Zero(open - (g1 + g2 + g4 + c0)) && Zero((1 - open) * (c0 + c1 + c2)) <==> (open == 1 <==> c0 == 1 || c1 == 1 || c2 == 1)
  {
    BitSum(open - (g1 + g2 + g4 + c0));
    BitSum((1 - open) * (c0 + c1 + c2));
  }

  lemma BitSum(e: int)
    requires -8 < e < 8
    ensures Zero(e) <==> e == 0
  {
    if Zero(e) {
      ZeroIsSmall(e);
    }
  }

  lemma EmptyIff(g: int, h: Felt)
    requires Bit(g)
    ensures Zero(g * h) <==> (g == 1 ==> h == 0)
  {
    if g == 1 && Zero(h) {
      ZeroIsSmall(h);
    }
  }

  /** The constraints on the batch flags say just that. */
  lemma BatchIff(r: Row)
    requires OpBits(r)
    ensures BatchConstraints(r) <==> BatchLaw(r)
  {
    BatchBitsIff(r);
    var c0, c1, c2 := BatchBit(r, 0), BatchBit(r, 1), BatchBit(r, 2);
    if Bit(c0) && Bit(c1) && Bit(c2) {
      SpanMeaning(r);
      EndMeaning(r);
      GroupFlags(c0, c1, c2);
      FlagSum(SpanFlag(r) + RespanFlag(r), c0, c1, c2, OneGroup(r), TwoGroups(r), FourGroups(r));
      forall k: nat | 1 <= k < 8
        ensures Zero((OneGroup(r) + TwoGroups(r) + FourGroups(r)) * HasherState(r, k)) <==> (c0 == 0 && (c1 == 1 || c2 == 1) ==> HasherState(r, k) == 0)
        ensures Zero((OneGroup(r) + TwoGroups(r)) * HasherState(r, k)) <==> (c0 == 0 && c2 == 1 ==> HasherState(r, k) == 0)
        ensures Zero(OneGroup(r) * HasherState(r, k)) <==> (c0 == 0 && c1 == 1 && c2 == 1 ==> HasherState(r, k) == 0)
      {
        EmptyIff(OneGroup(r) + TwoGroups(r) + FourGroups(r), HasherState(r, k));
        EmptyIff(OneGroup(r) + TwoGroups(r), HasherState(r, k));
        EmptyIff(OneGroup(r), HasherState(r, k));
      }
    }
  }

  ghost predicate StepHolds(m0: Row, m1: Row, tr: int, fst: int) {
    && InSpanConstraints(m0, m1, fst) && CountConstraints(m0, m1, tr) && GroupConstraints(m0, m1, tr) && IndexConstraints(m0, m1, tr)
  }

  lemma {:induction false} FallingVanishes(x: nat, n: nat)
    requires x < n
    ensures Falling(x, n) == 0
  {
    if x < n - 1 {
      FallingVanishes(x, n - 1);
    }
  }

  /** SPAN or RESPAN, then the first operation of the batch. */
  lemma OpenStep(m0: Row, m1: Row, v: Cells, w: Cells, fst: int)
    requires Reads(m0, v) && Reads(m1, w) && (v.code == 86 || v.code == 120) && IsUser(w.code)
    requires v.inSpan == 0 && w.inSpan == 1 && v.count == w.count + 1 && v.hasher[0] == 128 * w.hasher[0] + w.code && v.index == 0 && w.index == 0
    ensures StepHolds(m0, m1, 1, fst)
  {
    FallingVanishes(0, 9);
  }

  /** Two operations of one group; a PUSH lowers the group count. */
  lemma SameGroupStep(m0: Row, m1: Row, v: Cells, w: Cells)
    requires Reads(m0, v) && Reads(m1, w) && IsUser(v.code) && IsUser(w.code)
    requires v.inSpan == 1 && w.inSpan == 1 && v.addr == w.addr && v.count == w.count + AsBit(v.code == 91)
    requires v.hasher[0] == 128 * w.hasher[0] + w.code && w.index == v.index + 1 && v.index <= 8
    ensures StepHolds(m0, m1, 1, 0)
  {
    FallingVanishes(v.index, 9);
  }

  /** The last operation of a group and the first of the next. */
  lemma NewGroupStep(m0: Row, m1: Row, v: Cells, w: Cells)
    requires Reads(m0, v) && Reads(m1, w) && IsUser(v.code) && v.code != 91 && IsUser(w.code)
    requires v.inSpan == 1 && w.inSpan == 1 && v.addr == w.addr && v.count == w.count + 1
    requires v.hasher[0] == 0 && w.index == 0 && v.index <= 8
    ensures StepHolds(m0, m1, 1, 0)
  {
    FallingVanishes(v.index, 9);
  }

  /** The last operation of a batch, then RESPAN or END. */
  lemma CloseStep(m0: Row, m1: Row, v: Cells, w: Cells)
    requires Reads(m0, v) && Reads(m1, w) && IsUser(v.code) && v.code != 91 && (w.code == 112 || w.code == 120)
    requires v.inSpan == 1 && w.inSpan == 0 && v.addr == w.addr && v.count == w.count
    requires v.hasher[0] == 0 && w.index == 0 && v.index <= 8
    ensures StepHolds(m0, m1, 1, 0)
  {
    FallingVanishes(v.index, 9);
  }

  /** END, then HALT; and HALT on the last row. */
  lemma EndStep(m0: Row, m1: Row, v: Cells, w: Cells, tr: int)
    requires Reads(m0, v) && Reads(m1, w) && (v.code == 112 || v.code == 124) && (tr == 0 || w.code == 124)
    requires v.inSpan == 0 && v.count == 0 && v.index == 0
    ensures StepHolds(m0, m1, tr, 0)
  {
    FallingVanishes(0, 9);
  }

  // Plans: the rows of a block with what they have used up
  // ----------------------------------------------------------------------------

  function Code(op: Instr): int { match op case Op(code) => code case Push(_) => 91 }

  predicate ValidInstr(op: Instr) {
    match op case Op(code) => IsUser(code) && code != 91 case Push(value) => 0 <= value < P
  }

  /** A row inside a block: its instruction, what is left of its group, its place there, the slots of the
      batch used up before it, and the cell on top of the stack. */
  datatype Line = Line(op: Instr, rest: nat, index: nat, used: nat, top: int)

  datatype Item = Open(b: nat) | Exec(b: nat, line: Line) | Close | Stop

  /** Batches, each of eight slots of which the first few are in use. */
  datatype Plan = Plan(slots: seq<Eight>, sizes: seq<nat>) {
    ghost predicate Valid() {
      && |slots| == |sizes| && (forall b: nat | b < |sizes| :: IsSize(sizes[b]) && Unused(b))
      && CountFrom(0) < P && 2 * |sizes| < P
    }

    ghost predicate Unused(b: nat)
      requires b < |sizes| && b < |slots|
    {
      forall k: nat | sizes[b] <= k < 8 :: slots[b][k] == 0
    }

    /** Groups of batches b on. */
    function CountFrom(b: nat): nat
      decreases |sizes| - b
    {
      if b >= |sizes| then 0 else sizes[b] + CountFrom(b + 1)
    }
  }

  ghost predicate LineOk(l: Line, size: nat) {
    && ValidInstr(l.op) && l.rest < P && l.index <= 8 && 1 <= l.used <= size && 0 <= l.top < P
  }

  ghost predicate ItemOk(p: Plan, x: Item)
    requires p.Valid()
  {
    match x
    case Open(b) => b < |p.sizes|
    case Exec(b, l) => b < |p.sizes| && LineOk(l, p.sizes[b])
    case _ => true
  }

  ghost predicate Starts(g: Eight, l: Line) { l.index == 0 && l.used == 1 && g[0] == 128 * l.rest + Code(l.op) }

  /** Two rows of a batch with slots g: the second goes on with the group of the first, or starts the next. */
  ghost predicate Follows(g: Eight, l: Line, m: Line) {
    || (m.index == l.index + 1 && l.rest == 128 * m.rest + Code(m.op)
        && if l.op.Push? then l.used < 8 && g[l.used] == l.op.value == m.top && m.used == l.used + 1 else m.used == l.used)
    || (!l.op.Push? && l.rest == 0 && m.index == 0 && m.used == l.used + 1 && l.used < 8 && g[l.used] == 128 * m.rest + Code(m.op))
  }

  ghost predicate Ends(l: Line, size: nat) { l.rest == 0 && !l.op.Push? && l.used == size }

  ghost predicate Pair(p: Plan, x: Item, y: Item)
    requires p.Valid() && ItemOk(p, x) && ItemOk(p, y)
  {
    match x
    case Open(b) => y.Exec? && y.b == b && Starts(p.slots[b], y.line)
    case Exec(b, l) =>
      if y.Exec? then y.b == b && Follows(p.slots[b], l, y.line)
      else Ends(l, p.sizes[b]) && if y.Open? then y.b == b + 1 else y.Close? && b + 1 == |p.sizes|
    case Close => y.Stop?
    case Stop => false
  }

  ghost predicate PairAt(p: Plan, s: seq<Item>, i: nat)
    requires p.Valid() && i + 1 < |s|
  {
    ItemOk(p, s[i]) && ItemOk(p, s[i + 1]) && Pair(p, s[i], s[i + 1])
  }

  ghost predicate IsBlock(p: Plan, s: seq<Item>) {
    && p.Valid() && 1 < |s| < P && s[0] == Open(0) && s[|s| - 1] == Stop
    && (forall i: nat | i + 1 < |s| :: PairAt(p, s, i))
  }

  function Remains(rest: nat): Eight
    requires rest < P
  {
    [rest, 0, 0, 0, 0, 0, 0, 0]
  }

  lemma {:induction false} CountFalls(p: Plan, b: nat)
    ensures p.CountFrom(b) <= p.CountFrom(0)
    decreases b
  {
    if b > 0 {
      CountFalls(p, b - 1);
    }
  }

  /** The cells of an item's row. */
  function CellsOf(p: Plan, x: Item): Cells
    requires p.Valid() && ItemOk(p, x)
  {
    CountFalls(p, if x.Open? || x.Exec? then x.b else 0);
    match x
    case Open(b) => Cells(if b == 0 then 86 else 120, 2 * b, p.slots[b], 0, p.CountFrom(b), 0, Flags(p.sizes[b]), 0)
    case Exec(b, l) => Cells(Code(l.op), 2 * (b + 1), Remains(l.rest), 1, p.CountFrom(b) - l.used, l.index, [0, 0, 0], l.top)
    case Close => Cells(112, 2 * |p.sizes|, [0, 0, 0, 0, 0, 0, 0, 0], 0, 0, 0, [0, 0, 0], 0)
    case Stop => Cells(124, 0, [0, 0, 0, 0, 0, 0, 0, 0], 0, 0, 0, [0, 0, 0], 0)
  }

  lemma ItemsOk(p: Plan, s: seq<Item>, i: nat)
    requires IsBlock(p, s) && i < |s|
    ensures ItemOk(p, s[i])
  {
    if i + 1 < |s| {
      assert PairAt(p, s, i);
    }
  }

  function CellsAt(p: Plan, s: seq<Item>, i: nat): Cells
    requires IsBlock(p, s) && i < |s|
  {
    ItemsOk(p, s, i);
    CellsOf(p, s[i])
  }

  function Trace(p: Plan, s: seq<Item>): (t: seq<Row>)
    requires IsBlock(p, s)
    ensures IsTrace(p, s, t)
  {
    seq(|s|, i requires 0 <= i < |s| => MakeRow(CellsAt(p, s, i)))
  }

  ghost predicate IsTrace(p: Plan, s: seq<Item>, t: seq<Row>)
    requires IsBlock(p, s)
  {
    |t| == |s| && forall i: nat | i < |s| :: t[i] == MakeRow(CellsAt(p, s, i))
  }

  // Constraints
  // ----------------------------------------------------------------------------

  lemma OpenPair(p: Plan, b: nat, l: Line, fst: int)
    requires p.Valid() && b < |p.sizes| && LineOk(l, p.sizes[b]) && Starts(p.slots[b], l)
    ensures StepHolds(MakeRow(CellsOf(p, Open(b))), MakeRow(CellsOf(p, Exec(b, l))), 1, fst)
  {
    var v, w := CellsOf(p, Open(b)), CellsOf(p, Exec(b, l));
    RowReads(v);
    RowReads(w);
    OpenStep(MakeRow(v), MakeRow(w), v, w, fst);
  }

  lemma InsidePair(p: Plan, b: nat, l: Line, m: Line)
    requires p.Valid() && b < |p.sizes| && LineOk(l, p.sizes[b]) && LineOk(m, p.sizes[b]) && Follows(p.slots[b], l, m)
    ensures StepHolds(MakeRow(CellsOf(p, Exec(b, l))), MakeRow(CellsOf(p, Exec(b, m))), 1, 0)
  {
    var v, w := CellsOf(p, Exec(b, l)), CellsOf(p, Exec(b, m));
    RowReads(v);
    RowReads(w);
    if m.index == l.index + 1 && l.rest == 128 * m.rest + Code(m.op) && m.used == l.used + AsBit(l.op.Push?) {
      SameGroupStep(MakeRow(v), MakeRow(w), v, w);
    } else {
      NewGroupStep(MakeRow(v), MakeRow(w), v, w);
    }
  }

  lemma ClosePair(p: Plan, b: nat, l: Line, y: Item)
    requires p.Valid() && b < |p.sizes| && LineOk(l, p.sizes[b]) && Ends(l, p.sizes[b])
    requires (y == Open(b + 1) && b + 1 < |p.sizes|) || (y == Close && b + 1 == |p.sizes|)
    ensures StepHolds(MakeRow(CellsOf(p, Exec(b, l))), MakeRow(CellsOf(p, y)), 1, 0)
  {
    var v, w := CellsOf(p, Exec(b, l)), CellsOf(p, y);
    RowReads(v);
    RowReads(w);
    assert w.count == p.CountFrom(b + 1);
    CloseStep(MakeRow(v), MakeRow(w), v, w);
  }

  lemma EndPair(p: Plan, x: Item, y: Item, tr: int)
    requires p.Valid() && ItemOk(p, y) && (x == Close || x == Stop) && (tr == 0 || y == Stop)
    ensures StepHolds(MakeRow(CellsOf(p, x)), MakeRow(CellsOf(p, y)), tr, 0)
  {
    var v, w := CellsOf(p, x), CellsOf(p, y);
    RowReads(v);
    RowReads(w);
    EndStep(MakeRow(v), MakeRow(w), v, w, tr);
  }

  lemma PairHolds(p: Plan, x: Item, y: Item, fst: int)
    requires p.Valid() && ItemOk(p, x) && ItemOk(p, y) && Pair(p, x, y) && (fst == 0 || x.Open?)
    ensures StepHolds(MakeRow(CellsOf(p, x)), MakeRow(CellsOf(p, y)), 1, fst)
  {
    match x
    case Open(b) => OpenPair(p, b, y.line, fst);
    case Exec(b, l) =>
      if y.Exec? {
        InsidePair(p, b, l, y.line);
      } else {
        ClosePair(p, b, l, y);
      }
    case Close => EndPair(p, x, y, 1);
  }

  lemma BatchHolds(p: Plan, x: Item)
    requires p.Valid() && ItemOk(p, x)
    ensures BatchConstraints(MakeRow(CellsOf(p, x)))
    ensures x.Open? ==> BatchSize(MakeRow(CellsOf(p, x))) == p.sizes[x.b]
  {
    var v, r := CellsOf(p, x), MakeRow(CellsOf(p, x));
    RowReads(v);
    RowHasher(v);
    FlagNumbers(r);
    if x.Open? {
      assert p.Unused(x.b);
      FlagsAre(r, p.sizes[x.b]);
    } else {
      assert BatchBit(r, 0) == 0 && BatchBit(r, 1) == 0 && BatchBit(r, 2) == 0;
    }
    BatchIff(r);
  }

  lemma RowIs(p: Plan, s: seq<Item>, t: seq<Row>, i: nat)
    requires IsBlock(p, s) && IsTrace(p, s, t) && i < |s|
    ensures ItemOk(p, s[i]) && t[i] == MakeRow(CellsOf(p, s[i]))
  {
    ItemsOk(p, s, i);
  }

  lemma Gather(t: seq<Row>, i: nat, m0: Row, m1: Row)
    requires i < |t| && t[i] == m0 && Next(t, i) == m1
    requires OpBitConstraints(m0) && BatchConstraints(m0) && StepHolds(m0, m1, Tr(t, i), Fst(i))
    ensures OpGroupsAt(t, i)
  {
  }

  lemma RowHolds(p: Plan, s: seq<Item>, t: seq<Row>, i: nat)
    requires IsBlock(p, s) && IsTrace(p, s, t) && i < |s|
    ensures OpGroupsAt(t, i)
  {
    RowIs(p, s, t, i);
    var j := if i + 1 < |s| then i + 1 else 0;
    RowIs(p, s, t, j);
    RowBits(CellsOf(p, s[i]));
    BatchHolds(p, s[i]);
    if i + 1 < |s| {
      assert PairAt(p, s, i);
      PairHolds(p, s[i], s[j], Fst(i));
    } else {
      EndPair(p, Stop, s[j], 0);
    }
    Gather(t, i, MakeRow(CellsOf(p, s[i])), MakeRow(CellsOf(p, s[j])));
  }

  lemma FrameCells(tr: int, lst: int, respan: int, halt: int, halt': int, addr: int, addr': int)
    requires respan == 0 || addr' == addr + 2
    requires if halt == 0 then lst == 0 else halt == 1 && addr == 0 && tr == 0
    ensures Zero(respan * (addr' - (addr + 2))) && Zero(halt * addr) && Zero(tr * (halt * (halt' - 1))) && Zero(lst * (halt - 1))
  {
  }

  ghost predicate Formatted(r: Row) {
    (OpBit(r, 6) - Extra1(r) - Extra0(r)) * OpBit(r, 0) == 0 && Extra1(r) * OpBit(r, 0) == 0 && Extra1(r) * OpBit(r, 1) == 0
  }

  lemma FrameFrom(t: seq<Row>, i: nat, m0: Row, m1: Row, v: Cells, w: Cells)
    requires i < |t| && t[i] == m0 && Next(t, i) == m1 && Reads(m0, v) && Reads(m1, w) && Formatted(m0)
    requires 120 <= v.code < 124 ==> w.addr == v.addr + 2
    requires v.code >= 124 ==> v.addr == 0
    requires i + 1 == |t| <==> v.code >= 124
    ensures FrameAt(t, i)
  {
    FrameCells(Tr(t, i), Lst(t, i), RespanFlag(m0), HaltFlag(m0), HaltFlag(m1), Addr(m0), Addr(m1));
  }

  lemma FrameOf(t: seq<Row>, i: nat, v: Cells, w: Cells)
    requires i < |t| && t[i] == MakeRow(v) && Next(t, i) == MakeRow(w)
    requires IsUser(v.code) || v.code == 86 || v.code == 112 || v.code == 120 || v.code == 124
    requires v.code == 120 ==> w.addr == v.addr + 2
    requires v.code == 124 ==> v.addr == 0
    requires i + 1 == |t| <==> v.code == 124
    ensures FrameAt(t, i)
  {
    OpcodeFormat(v);
    RowReads(v);
    RowReads(w);
    FrameFrom(t, i, MakeRow(v), MakeRow(w), v, w);
  }

  lemma FrameHolds(p: Plan, s: seq<Item>, t: seq<Row>, i: nat)
    requires IsBlock(p, s) && IsTrace(p, s, t) && i < |s|
    ensures FrameAt(t, i)
  {
    RowIs(p, s, t, i);
    var j := if i + 1 < |s| then i + 1 else 0;
    RowIs(p, s, t, j);
    if i + 1 < |s| {
      assert PairAt(p, s, i);
    }
    FrameOf(t, i, CellsOf(p, s[i]), CellsOf(p, s[j]));
  }

  // The op group table
  // ----------------------------------------------------------------------------

  /** What is read off the row of an item. */
  ghost predicate ReadsItem(p: Plan, x: Item, r: Row)
    requires p.Valid() && ItemOk(p, x)
  {
    && (OpensBatch(r) <==> x.Open?) && (ClosesBatch(r) <==> x.Close? || (x.Open? && x.b > 0)) && InSpan(r) == AsBit(x.Exec?)
    && match x
       case Open(b) =>
         && Addr(r) == 2 * b && GroupCount(r) == p.CountFrom(b) && BatchSize(r) == p.sizes[b]
         && (forall k: nat | k < 8 :: HasherState(r, k) == p.slots[b][k])
       case Exec(b, l) =>
         && Addr(r) == 2 * (b + 1) && GroupCount(r) == p.CountFrom(b) - l.used && Remaining(r) == l.rest
         && Opcode(r) == Code(l.op) && PushFlag(r) == AsBit(l.op.Push?) && Stack(r, 0) == l.top
       case _ => GroupCount(r) == 0
  }

  lemma CellsReadItem(p: Plan, x: Item)
    requires p.Valid() && ItemOk(p, x)
    ensures ReadsItem(p, x, MakeRow(CellsOf(p, x)))
  {
    var v := CellsOf(p, x);
    RowReads(v);
    FlagNumbers(MakeRow(v));
    if x.Open? {
      RowHasher(v);
      BatchHolds(p, x);
    }
  }

  ghost predicate ReadsAt(p: Plan, s: seq<Item>, t: seq<Row>, i: nat)
    requires p.Valid() && i < |s| && i < |t|
  {
    ItemOk(p, s[i]) && ReadsItem(p, s[i], t[i])
  }

  ghost predicate Shows(p: Plan, s: seq<Item>, t: seq<Row>)
    requires p.Valid()
  {
    |t| == |s| && forall i: nat | i < |s| :: ReadsAt(p, s, t, i)
  }

  lemma TraceShows(p: Plan, s: seq<Item>, t: seq<Row>)
    requires IsBlock(p, s) && IsTrace(p, s, t)
    ensures Shows(p, s, t)
  {
    forall i: nat | i < |s|
      ensures ReadsAt(p, s, t, i)
    {
      RowIs(p, s, t, i);
      CellsReadItem(p, s[i]);
    }
  }

  lemma ItemReads(p: Plan, s: seq<Item>, t: seq<Row>, i: nat)
    requires IsBlock(p, s) && Shows(p, s, t) && i < |s|
    ensures ItemOk(p, s[i]) && ReadsItem(p, s[i], t[i])
  {
    assert ReadsAt(p, s, t, i);
  }

  /** Rows of later items come no earlier in the block. */
  function Rank(p: Plan, x: Item): nat {
    match x case Open(b) => 2 * b case Exec(b, _) => 2 * b + 1 case Close => 2 * |p.sizes| case Stop => 2 * |p.sizes| + 1
  }

  lemma {:induction false} RankRises(p: Plan, s: seq<Item>, i: nat, j: nat)
    requires IsBlock(p, s) && i < j < |s|
    ensures Rank(p, s[i]) <= Rank(p, s[j]) && (!s[i].Exec? ==> Rank(p, s[i]) < Rank(p, s[j]))
    decreases j
  {
    assert PairAt(p, s, j - 1);
    if i < j - 1 {
      RankRises(p, s, i, j - 1);
    }
  }

  /** Within a batch slots are used up in order. */
  lemma {:induction false} UsedRises(p: Plan, s: seq<Item>, i: nat, j: nat)
    requires IsBlock(p, s) && i < j < |s| && s[i].Exec? && s[j].Exec? && s[i].b == s[j].b
    ensures s[i + 1].Exec? && s[i + 1].b == s[i].b && s[i].line.used <= s[i + 1].line.used <= s[j].line.used
    decreases j
  {
    assert PairAt(p, s, i) && PairAt(p, s, j - 1);
    if i + 1 < j {
      RankRises(p, s, i, j - 1);
      RankRises(p, s, j - 1, j);
      UsedRises(p, s, i, j - 1);
    }
  }

  /** The row that opened the batch of row i. */
  lemma {:induction false} OpenerOf(p: Plan, s: seq<Item>, i: nat) returns (o: nat)
    requires IsBlock(p, s) && i < |s| && s[i].Exec?
    ensures o < i && s[o] == Open(s[i].b)
    decreases i
  {
    assert PairAt(p, s, i - 1);
    if s[i - 1].Open? {
      o := i - 1;
    } else {
      o := OpenerOf(p, s, i - 1);
    }
  }

  /** Row m takes the next slot after row l. */
  predicate Advances(x: Item, y: Item) { x.Exec? && y.Exec? && y.line.used == x.line.used + 1 }

  lemma PairDelta(p: Plan, x: Item, y: Item, m0: Row, m1: Row)
    requires p.Valid() && ItemOk(p, x) && ItemOk(p, y) && Pair(p, x, y) && ReadsItem(p, x, m0) && ReadsItem(p, y, m1) && x.Exec?
    ensures Delta(m0, m1) == AsBit(Advances(x, y))
  {
    if !y.Exec? {
      assert GroupCount(m1) == p.CountFrom(x.b + 1);
      assert p.CountFrom(x.b) == p.sizes[x.b] + p.CountFrom(x.b + 1);
    }
  }

  lemma TakenOf(m0: Row, m1: Row, push: bool)
    requires PushFlag(m0) == AsBit(push)
    ensures Taken(m0, m1) == if push then Stack(m1, 0) else 128 * Remaining(m1) + Opcode(m1)
  {
  }

  lemma PairTaken(p: Plan, x: Item, y: Item, m0: Row, m1: Row)
    requires p.Valid() && ItemOk(p, x) && ItemOk(p, y) && Pair(p, x, y) && ReadsItem(p, x, m0) && ReadsItem(p, y, m1) && Advances(x, y)
    ensures y.b == x.b && 1 <= x.line.used < p.sizes[x.b] <= 8 && Taken(m0, m1) == p.slots[x.b][x.line.used]
  {
    TakenOf(m0, m1, x.line.op.Push?);
  }

  /** Row i takes a slot exactly if the group count drops, and it is the next slot of its batch. */
  lemma CountIs(p: Plan, s: seq<Item>, t: seq<Row>, i: nat)
    requires IsBlock(p, s) && Shows(p, s, t) && i + 1 < |s| && s[i].Exec?
    ensures !Zero(Delta(t[i], t[i + 1])) <==> Advances(s[i], s[i + 1])
  {
    ItemReads(p, s, t, i);
    ItemReads(p, s, t, i + 1);
    assert PairAt(p, s, i);
    PairDelta(p, s[i], s[i + 1], t[i], t[i + 1]);
    BitIsZero(Delta(t[i], t[i + 1]));
  }

  lemma BitIsZero(d: int)
    requires Bit(d)
    ensures Zero(d) <==> d == 0
  {
  }

  lemma TakenIs(p: Plan, s: seq<Item>, t: seq<Row>, i: nat)
    requires IsBlock(p, s) && Shows(p, s, t) && i + 1 < |s| && Advances(s[i], s[i + 1])
    ensures s[i + 1].b == s[i].b < |p.sizes| == |p.slots| && 1 <= s[i].line.used < p.sizes[s[i].b] <= 8
    ensures Taken(t[i], t[i + 1]) == p.slots[s[i].b][s[i].line.used]
  {
    ItemReads(p, s, t, i);
    ItemReads(p, s, t, i + 1);
    assert PairAt(p, s, i);
    PairTaken(p, s[i], s[i + 1], t[i], t[i + 1]);
  }

  /** What it takes was added by the row that opened its batch. */
  lemma AddedByOpener(p: Plan, s: seq<Item>, t: seq<Row>, i: nat, o: nat)
    requires IsBlock(p, s) && Shows(p, s, t) && i + 1 < |s| && o + 1 < |s| && Advances(s[i], s[i + 1]) && s[o] == Open(s[i].b)
    ensures AddedBy(t, i, o, s[i].line.used)
  {
    TakenIs(p, s, t, i);
    ItemReads(p, s, t, i);
    ItemReads(p, s, t, o);
    ItemReads(p, s, t, o + 1);
    assert PairAt(p, s, o);
    var k := s[i].line.used;
    assert HasherState(t[o], k) == p.slots[s[i].b][k];
  }

  lemma RowRemoves(p: Plan, s: seq<Item>, t: seq<Row>, i: nat)
    requires IsBlock(p, s) && Shows(p, s, t) && i < |s|
    ensures GroupBusAt(t, i)
  {
    if i + 1 < |s| {
      ItemReads(p, s, t, i);
      if s[i].Exec? {
        CountIs(p, s, t, i);
        if Advances(s[i], s[i + 1]) {
          var o := OpenerOf(p, s, i);
          AddedByOpener(p, s, t, i, o);
        }
      }
    }
  }

  /** Where slot k of the batch is taken, from row i on. */
  lemma {:induction false} FindTake(p: Plan, s: seq<Item>, b: nat, i: nat, k: nat) returns (j: nat)
    requires IsBlock(p, s) && i < |s| && s[i].Exec? && s[i].b == b < |p.sizes| && s[i].line.used <= k < p.sizes[b]
    ensures j + 1 < |s| && s[j].Exec? && s[j].b == b && s[j].line.used == k && Advances(s[j], s[j + 1])
    decreases |s| - i
  {
    assert PairAt(p, s, i);
    if s[i].line.used == k && Advances(s[i], s[i + 1]) {
      j := i;
    } else {
      j := FindTake(p, s, b, i + 1, k);
    }
  }

  lemma RowIsTaken(p: Plan, s: seq<Item>, t: seq<Row>, o: nat, k: nat)
    requires IsBlock(p, s) && Shows(p, s, t) && o + 1 < |s|
    ensures IsTaken(t, o, k)
  {
    ItemReads(p, s, t, o);
    if s[o].Open? && 1 <= k < BatchSize(t[o]) {
      assert PairAt(p, s, o);
      var j := FindTake(p, s, s[o].b, o + 1, k);
      AddedByOpener(p, s, t, j, o);
      CountIs(p, s, t, j);
      ItemReads(p, s, t, j);
      assert Takes(t, j, o, k);
    }
  }

  lemma SameCount(c: int, used: nat, k: nat)
    requires Zero(c - k - (c - used)) && used <= 8 && k <= 8
    ensures used == k
  {
    ZeroIsSmall(used - k);
  }

  lemma InBatchOf(p: Plan, x: Item, r: Row, o: Item, m0: Row, o': Item, m1: Row, k: nat)
    requires p.Valid() && ItemOk(p, x) && ItemOk(p, o) && ItemOk(p, o') && Pair(p, o, o')
    requires ReadsItem(p, x, r) && ReadsItem(p, o, m0) && ReadsItem(p, o', m1)
    requires InSpan(r) == 1 && OpensBatch(m0) && Addr(m1) == Addr(r) && k < 8 && Zero(GroupCount(m0) - k - GroupCount(r))
    ensures x.Exec? && o == Open(x.b) && x.line.used == k
  {
    assert x.Exec? && o == Open(x.b);
    SameCount(p.CountFrom(x.b), x.line.used, k);
  }

  lemma CountsInBatch(p: Plan, s: seq<Item>, t: seq<Row>, i: nat, o: nat, k: nat)
    requires IsBlock(p, s) && Shows(p, s, t) && i + 1 < |s| && o + 1 < |s|
    requires InSpan(t[i]) == 1 && OpensBatch(t[o]) && Addr(t[o + 1]) == Addr(t[i]) && k < 8 && Zero(GroupCount(t[o]) - k - GroupCount(t[i]))
    ensures s[i].Exec? && s[o] == Open(s[i].b) && s[i].line.used == k
  {
    ItemReads(p, s, t, i);
    ItemReads(p, s, t, o);
    ItemReads(p, s, t, o + 1);
    assert PairAt(p, s, o);
    InBatchOf(p, s[i], t[i], s[o], t[o], s[o + 1], t[o + 1], k);
  }

  /** A row that takes slot k of a batch stands in it, with k slots used up. */
  lemma TakesMeans(p: Plan, s: seq<Item>, t: seq<Row>, i: nat, o: nat, k: nat)
    requires IsBlock(p, s) && Shows(p, s, t) && i + 1 < |s| && o + 1 < |s| && Takes(t, i, o, k)
    ensures s[i].Exec? && s[o] == Open(s[i].b) && s[i].line.used == k && Advances(s[i], s[i + 1])
  {
    CountsInBatch(p, s, t, i, o, k);
    CountIs(p, s, t, i);
  }

  lemma RowTakenOnce(p: Plan, s: seq<Item>, t: seq<Row>, i: nat, i': nat, o: nat, k: nat)
    requires IsBlock(p, s) && Shows(p, s, t) && i + 1 < |s| && i' + 1 < |s| && o + 1 < |s|
    ensures TakenOnce(t, i, i', o, k)
  {
    if Takes(t, i, o, k) && Takes(t, i', o, k) {
      TakesMeans(p, s, t, i, o, k);
      TakesMeans(p, s, t, i', o, k);
      if i < i' {
        UsedRises(p, s, i, i');
      } else if i' < i {
        UsedRises(p, s, i', i);
      }
    }
  }

  lemma RowDistinct(p: Plan, s: seq<Item>, t: seq<Row>, o: nat, o': nat)
    requires IsBlock(p, s) && Shows(p, s, t) && o + 1 < |s| && o' + 1 < |s|
    ensures Distinct(t, o, o')
  {
    ItemReads(p, s, t, o);
    ItemReads(p, s, t, o');
    if s[o].Open? && s[o'].Open? && Addr(t[o + 1]) == Addr(t[o' + 1]) {
      ItemReads(p, s, t, o + 1);
      ItemReads(p, s, t, o' + 1);
      assert PairAt(p, s, o) && PairAt(p, s, o');
      if o < o' {
        RankRises(p, s, o, o');
      } else if o' < o {
        RankRises(p, s, o', o);
      }
    }
  }

  /** The rows of a block satisfy the decoder's constraints and balance the op group table both ways. */
  lemma BlockIsAccepted(p: Plan, s: seq<Item>, t: seq<Row>)
    requires IsBlock(p, s) && IsTrace(p, s, t)
    ensures DecoderTrace(t)
  {
    TraceShows(p, s, t);
    forall i: nat | i < |t|
      ensures OpGroupsAt(t, i) && FrameAt(t, i) && GroupBusAt(t, i)
    {
      RowHolds(p, s, t, i);
      FrameHolds(p, s, t, i);
      RowRemoves(p, s, t, i);
    }
    forall o: nat, k: nat | o + 1 < |t|
      ensures IsTaken(t, o, k)
    {
      RowIsTaken(p, s, t, o, k);
    }
    forall i: nat, i': nat, o: nat, k: nat | i + 1 < |t| && i' + 1 < |t| && o + 1 < |t|
      ensures TakenOnce(t, i, i', o, k)
    {
      RowTakenOnce(p, s, t, i, i', o, k);
    }
    forall o: nat, o': nat | o + 1 < |t| && o' + 1 < |t|
      ensures Distinct(t, o, o')
    {
      RowDistinct(p, s, t, o, o');
    }
  }

  lemma BlockIsFramed(p: Plan, s: seq<Item>, t: seq<Row>)
    requires IsBlock(p, s) && Shows(p, s, t)
    ensures Framed(t)
  {
    forall i: nat | i + 1 < |t|
      ensures EntersBySpan(t, i) && LeavesByEnd(t, i)
    {
      ItemReads(p, s, t, i);
      ItemReads(p, s, t, i + 1);
      assert PairAt(p, s, i);
    }
  }

  // What the block executes and commits to
  // ----------------------------------------------------------------------------

  function Shown(op: Instr): seq<Instr> { if op == Op(0) then [] else [op] }

  /** Instructions without the no-ops. */
  function NoNoops(ops: seq<Instr>): seq<Instr> {
    if ops == [] then [] else Shown(ops[0]) + NoNoops(ops[1..])
  }

  function Ops(s: seq<Item>): seq<Instr> {
    if s == [] then [] else (if s[0].Exec? then [s[0].line.op] else []) + Ops(s[1..])
  }

  lemma EmitShows(p: Plan, s: seq<Item>, t: seq<Row>, i: nat)
    requires IsBlock(p, s) && Shows(p, s, t) && i + 1 < |s| && s[i].Exec?
    ensures Emit(t, i) == Shown(s[i].line.op)
  {
    ItemReads(p, s, t, i);
    ItemReads(p, s, t, i + 1);
    assert PairAt(p, s, i);
  }

  lemma {:induction false} RunIs(p: Plan, s: seq<Item>, t: seq<Row>, i: nat)
    requires IsBlock(p, s) && Shows(p, s, t) && i < |s|
    ensures RunFrom(t, i) == NoNoops(Ops(s[i..]))
    decreases |s| - i
  {
    assert s[i..][1..] == s[i + 1..];
    if i + 1 == |s| {
      assert Ops(s[i..]) == Ops([]);
    } else {
      RunIs(p, s, t, i + 1);
      RunStep(t, i);
      ItemReads(p, s, t, i);
      if s[i].Exec? {
        EmitShows(p, s, t, i);
        assert Ops(s[i..])[1..] == Ops(s[i + 1..]);
      } else {
        assert Ops(s[i..]) == Ops(s[i + 1..]);
      }
    }
  }

  function SlotsOf(p: Plan, s: seq<Item>): seq<seq<nat>> {
    if s == [] then [] else (if s[0].Open? && s[0].b < |p.slots| then [Natural(p.slots[s[0].b])] else []) + SlotsOf(p, s[1..])
  }

  function Natural(g: Eight): (n: seq<nat>)
    ensures |n| == 8 && forall k: nat | k < 8 :: n[k] == g[k]
  {
    seq(8, k requires 0 <= k < 8 => g[k] as nat)
  }

  lemma {:induction false} CommittedIs(p: Plan, s: seq<Item>, t: seq<Row>, i: nat)
    requires IsBlock(p, s) && Shows(p, s, t) && i <= |s|
    ensures CommittedFrom(t, i) == SlotsOf(p, s[i..])
    decreases |s| - i
  {
    if i < |s| {
      assert s[i..][1..] == s[i + 1..];
      CommittedIs(p, s, t, i + 1);
      ItemReads(p, s, t, i);
      if s[i].Open? {
        assert OpGroups.Cells(t[i]) == Natural(p.slots[s[i].b]);
      }
    }
  }
}
