/** Completeness of the bitwise chiplet: any list of AND and XOR requests on operands of 4L bits has a trace that
    meets its constraints and answers them in turn. */
module BitwiseComplete {
  import opened Goldilocks
  import opened ChipletSelectors
  import opened BitwiseChiplet

  datatype Request = Request(xor: bool, a: nat, b: nat)

  ghost predicate Valid(r: Request, L: nat) { r.a < Pow2(4 * L) && r.b < Pow2(4 * L) }

  // Rows
  // ----------------------------------------------------------------------------

  /** The leading part of a number: its last n nibbles dropped. */
  function Top(a: nat, n: nat): nat {
    if n == 0 then a else Top(a, n - 1) / 16
  }

  function BitOf(v: nat, j: nat): Felt
    requires j < 4
  {
    if j == 0 then v % 2 else if j == 1 then v / 2 % 2 else if j == 2 then v / 4 % 2 else v / 8 % 2
  }

  function Cell(xor: bool, v: nat, w: nat, k: nat): nat {
    if k == 0 then 1
    else if k == 2 then AsBit(xor)
    else if k == 3 then v
    else if k == 4 then w
    else if 5 <= k < 9 then BitOf(v, k - 5)
    else if 9 <= k < 13 then BitOf(w, k - 9)
    else if k == 13 then BitOp(xor, v / 16, w / 16)
    else if k == 14 then BitOp(xor, v, w)
    else 0
  }

  lemma {:induction false} BitOpBound(xor: bool, v: nat, w: nat, n: nat)
    requires v < Pow2(n) && w < Pow2(n)
    ensures BitOp(xor, v, w) < Pow2(n)
    decreases n
  {
    if n > 0 && (v > 0 || w > 0) {
      BitOpBound(xor, v / 2, w / 2, n - 1);
    }
  }

  function MakeRow(xor: bool, v: nat, w: nat, n: nat): (r: Row)
    requires v < Pow2(n) <= P && w < Pow2(n)
    ensures forall k: nat | k < 22 :: r[k] == Cell(xor, v, w, k)
  {
    BitOpBound(xor, v, w, n);
    BitOpBound(xor, v / 16, w / 16, n);
    seq(22, k requires 0 <= k < 22 => Cell(xor, v, w, k))
  }

  const IDLE: Row := [0, 1, 0, 0, 0, 0, 0, 0, 0, 0, 0, 0, 0, 0, 0, 0, 0, 0, 0, 0, 0, 0]
  const END: Row := [1, 1, 1, 1, 1, 0, 0, 0, 0, 0, 0, 0, 0, 0, 0, 0, 0, 0, 0, 0, 0, 0]

  /** What is read off a row that holds the values v and w. */
  ghost predicate Reads(r: Row, xor: bool, v: nat, w: nat) {
    && r[0] == 1 && r[1] == 0 && Op(r) == AsBit(xor) && A(r) == v && B(r) == w
    && PrevOut(r) == BitOp(xor, v / 16, w / 16) && Out(r) == BitOp(xor, v, w)
    && r[5] == v % 2 && r[6] == v / 2 % 2 && r[7] == v / 4 % 2 && r[8] == v / 8 % 2
    && r[9] == w % 2 && r[10] == w / 2 % 2 && r[11] == w / 4 % 2 && r[12] == w / 8 % 2
  }

  lemma RowReads(xor: bool, v: nat, w: nat, n: nat)
    requires v < Pow2(n) <= P && w < Pow2(n)
    ensures Reads(MakeRow(xor, v, w, n), xor, v, w)
  {
  }

  // Constraints
  // ----------------------------------------------------------------------------

  lemma Nibble(v: nat)
    ensures v == v / 16 * 16 + HornerBits(v % 2, v / 2 % 2, v / 4 % 2, v / 8 % 2)
  {
    Halves(v);
    NibbleOf(v, v / 2, v / 4, v / 8, v / 16);
  }

  lemma NibbleOf(v: nat, v1: nat, v2: nat, v3: nat, v4: nat)
    requires v1 == v / 2 && v2 == v1 / 2 && v3 == v2 / 2 && v4 == v3 / 2
    ensures v == v4 * 16 + HornerBits(v % 2, v1 % 2, v2 % 2, v3 % 2)
  {
  }

  function OutBitOf(xor: bool, x: nat, y: nat): int { AsBit(Apply(xor, x % 2 == 1, y % 2 == 1)) }

  lemma BitOpUnfold(xor: bool, v: nat, w: nat)
    ensures BitOp(xor, v, w) == OutBitOf(xor, v, w) + 2 * BitOp(xor, v / 2, w / 2)
  {
    assert BitOp(xor, 0, 0) == 0;
  }

  lemma Halves(v: nat)
    ensures v / 2 / 2 == v / 4 && v / 4 / 2 == v / 8 && v / 8 / 2 == v / 16
  {
  }

  /** One more nibble of both operands is one more nibble of the result. */
  lemma BitOpNibble(xor: bool, v: nat, w: nat)
    ensures BitOp(xor, v, w) == BitOp(xor, v / 16, w / 16) * 16
                                + HornerBits(OutBitOf(xor, v, w), OutBitOf(xor, v / 2, w / 2), OutBitOf(xor, v / 4, w / 4), OutBitOf(xor, v / 8, w / 8))
  {
    BitOpUnfold(xor, v, w);
    BitOpUnfold(xor, v / 2, w / 2);
    BitOpUnfold(xor, v / 4, w / 4);
    BitOpUnfold(xor, v / 8, w / 8);
    Halves(v);
    Halves(w);
  }

  lemma BitsRead(r: Row, xor: bool, v: nat, w: nat)
    requires Reads(r, xor, v, w)
    ensures BitCells(r) && Bit(Op(r)) && BitwiseFlag(r) == 1
    ensures OpNibble(r, xor) == HornerBits(OutBitOf(xor, v, w), OutBitOf(xor, v / 2, w / 2), OutBitOf(xor, v / 4, w / 4), OutBitOf(xor, v / 8, w / 8))
  {
    forall j | 5 <= j <= 12
      ensures BitCell(r, j)
    {
    }
  }

  lemma OutIs(r: Row, xor: bool, v: nat, w: nat)
    requires Reads(r, xor, v, w)
    ensures Out(r) == PrevOut(r) * 16 + OpNibble(r, xor)
  {
    BitsRead(r, xor, v, w);
    BitOpNibble(xor, v, w);
  }

  lemma Gated(g: int, e: int)
    requires e == 0
    ensures Zero(g * e)
  {
  }

  lemma OutConstraint(r: Row, xor: bool)
    requires BitCells(r) && Op(r) == AsBit(xor) && Out(r) == PrevOut(r) * 16 + OpNibble(r, xor)
    ensures Zero(BitwiseFlag(r) * (Out(r) - (PrevOut(r) * 16 + NibbleAnd(r) + Op(r) * (NibbleXor(r) - NibbleAnd(r)))))
  {
    NibblePolynomials(r);
    OutHolds(Out(r), PrevOut(r), NibbleAnd(r), NibbleXor(r), Op(r), xor);
    Gated(BitwiseFlag(r), Out(r) - (PrevOut(r) * 16 + NibbleAnd(r) + Op(r) * (NibbleXor(r) - NibbleAnd(r))));
  }

  lemma ActiveRow(r: Row, xor: bool)
    requires BitCells(r) && Op(r) == AsBit(xor) && Out(r) == PrevOut(r) * 16 + OpNibble(r, xor)
    ensures RowConstraints(r)
  {
    OutConstraint(r, xor);
    Gated(BitwiseFlag(r), Op(r) * (Op(r) - 1));
    forall j | 5 <= j <= 12
      ensures Zero(BitwiseFlag(r) * (r[j] * (r[j] - 1)))
    {
      assert BitCell(r, j);
      Gated(BitwiseFlag(r), r[j] * (r[j] - 1));
    }
  }

  lemma RowHolds(r: Row, xor: bool, v: nat, w: nat)
    requires Reads(r, xor, v, w)
    ensures RowConstraints(r)
  {
    BitsRead(r, xor, v, w);
    OutIs(r, xor, v, w);
    ActiveRow(r, xor);
  }

  lemma OutHolds(out: int, prev: int, and: int, xor: int, op: int, isXor: bool)
    requires op == AsBit(isXor) && out == prev * 16 + if isXor then xor else and
    ensures out - (prev * 16 + and + op * (xor - and)) == 0
  {
  }

  lemma FirstHolds(r: Row, xor: bool, v: nat, w: nat)
    requires Reads(r, xor, v, w) && v < 16 && w < 16
    ensures A(r) == NibbleA(r) && B(r) == NibbleB(r) && PrevOut(r) == 0
  {
    Nibble(v);
    Nibble(w);
    assert v / 16 == 0 && w / 16 == 0 && BitOp(xor, 0, 0) == 0;
  }

  lemma FirstConstraint(r: Row, k0: int)
    requires k0 == 0 || (A(r) == NibbleA(r) && B(r) == NibbleB(r) && PrevOut(r) == 0)
    ensures FirstConstraints(r, k0)
  {
    Gated(BitwiseFlag(r), k0 * (A(r) - NibbleA(r)));
    Gated(BitwiseFlag(r), k0 * (B(r) - NibbleB(r)));
    Gated(BitwiseFlag(r), k0 * PrevOut(r));
  }

  lemma NextValues(m0: Row, m1: Row, xor: bool, v: nat, w: nat)
    requires Reads(m0, xor, v / 16, w / 16) && Reads(m1, xor, v, w)
    ensures Op(m0) == Op(m1) && A(m1) == A(m0) * 16 + NibbleA(m1) && B(m1) == B(m0) * 16 + NibbleB(m1) && Out(m0) == PrevOut(m1)
  {
    Nibble(v);
    Nibble(w);
  }

  lemma NextHolds(m0: Row, m1: Row, k1: int)
    requires k1 == 0 || (Op(m0) == Op(m1) && A(m1) == A(m0) * 16 + NibbleA(m1) && B(m1) == B(m0) * 16 + NibbleB(m1) && Out(m0) == PrevOut(m1))
    ensures CycleConstraints(m0, m1, k1)
  {
    Gated(BitwiseFlag(m0), k1 * (Op(m0) - Op(m1)));
    Gated(BitwiseFlag(m0), k1 * (A(m1) - (A(m0) * 16 + NibbleA(m1))));
    Gated(BitwiseFlag(m0), k1 * (B(m1) - (B(m0) * 16 + NibbleB(m1))));
    Gated(BitwiseFlag(m0), k1 * (Out(m0) - PrevOut(m1)));
  }

  lemma IdleHolds(m0: Row, m1: Row, k0: int, k1: int)
    requires BitwiseFlag(m0) == 0
    ensures RowConstraints(m0) && FirstConstraints(m0, k0) && CycleConstraints(m0, m1, k1)
  {
  }

  // Traces
  // ----------------------------------------------------------------------------

  lemma {:induction false} TopBound(a: nat, m: nat, n: nat)
    requires a < Pow2(4 * m) && n <= m
    ensures Top(a, n) < Pow2(4 * (m - n))
    decreases n
  {
    if n > 0 {
      TopBound(a, m, n - 1);
      Pow2Add(4 * (m - n), 4);
      assert Pow2(4) == 16;
    }
  }

  /** Row k of the cycle that answers a request. */
  function CycleRow(r: Request, L: nat, k: nat): (row: Row)
    requires Valid(r, L) && Pow2(4 * L) <= P && k < L
    ensures Reads(row, r.xor, Top(r.a, L - 1 - k), Top(r.b, L - 1 - k))
  {
    TopBound(r.a, L, L - 1 - k);
    TopBound(r.b, L, L - 1 - k);
    Pow2Monotone(4 * (k + 1), 4 * L);
    RowReads(r.xor, Top(r.a, L - 1 - k), Top(r.b, L - 1 - k), 4 * L);
    MakeRow(r.xor, Top(r.a, L - 1 - k), Top(r.b, L - 1 - k), 4 * L)
  }

  ghost predicate AllValid(rs: seq<Request>, L: nat) {
    L > 0 && Pow2(4 * L) <= P && forall j: nat | j < |rs| :: Valid(rs[j], L)
  }

  /** One idle cycle of the controller, a cycle for each request, then padding. */
  function RowAt(rs: seq<Request>, L: nat, c: nat, k: nat): Row
    requires AllValid(rs, L) && k < L
  {
    if c == 0 then IDLE else if c <= |rs| then CycleRow(rs[c - 1], L, k) else END
  }

  function Trace(rs: seq<Request>, L: nat): (t: seq<Row>)
    requires AllValid(rs, L)
    ensures IsTrace(rs, L, t)
  {
    seq(L * (|rs| + 1) + 1, i requires i >= 0 => RowAt(rs, L, i / L, i % L))
  }

  ghost predicate IsTrace(rs: seq<Request>, L: nat, t: seq<Row>)
    requires AllValid(rs, L)
  {
    |t| == L * (|rs| + 1) + 1 && forall i: nat | i < |t| :: PlacedAt(rs, L, t, i)
  }

  ghost predicate PlacedAt(rs: seq<Request>, L: nat, t: seq<Row>, i: nat)
    requires AllValid(rs, L) && i < |t|
  {
    t[i] == RowAt(rs, L, i / L, i % L)
  }

  lemma NextRow(i: nat, L: nat)
    requires L > 0
    ensures (i + 1) / L == (if i % L + 1 < L then i / L else i / L + 1) && (i + 1) % L == (if i % L + 1 < L then i % L + 1 else 0)
  {
    var c, k := i / L, i % L;
    if k + 1 < L {
      ModUnique(i + 1, L, c, k + 1);
    } else {
      assert i + 1 == L * (c + 1) + 0;
      ModUnique(i + 1, L, c + 1, 0);
    }
  }

  lemma Cycles(n: nat, i: nat, L: nat, c: nat, k: nat)
    requires k < L && i == L * c + k <= L * n
    ensures c <= n && (c == n <==> i == L * n)
  {
    SmallFactor(L, c, n);
    if i == L * n {
      ModUnique(i, L, n, 0);
      ModUnique(i, L, c, k);
    }
  }

  lemma SmallFactor(L: nat, c: nat, n: nat)
    requires L > 0 && L * c <= L * n
    ensures c <= n
  {
  }

  lemma RowIs(rs: seq<Request>, L: nat, t: seq<Row>, i: nat, c: nat, k: nat)
    requires AllValid(rs, L) && IsTrace(rs, L, t) && i < |t| && k < L && i == L * c + k
    ensures t[i] == RowAt(rs, L, c, k)
  {
    ModUnique(i, L, c, k);
    assert PlacedAt(rs, L, t, i);
  }

  /** Layout of a row. */
  lemma Place(rs: seq<Request>, L: nat, t: seq<Row>, i: nat) returns (c: nat, k: nat)
    requires AllValid(rs, L) && IsTrace(rs, L, t) && i < |t|
    ensures c == i / L <= |rs| + 1 && k == i % L < L && i == L * c + k && t[i] == RowAt(rs, L, c, k) && (c == |rs| + 1 <==> i + 1 == |t|)
    ensures i == 0 ==> c == 0
  {
    c, k := i / L, i % L;
    ModUnique(0, L, 0, 0);
    RowIs(rs, L, t, i, c, k);
    Cycles(|rs| + 1, i, L, c, k);
  }

  ghost predicate KindOf(r: Row, c: nat, n: nat) {
    if c == 0 then r[0] == 0 && r[1] == 1 else if c <= n then r[0] == 1 && r[1] == 0
    else r[0] == 1 && r[1] == 1 && r[2] == 1 && r[3] == 1 && r[4] == 1
  }

  lemma Kinds(rs: seq<Request>, L: nat, c: nat, k: nat)
    requires AllValid(rs, L) && k < L
    ensures KindOf(RowAt(rs, L, c, k), c, |rs|)
  {
  }

  lemma TraceIsSelected(rs: seq<Request>, L: nat, t: seq<Row>)
    requires AllValid(rs, L) && IsTrace(rs, L, t)
    ensures Selected(t)
  {
    forall i: nat | i < |t|
      ensures LaidOut(t, i)
    {
      var c, k := Place(rs, L, t, i);
      Kinds(rs, L, c, k);
      if i + 1 < |t| {
        var c', k' := Place(rs, L, t, i + 1);
        Kinds(rs, L, c', k');
        NextRow(i, L);
        KindsInOrder(t[i], t[i + 1], c, c', |rs|);
      }
    }
    SelectedIffLaidOut(t);
  }

  lemma KindsInOrder(m0: Row, m1: Row, c: nat, c': nat, n: nat)
    requires KindOf(m0, c, n) && KindOf(m1, c', n) && c <= c'
    ensures RegionOf(m0).Rank() <= RegionOf(m1).Rank()
  {
  }

  lemma FirstOfCycle(r: Request, L: nat, m: Row)
    requires Valid(r, L) && L > 0 && Reads(m, r.xor, Top(r.a, L - 1), Top(r.b, L - 1))
    ensures A(m) == NibbleA(m) && B(m) == NibbleB(m) && PrevOut(m) == 0
  {
    TopBound(r.a, L, L - 1);
    TopBound(r.b, L, L - 1);
    assert Pow2(4) == 16;
    FirstHolds(m, r.xor, Top(r.a, L - 1), Top(r.b, L - 1));
  }

  /** Row k of the cycle that answers r. */
  ghost predicate ReadsCycle(m: Row, r: Request, L: nat, k: nat)
    requires k < L
  {
    Reads(m, r.xor, Top(r.a, L - 1 - k), Top(r.b, L - 1 - k))
  }

  lemma CycleReads(rs: seq<Request>, L: nat, c: nat, k: nat)
    requires AllValid(rs, L) && k < L && 1 <= c <= |rs|
    ensures Valid(rs[c - 1], L) && ReadsCycle(RowAt(rs, L, c, k), rs[c - 1], L, k)
  {
  }

  lemma StepHolds(r: Request, L: nat, m0: Row, m1: Row, k: nat)
    requires k < L && ReadsCycle(m0, r, L, k) && (k + 1 < L ==> ReadsCycle(m1, r, L, k + 1))
    ensures CycleConstraints(m0, m1, AsBit(k != L - 1))
  {
    var n := L - 1 - k;
    if n > 0 {
      NextValues(m0, m1, r.xor, Top(r.a, n - 1), Top(r.b, n - 1));
    }
    NextHolds(m0, m1, AsBit(k != L - 1));
  }

  lemma RowPart(rs: seq<Request>, L: nat, m: Row, c: nat, k: nat)
    requires AllValid(rs, L) && k < L && m == RowAt(rs, L, c, k)
    ensures RowConstraints(m)
  {
    Kinds(rs, L, c, k);
    if 1 <= c <= |rs| {
      CycleReads(rs, L, c, k);
      RowHolds(m, rs[c - 1].xor, Top(rs[c - 1].a, L - 1 - k), Top(rs[c - 1].b, L - 1 - k));
    } else {
      IdleHolds(m, m, 0, 0);
    }
  }

  lemma FirstPart(rs: seq<Request>, L: nat, m: Row, c: nat, k: nat)
    requires AllValid(rs, L) && k < L && m == RowAt(rs, L, c, k)
    ensures FirstConstraints(m, AsBit(k == 0))
  {
    Kinds(rs, L, c, k);
    if 1 <= c <= |rs| {
      CycleReads(rs, L, c, k);
      if k == 0 {
        FirstOfCycle(rs[c - 1], L, m);
      }
      FirstConstraint(m, AsBit(k == 0));
    } else {
      IdleHolds(m, m, AsBit(k == 0), 0);
    }
  }

  lemma StepPart(rs: seq<Request>, L: nat, m0: Row, m1: Row, c: nat, k: nat)
    requires AllValid(rs, L) && k < L && m0 == RowAt(rs, L, c, k) && (c <= |rs| && k + 1 < L ==> m1 == RowAt(rs, L, c, k + 1))
    ensures CycleConstraints(m0, m1, AsBit(k != L - 1))
  {
    Kinds(rs, L, c, k);
    if 1 <= c <= |rs| {
      CycleReads(rs, L, c, k);
      if k + 1 < L {
        CycleReads(rs, L, c, k + 1);
      }
      StepHolds(rs[c - 1], L, m0, m1, k);
    } else {
      IdleHolds(m0, m1, 0, AsBit(k != L - 1));
    }
  }

  lemma AlignHolds(m0: Row, m1: Row, c: nat, c': nat, n: nat, k1: int)
    requires KindOf(m0, c, n) && KindOf(m1, c', n) && (k1 == 0 || c == c' || c > n)
    ensures AlignConstraint(m0, m1, k1)
  {
  }

  lemma Gather(t: seq<Row>, L: nat, i: nat, m0: Row, m1: Row)
    requires L > 0 && i < |t| && t[i] == m0 && Next(t, i) == m1
    requires AlignConstraint(m0, m1, NotLast(L, i)) && RowConstraints(m0) && FirstConstraints(m0, First(L, i)) && CycleConstraints(m0, m1, NotLast(L, i))
    ensures BitwiseAt(t, L, i)
  {
  }

  lemma AlignPart(rs: seq<Request>, L: nat, m0: Row, m1: Row, c: nat, k: nat, c': nat, k': nat)
    requires AllValid(rs, L) && k < L && k' < L && m0 == RowAt(rs, L, c, k) && m1 == RowAt(rs, L, c', k')
    requires c <= |rs| && k + 1 < L ==> c' == c
    ensures AlignConstraint(m0, m1, AsBit(k != L - 1))
  {
    Kinds(rs, L, c, k);
    Kinds(rs, L, c', k');
    AlignHolds(m0, m1, c, c', |rs|, AsBit(k != L - 1));
  }

  lemma RowAccepted(rs: seq<Request>, L: nat, t: seq<Row>, i: nat)
    requires AllValid(rs, L) && IsTrace(rs, L, t) && i < |t|
    ensures BitwiseAt(t, L, i)
  {
    var c, k := Place(rs, L, t, i);
    var j := if i + 1 < |t| then i + 1 else 0;
    var c', k' := Place(rs, L, t, j);
    NextRow(i, L);
    AlignPart(rs, L, t[i], t[j], c, k, c', k');
    RowPart(rs, L, t[i], c, k);
    FirstPart(rs, L, t[i], c, k);
    StepPart(rs, L, t[i], t[j], c, k);
    Gather(t, L, i, t[i], t[j]);
  }

  /** The trace meets every constraint, and the last row of cycle j + 1 holds request j and its result. */
  lemma BitwiseIsComplete(rs: seq<Request>, L: nat)
    requires AllValid(rs, L)
    ensures var t := Trace(rs, L);
            BitwiseTrace(t, L) && forall j: nat | j < |rs| :: AnsweredAt(rs, L, t, j)
  {
    var t := Trace(rs, L);
    TraceIsSelected(rs, L, t);
    forall i | 0 <= i < |t|
      ensures BitwiseAt(t, L, i)
    {
      RowAccepted(rs, L, t, i);
    }
    forall j: nat | j < |rs|
      ensures AnsweredAt(rs, L, t, j)
    {
      RequestAnswered(rs, L, t, j);
    }
  }

  ghost predicate AnsweredAt(rs: seq<Request>, L: nat, t: seq<Row>, j: nat)
    requires j < |rs| && L > 0
  {
    var i := L * (j + 1) + (L - 1);
    && i < |t| && BitwiseFlag(t[i]) * (1 - NotLast(L, i)) == 1
    && Op(t[i]) == AsBit(rs[j].xor) && A(t[i]) == rs[j].a && B(t[i]) == rs[j].b && Out(t[i]) == BitOp(rs[j].xor, rs[j].a, rs[j].b)
  }

  lemma Later(L: nat, m: nat, n: nat)
    requires m <= n
    ensures L * m <= L * n
  {
  }

  lemma LastOfCycle(rs: seq<Request>, L: nat, r: Row, j: nat)
    requires AllValid(rs, L) && j < |rs| && r == RowAt(rs, L, j + 1, L - 1)
    ensures BitwiseFlag(r) == 1 && Op(r) == AsBit(rs[j].xor) && A(r) == rs[j].a && B(r) == rs[j].b && Out(r) == BitOp(rs[j].xor, rs[j].a, rs[j].b)
  {
    assert Valid(rs[j], L);
    assert Reads(r, rs[j].xor, Top(rs[j].a, 0), Top(rs[j].b, 0));
  }

  lemma RequestAnswered(rs: seq<Request>, L: nat, t: seq<Row>, j: nat)
    requires AllValid(rs, L) && IsTrace(rs, L, t) && j < |rs|
    ensures AnsweredAt(rs, L, t, j)
  {
    var i := L * (j + 1) + (L - 1);
    ModUnique(i, L, j + 1, L - 1);
    Later(L, j + 2, |rs| + 1);
    RowIs(rs, L, t, i, j + 1, L - 1);
    LastOfCycle(rs, L, t[i], j);
  }
}
