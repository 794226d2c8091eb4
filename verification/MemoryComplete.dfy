/** Completeness of the memory constraints: every log of accesses that a memory could answer has rows
    that satisfy them. */
module MemoryComplete {
  import opened Goldilocks
  import opened ChipletSelectors
  import opened MemoryChiplet

  // Accesses
  // ----------------------------------------------------------------------------

  type Element = i: nat | i < 4
  type Word = s: seq<Felt> | |s| == 4 witness [0, 0, 0, 0]

  datatype Operation = ReadWord | ReadElement(i: Element) | WriteWord(w: Word) | WriteElement(i: Element, v: Felt)

  /** An access in a context, to the four elements from address 4 * word on, in a clock cycle. */
  datatype Access = Access(ctx: nat, word: nat, clk: nat, op: Operation) {
    predicate Valid() { ctx < 0x1_0000_0000 && word < 0x4000_0000 && clk < 0x1_0000_0000 }

    predicate Reads() { op.ReadWord? || op.ReadElement? }

    /** The access stores something into element i. */
    predicate StoresInto(i: Element) { op.WriteWord? || (op.WriteElement? && op.i == i) }

    function Stored(i: Element): Felt
      requires StoresInto(i)
    {
      match op case WriteWord(w) => w[i] case WriteElement(_, v) => v
    }
  }

  predicate Together(a: Access, b: Access) { a.ctx == b.ctx && a.word == b.word }

  /** Order by context, word and clock; only reads may share a clock cycle on a word. */
  predicate Precedes(a: Access, b: Access) {
    || a.ctx < b.ctx
    || (a.ctx == b.ctx && a.word < b.word)
    || (Together(a, b) && a.clk < b.clk)
    || (Together(a, b) && a.clk == b.clk && a.Reads() && b.Reads())
  }

  predicate PrecedesAt(s: seq<Access>, k: nat)
    requires k + 1 < |s|
  {
    Precedes(s[k], s[k + 1])
  }

  predicate Ordered(s: seq<Access>) {
    (forall k: nat | k < |s| :: s[k].Valid()) && forall k: nat | k + 1 < |s| :: PrecedesAt(s, k)
  }

  /** What the first k accesses left in element i of the word of a: the latest store, or zero. */
  function Latest(s: seq<Access>, a: Access, k: nat, i: Element): Felt
    requires k <= |s|
  {
    if k == 0 then 0
    else if Together(s[k - 1], a) && s[k - 1].StoresInto(i) then s[k - 1].Stored(i)
    else Latest(s, a, k - 1, i)
  }

  /** Element i of the word that access k leaves behind. */
  function Left(s: seq<Access>, k: nat, i: Element): Felt
    requires k < |s|
  {
    if s[k].StoresInto(i) then s[k].Stored(i) else Latest(s, s[k], k, i)
  }

  lemma {:induction false} LatestSameWord(s: seq<Access>, a: Access, b: Access, k: nat, i: Element)
    requires k <= |s| && Together(a, b)
    ensures Latest(s, a, k, i) == Latest(s, b, k, i)
  {
    if k > 0 {
      LatestSameWord(s, a, b, k - 1, i);
    }
  }

  lemma {:induction false} Ascending(s: seq<Access>, j: nat, k: nat)
    requires Ordered(s) && j <= k < |s|
    ensures s[j].ctx < s[k].ctx || (s[j].ctx == s[k].ctx && s[j].word <= s[k].word)
    decreases k
  {
    if j < k {
      Ascending(s, j, k - 1);
      assert PrecedesAt(s, k - 1);
    }
  }

  /** A new word holds zeros. */
  lemma {:induction false} LatestNewWord(s: seq<Access>, k: nat, n: nat, i: Element)
    requires Ordered(s) && n <= k < |s| && (k > 0 ==> !Together(s[k - 1], s[k]))
    ensures Latest(s, s[k], n, i) == 0
    decreases n
  {
    if n > 0 {
      Ascending(s, n - 1, k - 1);
      assert PrecedesAt(s, k - 1);
      LatestNewWord(s, k, n - 1, i);
    }
  }

  // Rows
  // ----------------------------------------------------------------------------

  /** The difference that orders an access after the previous one: of contexts, of addresses or of clocks. */
  function Difference(a: Access, b: Access): int {
    if a.ctx != b.ctx then b.ctx - a.ctx else if a.word != b.word then 4 * (b.word - a.word) else b.clk - a.clk
  }

  lemma DifferenceFits(a: Access, b: Access)
    requires a.Valid() && b.Valid() && Precedes(a, b)
    ensures 0 <= Difference(a, b) < 0x1_0000_0000
  {
  }

  function Index(op: Operation): Element {
    match op case ReadElement(i) => i case WriteElement(i, _) => i case _ => 0
  }

  /** The row of an access that leaves the word v and differs by d from the one before it. */
  function MemoryRow(a: Access, v: Word, d: nat, same: bool): Row
    requires a.Valid() && d < 0x1_0000_0000
  {
    [1, 1, 0, AsBit(a.Reads()), AsBit(a.op.ReadWord? || a.op.WriteWord?), a.ctx, 4 * a.word, Index(a.op) % 2, Index(a.op) / 2, a.clk,
     v[0], v[1], v[2], v[3], d % 0x1_0000, d / 0x1_0000, InverseOrZero(d), AsBit(same), a.word % 0x1_0000, a.word / 0x1_0000, 0, 0]
  }

  function WordLeft(s: seq<Access>, k: nat): Word
    requires k < |s|
  {
    [Left(s, k, 0), Left(s, k, 1), Left(s, k, 2), Left(s, k, 3)]
  }

  function RowOf(s: seq<Access>, k: nat): Row
    requires Ordered(s) && k < |s|
  {
    if k == 0 then MemoryRow(s[0], WordLeft(s, 0), 0, false)
    else
      assert PrecedesAt(s, k - 1);
      DifferenceFits(s[k - 1], s[k]);
      MemoryRow(s[k], WordLeft(s, k), Difference(s[k - 1], s[k]), Together(s[k - 1], s[k]))
  }

  const FIRST: Row := [0, 1, 0, 0, 0, 0, 0, 0, 0, 0, 0, 0, 0, 0, 0, 0, 0, 0, 0, 0, 0, 0]
  const LAST: Row := [1, 1, 1, 1, 1, 0, 0, 0, 0, 0, 0, 0, 0, 0, 0, 0, 0, 0, 0, 0, 0, 0]

  /** A controller row, the accesses, and a padding row. */
  function RowAt(s: seq<Access>, i: nat): Row
    requires Ordered(s) && i < |s| + 2
  {
    if i == 0 then FIRST else if i <= |s| then RowOf(s, i - 1) else LAST
  }

  function Trace(s: seq<Access>): (t: seq<Row>)
    requires Ordered(s)
    ensures IsTrace(t, s)
  {
    seq(|s| + 2, i requires 0 <= i < |s| + 2 => RowAt(s, i))
  }

  ghost predicate IsTrace(t: seq<Row>, s: seq<Access>)
    requires Ordered(s)
  {
    |t| == |s| + 2 && forall i: nat | i < |s| + 2 :: t[i] == RowAt(s, i)
  }

  // What is read off a row
  // ----------------------------------------------------------------------------

  /** The row records the access a and leaves the word v. */
  ghost predicate Records(r: Row, a: Access, v: Word) {
    && r[0] == 1 && r[1] == 1 && r[2] == 0 && Ctx(r) == a.ctx && Addr(r) == 4 * a.word && Clk(r) == a.clk
    && IsRead(r) == AsBit(a.Reads()) && IsWord(r) == AsBit(a.op.ReadWord? || a.op.WriteWord?)
    && Idx0(r) == Index(a.op) % 2 && Idx1(r) == Index(a.op) / 2
    && (forall i: nat | i < 4 :: Val(r, i) == v[i])
    && AddrLo(r) == a.word % 0x1_0000 && AddrHi(r) == a.word / 0x1_0000
  }

  ghost predicate Differs(r: Row, d: int, same: bool) {
    && Delta0(r) == d % 0x1_0000 && Delta1(r) == d / 0x1_0000 && SameKey(r) == AsBit(same)
    && 0 <= DeltaInv(r) < P && (d != 0 ==> Zero(d * DeltaInv(r) - 1))
  }

  lemma RowRecords(a: Access, v: Word, d: nat, same: bool)
    requires a.Valid() && d < 0x1_0000_0000
    ensures Records(MemoryRow(a, v, d, same), a, v) && Differs(MemoryRow(a, v, d, same), d, same)
  {
  }

  ghost predicate DiffersAt(s: seq<Access>, k: nat, r: Row)
    requires k < |s|
  {
    if k == 0 then Differs(r, 0, false)
    else 0 <= Difference(s[k - 1], s[k]) < 0x1_0000_0000 && Differs(r, Difference(s[k - 1], s[k]), Together(s[k - 1], s[k]))
  }

  lemma RowIs(s: seq<Access>, k: nat)
    requires Ordered(s) && k < |s|
    ensures Records(RowOf(s, k), s[k], WordLeft(s, k)) && DiffersAt(s, k, RowOf(s, k))
  {
    if k == 0 {
      RowRecords(s[0], WordLeft(s, 0), 0, false);
    } else {
      assert PrecedesAt(s, k - 1);
      DifferenceFits(s[k - 1], s[k]);
      RowRecords(s[k], WordLeft(s, k), Difference(s[k - 1], s[k]), Together(s[k - 1], s[k]));
    }
  }

  // Constraints of one row
  // ----------------------------------------------------------------------------

  lemma RowHolds(r: Row, a: Access, v: Word)
    requires a.Valid() && Records(r, a, v)
    ensures RowConstraints(r)
  {
    assert MemoryFlag(r) == 1;
    assert AddrHi(r) * 65536 + AddrLo(r) == a.word;
  }

  lemma RowSupplied(r: Row, a: Access, v: Word, d: nat, same: bool)
    requires a.Valid() && Records(r, a, v) && Differs(r, d, same) && d < 0x1_0000_0000
    ensures Supplied(r)
  {
    assert 4 * AddrHi(r) < 0x1_0000;
  }

  /** The factor that exempts a written element. */
  lemma WrittenIs(r: Row, a: Access, v: Word, i: Element)
    requires Records(r, a, v)
    ensures NotWritten(r, i) == AsBit(!a.StoresInto(i))
  {
    SelectedIs(r, a, v, i);
  }

  lemma SelectedIs(r: Row, a: Access, v: Word, i: Element)
    requires Records(r, a, v)
    ensures Selected1(r, i) == AsBit(Index(a.op) == i)
  {
    var x := Index(a.op);
    assert x == 0 || x == 1 || x == 2 || x == 3;
  }

  lemma Vanishes(g: int, n: int, x: int)
    requires n == 0 || x == 0
    ensures Zero(g * (n * x))
  {
    assert n * x == 0;
  }

  lemma EntryHolds(m0: Row, m1: Row, a: Access, v: Word)
    requires Records(m1, a, v) && forall i: Element | !a.StoresInto(i) :: v[i] == 0
    ensures EntryConstraints(m0, m1)
  {
    forall i: nat | i < 4
      ensures Zero(NextIsFirst(m0, m1) * (NotWritten(m1, i) * Val(m1, i)))
    {
      WrittenIs(m1, a, v, i);
      Vanishes(NextIsFirst(m0, m1), NotWritten(m1, i), Val(m1, i));
    }
  }

  // Constraints of a step
  // ----------------------------------------------------------------------------

  lemma GateIs(m0: Row, m1: Row)
    requires m0[0] == 1 && m0[1] == 1 && m1[2] == 0
    ensures Gate(m0, m1, 1) == 1
  {
  }

  lemma ValuesHold(m0: Row, m1: Row, a: Access, b: Access, u: Word, v: Word)
    requires Records(m0, a, u) && Records(m1, b, v) && SameKey(m1) == AsBit(Together(a, b))
    requires forall i: Element | !b.StoresInto(i) :: v[i] == if Together(a, b) then u[i] else 0
    ensures ValueConstraints(m0, m1, 1)
  {
    forall i: nat | i < 4
      ensures Zero(Gate(m0, m1, 1) * (NotWritten(m1, i) * (Val(m1, i) - SameKey(m1) * Val(m0, i))))
    {
      WrittenIs(m1, b, v, i);
      Vanishes(Gate(m0, m1, 1), NotWritten(m1, i), Val(m1, i) - SameKey(m1) * Val(m0, i));
    }
  }

  /** The order constraints without their gate, at the level of the context, of the address and of the clock. */
  lemma ContextHolds(cd: int, ad: int, kd: int, inv: int, ra: int, rb: int)
    requires Zero(cd * inv - 1)
    ensures OrderBody(cd, ad, kd, inv, 0, cd, ra, rb)
  {
    var c, a := cd * inv, ad * inv;
    Rewrite(0, c - 1, c);
    Rewrite(0, c - 1, -cd);
    Rewrite(0, c - 1, -(a * (a - 1)));
    Rewrite(0, c - 1, -((1 - a) * ad));
    Rewrite(0, c - 1, 1 - a);
    var y := a * ad + (1 - a) * kd;
    Rewrite(0, c - 1, cd - y);
    assert (c - 1) * c == c * (c - 1) && (c - 1) * -cd == (1 - c) * cd;
    assert (c - 1) * -(a * (a - 1)) == (1 - c) * (a * (a - 1)) && (c - 1) * -((1 - a) * ad) == (1 - c) * ((1 - a) * ad);
    assert (c - 1) * (1 - a) == 0 - (1 - c) * (1 - a);
    assert (c - 1) * (cd - y) == c * cd + (1 - c) * y - cd;
  }

  lemma AddressHolds(ad: int, kd: int, inv: int, ra: int, rb: int)
    requires Zero(ad * inv - 1)
    ensures OrderBody(0, ad, kd, inv, 0, ad, ra, rb)
  {
    var a := ad * inv;
    Rewrite(0, a - 1, a);
    Rewrite(0, a - 1, -ad);
    Rewrite(0, a - 1, 1);
    Rewrite(0, a - 1, ad - kd);
    assert (a - 1) * a == a * (a - 1) && (a - 1) * -ad == (1 - a) * ad;
    assert (a - 1) * (ad - kd) == a * ad + (1 - a) * kd - ad;
  }

  lemma ClockHolds(kd: int, inv: int, ra: int, rb: int)
    requires Zero(kd * inv - 1) || (kd == 0 && ra == 1 && rb == 1)
    ensures OrderBody(0, 0, kd, inv, 1, kd, ra, rb)
  {
    if Zero(kd * inv - 1) {
      var x := (1 - ra) + (1 - rb);
      Rewrite(0, kd * inv - 1, -x);
      assert (kd * inv - 1) * -x == (1 - kd * inv) * x;
    }
  }

  lemma Gated(m0: Row, m1: Row)
    requires Gate(m0, m1, 1) == 1
    requires OrderBody(CtxDelta(m0, m1), AddrDelta(m0, m1), ClkDelta(m0, m1), DeltaInv(m1), SameKey(m1),
                       Delta1(m1) * 65536 + Delta0(m1), IsRead(m0), IsRead(m1))
    ensures OrderConstraints(m0, m1, 1)
  {
  }

  lemma OrderHolds(m0: Row, m1: Row, a: Access, b: Access, u: Word, v: Word, d: nat)
    requires a.Valid() && b.Valid() && Precedes(a, b) && Records(m0, a, u) && Records(m1, b, v)
    requires d == Difference(a, b) && Differs(m1, d, Together(a, b))
    ensures OrderConstraints(m0, m1, 1)
  {
    var inv := DeltaInv(m1);
    assert Delta1(m1) * 65536 + Delta0(m1) == d;
    if a.ctx != b.ctx {
      ContextHolds(b.ctx - a.ctx, 4 * b.word - 4 * a.word, b.clk - a.clk, inv, IsRead(m0), IsRead(m1));
    } else if a.word != b.word {
      AddressHolds(4 * b.word - 4 * a.word, b.clk - a.clk, inv, IsRead(m0), IsRead(m1));
    } else {
      ClockHolds(b.clk - a.clk, inv, IsRead(m0), IsRead(m1));
    }
    Gated(m0, m1);
  }

  // Whole traces
  // ----------------------------------------------------------------------------

  lemma LeftIs(s: seq<Access>, k: nat)
    requires Ordered(s) && k < |s|
    ensures forall i: Element | !s[k].StoresInto(i) ::
              WordLeft(s, k)[i] == if k > 0 && Together(s[k - 1], s[k]) then WordLeft(s, k - 1)[i] else 0
  {
    forall i: Element | !s[k].StoresInto(i)
      ensures Left(s, k, i) == if k > 0 && Together(s[k - 1], s[k]) then Left(s, k - 1, i) else 0
    {
      if k > 0 && Together(s[k - 1], s[k]) {
        LatestSameWord(s, s[k - 1], s[k], k - 1, i);
      } else {
        LatestNewWord(s, k, k, i);
      }
    }
  }

  lemma EntryStep(s: seq<Access>)
    requires Ordered(s) && |s| > 0
    ensures EntryConstraints(FIRST, RowOf(s, 0))
  {
    RowIs(s, 0);
    LeftIs(s, 0);
    EntryHolds(FIRST, RowOf(s, 0), s[0], WordLeft(s, 0));
  }

  lemma AccessStep(s: seq<Access>, k: nat)
    requires Ordered(s) && k + 1 < |s|
    ensures OrderConstraints(RowOf(s, k), RowOf(s, k + 1), 1) && ValueConstraints(RowOf(s, k), RowOf(s, k + 1), 1)
  {
    RowIs(s, k);
    RowIs(s, k + 1);
    LeftIs(s, k + 1);
    assert PrecedesAt(s, k);
    OrderHolds(RowOf(s, k), RowOf(s, k + 1), s[k], s[k + 1], WordLeft(s, k), WordLeft(s, k + 1), Difference(s[k], s[k + 1]));
    ValuesHold(RowOf(s, k), RowOf(s, k + 1), s[k], s[k + 1], WordLeft(s, k), WordLeft(s, k + 1));
  }

  /** Rows outside memory, and steps out of it. */
  lemma Ungated(m0: Row, m1: Row, tr: int)
    requires m0[0] == 0 || m0[1] == 0 || m1[2] == 1 || tr == 0
    ensures OrderConstraints(m0, m1, tr) && ValueConstraints(m0, m1, tr)
  {
    assert Gate(m0, m1, tr) == 0;
  }

  lemma NotEntering(m0: Row, m1: Row)
    requires (m0[0] == 1 && m0[1] == 1) || m1[2] == 1
    ensures EntryConstraints(m0, m1)
  {
    assert NextIsFirst(m0, m1) == 0;
  }

  lemma Inactive(m: Row)
    requires m[0] == 0 || (m[0] == 1 && m[1] == 1 && m[2] == 1)
    ensures RowConstraints(m)
  {
    assert MemoryFlag(m) == 0;
  }

  lemma FirstRowHolds(t: seq<Row>, s: seq<Access>)
    requires Ordered(s) && IsTrace(t, s)
    ensures MemoryAt(t, 0)
  {
    assert t[0] == FIRST;
    Inactive(t[0]);
    Ungated(t[0], t[1], 1);
    if |s| == 0 {
      assert t[1] == LAST;
      NotEntering(t[0], t[1]);
    } else {
      EntryStep(s);
      assert t[1] == RowOf(s, 0);
    }
  }

  lemma AccessRowHolds(t: seq<Row>, s: seq<Access>, k: nat)
    requires Ordered(s) && k < |s| && IsTrace(t, s)
    ensures MemoryAt(t, k + 1)
  {
    var m0, m1 := t[k + 1], t[k + 2];
    assert m0 == RowOf(s, k);
    RowIs(s, k);
    assert s[k].Valid();
    RowHolds(m0, s[k], WordLeft(s, k));
    NotEntering(m0, m1);
    if k + 1 < |s| {
      assert m1 == RowOf(s, k + 1);
      AccessStep(s, k);
    } else {
      assert m1 == LAST;
      Ungated(m0, m1, 1);
    }
  }

  lemma LastRowHolds(t: seq<Row>, s: seq<Access>)
    requires Ordered(s) && IsTrace(t, s)
    ensures MemoryAt(t, |s| + 1)
  {
    var m0, m1 := t[|s| + 1], t[0];
    assert m0 == LAST;
    Inactive(m0);
    Ungated(m0, m1, 0);
    NotEntering(m0, m1);
  }

  lemma TraceRowHolds(t: seq<Row>, s: seq<Access>, i: nat)
    requires Ordered(s) && i < |s| + 2 && IsTrace(t, s)
    ensures MemoryAt(t, i)
  {
    if i == 0 {
      FirstRowHolds(t, s);
    } else if i <= |s| {
      AccessRowHolds(t, s, i - 1);
    } else {
      LastRowHolds(t, s);
    }
  }

  lemma Regions(s: seq<Access>, i: nat)
    requires Ordered(s) && i < |s| + 2
    ensures RegionOf(RowAt(s, i)) == if i == 0 then Controller else if i <= |s| then Memory else Padding
    ensures BooleanPrefix(RowAt(s, i))
  {
    if 0 < i <= |s| {
      RowIs(s, i - 1);
    }
  }

  lemma RowLaidOut(t: seq<Row>, s: seq<Access>, i: nat)
    requires Ordered(s) && i < |s| + 2 && IsTrace(t, s)
    ensures LaidOut(t, i)
  {
    Regions(s, i);
    if i < |s| + 1 {
      Regions(s, i + 1);
    } else {
      assert t[i] == LAST;
    }
    if i == 0 {
      assert t[0] == FIRST;
    }
  }

  lemma TraceIsSelected(t: seq<Row>, s: seq<Access>)
    requires Ordered(s) && IsTrace(t, s)
    ensures Selected(t)
  {
    forall i: nat | i < |t|
      ensures LaidOut(t, i)
    {
      RowLaidOut(t, s, i);
    }
    SelectedIffLaidOut(t);
  }

  lemma AccessSupplied(s: seq<Access>, k: nat)
    requires Ordered(s) && k < |s|
    ensures Supplied(RowOf(s, k))
  {
    RowIs(s, k);
    assert s[k].Valid();
    if k == 0 {
      RowSupplied(RowOf(s, 0), s[0], WordLeft(s, 0), 0, false);
    } else {
      RowSupplied(RowOf(s, k), s[k], WordLeft(s, k), Difference(s[k - 1], s[k]), Together(s[k - 1], s[k]));
    }
  }

  lemma TraceSupplied(t: seq<Row>, s: seq<Access>, i: nat)
    requires Ordered(s) && i < |s| + 2 && IsTrace(t, s)
    ensures SuppliedAt(t, i)
  {
    Regions(s, i);
    if 0 < i <= |s| {
      AccessSupplied(s, i - 1);
    }
  }

  lemma TraceHolds(t: seq<Row>, s: seq<Access>)
    requires Ordered(s) && IsTrace(t, s)
    ensures MemoryTrace(t)
  {
    TraceIsSelected(t, s);
    forall i | 0 <= i < |t|
      ensures MemoryAt(t, i)
    {
      TraceRowHolds(t, s, i);
    }
    forall i | 0 <= i < |t|
      ensures SuppliedAt(t, i)
    {
      TraceSupplied(t, s, i);
    }
  }

  lemma MemoryBounds(t: seq<Row>, s: seq<Access>)
    requires Ordered(s) && IsTrace(t, s)
    ensures Start(t, 2) == 1 && Start(t, 3) == |s| + 1
  {
    TraceIsSelected(t, s);
    AscendingRegions(t);
    Regions(s, 0);
    Regions(s, 1);
    Regions(s, |s|);
    Regions(s, |s| + 1);
    StartSplits(t, 2, 0);
    StartSplits(t, 2, 1);
    StartSplits(t, 3, |s|);
    StartSplits(t, 3, |s| + 1);
  }

  /** Completeness: every ordered list of accesses, whatever it stores, is the memory section of a trace that
      satisfies all constraints. Row k records access k and the word it leaves: the elements it stores, and
      elsewhere the latest store before it. */
  lemma MemoryIsComplete(s: seq<Access>)
    requires Ordered(s)
    ensures MemoryTrace(Trace(s))
    ensures Start(Trace(s), 2) == 1 && Start(Trace(s), 3) == |s| + 1 && |Accesses(Trace(s))| == |s|
    ensures forall k: nat | k < |s| :: Records(Accesses(Trace(s))[k], s[k], WordLeft(s, k))
  {
    var t := Trace(s);
    TraceHolds(t, s);
    MemoryBounds(t, s);
    forall k: nat | k < |s|
      ensures Records(Accesses(t)[k], s[k], WordLeft(s, k))
    {
      RowIs(s, k);
      assert t[k + 1] == RowAt(s, k + 1) == RowOf(s, k);
    }
  }
}
