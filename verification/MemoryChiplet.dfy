/** The memory chiplet: rows ordered by (context, word address, clock), each carrying the
    four-element word it leaves behind. */
module MemoryChiplet {
  import opened Goldilocks
  import opened ChipletSelectors

  // Columns of a memory row
  function IsRead(r: Row): int { r[3] }
  function IsWord(r: Row): int { r[4] }
  function Ctx(r: Row): int { r[5] }
  function Addr(r: Row): int { r[6] }
  function Idx0(r: Row): int { r[7] }
  function Idx1(r: Row): int { r[8] }
  function Clk(r: Row): int { r[9] }
  function Delta0(r: Row): int { r[14] }
  function Delta1(r: Row): int { r[15] }
  function DeltaInv(r: Row): int { r[16] }
  function SameKey(r: Row): int { r[17] }
  function AddrLo(r: Row): int { r[18] }
  function AddrHi(r: Row): int { r[19] }

  function Val(r: Row, i: nat): int
    requires i < 4
  {
    r[10 + i]
  }

  // The constraint expressions
  // ----------------------------------------------------------------------------

  /** 1 when the index bits select element i. */
  function Selected1(r: Row, i: nat): int
    requires i < 4
  {
    if i == 0 then (1 - Idx1(r)) * (1 - Idx0(r))
    else if i == 1 then (1 - Idx1(r)) * Idx0(r)
    else if i == 2 then Idx1(r) * (1 - Idx0(r))
    else Idx1(r) * Idx0(r)
  }

  function NotWritten(r: Row, i: nat): int
    requires i < 4
  {
    IsRead(r) + (1 - IsRead(r)) * (1 - IsWord(r)) * (1 - Selected1(r, i))
  }

  ghost predicate RowConstraints(m: Row) {
    var act := MemoryFlag(m);
    && Zero(act * (IsRead(m) * (IsRead(m) - 1)))
    && Zero(act * (IsWord(m) * (IsWord(m) - 1)))
    && Zero(act * (Idx0(m) * (Idx0(m) - 1)))
    && Zero(act * (Idx1(m) * (Idx1(m) - 1)))
    && Zero(act * (Addr(m) - (AddrHi(m) * 65536 + AddrLo(m)) * 4))
    && Zero(act * (IsWord(m) * Idx0(m)))
    && Zero(act * (IsWord(m) * Idx1(m)))
  }

  /** Fires on the row before the first memory row. */
  function NextIsFirst(m0: Row, m1: Row): int {
    (BitwiseFlag(m0) + (1 - m0[0]) * m1[0]) * m1[1] * (1 - m1[2])
  }

  ghost predicate EntryConstraints(m0: Row, m1: Row) {
    forall i: nat | i < 4 :: Zero(NextIsFirst(m0, m1) * (NotWritten(m1, i) * Val(m1, i)))
  }

  function Gate(m0: Row, m1: Row, tr: int): int {
    tr * S01(m0) * (1 - m1[2])
  }

  function CtxDelta(m0: Row, m1: Row): int { Ctx(m1) - Ctx(m0) }
  function AddrDelta(m0: Row, m1: Row): int { Addr(m1) - Addr(m0) }
  function ClkDelta(m0: Row, m1: Row): int { Clk(m1) - Clk(m0) }
  function CtxChanged(m0: Row, m1: Row): int { CtxDelta(m0, m1) * DeltaInv(m1) }
  function AddrChanged(m0: Row, m1: Row): int { AddrDelta(m0, m1) * DeltaInv(m1) }

  function ActiveDelta(m0: Row, m1: Row): int {
    var c, a := CtxChanged(m0, m1), AddrChanged(m0, m1);
    c * CtxDelta(m0, m1) + (1 - c) * (a * AddrDelta(m0, m1) + (1 - a) * ClkDelta(m0, m1))
  }

  ghost predicate OrderConstraints(m0: Row, m1: Row, tr: int) {
    var g, c, a := Gate(m0, m1, tr), CtxChanged(m0, m1), AddrChanged(m0, m1);
    && Zero(g * (c * (c - 1)))
    && Zero(g * ((1 - c) * CtxDelta(m0, m1)))
    && Zero(g * ((1 - c) * (a * (a - 1))))
    && Zero(g * ((1 - c) * ((1 - a) * AddrDelta(m0, m1))))
    && Zero(g * (SameKey(m1) - (1 - c) * (1 - a)))
    && Zero(g * (ActiveDelta(m0, m1) - (Delta1(m1) * 65536 + Delta0(m1))))
    && Zero(g * (SameKey(m1) * ((1 - ClkDelta(m0, m1) * DeltaInv(m1)) * ((1 - IsRead(m0)) + (1 - IsRead(m1))))))
  }

  ghost predicate ValueConstraints(m0: Row, m1: Row, tr: int) {
    forall i: nat | i < 4 ::
      Zero(Gate(m0, m1, tr) * (NotWritten(m1, i) * (Val(m1, i) - SameKey(m1) * Val(m0, i))))
  }

  ghost predicate MemoryAt(t: seq<Row>, i: nat)
    requires i < |t|
  {
    && RowConstraints(t[i])
    && EntryConstraints(t[i], Next(t, i))
    && OrderConstraints(t[i], Next(t, i), Tr(t, i))
    && ValueConstraints(t[i], Next(t, i), Tr(t, i))
  }

  /** What the lookup buses supply for a memory row: its limbs are range checked, and its
      context and clock belong to an executed instruction. */
  ghost predicate Supplied(r: Row) {
    && U16(Delta0(r)) && U16(Delta1(r))
    && U16(AddrLo(r)) && U16(AddrHi(r)) && U16((4 * AddrHi(r)) % P)
    && U32(Ctx(r)) && U32(Clk(r))
  }

  ghost predicate SuppliedAt(t: seq<Row>, i: nat)
    requires i < |t|
  {
    RegionOf(t[i]) == Memory ==> Supplied(t[i])
  }

  ghost predicate MemoryTrace(t: seq<Row>) {
    && Selected(t)
    && (forall i | 0 <= i < |t| :: MemoryAt(t, i))
    && (forall i | 0 <= i < |t| :: SuppliedAt(t, i))
  }

  // What the constraints say about one row and one step
  // ----------------------------------------------------------------------------

  predicate Writes(r: Row, i: nat) {
    IsRead(r) == 0 && (IsWord(r) == 1 || i == Idx0(r) + 2 * Idx1(r))
  }

  predicate SameWord(r: Row, s: Row) {
    Ctx(r) == Ctx(s) && Addr(r) == Addr(s)
  }

  ghost predicate WellFormed(r: Row) {
    && Bit(IsRead(r)) && Bit(IsWord(r)) && Bit(Idx0(r)) && Bit(Idx1(r))
    && U32(Addr(r)) && Addr(r) % 4 == 0
    && (IsWord(r) == 1 ==> Idx0(r) == 0 && Idx1(r) == 0)
  }

  lemma RowMeaning(r: Row)
    requires RowConstraints(r) && MemoryFlag(r) == 1 && Supplied(r)
    ensures WellFormed(r)
  {
    ZeroIsBit(IsRead(r));
    ZeroIsBit(IsWord(r));
    ZeroIsBit(Idx0(r));
    ZeroIsBit(Idx1(r));
    assert 4 * AddrHi(r) < P;
    assert 0 <= (AddrHi(r) * 65536 + AddrLo(r)) * 4 < 0x1_0000_0000;
  }

  ghost predicate Before(r: Row, s: Row) {
    || Ctx(r) < Ctx(s)
    || (Ctx(r) == Ctx(s) && Addr(r) < Addr(s))
    || (SameWord(r, s) && Clk(r) < Clk(s))
    || (SameWord(r, s) && Clk(r) == Clk(s) && IsRead(r) == 1 && IsRead(s) == 1)
  }

  ghost predicate Small(d: int) {
    -0x1_0000_0000 < d < 0x1_0000_0000
  }

  lemma SelectFirst(sel: int, x: int, y: int, w: int)
    requires Zero(sel - 1) && Zero(sel * x + (1 - sel) * y - w)
    requires Small(x) && 0 <= w < 0x1_0000_0000
    ensures x == w
  {
    Rewrite(sel * x + (1 - sel) * y - w, sel - 1, y - x);
    assert sel * x + (1 - sel) * y - w + (sel - 1) * (y - x) == x - w;
    ZeroIsSmall(x - w);
  }

  lemma FlagCleared(c: int, a: int, f: Felt)
    requires Zero(c - 1) && Zero(f - (1 - c) * a)
    ensures f == 0
  {
    Rewrite(f - (1 - c) * a, c - 1, -a);
    assert f - (1 - c) * a + (c - 1) * -a == f;
    ZeroIsSmall(f);
  }

  /** At the clock level the delta is the clock's own, and a repeated clock means two reads. */
  lemma ClockLevel(kd: int, inv: int, f: Felt, w: int, a: int, b: int)
    requires Small(kd) && 0 <= w < 0x1_0000_0000 && Bit(a) && Bit(b)
    requires Zero(f - 1) && Zero(kd - w)
    requires Zero(f * ((1 - kd * inv) * ((1 - a) + (1 - b))))
    ensures w == kd && f == 1
    ensures kd == 0 ==> a == 1 && b == 1
  {
    ZeroIsSmall(kd - w);
    ZeroIsSmall(f - 1);
    if kd == 0 {
      ZeroIsSmall((1 - a) + (1 - b));
    }
  }

  /** The order constraints with their gate removed. */
  ghost predicate OrderBody(cd: int, ad: int, kd: int, inv: int, f: int, w: int, ra: int, rb: int) {
    var c, a := cd * inv, ad * inv;
    && Zero(c * (c - 1))
    && Zero((1 - c) * cd)
    && Zero((1 - c) * (a * (a - 1)))
    && Zero((1 - c) * ((1 - a) * ad))
    && Zero(f - (1 - c) * (1 - a))
    && Zero(c * cd + (1 - c) * (a * ad + (1 - a) * kd) - w)
    && Zero(f * ((1 - kd * inv) * ((1 - ra) + (1 - rb))))
  }

  lemma OrderUngated(m0: Row, m1: Row)
    requires OrderConstraints(m0, m1, 1) && Gate(m0, m1, 1) == 1
    ensures OrderBody(CtxDelta(m0, m1), AddrDelta(m0, m1), ClkDelta(m0, m1), DeltaInv(m1), SameKey(m1),
                      Delta1(m1) * 65536 + Delta0(m1), IsRead(m0), IsRead(m1))
  {
  }

  lemma OrderBodyMeaning(cd: int, ad: int, kd: int, inv: int, f: Felt, w: int, ra: int, rb: int)
    requires OrderBody(cd, ad, kd, inv, f, w, ra, rb)
    requires Small(cd) && Small(ad) && Small(kd) && 0 <= w < 0x1_0000_0000 && Bit(ra) && Bit(rb)
    ensures cd > 0 || (cd == 0 && ad > 0) || (cd == 0 && ad == 0 && kd >= 0)
    ensures cd == 0 && ad == 0 && kd == 0 ==> ra == 1 && rb == 1
    ensures f == AsBit(cd == 0 && ad == 0)
  {
    var c, a := cd * inv, ad * inv;
    if cd != 0 {
      ForcedOne(c, cd);
      SelectFirst(c, cd, a * ad + (1 - a) * kd, w);
      FlagCleared(c, 1 - a, f);
    } else if ad != 0 {
      ForcedOne(a, ad);
      SelectFirst(a, ad, kd, w);
      FlagCleared(a, 1, f);
    } else {
      ClockLevel(kd, inv, f, w, ra, rb);
    }
  }

  /** Consecutive rows are ordered, and only reads may share a clock cycle on one word. */
  lemma OrderMeaning(m0: Row, m1: Row)
    requires OrderConstraints(m0, m1, 1) && Gate(m0, m1, 1) == 1
    requires WellFormed(m0) && WellFormed(m1) && Supplied(m0) && Supplied(m1)
    ensures Before(m0, m1)
    ensures SameKey(m1) == AsBit(SameWord(m0, m1))
  {
    OrderUngated(m0, m1);
    OrderBodyMeaning(CtxDelta(m0, m1), AddrDelta(m0, m1), ClkDelta(m0, m1), DeltaInv(m1), SameKey(m1),
                     Delta1(m1) * 65536 + Delta0(m1), IsRead(m0), IsRead(m1));
  }

  // Values across one step
  // ----------------------------------------------------------------------------

  lemma NotWrittenMeaning(r: Row, i: nat)
    requires WellFormed(r) && i < 4 && !Writes(r, i)
    ensures NotWritten(r, i) == 1
  {
  }

  /** Elements the next row does not write are carried over within a word and zero in a new one. */
  ghost predicate Step(r: Row, s: Row) {
    && Before(r, s)
    && forall i: nat | i < 4 && !Writes(s, i) :: Val(s, i) == if SameWord(r, s) then Val(r, i) else 0
  }

  ghost predicate Fresh(s: Row) {
    forall i: nat | i < 4 && !Writes(s, i) :: Val(s, i) == 0
  }

  lemma StepMeaning(m0: Row, m1: Row)
    requires OrderConstraints(m0, m1, 1) && ValueConstraints(m0, m1, 1) && Gate(m0, m1, 1) == 1
    requires WellFormed(m0) && WellFormed(m1) && Supplied(m0) && Supplied(m1)
    ensures Step(m0, m1)
  {
    OrderMeaning(m0, m1);
    forall i: nat | i < 4 && !Writes(m1, i)
      ensures Val(m1, i) == if SameWord(m0, m1) then Val(m0, i) else 0
    {
      ValueStep(m0, m1, i);
    }
  }

  lemma ValueStep(m0: Row, m1: Row, i: nat)
    requires ValueConstraints(m0, m1, 1) && Gate(m0, m1, 1) == 1 && WellFormed(m1)
    requires i < 4 && !Writes(m1, i) && SameKey(m1) == AsBit(SameWord(m0, m1))
    ensures Val(m1, i) == if SameWord(m0, m1) then Val(m0, i) else 0
  {
    NotWrittenMeaning(m1, i);
    ZeroIsSmall(Val(m1, i) - SameKey(m1) * Val(m0, i));
  }

  lemma EntryMeaning(m0: Row, m1: Row)
    requires EntryConstraints(m0, m1) && NextIsFirst(m0, m1) == 1 && WellFormed(m1)
    ensures Fresh(m1)
  {
    forall i: nat | i < 4 && !Writes(m1, i)
      ensures Val(m1, i) == 0
    {
      NotWrittenMeaning(m1, i);
      ZeroIsSmall(Val(m1, i));
    }
  }

  // The memory section of a trace as a log of accesses
  // ----------------------------------------------------------------------------

  ghost predicate Linked(m: seq<Row>, k: nat)
    requires k < |m|
  {
    WellFormed(m[k]) && if k == 0 then Fresh(m[0]) else Step(m[k - 1], m[k])
  }

  ghost predicate Log(m: seq<Row>) {
    forall k | 0 <= k < |m| :: Linked(m, k)
  }

  function Accesses(t: seq<Row>): seq<Row>
    requires Start(t, 2) <= Start(t, 3) <= |t|
  {
    t[Start(t, 2)..Start(t, 3)]
  }

  lemma AccessBounds(t: seq<Row>)
    requires Selected(t)
    ensures 1 <= Start(t, 2) <= Start(t, 3) < |t|
  {
    AscendingRegions(t);
    FirstRegion(t);
    LastRegion(t);
    StartSplits(t, 2, 0);
    StartSplits(t, 3, |t| - 1);
    if Start(t, 3) < Start(t, 2) {
      StartSplits(t, 2, Start(t, 3));
      StartSplits(t, 3, Start(t, 3));
    }
  }

  lemma MemoryRow(t: seq<Row>, i: nat)
    requires MemoryTrace(t) && i < |t| && RegionOf(t[i]) == Memory
    ensures WellFormed(t[i]) && Supplied(t[i])
  {
    assert MemoryAt(t, i) && SuppliedAt(t, i) && SelectorsAt(t, i);
    PrefixIsBoolean(t, i);
    FlagsOneHot(t[i]);
    RowMeaning(t[i]);
  }

  lemma MemoryStep(t: seq<Row>, i: nat)
    requires MemoryTrace(t) && i + 1 < |t| && RegionOf(t[i]) == Memory == RegionOf(t[i + 1])
    ensures Step(t[i], t[i + 1])
  {
    MemoryRow(t, i);
    MemoryRow(t, i + 1);
    assert MemoryAt(t, i) && SelectorsAt(t, i);
    PrefixIsBoolean(t, i);
    StepMeaning(t[i], t[i + 1]);
  }

  lemma MemoryEntry(t: seq<Row>, i: nat)
    requires MemoryTrace(t) && i + 1 < |t|
    requires RegionOf(t[i]).Rank() < 2 && RegionOf(t[i + 1]) == Memory
    ensures Fresh(t[i + 1])
  {
    MemoryRow(t, i + 1);
    assert MemoryAt(t, i) && SelectorsAt(t, i) && SelectorsAt(t, i + 1);
    PrefixIsBoolean(t, i);
    PrefixIsBoolean(t, i + 1);
    EntryMeaning(t[i], t[i + 1]);
  }

  lemma AccessLinked(t: seq<Row>, k: nat)
    requires MemoryTrace(t) && 1 <= Start(t, 2) <= Start(t, 3) < |t| && k < |Accesses(t)|
    ensures Linked(Accesses(t), k)
  {
    AscendingRegions(t);
    var i := Start(t, 2) + k;
    RegionBounds(t, i, Memory);
    MemoryRow(t, i);
    if k == 0 {
      StartSplits(t, 2, i - 1);
      MemoryEntry(t, i - 1);
    } else {
      RegionBounds(t, i - 1, Memory);
      MemoryStep(t, i - 1);
    }
  }

  lemma AccessesAreALog(t: seq<Row>)
    requires MemoryTrace(t)
    ensures 1 <= Start(t, 2) <= Start(t, 3) < |t|
    ensures Log(Accesses(t))
  {
    AccessBounds(t);
    forall k | 0 <= k < |Accesses(t)|
      ensures Linked(Accesses(t), k)
    {
      AccessLinked(t, k);
    }
  }

  // Consistency of a log
  // ----------------------------------------------------------------------------

  /** The log is sorted by (context, address, clock), with only reads sharing a clock on a word. */
  lemma {:induction false} Sorted(m: seq<Row>, j: nat, k: nat)
    requires Log(m) && j < k < |m|
    ensures Before(m[j], m[k])
  {
    assert Linked(m, k);
    if j < k - 1 {
      Sorted(m, j, k - 1);
    }
  }

  /** The last row before k that writes element i of the word of row r, or -1. */
  function Writer(m: seq<Row>, r: Row, k: nat, i: nat): (w: int)
    requires k <= |m|
    ensures -1 <= w < k
    ensures w >= 0 ==> SameWord(m[w], r) && Writes(m[w], i)
    ensures forall j | w < j < k :: !(SameWord(m[j], r) && Writes(m[j], i))
  {
    if k == 0 then -1
    else if SameWord(m[k - 1], r) && Writes(m[k - 1], i) then k - 1
    else Writer(m, r, k - 1, i)
  }

  lemma {:induction false} WriterDependsOnWord(m: seq<Row>, r: Row, s: Row, k: nat, i: nat)
    requires k <= |m| && SameWord(r, s)
    ensures Writer(m, r, k, i) == Writer(m, s, k, i)
  {
    if k > 0 { WriterDependsOnWord(m, r, s, k - 1, i); }
  }

  lemma {:induction false} ValueComesFromWriter(m: seq<Row>, k: nat, i: nat)
    requires Log(m) && k < |m| && i < 4 && !Writes(m[k], i)
    ensures var w := Writer(m, m[k], k, i); Val(m[k], i) == if w == -1 then 0 else Val(m[w], i)
  {
    assert Linked(m, k);
    if k > 0 {
      if SameWord(m[k - 1], m[k]) {
        if !Writes(m[k - 1], i) {
          ValueComesFromWriter(m, k - 1, i);
          WriterDependsOnWord(m, m[k - 1], m[k], k - 1, i);
        }
      } else {
        var w := Writer(m, m[k], k, i);
        if w >= 0 && w < k - 1 { Sorted(m, w, k - 1); }
      }
    }
  }

  /** Row j is the last write of element i of row k's word at a strictly earlier clock. */
  ghost predicate LatestWrite(m: seq<Row>, j: nat, k: nat, i: nat)
    requires j < |m| && k < |m|
  {
    && SameWord(m[j], m[k]) && Writes(m[j], i) && Clk(m[j]) < Clk(m[k])
    && forall l | 0 <= l < |m| && SameWord(m[l], m[k]) && Writes(m[l], i) ::
         Clk(m[l]) <= Clk(m[j]) || Clk(m[l]) > Clk(m[k])
  }

  ghost predicate NeverWritten(m: seq<Row>, k: nat, i: nat)
    requires k < |m|
  {
    forall l | 0 <= l < |m| && SameWord(m[l], m[k]) && Writes(m[l], i) :: Clk(m[l]) > Clk(m[k])
  }

  /** An element that row k does not write holds what the latest earlier write left, in clock
      order and over the whole log, or zero when nothing was written before. */
  lemma ValueIsLatestWrite(m: seq<Row>, k: nat, i: nat)
    requires Log(m) && k < |m| && i < 4 && !Writes(m[k], i)
    ensures var w := Writer(m, m[k], k, i);
            if w == -1 then NeverWritten(m, k, i) && Val(m[k], i) == 0
            else LatestWrite(m, w, k, i) && Val(m[k], i) == Val(m[w], i)
  {
    ValueComesFromWriter(m, k, i);
    var w := Writer(m, m[k], k, i);
    forall l | 0 <= l < |m| && SameWord(m[l], m[k]) && Writes(m[l], i)
      ensures Clk(m[l]) > Clk(m[k]) || (0 <= w < |m| && Clk(m[l]) <= Clk(m[w]))
    {
      if l > k {
        Sorted(m, k, l);
      } else if l < w {
        Sorted(m, l, w);
      }
    }
    if w >= 0 { Sorted(m, w, k); }
  }

  // What a read returns on the bus
  // ----------------------------------------------------------------------------

  function ElementAddr(r: Row): int {
    Addr(r) + Idx1(r) * 2 + Idx0(r)
  }

  function ElementValue(r: Row): int {
    Val(r, 0) * (1 - Idx0(r)) * (1 - Idx1(r)) + Val(r, 1) * Idx0(r) * (1 - Idx1(r))
    + Val(r, 2) * (1 - Idx0(r)) * Idx1(r) + Val(r, 3) * Idx0(r) * Idx1(r)
  }

  /** Row r stores v into the cell at element address e of context c. */
  predicate Stores(r: Row, c: int, e: int, v: int) {
    var i := e % 4;
    Ctx(r) == c && Addr(r) == e - i && Writes(r, i) && v == Val(r, i)
  }

  /** v is the content of the cell at clock k: the value of the latest earlier store, or zero. */
  ghost predicate CellHolds(m: seq<Row>, c: int, e: int, clk: int, v: int) {
    || (v == 0 && forall l, u | 0 <= l < |m| && Stores(m[l], c, e, u) :: Clk(m[l]) > clk)
    || (exists j | 0 <= j < |m| :: Stores(m[j], c, e, v) && Clk(m[j]) < clk
         && forall l, u | 0 <= l < |m| && Stores(m[l], c, e, u) :: Clk(m[l]) <= Clk(m[j]) || Clk(m[l]) > clk)
  }

  lemma CellFromLog(m: seq<Row>, k: nat, i: nat)
    requires Log(m) && k < |m| && i < 4 && IsRead(m[k]) == 1
    ensures CellHolds(m, Ctx(m[k]), Addr(m[k]) + i, Clk(m[k]), Val(m[k], i))
  {
    ValueIsLatestWrite(m, k, i);
    assert Linked(m, k);
    var w := Writer(m, m[k], k, i);
    var c, e := Ctx(m[k]), Addr(m[k]) + i;
    assert e % 4 == i;
    if w >= 0 {
      assert Stores(m[w], c, e, Val(m[k], i));
    }
  }

  lemma ElementSelection(r: Row)
    requires WellFormed(r)
    ensures var i := Idx0(r) + 2 * Idx1(r); 0 <= i < 4 && ElementAddr(r) == Addr(r) + i && ElementValue(r) == Val(r, i)
  {
  }

  lemma MemoryIndex(t: seq<Row>, k: nat)
    requires MemoryTrace(t) && k < |t| && RegionOf(t[k]) == Memory
    ensures 1 <= Start(t, 2) <= k < Start(t, 3) < |t| && Accesses(t)[k - Start(t, 2)] == t[k]
  {
    AccessBounds(t);
    AscendingRegions(t);
    RegionBounds(t, k, Memory);
    AccessIs(t, k);
  }

  lemma AccessIs(t: seq<Row>, k: nat)
    requires Start(t, 2) <= k < Start(t, 3) <= |t|
    ensures Accesses(t)[k - Start(t, 2)] == t[k]
  {
  }

  /** What a read at row r must return, given all accesses m. */
  ghost predicate ReadIsConsistent(m: seq<Row>, r: Row) {
    && (IsWord(r) == 0 ==> CellHolds(m, Ctx(r), ElementAddr(r), Clk(r), ElementValue(r)))
    && (forall i: nat | i < 4 :: CellHolds(m, Ctx(r), Addr(r) + i, Clk(r), Val(r, i)))
  }

  lemma LogReads(m: seq<Row>, k: nat)
    requires Log(m) && k < |m| && IsRead(m[k]) == 1
    ensures ReadIsConsistent(m, m[k])
  {
    assert Linked(m, k);
    ElementSelection(m[k]);
    WordHolds(m, k);
  }

  lemma WordHolds(m: seq<Row>, k: nat)
    requires Log(m) && k < |m| && IsRead(m[k]) == 1
    ensures forall i: nat | i < 4 :: CellHolds(m, Ctx(m[k]), Addr(m[k]) + i, Clk(m[k]), Val(m[k], i))
  {
    forall i: nat | i < 4
      ensures CellHolds(m, Ctx(m[k]), Addr(m[k]) + i, Clk(m[k]), Val(m[k], i))
    {
      CellFromLog(m, k, i);
    }
  }

  /** Memory is sequentially consistent: every element read and every element of every word
      read returns the content of its cell. */
  lemma ReadsAreConsistent(t: seq<Row>, k: nat)
    requires MemoryTrace(t) && k < |t| && RegionOf(t[k]) == Memory && IsRead(t[k]) == 1
    ensures 1 <= Start(t, 2) <= Start(t, 3) < |t|
    ensures ReadIsConsistent(Accesses(t), t[k])
  {
    AccessesAreALog(t);
    MemoryIndex(t, k);
    LogReads(Accesses(t), k - Start(t, 2));
  }
}
