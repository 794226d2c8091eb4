/** The chiplets trace: 22 columns, five prefix selectors in columns 0..4. */
module ChipletSelectors {
  import opened Goldilocks

  type Row = r: seq<int> | |r| == 22 && Canonical(r) witness seq(22, _ => 0)

  // `tr`, `fst` and `lst` are the evaluator's is_transition, is_first_row and
  // is_last_row on the current row, represented by 1 where they are nonzero.

  function Tr(t: seq<Row>, i: nat): int {
    if i + 1 < |t| then 1 else 0
  }

  function Fst(i: nat): int {
    if i == 0 then 1 else 0
  }

  function Lst(t: seq<Row>, i: nat): int {
    if i + 1 == |t| then 1 else 0
  }

  /** The row after the last one is the first one. */
  function Next(t: seq<Row>, i: nat): Row
    requires i < |t|
  {
    if i + 1 < |t| then t[i + 1] else t[0]
  }

  // Prefix products of the selectors
  function S01(r: Row): int { r[0] * r[1] }
  function S012(r: Row): int { S01(r) * r[2] }
  function S0123(r: Row): int { S012(r) * r[3] }
  function S01234(r: Row): int { S0123(r) * r[4] }

  // Activation flags
  function ControllerFlag(r: Row): int { 1 - r[0] }
  function BitwiseFlag(r: Row): int { r[0] - S01(r) }
  function MemoryFlag(r: Row): int { S01(r) - S012(r) }
  function AceFlag(r: Row): int { S012(r) - S0123(r) }
  function KernelRomFlag(r: Row): int { S0123(r) - S01234(r) }

  ghost predicate SelectorConstraints(m0: Row, m1: Row, tr: int, fst: int, lst: int) {
    && Zero(m0[0] * (m0[0] - 1))
    && Zero(tr * (m0[0] * (m1[0] - 1)))
    && Zero(m0[0] * (m0[1] * (m0[1] - 1)))
    && Zero(S01(m0) * (m0[2] * (m0[2] - 1)))
    && Zero(S012(m0) * (m0[3] * (m0[3] - 1)))
    && Zero(S0123(m0) * (m0[4] * (m0[4] - 1)))
    && Zero(tr * (S01(m0) * (m1[1] - m0[1])))
    && Zero(tr * (S012(m0) * (m1[2] - m0[2])))
    && Zero(tr * (S0123(m0) * (m1[3] - m0[3])))
    && Zero(tr * (S01234(m0) * (m1[4] - m0[4])))
    && Zero(lst * (m0[0] - 1))
    && Zero(lst * (m0[1] - 1))
    && Zero(lst * (m0[2] - 1))
    && Zero(lst * (m0[3] - 1))
    && Zero(lst * (m0[4] - 1))
    && Zero(fst * ((1 - m0[0]) * m0[1] - 1))
  }

  ghost predicate SelectorsAt(t: seq<Row>, i: nat)
    requires i < |t|
  {
    SelectorConstraints(t[i], Next(t, i), Tr(t, i), Fst(i), Lst(t, i))
  }

  ghost predicate Selected(t: seq<Row>) {
    |t| > 0 && forall i | 0 <= i < |t| :: SelectorsAt(t, i)
  }

  // Regions
  // ----------------------------------------------------------------------------

  datatype Region = Controller | Bitwise | Memory | Ace | KernelRom | Padding {
    function Rank(): nat {
      match this
      case Controller => 0
      case Bitwise => 1
      case Memory => 2
      case Ace => 3
      case KernelRom => 4
      case Padding => 5
    }
  }

  /** The region named by the first zero selector. */
  function RegionOf(r: Row): Region {
    if r[0] == 0 then Controller
    else if r[1] == 0 then Bitwise
    else if r[2] == 0 then Memory
    else if r[3] == 0 then Ace
    else if r[4] == 0 then KernelRom
    else Padding
  }

  /** Exactly the flag of the row's own region is 1, and every other flag is 0. */
  ghost predicate OneHot(r: Row) {
    && ControllerFlag(r) == AsBit(RegionOf(r) == Controller)
    && BitwiseFlag(r) == AsBit(RegionOf(r) == Bitwise)
    && MemoryFlag(r) == AsBit(RegionOf(r) == Memory)
    && AceFlag(r) == AsBit(RegionOf(r) == Ace)
    && KernelRomFlag(r) == AsBit(RegionOf(r) == KernelRom)
    && S01234(r) == AsBit(RegionOf(r) == Padding)
  }

  /** The selectors that precede the first zero are all 1. */
  ghost predicate BooleanPrefix(r: Row) {
    && Bit(r[0])
    && (r[0] == 1 ==> Bit(r[1]))
    && (r[0] == 1 && r[1] == 1 ==> Bit(r[2]))
    && (r[0] == 1 && r[1] == 1 && r[2] == 1 ==> Bit(r[3]))
    && (r[0] == 1 && r[1] == 1 && r[2] == 1 && r[3] == 1 ==> Bit(r[4]))
  }

  /** A boolean constraint gated by selectors that are all 1. */
  lemma GatedBit(g: int, x: Felt)
    requires Zero(g * (x * (x - 1))) && g == 1
    ensures Bit(x)
  {
    ZeroIsBit(x);
  }

  lemma PrefixIsBoolean(t: seq<Row>, i: nat)
    requires i < |t| && SelectorsAt(t, i)
    ensures BooleanPrefix(t[i])
  {
    var r := t[i];
    ZeroIsBit(r[0]);
    if r[0] == 1 {
      GatedBit(r[0], r[1]);
      if r[1] == 1 {
        GatedBit(S01(r), r[2]);
        if r[2] == 1 {
          GatedBit(S012(r), r[3]);
          if r[3] == 1 {
            GatedBit(S0123(r), r[4]);
          }
        }
      }
    }
  }

  lemma RankStep(t: seq<Row>, i: nat)
    requires i + 1 < |t| && SelectorsAt(t, i) && SelectorsAt(t, i + 1)
    ensures RegionOf(t[i]).Rank() <= RegionOf(t[i + 1]).Rank()
  {
    PrefixIsBoolean(t, i);
    PrefixIsBoolean(t, i + 1);
  }

  lemma {:induction false} RankMonotone(t: seq<Row>, i: nat, j: nat)
    requires Selected(t) && i <= j < |t|
    ensures RegionOf(t[i]).Rank() <= RegionOf(t[j]).Rank()
    decreases j - i
  {
    if i < j {
      RankMonotone(t, i, j - 1);
      assert SelectorsAt(t, j - 1) && SelectorsAt(t, j);
      RankStep(t, j - 1);
    }
  }

  /** Number of rows, from the front, whose region comes before rank k. */
  function Start(t: seq<Row>, k: nat): nat {
    if t == [] || RegionOf(t[0]).Rank() >= k then 0 else 1 + Start(t[1..], k)
  }

  ghost predicate Ascending(t: seq<Row>) {
    forall i, j | 0 <= i <= j < |t| :: RegionOf(t[i]).Rank() <= RegionOf(t[j]).Rank()
  }

  lemma {:induction false} StartSplits(t: seq<Row>, k: nat, i: nat)
    requires Ascending(t) && i < |t|
    ensures Start(t, k) <= |t|
    ensures i < Start(t, k) <==> RegionOf(t[i]).Rank() < k
    decreases |t|
  {
    if RegionOf(t[0]).Rank() < k && |t| > 1 {
      StartSplits(t[1..], k, if i > 0 then i - 1 else 0);
    }
  }

  lemma FlagsOneHot(r: Row)
    requires BooleanPrefix(r)
    ensures OneHot(r)
  {
  }

  lemma FirstRegion(t: seq<Row>)
    requires |t| > 0 && SelectorsAt(t, 0)
    ensures RegionOf(t[0]) == Controller
  {
    PrefixIsBoolean(t, 0);
  }

  lemma LastRegion(t: seq<Row>)
    requires |t| > 0 && SelectorsAt(t, |t| - 1)
    ensures RegionOf(t[|t| - 1]) == Padding
  {
  }

  lemma RegionBounds(t: seq<Row>, i: nat, g: Region)
    requires Ascending(t) && i < |t|
    ensures RegionOf(t[i]) == g <==> Start(t, g.Rank()) <= i < Start(t, g.Rank() + 1)
  {
    StartSplits(t, g.Rank(), i);
    StartSplits(t, g.Rank() + 1, i);
  }

  /** The trace is six contiguous regions in the fixed order, with one region flag active per
      row, beginning in the controller and ending in the padding. */
  lemma RegionsPartition(t: seq<Row>)
    requires Selected(t)
    ensures forall i | 0 <= i < |t| :: OneHot(t[i])
    ensures forall i, g: Region | 0 <= i < |t| ::
              RegionOf(t[i]) == g <==> Start(t, g.Rank()) <= i < Start(t, g.Rank() + 1)
    ensures RegionOf(t[0]) == Controller
    ensures RegionOf(t[|t| - 1]) == Padding
  {
    forall i | 0 <= i < |t|
      ensures OneHot(t[i])
    {
      PrefixIsBoolean(t, i);
      FlagsOneHot(t[i]);
    }
    AscendingRegions(t);
    forall i, g: Region | 0 <= i < |t|
      ensures RegionOf(t[i]) == g <==> Start(t, g.Rank()) <= i < Start(t, g.Rank() + 1)
    {
      RegionBounds(t, i, g);
    }
    FirstRegion(t);
    LastRegion(t);
  }

  lemma AscendingRegions(t: seq<Row>)
    requires Selected(t)
    ensures Ascending(t)
  {
    forall i, j | 0 <= i <= j < |t|
      ensures RegionOf(t[i]).Rank() <= RegionOf(t[j]).Rank()
    {
      RankMonotone(t, i, j);
    }
  }

  // Every such layout is accepted
  // ----------------------------------------------------------------------------

  /** A row of a layout: the selectors of its region, and no step back to the next row. */
  ghost predicate LaidOut(t: seq<Row>, i: nat)
    requires i < |t|
  {
    && BooleanPrefix(t[i])
    && (i + 1 < |t| ==> RegionOf(t[i]).Rank() <= RegionOf(t[i + 1]).Rank())
    && (i == 0 ==> t[0][0] == 0 && t[0][1] == 1)
    && (i + 1 == |t| ==> t[i][0] == 1 && t[i][1] == 1 && t[i][2] == 1 && t[i][3] == 1 && t[i][4] == 1)
  }

  lemma OneRow(m0: Row, m1: Row, fst: bool, lst: bool)
    requires BooleanPrefix(m0) && (!lst ==> BooleanPrefix(m1) && RegionOf(m0).Rank() <= RegionOf(m1).Rank())
    requires fst ==> m0[0] == 0 && m0[1] == 1
    requires lst ==> m0[0] == 1 && m0[1] == 1 && m0[2] == 1 && m0[3] == 1 && m0[4] == 1
    ensures SelectorConstraints(m0, m1, AsBit(!lst), AsBit(fst), AsBit(lst))
  {
    FlagsOneHot(m0);
  }

  /** The constraints accept exactly the layouts. */
  lemma SelectedIffLaidOut(t: seq<Row>)
    ensures Selected(t) <==> |t| > 0 && forall i: nat | i < |t| :: LaidOut(t, i)
  {
    if Selected(t) {
      forall i: nat | i < |t|
        ensures LaidOut(t, i)
      {
        assert SelectorsAt(t, i);
        PrefixIsBoolean(t, i);
        if i + 1 < |t| {
          assert SelectorsAt(t, i + 1);
          RankStep(t, i);
        }
        EndsOf(t, i);
      }
    } else if |t| > 0 && forall i: nat | i < |t| :: LaidOut(t, i) {
      forall i | 0 <= i < |t|
        ensures SelectorsAt(t, i)
      {
        assert LaidOut(t, i) && (i + 1 < |t| ==> LaidOut(t, i + 1));
        OneRow(t[i], Next(t, i), i == 0, i + 1 == |t|);
      }
    }
  }

  lemma EndsOf(t: seq<Row>, i: nat)
    requires i < |t| && SelectorsAt(t, i) && Bit(t[i][0])
    ensures i == 0 ==> t[0][0] == 0 && t[0][1] == 1
    ensures i + 1 == |t| ==> t[i][0] == 1 && t[i][1] == 1 && t[i][2] == 1 && t[i][3] == 1 && t[i][4] == 1
  {
  }
}
