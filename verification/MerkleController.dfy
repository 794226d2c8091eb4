/** The hasher controller on Merkle paths: one (input, output) row pair per tree level. */
module MerkleController {
  import opened Goldilocks
  import opened ChipletSelectors

  // Columns of a controller row
  function S0(r: Row): int { r[1] }
  function S1(r: Row): int { r[2] }
  function S2(r: Row): int { r[3] }
  function Index(r: Row): int { r[16] }
  function UpdateId(r: Row): int { r[17] }
  function Boundary(r: Row): int { r[18] }
  function Direction(r: Row): int { r[19] }
  function PermId(r: Row): int { r[20] }
  function Address(r: Row): int { r[21] }

  function Rate0(r: Row, j: nat): int
    requires j < 4
  {
    r[4 + j]
  }

  function Rate1(r: Row, j: nat): int
    requires j < 4
  {
    r[8 + j]
  }

  function Slack(r: Row): int {
    r[12] + r[13] * 65536 + r[14] * 0x1_0000_0000 + r[15] * 0x1_0000_0000_0000
  }

  const HALF: int := 9223372034707292160

  // Row kinds
  function OutputFlag(r: Row): int { (1 - S0(r)) * (1 - S1(r)) }
  function MerkleInputFlag(r: Row): int { S0(r) * (S1(r) + S2(r) - S1(r) * S2(r)) }
  function DigestFlag(r: Row): int { (1 - S0(r)) * (1 - S1(r)) * (1 - S2(r)) }

  ghost predicate KindConstraints(m0: Row, m1: Row, tr: int) {
    var act, trans, last := 1 - m0[0], tr * (1 - m0[0]) * (1 - m1[0]), (1 - m0[0]) * m1[0];
    && Zero(act * (S0(m0) * (S0(m0) - 1)))
    && Zero(act * (S1(m0) * (S1(m0) - 1)))
    && Zero(act * (S2(m0) * (S2(m0) - 1)))
    && Zero(act * (Boundary(m0) * (Boundary(m0) - 1)))
    && Zero(last * S0(m0))
    && Zero(trans * (S0(m0) * ((1 - S0(m1)) * (1 - S1(m1)) - 1)))
  }

  ghost predicate IndexConstraints(m0: Row, m1: Row) {
    var inp := (1 - m0[0]) * MerkleInputFlag(m0);
    && Zero(inp * (Index(m0) - (Index(m1) + Index(m1) + Direction(m0))))
    && Zero(inp * (Direction(m0) * (Direction(m0) - 1)))
    && Zero(inp * Boundary(m0) * (Index(m1) + Slack(m0) + Direction(m0) - HALF))
    && Zero((1 - m0[0]) * (OutputFlag(m0) * ((1 - Boundary(m0)) * (MerkleInputFlag(m1) * (Index(m1) - Index(m0))))))
    && Zero((1 - m0[0]) * (DigestFlag(m0) * Index(m0)))
  }

  ghost predicate RoutingConstraints(m0: Row, m1: Row) {
    var gate := (1 - m0[0]) * OutputFlag(m0) * (1 - Boundary(m0)) * MerkleInputFlag(m1);
    && Zero(gate * (Direction(m0) - Direction(m1)))
    && forall j: nat | j < 4 :: Zero(gate * (Rate0(m0, j) - (Rate0(m1, j) + Direction(m0) * (Rate1(m1, j) - Rate0(m1, j)))))
  }

  /** Rows are addressed by a counter that starts at 1. */
  ghost predicate AddressConstraints(m0: Row, m1: Row, tr: int, fst: int) {
    Zero(fst * (Address(m0) - 1)) && Zero(tr * (Address(m1) - (Address(m0) + 1)))
  }

  ghost predicate ControllerAt(t: seq<Row>, i: nat)
    requires i < |t|
  {
    && AddressConstraints(t[i], Next(t, i), Tr(t, i), Fst(i))
    && KindConstraints(t[i], Next(t, i), Tr(t, i))
    && IndexConstraints(t[i], Next(t, i))
    && RoutingConstraints(t[i], Next(t, i))
  }

  function PaddingFlag(r: Row): int { (1 - S0(r)) * S1(r) }
  function SpongeInputFlag(r: Row): int { S0(r) * (1 - S1(r)) * (1 - S2(r)) }
  function UpdateInputFlag(r: Row): int { S0(r) * S1(r) * (1 - S2(r)) }

  /** Which rows may follow each other, and the cells that rows of one operation share. */
  ghost predicate SequenceConstraints(m0: Row, m1: Row, tr: int) {
    var trans, last := tr * (1 - m0[0]) * (1 - m1[0]), (1 - m0[0]) * m1[0];
    && Zero(trans * (OutputFlag(m0) * OutputFlag(m1)))
    && Zero(trans * (PaddingFlag(m0) * (PaddingFlag(m1) - 1)))
    && Zero(last * (OutputFlag(m0) * (Boundary(m0) - 1)))
    && Zero(trans * (S0(m0) * (PermId(m1) - PermId(m0))))
    && Zero(trans * (UpdateId(m1) - (UpdateId(m0) + UpdateInputFlag(m1) * Boundary(m1))))
    && (forall k: nat | 12 <= k < 16 :: Zero(trans * SpongeInputFlag(m1) * (1 - Boundary(m1)) * (m1[k] - m0[k])))
  }

  /** Cells that a kind of row leaves empty. */
  ghost predicate EmptyConstraints(m: Row) {
    var act := 1 - m[0];
    && Zero(act * (PaddingFlag(m) * Boundary(m))) && Zero(act * (PaddingFlag(m) * Direction(m))) && Zero(act * (PaddingFlag(m) * PermId(m)))
    && Zero(act * (SpongeInputFlag(m) * Index(m))) && Zero(act * (SpongeInputFlag(m) * Direction(m)))
    && (forall k: nat | 12 <= k < 16 :: Zero(act * MerkleInputFlag(m) * (1 - Boundary(m)) * m[k]))
    && Zero(act * (DigestFlag(m) * Direction(m)))
    && Zero(act * (OutputFlag(m) * S2(m) * (Boundary(m) * Direction(m))))
  }

  ghost predicate ShapeAt(t: seq<Row>, i: nat)
    requires i < |t|
  {
    SequenceConstraints(t[i], Next(t, i), Tr(t, i)) && EmptyConstraints(t[i])
  }

  ghost predicate ControllerTrace(t: seq<Row>) {
    && Selected(t)
    && (forall i | 0 <= i < |t| :: ControllerAt(t, i))
    && (forall i | 0 <= i < |t| :: ShapeAt(t, i))
  }

  // Paths
  // ----------------------------------------------------------------------------

  ghost predicate MerkleInput(r: Row) {
    r[0] == 0 && S0(r) == 1 && (S1(r) == 1 || S2(r) == 1)
  }

  ghost predicate OutputRow(r: Row) {
    r[0] == 0 && S0(r) == 0 && S1(r) == 0 && Bit(S2(r)) && Bit(Boundary(r))
  }

  /** Level k of a path of d levels that starts at row a: an input row and its output row. Only
      level 0 starts an operation and only the last level returns a digest. */
  ghost predicate LevelAt(t: seq<Row>, a: nat, d: nat, k: nat)
    requires a + 2 * d <= |t| && k < d
  {
    && MerkleInput(t[a + 2 * k])
    && (k == 0 ==> Boundary(t[a + 2 * k]) == 1)
    && (if k + 1 < d then Boundary(t[a + 2 * k + 1]) == 0 else S2(t[a + 2 * k + 1]) == 0)
  }

  ghost predicate Path(t: seq<Row>, a: nat, d: nat) {
    d >= 1 && a + 2 * d <= |t| && forall k | 0 <= k < d :: LevelAt(t, a, d, k)
  }

  /** Every input row is followed by a controller output row. */
  lemma InputThenOutput(t: seq<Row>, i: nat)
    requires ControllerTrace(t) && i + 1 < |t| && MerkleInput(t[i])
    ensures OutputRow(t[i + 1])
  {
    var m0, m1 := t[i], t[i + 1];
    assert ControllerAt(t, i) && ControllerAt(t, i + 1) && SelectorsAt(t, i + 1);
    StaysInController(m0, m1);
    ControllerBits(t, i + 1);
    FollowedByOutput(m0, m1);
  }

  lemma StaysInController(m0: Row, m1: Row)
    requires KindConstraints(m0, m1, 1) && m0[0] == 0 && S0(m0) == 1
    ensures m1[0] == 0
  {
    ZeroIsSmall(m1[0]);
  }

  lemma ControllerBits(t: seq<Row>, i: nat)
    requires i < |t| && ControllerAt(t, i) && t[i][0] == 0
    ensures Bit(S0(t[i])) && Bit(S1(t[i])) && Bit(S2(t[i])) && Bit(Boundary(t[i]))
  {
    ZeroIsBit(S0(t[i]));
    ZeroIsBit(S1(t[i]));
    ZeroIsBit(S2(t[i]));
    ZeroIsBit(Boundary(t[i]));
  }

  lemma FollowedByOutput(m0: Row, m1: Row)
    requires KindConstraints(m0, m1, 1) && m0[0] == 0 && S0(m0) == 1 && m1[0] == 0
    requires Bit(S0(m1)) && Bit(S1(m1))
    ensures S0(m1) == 0 && S1(m1) == 0
  {
    if S0(m1) == 1 || S1(m1) == 1 {
      ZeroIsSmall(0 - 1);
    }
  }

  lemma InputStep(m0: Row, m1: Row)
    requires IndexConstraints(m0, m1) && MerkleInput(m0) && Bit(S1(m0)) && Bit(S2(m0))
    ensures Bit(Direction(m0)) && Zero(Index(m0) - (Index(m1) + Index(m1) + Direction(m0)))
    ensures Boundary(m0) == 1 ==> Zero(Index(m1) + Slack(m0) + Direction(m0) - HALF)
  {
    assert MerkleInputFlag(m0) == 1;
    ZeroIsBit(Direction(m0));
  }

  lemma OutputStep(m0: Row, m1: Row)
    requires IndexConstraints(m0, m1) && OutputRow(m0) && MerkleInput(m1) && Bit(S1(m1)) && Bit(S2(m1))
    requires Boundary(m0) == 0
    ensures Index(m1) == Index(m0)
  {
    assert MerkleInputFlag(m1) == 1 && OutputFlag(m0) == 1;
    ZeroIsSmall(Index(m1) - Index(m0));
  }

  lemma DigestStep(m0: Row, m1: Row)
    requires IndexConstraints(m0, m1) && OutputRow(m0) && S2(m0) == 0
    ensures Index(m0) == 0
  {
    ZeroIsSmall(Index(m0));
  }

  // Canonical index
  // ----------------------------------------------------------------------------

  /** The number whose binary digits are the direction bits from level k on. */
  function BitsFrom(t: seq<Row>, a: nat, d: nat, k: nat): int
    requires a + 2 * d <= |t|
    decreases d - k
  {
    if k >= d then 0 else Direction(t[a + 2 * k]) + 2 * BitsFrom(t, a, d, k + 1)
  }

  lemma {:induction false} BitsBound(t: seq<Row>, a: nat, d: nat, k: nat)
    requires ControllerTrace(t) && Path(t, a, d) && k <= d
    ensures 0 <= BitsFrom(t, a, d, k) < Pow2(d - k)
    decreases d - k
  {
    if k < d {
      BitsBound(t, a, d, k + 1);
      LevelInput(t, a, d, k);
    }
  }

  lemma LevelInput(t: seq<Row>, a: nat, d: nat, k: nat)
    requires ControllerTrace(t) && Path(t, a, d) && k < d
    ensures var m0, m1 := t[a + 2 * k], t[a + 2 * k + 1];
            && OutputRow(m1) && Bit(Direction(m0))
            && Zero(Index(m0) - (Index(m1) + Index(m1) + Direction(m0)))
            && (k == 0 ==> Zero(Index(m1) + Slack(m0) + Direction(m0) - HALF))
  {
    assert LevelAt(t, a, d, k);
    InputThenOutput(t, a + 2 * k);
    assert ControllerAt(t, a + 2 * k);
    ControllerBits(t, a + 2 * k);
    InputStep(t[a + 2 * k], t[a + 2 * k + 1]);
  }

  /** The index on the output row of level k is the suffix of direction bits after it. */
  lemma {:induction false} SuffixIndex(t: seq<Row>, a: nat, d: nat, k: nat)
    requires ControllerTrace(t) && Path(t, a, d) && k < d <= 64
    ensures Index(t[a + 2 * k + 1]) == BitsFrom(t, a, d, k + 1)
    decreases d - k
  {
    LevelInput(t, a, d, k);
    assert LevelAt(t, a, d, k) && ControllerAt(t, a + 2 * k + 1);
    var out := t[a + 2 * k + 1];
    if k + 1 == d {
      DigestStep(out, Next(t, a + 2 * k + 1));
    } else {
      SuffixIndex(t, a, d, k + 1);
      LevelInput(t, a, d, k + 1);
      NextLevel(t, a, d, k);
      BitsBound(t, a, d, k + 2);
      Pow2Bound(d - k - 2);
      DoubleExact(Index(t[a + 2 * (k + 1)]), BitsFrom(t, a, d, k + 2), Direction(t[a + 2 * (k + 1)]));
    }
  }

  lemma NextLevel(t: seq<Row>, a: nat, d: nat, k: nat)
    requires ControllerTrace(t) && Path(t, a, d) && k + 1 < d && OutputRow(t[a + 2 * k + 1])
    ensures Index(t[a + 2 * (k + 1)]) == Index(t[a + 2 * k + 1])
  {
    assert LevelAt(t, a, d, k) && LevelAt(t, a, d, k + 1);
    assert ControllerAt(t, a + 2 * k + 1) && ControllerAt(t, a + 2 * (k + 1));
    ControllerBits(t, a + 2 * (k + 1));
    OutputStep(t[a + 2 * k + 1], t[a + 2 * (k + 1)]);
  }

  lemma Pow2Bound(n: nat)
    requires n <= 62
    ensures 2 * Pow2(n) <= 0x8000_0000_0000_0000
  {
    Pow2Monotone(n + 1, 63);
    Pow2Values();
  }

  lemma DoubleExact(x: Felt, y: nat, b: int)
    requires Zero(x - (y + y + b)) && Bit(b) && y < 0x4000_0000_0000_0000
    ensures x == b + 2 * y
  {
    ZeroIsSmall(x - (y + y + b));
  }

  /** The slack limbs of a level-0 input row, and twice the last one, are range checked. */
  ghost predicate SlackChecked(r: Row) {
    U16(r[12]) && U16(r[13]) && U16(r[14]) && U16(r[15]) && U16((2 * r[15]) % P)
  }

  lemma SlackBound(r: Row)
    requires SlackChecked(r)
    ensures 0 <= Slack(r) < 0x8000_0000_0000_0000
  {
    assert 2 * r[15] < P;
  }

  /** The slack equation leaves no room for an index at or above P. */
  lemma NoWrap(x: nat, y: nat, b: int, n: Felt)
    requires x < 0x8000_0000_0000_0000 && y < 0x8000_0000_0000_0000 && Bit(b)
    requires Zero(x + y + b - HALF) && Zero(n - (x + x + b))
    ensures n == b + 2 * x
  {
    assert x + y + b - HALF == 0;
    ZeroIsSmall(n - (x + x + b));
  }

  lemma FirstLevel(t: seq<Row>, a: nat, d: nat)
    requires ControllerTrace(t) && Path(t, a, d) && d <= 64
    ensures var x := BitsFrom(t, a, d, 1);
            && 0 <= x < 0x8000_0000_0000_0000 && Bit(Direction(t[a]))
            && Zero(x + Slack(t[a]) + Direction(t[a]) - HALF)
            && Zero(Index(t[a]) - (x + x + Direction(t[a])))
  {
    SuffixIndex(t, a, d, 0);
    LevelInput(t, a, d, 0);
    BitsBound(t, a, d, 1);
    Pow2Monotone(d - 1, 63);
    Pow2Values();
    assert t[a + 2 * 0] == t[a];
  }

  /** For every path of at most 64 levels the direction bits spell the index itself. */
  lemma IndexIsCanonical(t: seq<Row>, a: nat, d: nat)
    requires ControllerTrace(t) && Path(t, a, d) && d <= 64 && SlackChecked(t[a])
    ensures Index(t[a]) == BitsFrom(t, a, d, 0) < Pow2(d)
  {
    FirstLevel(t, a, d);
    SlackBound(t[a]);
    NoWrap(BitsFrom(t, a, d, 1), Slack(t[a]), Direction(t[a]), Index(t[a]));
    BitsBound(t, a, d, 0);
    assert t[a + 2 * 0] == t[a];
  }

  /** Conversely every canonical index has range-checkable slack limbs. */
  lemma SlackExists(n: Felt) returns (y0: nat, y1: nat, y2: nat, y3: nat)
    ensures U16(y0) && U16(y1) && U16(y2) && U16(y3) && U16((2 * y3) % P)
    ensures n / 2 + (y0 + y1 * 65536 + y2 * 0x1_0000_0000 + y3 * 0x1_0000_0000_0000) + n % 2 == HALF
  {
    var y := HALF - n / 2 - n % 2;
    y0, y1, y2, y3 := y % 65536, y / 65536 % 65536, y / 0x1_0000_0000 % 65536, y / 0x1_0000_0000_0000;
  }

  lemma {:induction false} BitsAreDigits(t: seq<Row>, a: nat, d: nat, j: nat, k: nat)
    requires ControllerTrace(t) && Path(t, a, d) && j + k <= d
    ensures BitsFrom(t, a, d, j) >= 0
    ensures ShiftRight(BitsFrom(t, a, d, j), k) == BitsFrom(t, a, d, j + k)
    decreases k
  {
    BitsBound(t, a, d, j);
    if k > 0 {
      LevelInput(t, a, d, j);
      BitsAreDigits(t, a, d, j + 1, k - 1);
      assert BitsFrom(t, a, d, j) / 2 == BitsFrom(t, a, d, j + 1);
    }
  }

  /** Direction bit k is binary digit k of the index, and the index has no digits beyond the depth. */
  lemma DirectionBitsAreDigits(t: seq<Row>, a: nat, d: nat, k: nat)
    requires ControllerTrace(t) && Path(t, a, d) && d <= 64 && SlackChecked(t[a]) && k < d
    ensures ShiftRight(Index(t[a]), k) % 2 == Direction(t[a + 2 * k])
    ensures ShiftRight(Index(t[a]), d) == 0
  {
    IndexIsCanonical(t, a, d);
    BitsAreDigits(t, a, d, 0, k);
    BitsAreDigits(t, a, d, 0, d);
    LowDigit(t, a, d, k);
  }

  lemma LowDigit(t: seq<Row>, a: nat, d: nat, k: nat)
    requires ControllerTrace(t) && Path(t, a, d) && k < d
    ensures BitsFrom(t, a, d, k) % 2 == Direction(t[a + 2 * k]) && BitsFrom(t, a, d, k) / 2 == BitsFrom(t, a, d, k + 1)
    ensures BitsFrom(t, a, d, d) == 0
  {
    LevelInput(t, a, d, k);
    assert BitsFrom(t, a, d, k) == Direction(t[a + 2 * k]) + 2 * BitsFrom(t, a, d, k + 1);
  }

  // The requested depth
  // ----------------------------------------------------------------------------

  /** The range checks on the depth of a request. */
  ghost predicate DepthChecked(depth: Felt) {
    U16(depth) && U16((1024 * (depth - 1)) % P)
  }

  /** They pass for exactly the depths 1 to 64. */
  lemma DepthIsBounded(depth: Felt)
    ensures DepthChecked(depth) <==> 1 <= depth <= 64
  {
    if U16(depth) && depth > 0 {
      assert (1024 * (depth - 1)) % P == 1024 * (depth - 1);
    }
  }

  lemma {:induction false} AddressIsIndex(t: seq<Row>, i: nat)
    requires ControllerTrace(t) && i < |t| < P
    ensures Address(t[i]) == i + 1
  {
    if i == 0 {
      assert ControllerAt(t, 0);
      ZeroIsSmall(Address(t[0]) - 1);
    } else {
      AddressIsIndex(t, i - 1);
      assert ControllerAt(t, i - 1);
      ZeroIsSmall(Address(t[i]) - (i + 1));
    }
  }

  /** Rows a and b answer a request for a path of the given depth: a starts a path, b returns a digest,
      and the request names the address of a and the one 2 * depth - 1 rows on. */
  ghost predicate Answers(t: seq<Row>, a: nat, b: nat, depth: Felt)
    requires a < |t| && b < |t|
  {
    && MerkleInput(t[a]) && Boundary(t[a]) == 1 && OutputRow(t[b]) && S2(t[b]) == 0
    && DepthChecked(depth) && Zero(Address(t[b]) - (Address(t[a]) + depth * 2 - 1))
  }

  /** So there are as many row pairs from a to b as the request has levels, and at most 64. */
  lemma RequestedDepth(t: seq<Row>, a: nat, b: nat, depth: Felt)
    requires ControllerTrace(t) && |t| <= P - 128 && a < |t| && b < |t| && Answers(t, a, b, depth)
    ensures b == a + 2 * depth - 1 && 1 <= depth <= 64
  {
    AddressIsIndex(t, a);
    AddressIsIndex(t, b);
    DepthIsBounded(depth);
    ZeroIsSmall(b - (a + 2 * depth - 1));
  }

  /** An output row that passes its digest on: it ends no operation and a path goes on after it. */
  ghost predicate ContinuesAt(t: seq<Row>, i: nat)
    requires i + 1 < |t|
  {
    OutputRow(t[i]) ==> Boundary(t[i]) == 0 && MerkleInput(t[i + 1])
  }

  ghost predicate Continued(t: seq<Row>, a: nat, b: nat)
    requires b < |t|
  {
    forall i: nat | a <= i < b :: ContinuesAt(t, i)
  }

  lemma {:induction false} LevelsFollow(t: seq<Row>, a: nat, d: nat, k: nat)
    requires ControllerTrace(t) && k < d && a + 2 * d <= |t| && MerkleInput(t[a]) && Continued(t, a, a + 2 * d - 1)
    ensures MerkleInput(t[a + 2 * k])
    ensures k > 0 ==> Boundary(t[a + 2 * k - 1]) == 0
  {
    if k > 0 {
      LevelsFollow(t, a, d, k - 1);
      InputThenOutput(t, a + 2 * (k - 1));
      assert ContinuesAt(t, a + 2 * k - 1);
    }
  }

  /** The rows of an answer form one path exactly when every output row before the last passes its digest on. */
  lemma PathIffContinued(t: seq<Row>, a: nat, b: nat, depth: Felt)
    requires ControllerTrace(t) && |t| <= P - 128 && a < |t| && b < |t| && Answers(t, a, b, depth)
    ensures Path(t, a, depth) <==> Continued(t, a, b)
  {
    RequestedDepth(t, a, b, depth);
    if Continued(t, a, b) {
      forall k | 0 <= k < depth
        ensures LevelAt(t, a, depth, k)
      {
        LevelsFollow(t, a, depth, k);
        if k + 1 < depth { LevelsFollow(t, a, depth, k + 1); }
      }
    }
    if Path(t, a, depth) {
      forall i: nat | a <= i < b
        ensures ContinuesAt(t, i)
      {
        LevelContinues(t, a, depth, i, (i - a) / 2);
      }
    }
  }

  lemma LevelContinues(t: seq<Row>, a: nat, d: nat, i: nat, k: nat)
    requires Path(t, a, d) && a <= i < a + 2 * d - 1 && k == (i - a) / 2
    ensures ContinuesAt(t, i)
  {
    assert LevelAt(t, a, d, k);
    if i == a + 2 * k + 1 {
      assert LevelAt(t, a, d, k + 1);
    } else {
      assert i == a + 2 * k;
    }
  }

  // The path recomputes a root
  // ----------------------------------------------------------------------------

  type Digest = seq<int>

  /** The node being authenticated on an input row, in the rate half its direction bit names. */
  function Node(r: Row): Digest {
    if Direction(r) == 1 then r[8..12] else r[4..8]
  }

  function Sibling(r: Row): Digest {
    if Direction(r) == 1 then r[4..8] else r[8..12]
  }

  function Output(r: Row): Digest {
    r[4..8]
  }

  /** The root reached from a leaf: binary digits of the index choose left or right at each level. */
  function RootFrom(h: (Digest, Digest) -> Digest, leaf: Digest, siblings: seq<Digest>, index: nat): Digest
    decreases |siblings|
  {
    if siblings == [] then leaf
    else
      var parent := if index % 2 == 0 then h(leaf, siblings[0]) else h(siblings[0], leaf);
      RootFrom(h, parent, siblings[1..], index / 2)
  }

  function Siblings(t: seq<Row>, a: nat, d: nat, k: nat): seq<Digest>
    requires a + 2 * d <= |t|
    decreases d - k
  {
    if k >= d then [] else [Sibling(t[a + 2 * k])] + Siblings(t, a, d, k + 1)
  }

  /** The permutation bus: each output row holds the compression of its input row. */
  ghost predicate Compressed(t: seq<Row>, a: nat, d: nat, h: (Digest, Digest) -> Digest)
    requires a + 2 * d <= |t|
  {
    forall k | 0 <= k < d :: CompressedAt(t, a, k, h)
  }

  ghost predicate CompressedAt(t: seq<Row>, a: nat, k: nat, h: (Digest, Digest) -> Digest)
    requires a + 2 * k + 1 < |t|
  {
    Output(t[a + 2 * k + 1]) == h(t[a + 2 * k][4..8], t[a + 2 * k][8..12])
  }

  lemma RoutedCell(m0: Row, m1: Row, j: nat)
    requires RoutingConstraints(m0, m1) && OutputRow(m0) && Boundary(m0) == 0 && MerkleInputFlag(m1) == 1
    requires Direction(m0) == Direction(m1) && Bit(Direction(m1)) && j < 4
    ensures Rate0(m0, j) == if Direction(m1) == 1 then Rate1(m1, j) else Rate0(m1, j)
  {
    var x, y, b := Rate0(m1, j), Rate1(m1, j), Direction(m1);
    assert OutputFlag(m0) == 1;
    assert Zero(Rate0(m0, j) - (x + b * (y - x)));
    ChosenHalf(Rate0(m0, j), x, y, b);
  }

  lemma ChosenHalf(z: Felt, x: Felt, y: Felt, b: int)
    requires Bit(b) && Zero(z - (x + b * (y - x)))
    ensures z == if b == 1 then y else x
  {
    ZeroIsSmall(z - (if b == 1 then y else x));
  }

  lemma RoutedDirection(m0: Row, m1: Row)
    requires RoutingConstraints(m0, m1) && OutputRow(m0) && Boundary(m0) == 0 && MerkleInputFlag(m1) == 1
    ensures Direction(m0) == Direction(m1)
  {
    assert OutputFlag(m0) == 1;
    ZeroIsSmall(Direction(m0) - Direction(m1));
  }

  /** The digest of one level is the node of the next. */
  lemma DigestRouted(t: seq<Row>, a: nat, d: nat, k: nat)
    requires ControllerTrace(t) && Path(t, a, d) && k + 1 < d
    ensures Node(t[a + 2 * (k + 1)]) == Output(t[a + 2 * k + 1])
  {
    LevelInput(t, a, d, k);
    LevelInput(t, a, d, k + 1);
    var m0, m1 := t[a + 2 * k + 1], t[a + 2 * (k + 1)];
    assert LevelAt(t, a, d, k) && LevelAt(t, a, d, k + 1);
    assert ControllerAt(t, a + 2 * k + 1) && ControllerAt(t, a + 2 * (k + 1));
    ControllerBits(t, a + 2 * (k + 1));
    RoutedNode(m0, m1);
  }

  lemma RoutedNode(m0: Row, m1: Row)
    requires RoutingConstraints(m0, m1) && OutputRow(m0) && Boundary(m0) == 0
    requires MerkleInput(m1) && Bit(S1(m1)) && Bit(S2(m1)) && Bit(Direction(m1))
    ensures Node(m1) == Output(m0)
  {
    assert MerkleInputFlag(m1) == 1;
    RoutedDirection(m0, m1);
    RoutedCell(m0, m1, 0);
    RoutedCell(m0, m1, 1);
    RoutedCell(m0, m1, 2);
    RoutedCell(m0, m1, 3);
  }

  lemma {:induction false} PathRootFrom(t: seq<Row>, a: nat, d: nat, h: (Digest, Digest) -> Digest, k: nat)
    requires ControllerTrace(t) && Path(t, a, d) && Compressed(t, a, d, h) && k < d
    ensures BitsFrom(t, a, d, k) >= 0
    ensures Output(t[a + 2 * d - 1]) == RootFrom(h, Node(t[a + 2 * k]), Siblings(t, a, d, k), BitsFrom(t, a, d, k))
    decreases d - k
  {
    BitsBound(t, a, d, k);
    BitsBound(t, a, d, k + 1);
    LowDigit(t, a, d, k);
    LevelHashes(t, a, d, h, k);
    RootStep(h, Node(t[a + 2 * k]), Siblings(t, a, d, k), BitsFrom(t, a, d, k));
    assert Siblings(t, a, d, k)[1..] == Siblings(t, a, d, k + 1);
    if k + 1 < d {
      PathRootFrom(t, a, d, h, k + 1);
      DigestRouted(t, a, d, k);
    }
  }

  lemma RootStep(h: (Digest, Digest) -> Digest, leaf: Digest, siblings: seq<Digest>, index: nat)
    requires siblings != []
    ensures RootFrom(h, leaf, siblings, index)
         == RootFrom(h, if index % 2 == 0 then h(leaf, siblings[0]) else h(siblings[0], leaf), siblings[1..], index / 2)
  {
  }

  /** One level hashes node and sibling in the order its direction bit gives. */
  lemma LevelHashes(t: seq<Row>, a: nat, d: nat, h: (Digest, Digest) -> Digest, k: nat)
    requires ControllerTrace(t) && Path(t, a, d) && Compressed(t, a, d, h) && k < d
    ensures var r := t[a + 2 * k];
            && Bit(Direction(r))
            && Output(t[a + 2 * k + 1]) == if Direction(r) == 0 then h(Node(r), Sibling(r)) else h(Sibling(r), Node(r))
  {
    LevelInput(t, a, d, k);
    assert CompressedAt(t, a, k, h);
  }

  /** Every satisfying path of at most 64 levels ends in the root computed from its leaf, its
      siblings and the canonical binary digits of its index. */
  lemma PathComputesRoot(t: seq<Row>, a: nat, d: nat, h: (Digest, Digest) -> Digest)
    requires ControllerTrace(t) && Path(t, a, d) && d <= 64 && SlackChecked(t[a]) && Compressed(t, a, d, h)
    ensures Output(t[a + 2 * d - 1]) == RootFrom(h, Node(t[a]), Siblings(t, a, d, 0), Index(t[a]))
  {
    IndexIsCanonical(t, a, d);
    PathRootFrom(t, a, d, h, 0);
    assert t[a + 2 * 0] == t[a];
  }

  lemma RequestedPath(t: seq<Row>, a: nat, b: nat, depth: Felt)
    requires ControllerTrace(t) && |t| <= P - 128 && a < |t| && b < |t| && Answers(t, a, b, depth) && Continued(t, a, b)
    ensures 1 <= depth <= 64 && Path(t, a, depth) && t[b] == t[a + 2 * depth - 1]
  {
    RequestedDepth(t, a, b, depth);
    PathIffContinued(t, a, b, depth);
  }

  lemma RequestedIndex(t: seq<Row>, a: nat, b: nat, depth: Felt)
    requires ControllerTrace(t) && |t| <= P - 128 && a < |t| && b < |t| && Answers(t, a, b, depth) && Continued(t, a, b)
    requires SlackChecked(t[a]) && a + 2 * depth <= |t|
    ensures Index(t[a]) == BitsFrom(t, a, depth, 0) < Pow2(depth)
  {
    RequestedPath(t, a, b, depth);
    IndexIsCanonical(t, a, depth);
  }

  /** The same for every request whose answer is one path, with no bound on its length assumed. */
  lemma RequestedRoot(t: seq<Row>, a: nat, b: nat, depth: Felt, h: (Digest, Digest) -> Digest)
    requires ControllerTrace(t) && |t| <= P - 128 && a < |t| && b < |t| && Answers(t, a, b, depth) && Continued(t, a, b)
    requires SlackChecked(t[a]) && a + 2 * depth <= |t| && Compressed(t, a, depth, h)
    ensures Index(t[a]) == BitsFrom(t, a, depth, 0) < Pow2(depth)
    ensures Output(t[b]) == RootFrom(h, Node(t[a]), Siblings(t, a, depth, 0), Index(t[a]))
  {
    RequestedPath(t, a, b, depth);
    RequestedIndex(t, a, b, depth);
    PathComputesRoot(t, a, depth, h);
  }
}
