/** A run of the hasher controller that meets its constraints and answers exactly the messages of one
    MPVERIFY and one HPERM, while the rows between the two addresses of MPVERIFY are no path. */
module BrokenPath {
  import opened Goldilocks
  import opened ChipletSelectors
  import opened MerkleController

  type Four = s: seq<Felt> | |s| == 4 witness [0, 0, 0, 0]

  /** A controller row: selectors, first rate half, capacity, boundary flag and permutation. All other
      cells of its operation are zero. */
  datatype Cells = Cells(s0: Felt, s1: Felt, s2: Felt, rate: Four, capacity: Four, boundary: Felt, perm: Felt)

  function ControllerRow(v: Cells, addr: Felt): Row {
    [0, v.s0, v.s1, v.s2] + v.rate + [0, 0, 0, 0] + v.capacity + [0, 0, v.boundary, 0, v.perm, addr]
  }

  function PaddingRow(addr: Felt): Row {
    [1, 1, 1, 1, 1, 0, 0, 0, 0, 0, 0, 0, 0, 0, 0, 0, 0, 0, 0, 0, 0, addr]
  }

  const NONE: Four := [0, 0, 0, 0]
  const LEAF: Four := [1, 1, 1, 1]
  const NODE: Four := [2, 2, 2, 2]
  const SLACK: Four := [0, 0x8000, 0xFFFF, 0x7FFF]

  /** Level 0 of a path, a whole permutation, and a later level with a node of its own. */
  function At(i: nat): Cells
    requires i < 6
  {
    match i
    case 0 => Cells(1, 0, 1, LEAF, SLACK, 1, 0)
    case 1 => Cells(0, 0, 1, LEAF, NONE, 0, 0)
    case 2 => Cells(1, 0, 0, NONE, NONE, 1, 1)
    case 3 => Cells(0, 0, 1, NONE, NONE, 1, 1)
    case 4 => Cells(1, 0, 1, NODE, NONE, 0, 2)
    case _ => Cells(0, 0, 0, NODE, NONE, 1, 2)
  }

  function RowAt(i: nat): Row
    requires i < 7
  {
    if i < 6 then ControllerRow(At(i), i + 1) else PaddingRow(7)
  }

  function Run(): (t: seq<Row>)
    ensures |t| == 7 && forall i: nat | i < 7 :: t[i] == RowAt(i)
  {
    seq(7, i requires 0 <= i < 7 => RowAt(i))
  }

  // Constraints
  // ----------------------------------------------------------------------------

  lemma CellsOf(v: Cells, addr: Felt)
    ensures var r := ControllerRow(v, addr);
            && r[0] == 0 && S0(r) == v.s0 && S1(r) == v.s1 && S2(r) == v.s2 && Boundary(r) == v.boundary
            && Index(r) == 0 && Direction(r) == 0 && UpdateId(r) == 0 && PermId(r) == v.perm && Address(r) == addr
            && r[4..8] == v.rate && r[8..12] == NONE && r[12..16] == v.capacity
            && (forall j: nat | j < 4 :: Rate0(r, j) == v.rate[j] && Rate1(r, j) == 0)
            && (forall k: nat | 12 <= k < 16 :: r[k] == v.capacity[k - 12])
  {
  }

  lemma PaddingCells(addr: Felt)
    ensures var r := PaddingRow(addr); r[0] == 1 && r[1] == 1 && r[2] == 1 && r[3] == 1 && r[4] == 1 && Address(r) == addr
  {
  }

  /** What is read off a controller row of the run. */
  ghost predicate Read(r: Row, v: Cells, i: nat) {
    && r[0] == 0 && S0(r) == v.s0 && S1(r) == v.s1 && S2(r) == v.s2 && Boundary(r) == v.boundary
    && Index(r) == 0 && Direction(r) == 0 && UpdateId(r) == 0 && PermId(r) == v.perm && Address(r) == i + 1
    && (forall k: nat | 12 <= k < 16 :: r[k] == v.capacity[k - 12])
  }

  lemma RowRead(i: nat)
    requires i < 6
    ensures Read(Run()[i], At(i), i)
  {
    CellsOf(At(i), i + 1);
  }

  lemma LastRead()
    ensures var r := Run()[6]; r[0] == 1 && r[1] == 1 && r[2] == 1 && r[3] == 1 && r[4] == 1 && Address(r) == 7
  {
    PaddingCells(7);
  }

  lemma ControllerSelectors(m0: Row, m1: Row, v: Cells, i: nat)
    requires Read(m0, v, i) && (i == 0 ==> v.s0 == 1)
    ensures SelectorConstraints(m0, m1, 1, Fst(i), 0)
  {
    assert S01(m0) == 0 && S012(m0) == 0 && S0123(m0) == 0 && S01234(m0) == 0;
  }

  lemma PaddingSelectors(m0: Row, m1: Row)
    requires m0[0] == 1 && m0[1] == 1 && m0[2] == 1 && m0[3] == 1 && m0[4] == 1
    ensures SelectorConstraints(m0, m1, 0, 0, 1)
  {
  }

  lemma SelectorsHold(i: nat)
    requires i < 7
    ensures SelectorsAt(Run(), i)
  {
    if i < 6 {
      RowRead(i);
      ControllerSelectors(Run()[i], Run()[i + 1], At(i), i);
    } else {
      LastRead();
      PaddingSelectors(Run()[6], Run()[0]);
    }
  }

  lemma InactiveRow(m0: Row, m1: Row)
    requires m0[0] == 1
    ensures KindConstraints(m0, m1, 0) && IndexConstraints(m0, m1) && RoutingConstraints(m0, m1)
    ensures SequenceConstraints(m0, m1, 0) && EmptyConstraints(m0)
  {
  }

  /** Two rows of the controller with index, direction and update id zero. */
  ghost predicate Follows(v: Cells, w: Cells) {
    && Bit(v.s0) && v.s1 == 0 && Bit(v.s2) && Bit(v.boundary) && w.s1 == 0 && Bit(w.s2) && Bit(w.boundary)
    && (v.s0 == 1 ==> w.s0 == 0 && v.perm == w.perm) && (v.s0 == 0 ==> w.s0 == 1)
    && (v.s0 == 0 && v.boundary == 0 ==> w.s2 == 0)
    && (w.s0 == 1 && w.s2 == 0 ==> w.boundary == 1)
  }

  /** Cells of a single row. */
  ghost predicate Alone(v: Cells) {
    && Bit(v.s0) && v.s1 == 0 && Bit(v.s2) && Bit(v.boundary)
    && (v.s0 == 1 && v.s2 == 1 && v.boundary == 0 ==> v.capacity == NONE)
    && (v.s0 == 1 && v.s2 == 1 && v.boundary == 1 ==> v.capacity == SLACK)
  }

  lemma AloneHolds(m: Row, v: Cells, i: nat)
    requires Read(m, v, i) && Alone(v)
    ensures EmptyConstraints(m)
  {
    assert PaddingFlag(m) == 0;
  }

  lemma KindsHold(m0: Row, m1: Row, v: Cells, w: Cells, i: nat)
    requires Read(m0, v, i) && Read(m1, w, i + 1) && Follows(v, w)
    ensures KindConstraints(m0, m1, 1)
  {
  }

  lemma IndexHolds(m0: Row, m1: Row, v: Cells, i: nat)
    requires Read(m0, v, i) && Alone(v) && Index(m1) == 0
    ensures IndexConstraints(m0, m1)
  {
    if v.s0 == 1 && v.s2 == 1 && v.boundary == 1 {
      assert m0[12] == SLACK[0] && m0[13] == SLACK[1] && m0[14] == SLACK[2] && m0[15] == SLACK[3];
      assert Slack(m0) == HALF;
    }
  }

  lemma RoutingHolds(m0: Row, m1: Row, v: Cells, w: Cells, i: nat)
    requires Read(m0, v, i) && Read(m1, w, i + 1) && Follows(v, w)
    ensures RoutingConstraints(m0, m1)
  {
    assert OutputFlag(m0) * (1 - Boundary(m0)) * MerkleInputFlag(m1) == 0;
    assert (1 - m0[0]) * OutputFlag(m0) * (1 - Boundary(m0)) * MerkleInputFlag(m1) == 0;
  }

  lemma SequenceHolds(m0: Row, m1: Row, v: Cells, w: Cells, i: nat)
    requires Read(m0, v, i) && Read(m1, w, i + 1) && Follows(v, w)
    ensures SequenceConstraints(m0, m1, 1)
  {
    assert PaddingFlag(m0) == 0 && UpdateInputFlag(m1) == 0;
    if v.s0 == 1 {
      assert OutputFlag(m0) == 0 && SpongeInputFlag(m1) == 0;
    } else {
      assert OutputFlag(m1) == 0 && (w.s2 == 1 ==> SpongeInputFlag(m1) == 0);
    }
  }

  /** The last controller row before the padding. */
  lemma EndHolds(m0: Row, m1: Row, v: Cells, i: nat)
    requires Read(m0, v, i) && v.s0 == 0 && v.s1 == 0 && v.s2 == 0 && v.boundary == 1 && m1[0] == 1
    ensures KindConstraints(m0, m1, 1) && IndexConstraints(m0, m1) && RoutingConstraints(m0, m1) && SequenceConstraints(m0, m1, 1)
  {
  }

  lemma CellsFollow(i: nat)
    requires i < 6
    ensures Alone(At(i)) && (i < 5 ==> Follows(At(i), At(i + 1)))
  {
  }

  lemma PairHolds(m0: Row, m1: Row, v: Cells, w: Cells, i: nat)
    requires Read(m0, v, i) && Read(m1, w, i + 1) && Alone(v) && Follows(v, w)
    ensures KindConstraints(m0, m1, 1) && IndexConstraints(m0, m1) && RoutingConstraints(m0, m1) && SequenceConstraints(m0, m1, 1)
  {
    KindsHold(m0, m1, v, w, i);
    IndexHolds(m0, m1, v, i);
    RoutingHolds(m0, m1, v, w, i);
    SequenceHolds(m0, m1, v, w, i);
  }

  ghost predicate RowConstraints(m0: Row, m1: Row, tr: int) {
    && KindConstraints(m0, m1, tr) && IndexConstraints(m0, m1) && RoutingConstraints(m0, m1)
    && SequenceConstraints(m0, m1, tr) && EmptyConstraints(m0)
  }

  lemma StepHolds(i: nat)
    requires i < 6
    ensures RowConstraints(Run()[i], Run()[i + 1], 1)
  {
    RowRead(i);
    CellsFollow(i);
    AloneHolds(Run()[i], At(i), i);
    if i == 5 {
      LastRead();
      EndHolds(Run()[5], Run()[6], At(5), 5);
    } else {
      RowRead(i + 1);
      PairHolds(Run()[i], Run()[i + 1], At(i), At(i + 1), i);
    }
  }

  lemma AddressesHold(i: nat)
    requires i < 7
    ensures AddressConstraints(Run()[i], Next(Run(), i), Tr(Run(), i), Fst(i))
  {
    LastRead();
    if i < 6 { RowRead(i); }
    if i < 5 { RowRead(i + 1); }
  }

  lemma RowHolds(i: nat)
    requires i < 7
    ensures ControllerAt(Run(), i) && ShapeAt(Run(), i)
  {
    AddressesHold(i);
    if i == 6 {
      LastRead();
      InactiveRow(Run()[6], Run()[0]);
    } else {
      StepHolds(i);
      assert RowConstraints(Run()[i], Next(Run(), i), Tr(Run(), i));
    }
  }

  lemma RunHolds()
    ensures ControllerTrace(Run())
  {
    var t := Run();
    forall i | 0 <= i < |t|
      ensures SelectorsAt(t, i) && ControllerAt(t, i) && ShapeAt(t, i)
    {
      SelectorsHold(i);
      RowHolds(i);
    }
  }

  // Messages
  // ----------------------------------------------------------------------------

  datatype Message =
    | SpongeStart(addr: int, state: seq<int>)
    | Absorption(addr: int, rate: seq<int>)
    | MerkleInit(s1: int, s2: int, addr: int, index: int, word: Digest)
    | ReturnHash(addr: int, index: int, word: Digest)
    | ReturnState(addr: int, state: seq<int>)

  /** What a controller row sends on the chiplets bus. */
  function Sent(r: Row): seq<Message> {
    if r[0] != 0 then []
    else if S0(r) == 1 then
      if S1(r) == 0 && S2(r) == 0 then
        [if Boundary(r) == 1 then SpongeStart(Address(r), r[4..16]) else Absorption(Address(r), r[4..12])]
      else if Boundary(r) == 1 then [MerkleInit(S1(r), S2(r), Address(r), Index(r), Node(r))] else []
    else if S1(r) == 1 then []
    else if S2(r) == 0 then [ReturnHash(Address(r), Index(r), Output(r))]
    else if Boundary(r) == 1 then [ReturnState(Address(r), r[4..16])] else []
  }

  function AllSent(t: seq<Row>): seq<Message> {
    if t == [] then [] else Sent(t[0]) + AllSent(t[1..])
  }

  /** What MPVERIFY and HPERM ask for. */
  function Mpverify(addr: int, index: int, leaf: Digest, depth: int, root: Digest): seq<Message> {
    [MerkleInit(0, 1, addr, index, leaf), ReturnHash(addr + depth * 2 - 1, 0, root)]
  }

  function Hperm(addr: int, state: seq<int>, result: seq<int>): seq<Message> {
    [SpongeStart(addr, state), ReturnState(addr + 1, result)]
  }

  const EMPTY_STATE: seq<int> := [0, 0, 0, 0, 0, 0, 0, 0, 0, 0, 0, 0]

  /** Messages of row i. */
  function Expected(i: nat): seq<Message>
    requires i < 7
  {
    match i
    case 0 => [MerkleInit(0, 1, 1, 0, LEAF)]
    case 2 => [SpongeStart(3, EMPTY_STATE)]
    case 3 => [ReturnState(4, EMPTY_STATE)]
    case 5 => [ReturnHash(6, 0, NODE)]
    case _ => []
  }

  lemma StateOf(v: Cells, addr: Felt)
    requires v.rate == NONE && v.capacity == NONE
    ensures ControllerRow(v, addr)[4..16] == EMPTY_STATE
  {
    var r := ControllerRow(v, addr);
    CellsOf(v, addr);
    assert r[4..16] == r[4..8] + r[8..12] + r[12..16];
    assert NONE + NONE + NONE == EMPTY_STATE;
  }

  lemma SentBy(i: nat)
    requires i < 7
    ensures Sent(Run()[i]) == Expected(i)
  {
    if i < 6 {
      CellsOf(At(i), i + 1);
      if i == 2 || i == 3 {
        StateOf(At(i), i + 1);
      }
    } else {
      LastRead();
    }
  }

  function SentFrom(i: nat): seq<Message>
    requires i <= 7
    decreases 7 - i
  {
    if i == 7 then [] else Expected(i) + SentFrom(i + 1)
  }

  lemma {:induction false} AllSentFrom(i: nat)
    requires i <= 7
    ensures AllSent(Run()[i..]) == SentFrom(i)
    decreases 7 - i
  {
    if i < 7 {
      AllSentFrom(i + 1);
      SentBy(i);
      assert Run()[i..][1..] == Run()[i + 1..] && Run()[i..][0] == Run()[i];
    }
  }

  lemma LastSent(z: Message)
    requires z == ReturnHash(6, 0, NODE)
    ensures SentFrom(4) == [z]
  {
    assert SentFrom(6) == Expected(6) + SentFrom(7);
    assert SentFrom(5) == Expected(5) + SentFrom(6);
    assert SentFrom(4) == Expected(4) + SentFrom(5);
  }

  lemma FirstSent(w: Message, x: Message, y: Message, z: Message)
    requires w == MerkleInit(0, 1, 1, 0, LEAF) && x == SpongeStart(3, EMPTY_STATE) && y == ReturnState(4, EMPTY_STATE)
    requires z == ReturnHash(6, 0, NODE)
    ensures SentFrom(0) == [w, x, y, z]
  {
    LastSent(z);
    assert SentFrom(3) == Expected(3) + SentFrom(4) == [y, z];
    assert SentFrom(2) == Expected(2) + SentFrom(3) == [x, y, z];
    assert SentFrom(1) == Expected(1) + SentFrom(2) == [x, y, z];
    assert SentFrom(0) == Expected(0) + SentFrom(1) == [w, x, y, z];
  }

  lemma SameMessages(w: Message, x: Message, y: Message, z: Message)
    ensures multiset([w, x, y, z]) == multiset([w, z] + [x, y])
  {
    assert [w, x, y, z] == [w] + [x, y] + [z] && [w, z] + [x, y] == [w] + [z] + [x, y];
  }

  lemma MessagesMatch()
    ensures multiset(AllSent(Run())) == multiset(Mpverify(1, 0, LEAF, 3, NODE) + Hperm(3, EMPTY_STATE, EMPTY_STATE))
  {
    AllSentFrom(0);
    assert Run()[0..] == Run();
    var (w, x) := (MerkleInit(0, 1, 1, 0, LEAF), SpongeStart(3, EMPTY_STATE));
    var (y, z) := (ReturnState(4, EMPTY_STATE), ReturnHash(6, 0, NODE));
    FirstSent(w, x, y, z);
    SameMessages(w, x, y, z);
  }

  // The answer
  // ----------------------------------------------------------------------------

  /** A compression that keeps its first argument. */
  function First(x: Digest, y: Digest): Digest { x }

  lemma KeptHalf(t: seq<Row>, k: nat)
    requires 0 + 2 * k + 1 < |t| && Output(t[0 + 2 * k + 1]) == t[0 + 2 * k][4..8]
    ensures CompressedAt(t, 0, k, First)
  {
  }

  lemma RateOf(i: nat)
    requires i < 6
    ensures Run()[i][4..8] == At(i).rate
  {
    CellsOf(At(i), i + 1);
  }

  lemma PairCompresses(k: nat)
    requires k < 3
    ensures CompressedAt(Run(), 0, k, First)
  {
    RateOf(2 * k);
    RateOf(2 * k + 1);
    KeptHalf(Run(), k);
  }

  lemma RunCompresses()
    ensures Compressed(Run(), 0, 3, First)
  {
    forall k | 0 <= k < 3
      ensures CompressedAt(Run(), 0, k, First)
    {
      PairCompresses(k);
    }
  }

  lemma RunAnswers()
    ensures Answers(Run(), 0, 5, 3) && SlackChecked(Run()[0])
  {
    RowRead(0);
    RowRead(5);
    DepthIsBounded(3);
    assert Run()[0][12] == SLACK[0] && Run()[0][13] == SLACK[1] && Run()[0][14] == SLACK[2] && Run()[0][15] == SLACK[3];
  }

  lemma {:induction false} FirstKeepsLeaf(leaf: Digest, siblings: seq<Digest>)
    ensures RootFrom(First, leaf, siblings, 0) == leaf
    decreases |siblings|
  {
    if siblings != [] {
      FirstKeepsLeaf(leaf, siblings[1..]);
    }
  }

  lemma ReturnsAnother()
    ensures Index(Run()[0]) == 0 && Output(Run()[5]) != RootFrom(First, Node(Run()[0]), Siblings(Run(), 0, 3, 0), 0)
  {
    CellsOf(At(0), 1);
    CellsOf(At(5), 6);
    FirstKeepsLeaf(Node(Run()[0]), Siblings(Run(), 0, 3, 0));
    assert LEAF[0] != NODE[0];
  }

  lemma NotContinued()
    ensures !Continued(Run(), 0, 5)
  {
    RowRead(1);
    RowRead(2);
    assert !ContinuesAt(Run(), 1);
  }

  /** The digest that is returned is not the root computed from the leaf of the request. */
  lemma ContinuityMatters()
    ensures ControllerTrace(Run()) && Answers(Run(), 0, 5, 3) && SlackChecked(Run()[0]) && Compressed(Run(), 0, 3, First)
    ensures multiset(AllSent(Run())) == multiset(Mpverify(1, 0, LEAF, 3, NODE) + Hperm(3, EMPTY_STATE, EMPTY_STATE))
    ensures !Continued(Run(), 0, 5) && !Path(Run(), 0, 3)
    ensures Index(Run()[0]) == 0 && Output(Run()[5]) != RootFrom(First, Node(Run()[0]), Siblings(Run(), 0, 3, 0), 0)
  {
    RunHolds();
    RunAnswers();
    RunCompresses();
    MessagesMatch();
    NotContinued();
    PathIffContinued(Run(), 0, 5, 3);
    ReturnsAnother();
  }
}
