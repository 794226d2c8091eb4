/** Completeness of the hasher controller on Merkle paths: any list of path requests, level by level, satisfies
    its constraints and answers each request with the root of its leaf. */
module MerkleComplete {
  import opened Goldilocks
  import opened ChipletSelectors
  import opened MerkleController
  import opened ControllerLaws

  type Four = s: seq<int> | |s| == 4 && Canonical(s) witness [0, 0, 0, 0]

  const NONE: Four := [0, 0, 0, 0]

  // Rows
  // ----------------------------------------------------------------------------

  /** MPVERIFY, and the two paths of MRUPDATE. */
  datatype Kind = Verify | Old | New {
    function S1(): Felt { AsBit(Old? || New?) }
    function S2(): Felt { AsBit(Verify? || New?) }
  }

  /** The row that enters a level and the row that leaves it. */
  datatype Line =
    | Enter(kind: Kind, left: Four, right: Four, slack: Four, index: Felt, update: Felt, first: bool, dir: Felt)
    | Leave(digest: Four, index: Felt, update: Felt, last: bool, dir: Felt)

  function MakeRow(l: Line, addr: Felt): (r: Row) {
    match l
    case Enter(kind, left, right, slack, index, update, first, dir) =>
      [0, 1, kind.S1(), kind.S2()] + left + right + slack + [index, update, AsBit(first), dir, 0, addr]
    case Leave(digest, index, update, last, dir) =>
      [0, 0, 0, AsBit(!last)] + digest + NONE + NONE + [index, update, AsBit(last), dir, 0, addr]
  }

  function PaddingRow(addr: Felt): Row {
    [1, 1, 1, 1, 1, 0, 0, 0, 0, 0, 0, 0, 0, 0, 0, 0, 0, 0, 0, 0, 0, addr]
  }

  function Half(l: Line, j: nat): Four
    requires j < 3
  {
    if l.Leave? then (if j == 0 then l.digest else NONE) else if j == 0 then l.left else if j == 1 then l.right else l.slack
  }

  /** What is read off a row. */
  ghost predicate Reads(r: Row, l: Line, addr: Felt) {
    && r[0] == 0 && Address(r) == addr && PermId(r) == 0 && Index(r) == l.index && UpdateId(r) == l.update && Direction(r) == l.dir
    && S0(r) == AsBit(l.Enter?) && S1(r) == (if l.Enter? then l.kind.S1() else 0)
    && S2(r) == (if l.Enter? then l.kind.S2() else AsBit(!l.last)) && Boundary(r) == AsBit(if l.Enter? then l.first else l.last)
    && r[4..8] == Half(l, 0) && r[8..12] == Half(l, 1) && r[12..16] == Half(l, 2)
  }

  lemma RowReads(l: Line, addr: Felt)
    ensures Reads(MakeRow(l, addr), l, addr)
  {
  }

  lemma Cells(r: Row, l: Line, addr: Felt, j: nat)
    requires Reads(r, l, addr) && j < 4
    ensures Rate0(r, j) == Half(l, 0)[j] && Rate1(r, j) == Half(l, 1)[j] && r[12 + j] == Half(l, 2)[j]
  {
    assert r[4..8][j] == r[4 + j] && r[8..12][j] == r[8 + j] && r[12..16][j] == r[12 + j];
  }

  // Lines that follow each other
  // ----------------------------------------------------------------------------

  function SlackValue(s: Four): int { s[0] + s[1] * 65536 + s[2] * 0x1_0000_0000 + s[3] * 0x1_0000_0000_0000 }

  ghost predicate LineOk(l: Line) {
    match l
    case Enter(_, _, _, slack, index, _, first, dir) =>
      dir == index % 2 && if first then index / 2 + SlackValue(slack) + dir == HALF else slack == NONE
    case Leave(_, index, _, last, dir) => Bit(dir) && (last ==> index == 0 && dir == 0)
  }

  ghost predicate Follows(l: Line, m: Line) {
    if l.Enter? then m.Leave? && m.index == l.index / 2 && m.update == l.update
    else m.Enter? && (if l.last then m.first && m.update == l.update + AsBit(m.kind.Old?)
                      else !m.first && m.index == l.index && m.dir == l.dir && m.update == l.update
                           && l.digest == if m.dir == 1 then m.right else m.left)
  }

  /** Kind of row. */
  lemma KindOf(r: Row, l: Line, addr: Felt)
    requires Reads(r, l, addr)
    ensures Bits(r) && !IsPadding(r) && !IsSponge(r) && (IsMerkle(r) <==> l.Enter?) && (IsOutput(r) <==> l.Leave?)
    ensures IsUpdate(r) <==> l.Enter? && l.kind.Old?
  {
  }

  lemma AllCells(r: Row, l: Line, addr: Felt)
    requires Reads(r, l, addr)
    ensures forall j: nat | j < 4 :: Rate0(r, j) == Half(l, 0)[j] && Rate1(r, j) == Half(l, 1)[j]
    ensures forall k: nat | 12 <= k < 16 :: r[k] == Half(l, 2)[k - 12]
  {
    forall j: nat | j < 4
      ensures Rate0(r, j) == Half(l, 0)[j] && Rate1(r, j) == Half(l, 1)[j]
    {
      Cells(r, l, addr, j);
    }
    forall k: nat | 12 <= k < 16
      ensures r[k] == Half(l, 2)[k - 12]
    {
      Cells(r, l, addr, k - 12);
    }
  }

  lemma SlackIs(r: Row, l: Line, addr: Felt)
    requires Reads(r, l, addr) && l.Enter?
    ensures Slack(r) == SlackValue(l.slack)
  {
    AllCells(r, l, addr);
    assert r[12] == l.slack[0] && r[13] == l.slack[1] && r[14] == l.slack[2] && r[15] == l.slack[3];
  }

  lemma EnterLaws(m0: Row, m1: Row, l: Line, m: Line, addr: Felt, addr': Felt)
    requires Reads(m0, l, addr) && Reads(m1, m, addr') && Follows(l, m) && LineOk(l) && l.Enter?
    ensures RowLaws(m0, m1)
  {
    KindOf(m0, l, addr);
    KindOf(m1, m, addr');
    AllCells(m0, l, addr);
    SlackIs(m0, l, addr);
    assert 2 * m.index + l.dir == l.index;
  }

  lemma LeaveLaws(m0: Row, m1: Row, l: Line, m: Line, addr: Felt, addr': Felt)
    requires Reads(m0, l, addr) && Reads(m1, m, addr') && Follows(l, m) && LineOk(l) && LineOk(m) && l.Leave?
    ensures RowLaws(m0, m1)
  {
    KindOf(m0, l, addr);
    KindOf(m1, m, addr');
    AllCells(m0, l, addr);
    AllCells(m1, m, addr');
  }

  /** The last row of the last path, then the end of the controller. */
  lemma LastLaws(m0: Row, m1: Row, l: Line, addr: Felt)
    requires Reads(m0, l, addr) && LineOk(l) && l.Leave? && l.last && m1[0] == 1
    ensures RowLaws(m0, m1)
  {
    KindOf(m0, l, addr);
  }

  // Traces
  // ----------------------------------------------------------------------------

  ghost predicate Linked(ls: seq<Line>) {
    (forall i: nat | i < |ls| :: LineOk(ls[i])) && forall i: nat | i + 1 < |ls| :: FollowsAt(ls, i)
  }

  ghost predicate FollowsAt(ls: seq<Line>, i: nat)
    requires i + 1 < |ls|
  {
    Follows(ls[i], ls[i + 1])
  }

  /** Whole paths, one after the other. */
  ghost predicate Paths(ls: seq<Line>) {
    Linked(ls) && ls != [] && ls[0].Enter? && ls[|ls| - 1].Leave? && ls[|ls| - 1].last
  }

  function Trace(ls: seq<Line>): (t: seq<Row>)
    requires |ls| + 1 < P
    ensures |t| == |ls| + 1 && (forall i: nat | i < |ls| :: t[i] == MakeRow(ls[i], i + 1)) && t[|ls|] == PaddingRow(|ls| + 1)
  {
    seq(|ls|, i requires 0 <= i < |ls| => MakeRow(ls[i], i + 1)) + [PaddingRow(|ls| + 1)]
  }

  ghost predicate ReadsAt(ls: seq<Line>, t: seq<Row>, i: nat)
    requires i < |ls| < P && i < |t|
  {
    Reads(t[i], ls[i], i + 1)
  }

  ghost predicate IsTrace(ls: seq<Line>, t: seq<Row>) {
    && |ls| + 1 < P && |t| == |ls| + 1 && (forall i: nat | i < |ls| :: ReadsAt(ls, t, i))
    && t[|ls|] == PaddingRow(|ls| + 1)
  }

  lemma TraceReads(ls: seq<Line>)
    requires |ls| + 1 < P
    ensures IsTrace(ls, Trace(ls))
  {
    var t := Trace(ls);
    forall i: nat | i < |ls|
      ensures ReadsAt(ls, t, i)
    {
      RowReads(ls[i], i + 1);
    }
  }

  lemma PaddingCells(addr: Felt)
    ensures var r := PaddingRow(addr); r[0] == 1 && r[1] == 1 && r[2] == 1 && r[3] == 1 && r[4] == 1 && Address(r) == addr
  {
  }

  lemma TraceIsSelected(ls: seq<Line>, t: seq<Row>)
    requires Paths(ls) && IsTrace(ls, t)
    ensures Selected(t)
  {
    PaddingCells(|ls| + 1);
    forall i: nat | i < |t|
      ensures LaidOut(t, i)
    {
      if i < |ls| {
        assert ReadsAt(ls, t, i);
        if i + 1 < |ls| {
          assert ReadsAt(ls, t, i + 1);
        }
      }
    }
    SelectedIffLaidOut(t);
  }

  lemma RowIsLawful(ls: seq<Line>, t: seq<Row>, i: nat)
    requires Paths(ls) && IsTrace(ls, t) && i < |t|
    ensures LawfulAt(t, i)
  {
    PaddingCells(|ls| + 1);
    if i < |ls| {
      assert ReadsAt(ls, t, i);
      if i + 1 < |ls| {
        assert ReadsAt(ls, t, i + 1) && FollowsAt(ls, i);
        if ls[i].Enter? {
          EnterLaws(t[i], t[i + 1], ls[i], ls[i + 1], i + 1, i + 2);
        } else {
          LeaveLaws(t[i], t[i + 1], ls[i], ls[i + 1], i + 1, i + 2);
        }
      } else {
        LastLaws(t[i], t[i + 1], ls[i], i + 1);
      }
    }
  }

  lemma PathsAreAccepted(ls: seq<Line>, t: seq<Row>)
    requires Paths(ls) && IsTrace(ls, t)
    ensures ControllerTrace(t)
  {
    TraceIsSelected(ls, t);
    forall i: nat | i < |t|
      ensures LawfulAt(t, i)
    {
      RowIsLawful(ls, t, i);
    }
    ControllerIff(t);
  }

  // Requests
  // ----------------------------------------------------------------------------

  /** A path to be walked: its leaf, its siblings from the leaf up, and its index. */
  datatype Request = Request(kind: Kind, leaf: Four, siblings: seq<Four>, index: Felt)

  ghost predicate Valid(r: Request) {
    1 <= |r.siblings| <= 64 && r.index < Pow2(|r.siblings|)
  }

  ghost predicate IsHash(h: (Digest, Digest) -> Digest) {
    forall x: Digest, y: Digest :: |h(x, y)| == 4 && Canonical(h(x, y))
  }

  function SlackOf(n: Felt): (s: Four)
    ensures n / 2 + SlackValue(s) + n % 2 == HALF
    ensures U16(s[0]) && U16(s[1]) && U16(s[2]) && U16(s[3]) && U16((2 * s[3]) % P)
  {
    var y := HALF - n / 2 - n % 2;
    var q1 := y / 65536;
    var q2 := q1 / 65536;
    [y % 65536, q1 % 65536, q2 % 65536, q2 / 65536]
  }

  function EnterLine(kind: Kind, node: Four, sibling: Four, index: Felt, update: Felt, first: bool): Line {
    var left, right := if index % 2 == 1 then sibling else node, if index % 2 == 1 then node else sibling;
    Enter(kind, left, right, if first then SlackOf(index) else NONE, index, update, first, index % 2)
  }

  function DigestOf(h: (Digest, Digest) -> Digest, l: Line): (d: Four)
    requires IsHash(h) && l.Enter?
  {
    h(l.left, l.right)
  }

  function LeaveLine(h: (Digest, Digest) -> Digest, l: Line, last: bool): Line
    requires IsHash(h) && l.Enter?
  {
    Leave(DigestOf(h, l), l.index / 2, l.update, last, if last then 0 else l.index / 2 % 2)
  }

  /** The rows of the levels above a node. */
  function LevelLines(h: (Digest, Digest) -> Digest, kind: Kind, node: Four, siblings: seq<Four>, index: Felt, update: Felt, first: bool): (ls: seq<Line>)
    requires IsHash(h)
    ensures |ls| == 2 * |siblings|
    decreases |siblings|
  {
    if siblings == [] then []
    else
      var l := EnterLine(kind, node, siblings[0], index, update, first);
      [l, LeaveLine(h, l, |siblings| == 1)] + LevelLines(h, kind, DigestOf(h, l), siblings[1..], index / 2, update, false)
  }

  lemma LinkAppend(ls: seq<Line>, ms: seq<Line>)
    requires Linked(ls) && Linked(ms) && (ls != [] && ms != [] ==> Follows(ls[|ls| - 1], ms[0]))
    ensures Linked(ls + ms)
  {
    forall i: nat | i + 1 < |ls + ms|
      ensures FollowsAt(ls + ms, i)
    {
      if i + 1 < |ls| {
        assert FollowsAt(ls, i);
      } else if i >= |ls| {
        assert FollowsAt(ms, i - |ls|);
      }
    }
  }

  lemma PairLinked(l: Line, m: Line)
    requires LineOk(l) && LineOk(m) && Follows(l, m)
    ensures Linked([l, m])
  {
    assert FollowsAt([l, m], 0);
  }

  lemma LevelLinked(h: (Digest, Digest) -> Digest, kind: Kind, node: Four, sibling: Four, index: Felt, update: Felt, first: bool, last: bool)
    requires IsHash(h) && (last ==> index < 2)
    ensures var l := EnterLine(kind, node, sibling, index, update, first); Linked([l, LeaveLine(h, l, last)])
  {
    var l := EnterLine(kind, node, sibling, index, update, first);
    PairLinked(l, LeaveLine(h, l, last));
  }

  lemma NextLevel(h: (Digest, Digest) -> Digest, kind: Kind, node: Four, sibling: Four, sibling': Four, index: Felt, update: Felt, first: bool)
    requires IsHash(h)
    ensures var l := EnterLine(kind, node, sibling, index, update, first);
            Follows(LeaveLine(h, l, false), EnterLine(kind, DigestOf(h, l), sibling', index / 2, update, false))
  {
  }

  /** Lines of one path from its first level on. */
  ghost predicate WholePath(ls: seq<Line>, l: Line, update: Felt) {
    && Linked(ls) && ls != [] && ls[0] == l
    && ls[|ls| - 1].Leave? && ls[|ls| - 1].last && ls[|ls| - 1].update == update
  }

  lemma PathAppend(l: Line, m: Line, ms: seq<Line>, l': Line, update: Felt)
    requires Linked([l, m]) && (if ms == [] then m.Leave? && m.last && m.update == update else WholePath(ms, l', update) && Follows(m, l'))
    ensures WholePath([l, m] + ms, l, update)
  {
    LinkAppend([l, m], ms);
  }

  lemma {:induction false} LevelsLinked(h: (Digest, Digest) -> Digest, kind: Kind, node: Four, siblings: seq<Four>, index: Felt, update: Felt, first: bool)
    requires IsHash(h) && siblings != [] && index < Pow2(|siblings|)
    ensures WholePath(LevelLines(h, kind, node, siblings, index, update, first), EnterLine(kind, node, siblings[0], index, update, first), update)
    decreases |siblings|
  {
    var l, last := EnterLine(kind, node, siblings[0], index, update, first), |siblings| == 1;
    var m, node' := LeaveLine(h, l, last), DigestOf(h, l);
    assert Pow2(|siblings|) == 2 * Pow2(|siblings| - 1);
    LevelLinked(h, kind, node, siblings[0], index, update, first, last);
    if last {
      assert siblings[1..] == [];
      PathAppend(l, m, [], l, update);
    } else {
      LevelsLinked(h, kind, node', siblings[1..], index / 2, update, false);
      NextLevel(h, kind, node, siblings[0], siblings[1], index, update, first);
      PathAppend(l, m, LevelLines(h, kind, node', siblings[1..], index / 2, update, false),
                 EnterLine(kind, node', siblings[1], index / 2, update, false), update);
    }
  }

  /** Number of updates started after the next request. */
  function Updates(r: Request, update: nat): nat { update + AsBit(r.kind.Old?) }

  function Lines(h: (Digest, Digest) -> Digest, rs: seq<Request>, update: nat): (ls: seq<Line>)
    requires IsHash(h) && update + |rs| < P
  {
    if rs == [] then []
    else
      var u := Updates(rs[0], update);
      LevelLines(h, rs[0].kind, rs[0].leaf, rs[0].siblings, rs[0].index, u, true) + Lines(h, rs[1..], u)
  }

  ghost predicate AllValid(rs: seq<Request>) {
    forall i: nat | i < |rs| :: Valid(rs[i])
  }

  lemma {:induction false} LinesArePaths(h: (Digest, Digest) -> Digest, rs: seq<Request>, update: nat)
    requires IsHash(h) && update + |rs| < P && AllValid(rs) && rs != []
    ensures var ls := Lines(h, rs, update);
            Paths(ls) && ls[0].first && ls[0].update == Updates(rs[0], update) && ls[0].kind == rs[0].kind
    decreases |rs|
  {
    var r, u := rs[0], Updates(rs[0], update);
    assert Valid(r);
    LevelsLinked(h, r.kind, r.leaf, r.siblings, r.index, u, true);
    var ls, ms := LevelLines(h, r.kind, r.leaf, r.siblings, r.index, u, true), Lines(h, rs[1..], u);
    if |rs| > 1 {
      LinesArePaths(h, rs[1..], u);
    } else {
      assert rs[1..] == [];
    }
    LinkAppend(ls, ms);
  }

  // Answers
  // ----------------------------------------------------------------------------

  /** Row at which request j starts. */
  function Start(rs: seq<Request>, j: nat): nat
    requires j <= |rs|
  {
    if j == 0 then 0 else Start(rs, j - 1) + 2 * |rs[j - 1].siblings|
  }

  lemma {:induction false} StartShift(rs: seq<Request>, j: nat)
    requires 0 < j <= |rs|
    ensures Start(rs, j) == 2 * |rs[0].siblings| + Start(rs[1..], j - 1)
  {
    if j > 1 {
      StartShift(rs, j - 1);
    }
  }

  ghost predicate Cut(ls: seq<Line>, a: nat, ms: seq<Line>) {
    a + |ms| <= |ls| && ls[a..a + |ms|] == ms
  }

  lemma CutFirst(first: seq<Line>, rest: seq<Line>)
    ensures Cut(first + rest, 0, first)
  {
  }

  lemma CutShift(first: seq<Line>, rest: seq<Line>, a: nat, b: nat, ms: seq<Line>)
    requires Cut(rest, a, ms) && b == |first| + a
    ensures Cut(first + rest, b, ms)
  {
    var ls := first + rest;
    assert ls[b..b + |ms|] == rest[a..a + |ms|];
  }

  ghost predicate RequestLines(h: (Digest, Digest) -> Digest, r: Request, u: Felt, ms: seq<Line>)
    requires IsHash(h)
  {
    ms == LevelLines(h, r.kind, r.leaf, r.siblings, r.index, u, true)
  }

  lemma LinesStep(h: (Digest, Digest) -> Digest, rs: seq<Request>, update: nat) returns (u: nat, ms: seq<Line>)
    requires IsHash(h) && update + |rs| < P && rs != []
    ensures u == Updates(rs[0], update) && u + |rs[1..]| < P && RequestLines(h, rs[0], u, ms) && |ms| == 2 * |rs[0].siblings|
    ensures Lines(h, rs, update) == ms + Lines(h, rs[1..], u)
  {
    u := Updates(rs[0], update);
    ms := LevelLines(h, rs[0].kind, rs[0].leaf, rs[0].siblings, rs[0].index, u, true);
  }

  /** The lines of a request, cut out of those of the whole list. */
  lemma {:induction false} LinesAt(h: (Digest, Digest) -> Digest, rs: seq<Request>, update: nat, ls: seq<Line>, j: nat) returns (u: nat, ms: seq<Line>)
    requires IsHash(h) && update + |rs| < P && j < |rs| && ls == Lines(h, rs, update)
    ensures u < P && RequestLines(h, rs[j], u, ms) && |ms| == 2 * |rs[j].siblings|
    ensures Cut(ls, Start(rs, j), ms)
    decreases |rs|
  {
    u, ms := LinesStep(h, rs, update);
    var first, rest := ms, Lines(h, rs[1..], u);
    if j == 0 {
      CutFirst(first, rest);
    } else {
      u, ms := LinesAt(h, rs[1..], u, rest, j - 1);
      StartShift(rs, j);
      CutShift(first, rest, Start(rs[1..], j - 1), Start(rs, j), ms);
    }
  }

  lemma {:induction false} LinesLength(h: (Digest, Digest) -> Digest, rs: seq<Request>, update: nat)
    requires IsHash(h) && update + |rs| < P
    ensures |Lines(h, rs, update)| == Start(rs, |rs|)
    decreases |rs|
  {
    if rs != [] {
      LinesLength(h, rs[1..], Updates(rs[0], update));
      StartShift(rs, |rs|);
    }
  }

  function SiblingIn(l: Line): Four
    requires l.Enter?
  {
    if l.dir == 1 then l.left else l.right
  }

  ghost predicate IsLevel(h: (Digest, Digest) -> Digest, l: Line, m: Line, sibling: Four, first: bool, last: bool) {
    && l.Enter? && l.first == first && SiblingIn(l) == sibling
    && m.Leave? && m.last == last && m.digest == h(l.left, l.right)
  }

  lemma OneLevel(h: (Digest, Digest) -> Digest, kind: Kind, node: Four, sibling: Four, index: Felt, update: Felt, first: bool, last: bool)
    requires IsHash(h)
    ensures var l := EnterLine(kind, node, sibling, index, update, first); IsLevel(h, l, LeaveLine(h, l, last), sibling, first, last)
  {
  }

  /** Level k of a path. */
  lemma {:induction false} LevelIs(h: (Digest, Digest) -> Digest, kind: Kind, node: Four, siblings: seq<Four>, index: Felt, update: Felt, first: bool, k: nat)
    requires IsHash(h) && k < |siblings|
    ensures var ls := LevelLines(h, kind, node, siblings, index, update, first);
            IsLevel(h, ls[2 * k], ls[2 * k + 1], siblings[k], first && k == 0, k + 1 == |siblings|)
    decreases |siblings|
  {
    OneLevel(h, kind, node, siblings[0], index, update, first, |siblings| == 1);
    if k > 0 {
      var l := EnterLine(kind, node, siblings[0], index, update, first);
      LevelIs(h, kind, DigestOf(h, l), siblings[1..], index / 2, update, false, k - 1);
    }
  }

  /** The rows from a on hold the lines ls. */
  ghost predicate Holds(t: seq<Row>, a: nat, ls: seq<Line>) {
    a + |ls| <= |t| < P && forall i: nat | i < |ls| :: HoldsAt(t, a, ls, i)
  }

  ghost predicate HoldsAt(t: seq<Row>, a: nat, ls: seq<Line>, i: nat)
    requires a + |ls| <= |t| < P && i < |ls|
  {
    Reads(t[a + i], ls[i], a + i + 1)
  }

  ghost predicate Answered(t: seq<Row>, a: nat, r: Request, h: (Digest, Digest) -> Digest)
    requires Valid(r)
  {
    var d := |r.siblings|;
    && a + 2 * d <= |t| && Path(t, a, d) && Compressed(t, a, d, h) && SlackChecked(t[a])
    && Answers(t, a, a + 2 * d - 1, d)
    && Index(t[a]) == r.index && Node(t[a]) == r.leaf && Siblings(t, a, d, 0) == r.siblings
    && Output(t[a + 2 * d - 1]) == RootFrom(h, r.leaf, r.siblings, r.index)
  }

  lemma LevelHeld(t: seq<Row>, a: nat, r: Request, h: (Digest, Digest) -> Digest, update: Felt, ls: seq<Line>, k: nat)
    requires Valid(r) && IsHash(h) && RequestLines(h, r, update, ls) && Holds(t, a, ls)
    requires k < |r.siblings|
    ensures LevelAt(t, a, |r.siblings|, k) && CompressedAt(t, a, k, h) && Sibling(t[a + 2 * k]) == r.siblings[k]
  {
    LevelIs(h, r.kind, r.leaf, r.siblings, r.index, update, true, k);
    assert HoldsAt(t, a, ls, 2 * k) && HoldsAt(t, a, ls, 2 * k + 1);
  }

  lemma {:induction false} SiblingsHeld(t: seq<Row>, a: nat, siblings: seq<Four>, k: nat)
    requires a + 2 * |siblings| <= |t| && k <= |siblings|
    requires forall j: nat | j < |siblings| :: SiblingAt(t, a, siblings, j)
    ensures Siblings(t, a, |siblings|, k) == siblings[k..]
    decreases |siblings| - k
  {
    if k < |siblings| {
      SiblingsHeld(t, a, siblings, k + 1);
      assert SiblingAt(t, a, siblings, k);
    }
  }

  ghost predicate SiblingAt(t: seq<Row>, a: nat, siblings: seq<Four>, j: nat)
    requires a + 2 * |siblings| <= |t| && j < |siblings|
  {
    Sibling(t[a + 2 * j]) == siblings[j]
  }

  lemma PathHeld(t: seq<Row>, a: nat, r: Request, h: (Digest, Digest) -> Digest, update: Felt, ls: seq<Line>)
    requires Valid(r) && IsHash(h) && RequestLines(h, r, update, ls) && Holds(t, a, ls)
    ensures Path(t, a, |r.siblings|) && Compressed(t, a, |r.siblings|, h) && Siblings(t, a, |r.siblings|, 0) == r.siblings
  {
    var d := |r.siblings|;
    forall k: nat | k < d
      ensures LevelAt(t, a, d, k) && CompressedAt(t, a, k, h) && SiblingAt(t, a, r.siblings, k)
    {
      LevelHeld(t, a, r, h, update, ls, k);
    }
    SiblingsHeld(t, a, r.siblings, 0);
    assert r.siblings[0..] == r.siblings;
  }

  lemma StartHeld(t: seq<Row>, a: nat, r: Request, l: Line, update: Felt)
    requires Valid(r) && a + 1 < |t| < P && l == EnterLine(r.kind, r.leaf, r.siblings[0], r.index, update, true) && Reads(t[a], l, a + 1)
    ensures SlackChecked(t[a]) && Index(t[a]) == r.index && Node(t[a]) == r.leaf
    ensures MerkleInput(t[a]) && Boundary(t[a]) == 1
  {
    Cells(t[a], l, a + 1, 0);
    Cells(t[a], l, a + 1, 1);
    Cells(t[a], l, a + 1, 2);
    Cells(t[a], l, a + 1, 3);
  }

  lemma LastHeld(t: seq<Row>, a: nat, m: Line, d: nat)
    requires 1 <= d <= 64 && a + 2 * d <= |t| < P && MerkleInput(t[a]) && Boundary(t[a]) == 1 && Address(t[a]) == a + 1
    requires m.Leave? && m.last && Reads(t[a + 2 * d - 1], m, a + 2 * d)
    ensures Answers(t, a, a + 2 * d - 1, d)
  {
    DepthIsBounded(d);
  }

  lemma EndsHeld(t: seq<Row>, a: nat, r: Request, update: Felt, ls: seq<Line>)
    requires Valid(r) && Holds(t, a, ls) && |ls| == 2 * |r.siblings|
    requires ls[0] == EnterLine(r.kind, r.leaf, r.siblings[0], r.index, update, true) && ls[|ls| - 1].Leave? && ls[|ls| - 1].last
    ensures SlackChecked(t[a]) && Index(t[a]) == r.index && Node(t[a]) == r.leaf
    ensures Answers(t, a, a + 2 * |r.siblings| - 1, |r.siblings|)
  {
    assert HoldsAt(t, a, ls, 0) && HoldsAt(t, a, ls, |ls| - 1);
    StartHeld(t, a, r, ls[0], update);
    LastHeld(t, a, ls[|ls| - 1], |r.siblings|);
  }

  lemma RequestAnswered(t: seq<Row>, a: nat, r: Request, h: (Digest, Digest) -> Digest, update: Felt, ls: seq<Line>)
    requires Valid(r) && IsHash(h) && RequestLines(h, r, update, ls) && Holds(t, a, ls)
    requires ControllerTrace(t)
    ensures Answered(t, a, r, h)
  {
    PathHeld(t, a, r, h, update, ls);
    LevelsLinked(h, r.kind, r.leaf, r.siblings, r.index, update, true);
    EndsHeld(t, a, r, update, ls);
    PathComputesRoot(t, a, |r.siblings|, h);
  }

  /** For any compression function and any list of requests, of up to 64 levels and with any canonical index below
      2^depth, there is a controller trace that meets every constraint and answers each request with the root
      of its leaf. */
  lemma MerkleIsComplete(h: (Digest, Digest) -> Digest, rs: seq<Request>)
    requires IsHash(h) && rs != [] && AllValid(rs) && |rs| < P && Start(rs, |rs|) + 1 < P
    ensures |Lines(h, rs, 0)| == Start(rs, |rs|)
    ensures var t := Trace(Lines(h, rs, 0));
            ControllerTrace(t) && forall j: nat | j < |rs| :: Valid(rs[j]) && Answered(t, Start(rs, j), rs[j], h)
  {
    LinesLength(h, rs, 0);
    var ls := Lines(h, rs, 0);
    TraceReads(ls);
    LinesArePaths(h, rs, 0);
    PathsAreAccepted(ls, Trace(ls));
    forall j: nat | j < |rs|
      ensures Valid(rs[j]) && Answered(Trace(ls), Start(rs, j), rs[j], h)
    {
      EachAnswered(h, rs, ls, Trace(ls), j);
    }
  }

  lemma EachAnswered(h: (Digest, Digest) -> Digest, rs: seq<Request>, ls: seq<Line>, t: seq<Row>, j: nat)
    requires IsHash(h) && |rs| < P && j < |rs| && Valid(rs[j])
    requires ls == Lines(h, rs, 0) && IsTrace(ls, t) && ControllerTrace(t)
    ensures Answered(t, Start(rs, j), rs[j], h)
  {
    var u, ms := LinesAt(h, rs, 0, ls, j);
    HoldsCut(ls, t, Start(rs, j), ms);
    RequestAnswered(t, Start(rs, j), rs[j], h, u, ms);
  }

  lemma HoldsCut(ls: seq<Line>, t: seq<Row>, a: nat, ms: seq<Line>)
    requires IsTrace(ls, t) && Cut(ls, a, ms)
    ensures Holds(t, a, ms)
  {
    forall i: nat | i < |ms|
      ensures HoldsAt(t, a, ms, i)
    {
      assert ReadsAt(ls, t, a + i);
      assert ms[i] == ls[a..a + |ms|][i];
    }
  }
}
