/** From the batches of a basic block to its rows: operations packed seven bits each into groups, PUSH
    immediates in the slots after their group, and every row with what it has used up. */
module BlockLayout {
  import opened Goldilocks
  import opened CoreTrace
  import opened OpGroups
  import opened DecoderComplete
  import opened Wrappers

  // Groups and batches
  // ----------------------------------------------------------------------------

  /** One to nine operations; a PUSH is never the last of its group. */
  ghost predicate GroupOk(g: seq<Instr>) {
    1 <= |g| <= 9 && GroupTail(g)
  }

  ghost predicate GroupTail(g: seq<Instr>) {
    (forall i: nat | i < |g| :: ValidInstr(g[i])) && (g != [] ==> !g[|g| - 1].Push?)
  }

  /** Operations as base-128 digits, the first one lowest. */
  function Value(g: seq<Instr>): int {
    if g == [] then 0 else Code(g[0]) + 128 * Value(g[1..])
  }

  /** Immediates of a group. */
  function Immediates(g: seq<Instr>): seq<int> {
    if g == [] then [] else (if g[0].Push? then [g[0].value] else []) + Immediates(g[1..])
  }

  /** Slots of a batch: the value of each group, then its immediates. */
  function Slots(gs: seq<seq<Instr>>): seq<int> {
    if gs == [] then [] else [Value(gs[0])] + Immediates(gs[0]) + Slots(gs[1..])
  }

  ghost predicate GroupsOk(gs: seq<seq<Instr>>) {
    forall j: nat | j < |gs| :: GroupOk(gs[j])
  }

  ghost predicate BatchOk(gs: seq<seq<Instr>>) {
    GroupsOk(gs) && IsSize(|Slots(gs)|)
  }

  lemma {:induction false} ValueFits(g: seq<Instr>)
    requires |g| <= 9 && GroupTail(g)
    ensures 0 <= Value(g) < Pow128(|g|) < P
    decreases |g|
  {
    Pow128Small(|g|);
    if g != [] {
      assert ValidInstr(g[0]);
      TailOk(g);
      ValueFits(g[1..]);
    }
  }

  lemma TailOk(g: seq<Instr>)
    requires g != [] && GroupTail(g)
    ensures GroupTail(g[1..])
  {
  }

  /** Every immediate is a field element, and a group has fewer of them than operations. */
  lemma {:induction false} ImmediatesFit(g: seq<Instr>)
    requires GroupTail(g)
    ensures forall k: nat | k < |Immediates(g)| :: 0 <= Immediates(g)[k] < P
    ensures g != [] ==> |Immediates(g)| < |g|
    decreases |g|
  {
    if g != [] {
      assert ValidInstr(g[0]);
      TailOk(g);
      ImmediatesFit(g[1..]);
    }
  }

  lemma {:induction false} SlotsFit(gs: seq<seq<Instr>>)
    requires GroupsOk(gs)
    ensures forall k: nat | k < |Slots(gs)| :: 0 <= Slots(gs)[k] < P
    ensures |Slots(gs)| <= |Concat(gs)|
    decreases |gs|
  {
    if gs != [] {
      assert GroupOk(gs[0]);
      ValueFits(gs[0]);
      ImmediatesFit(gs[0]);
      SlotsFit(gs[1..]);
    }
  }

  function Concat<T>(ss: seq<seq<T>>): seq<T> {
    if ss == [] then [] else ss[0] + Concat(ss[1..])
  }

  // Lines of a group and of a batch
  // ----------------------------------------------------------------------------

  function GroupLines(g: seq<Instr>, index: nat, used: nat, top: int): (ls: seq<Line>)
    requires |g| <= 9 && GroupTail(g)
    ensures |ls| == |g|
  {
    if g == [] then []
    else
      TailOk(g);
      ValueFits(g[1..]);
      [Line(g[0], Value(g[1..]), index, used, top)]
      + GroupLines(g[1..], index + 1, used + (if g[0].Push? then 1 else 0), if g[0].Push? then g[0].value else 0)
  }

  /** Consecutive lines of a batch with slots s. */
  ghost predicate Chain(s: Eight, size: nat, ls: seq<Line>) {
    && (forall i: nat | i < |ls| :: LineOk(ls[i], size))
    && (forall i: nat | i + 1 < |ls| :: FollowsAt(s, ls, i))
  }

  ghost predicate FollowsAt(s: Eight, ls: seq<Line>, i: nat)
    requires i + 1 < |ls|
  {
    Follows(s, ls[i], ls[i + 1])
  }

  /** The slots from used on hold the immediates of g. */
  ghost predicate Holds(s: Eight, used: nat, values: seq<int>) {
    used + |values| <= 8 && forall k: nat | k < |values| :: s[used + k] == values[k]
  }

  lemma ChainCons(s: Eight, size: nat, l: Line, ls: seq<Line>)
    requires Chain(s, size, ls) && LineOk(l, size) && (ls != [] ==> Follows(s, l, ls[0]))
    ensures Chain(s, size, [l] + ls)
  {
    forall i: nat | i + 1 < |[l] + ls|
      ensures FollowsAt(s, [l] + ls, i)
    {
      if i > 0 {
        assert FollowsAt(s, ls, i - 1);
      }
    }
  }

  lemma ChainAppend(s: Eight, size: nat, ls: seq<Line>, ms: seq<Line>)
    requires Chain(s, size, ls) && Chain(s, size, ms) && ls != [] && ms != [] && Follows(s, ls[|ls| - 1], ms[0])
    ensures Chain(s, size, ls + ms)
  {
    forall i: nat | i + 1 < |ls + ms|
      ensures FollowsAt(s, ls + ms, i)
    {
      if i + 1 < |ls| {
        assert FollowsAt(s, ls, i);
      } else if i >= |ls| {
        assert FollowsAt(s, ms, i - |ls|);
      }
    }
  }

  lemma HoldsTail(s: Eight, used: nat, g: seq<Instr>)
    requires g != [] && Holds(s, used, Immediates(g))
    ensures Holds(s, used + (if g[0].Push? then 1 else 0), Immediates(g[1..]))
    ensures g[0].Push? ==> used < 8 && s[used] == g[0].value
  {
    if g[0].Push? {
      assert Immediates(g) == [g[0].value] + Immediates(g[1..]);
      assert s[used] == Immediates(g)[0];
      forall k: nat | k < |Immediates(g[1..])|
        ensures s[used + 1 + k] == Immediates(g[1..])[k]
      {
        assert s[used + (k + 1)] == Immediates(g)[k + 1];
      }
    } else {
      assert Immediates(g) == Immediates(g[1..]);
    }
  }

  lemma {:induction false} GroupChain(s: Eight, size: nat, g: seq<Instr>, index: nat, used: nat, top: int)
    requires g != [] && index + |g| <= 9 && GroupTail(g) && 1 <= used && used + |Immediates(g)| <= size && 0 <= top < P
    requires Holds(s, used, Immediates(g))
    ensures var ls := GroupLines(g, index, used, top);
            && Chain(s, size, ls) && ls[0].op == g[0] && ls[0].rest == Value(g[1..]) && ls[0].index == index && ls[0].used == used && ls[0].top == top
            && Ends(ls[|ls| - 1], used + |Immediates(g)|)
    decreases |g|
  {
    assert ValidInstr(g[0]);
    TailOk(g);
    ValueFits(g[1..]);
    var l := Line(g[0], Value(g[1..]), index, used, top);
    if |g| == 1 {
      assert g[1..] == [];
      assert GroupLines(g, index, used, top) == [l];
      assert Immediates(g) == [];
    } else {
      HoldsTail(s, used, g);
      var used' := used + (if g[0].Push? then 1 else 0);
      var top' := if g[0].Push? then g[0].value else 0;
      assert |Immediates(g)| == |Immediates(g[1..])| + (used' - used);
      GroupChain(s, size, g[1..], index + 1, used', top');
      GroupCons(s, size, g, l, GroupLines(g[1..], index + 1, used', top'));
    }
  }

  lemma GroupCons(s: Eight, size: nat, g: seq<Instr>, l: Line, ls: seq<Line>)
    requires |g| >= 2 && GroupTail(g) && l.op == g[0] && LineOk(l, size) && l.rest == Value(g[1..]) && Chain(s, size, ls) && ls != []
    requires ls[0].op == g[1] && ls[0].rest == Value(g[2..]) && ls[0].index == l.index + 1
    requires l.op.Push? ==> l.used < 8 && s[l.used] == l.op.value == ls[0].top && ls[0].used == l.used + 1
    requires !l.op.Push? ==> ls[0].used == l.used
    ensures Chain(s, size, [l] + ls)
  {
    assert g[1..][1..] == g[2..] && g[1..][0] == g[1];
    ChainCons(s, size, l, ls);
  }

  function BatchLines(gs: seq<seq<Instr>>, used: nat): (ls: seq<Line>)
    requires GroupsOk(gs)
    ensures |ls| == |Concat(gs)|
  {
    if gs == [] then []
    else
      assert GroupOk(gs[0]);
      GroupLines(gs[0], 0, used, 0) + BatchLines(gs[1..], used + |Immediates(gs[0])| + 1)
  }

  lemma HoldsParts(s: Eight, k: nat, v: seq<int>, w: seq<int>)
    requires Holds(s, k, v + w)
    ensures Holds(s, k, v) && Holds(s, k + |v|, w)
  {
    forall j: nat | j < |v|
      ensures s[k + j] == v[j]
    {
      assert s[k + j] == (v + w)[j];
    }
    var k' := k + |v|;
    forall j: nat | j < |w|
      ensures s[k' + j] == w[j]
    {
      assert s[k + (|v| + j)] == (v + w)[|v| + j];
    }
  }

  lemma HoldsSplit(s: Eight, k: nat, gs: seq<seq<Instr>>)
    requires gs != [] && Holds(s, k, Slots(gs))
    ensures k < 8 && s[k] == Value(gs[0]) && Holds(s, k + 1, Immediates(gs[0]))
    ensures Holds(s, k + 1 + |Immediates(gs[0])|, Slots(gs[1..]))
  {
    var v, w, u := [Value(gs[0])], Immediates(gs[0]), Slots(gs[1..]);
    HoldsParts(s, k, v + w, u);
    HoldsParts(s, k, v, w);
    assert s[k + 0] == v[0];
  }

  /** What the lines of a batch start from and end with. */
  ghost predicate Spans(s: Eight, size: nat, used: nat, ls: seq<Line>) {
    && Chain(s, size, ls) && ls != [] && ls[0].index == 0 && ls[0].used == used
    && 1 <= used <= 8 && s[used - 1] == 128 * ls[0].rest + Code(ls[0].op) && Ends(ls[|ls| - 1], size)
  }

  lemma SpansAppend(s: Eight, size: nat, used: nat, used': nat, ls: seq<Line>, ms: seq<Line>)
    requires used' >= 1 && Chain(s, size, ls) && Spans(s, used' - 1, used, ls) && Spans(s, size, used', ms)
    ensures Spans(s, size, used, ls + ms)
  {
    ChainAppend(s, size, ls, ms);
  }

  lemma FirstSpans(s: Eight, size: nat, g: seq<Instr>, used: nat)
    requires GroupOk(g) && 1 <= used <= 8 && used + |Immediates(g)| <= size
    requires s[used - 1] == Value(g) && Holds(s, used, Immediates(g))
    ensures Chain(s, size, GroupLines(g, 0, used, 0)) && Spans(s, used + |Immediates(g)|, used, GroupLines(g, 0, used, 0))
  {
    GroupChain(s, size, g, 0, used, 0);
    GroupChain(s, used + |Immediates(g)|, g, 0, used, 0);
  }

  lemma {:induction false} BatchChain(s: Eight, size: nat, gs: seq<seq<Instr>>, used: nat)
    requires gs != [] && GroupsOk(gs) && 1 <= used && used - 1 + |Slots(gs)| == size && Holds(s, used - 1, Slots(gs))
    ensures Spans(s, size, used, BatchLines(gs, used))
    decreases |gs|
  {
    var g, used' := gs[0], used + |Immediates(gs[0])| + 1;
    assert GroupOk(g);
    HoldsSplit(s, used - 1, gs);
    FirstSpans(s, size, g, used);
    if |gs| == 1 {
      assert gs[1..] == [];
      assert BatchLines(gs, used) == GroupLines(g, 0, used, 0);
    } else {
      BatchChain(s, size, gs[1..], used');
      SpansAppend(s, size, used, used', GroupLines(g, 0, used, 0), BatchLines(gs[1..], used'));
    }
  }

  // Items of a block
  // ----------------------------------------------------------------------------

  ghost predicate BatchesOk(bs: seq<seq<seq<Instr>>>) {
    forall b: nat | b < |bs| :: BatchOk(bs[b])
  }

  /** Slots padded to the eight cells that are hashed. */
  function Padded(values: seq<int>): (s: Eight)
    requires |values| <= 8 && forall k: nat | k < |values| :: 0 <= values[k] < P
    ensures forall k: nat | k < 8 :: s[k] == if k < |values| then values[k] else 0
  {
    seq(8, k requires 0 <= k < 8 => if k < |values| then values[k] as Felt else 0)
  }

  function CellsOfBatch(gs: seq<seq<Instr>>): (s: Eight)
    requires BatchOk(gs)
    ensures Holds(s, 0, Slots(gs)) && forall k: nat | |Slots(gs)| <= k < 8 :: s[k] == 0
  {
    SlotsFit(gs);
    Padded(Slots(gs))
  }

  function PlanOf(bs: seq<seq<seq<Instr>>>): (p: Plan)
    requires BatchesOk(bs)
    ensures |p.slots| == |p.sizes| == |bs|
    ensures forall b: nat | b < |bs| :: p.sizes[b] == |Slots(bs[b])| && p.slots[b] == CellsOfBatch(bs[b])
  {
    Plan(seq(|bs|, b requires 0 <= b < |bs| => assert BatchOk(bs[b]); CellsOfBatch(bs[b])),
         seq(|bs|, b requires 0 <= b < |bs| => |Slots(bs[b])|))
  }

  function Execs(b: nat, ls: seq<Line>): (s: seq<Item>)
    ensures |s| == |ls| && forall i: nat | i < |ls| :: s[i] == Exec(b, ls[i])
  {
    seq(|ls|, i requires 0 <= i < |ls| => Exec(b, ls[i]))
  }

  function BatchItems(bs: seq<seq<seq<Instr>>>, b: nat): (s: seq<Item>)
    requires BatchesOk(bs) && b < |bs|
  {
    assert BatchOk(bs[b]);
    [Open(b)] + Execs(b, BatchLines(bs[b], 1))
  }

  /** Batches b on, then END and HALT. */
  function ItemsFrom(bs: seq<seq<seq<Instr>>>, b: nat): (s: seq<Item>)
    requires BatchesOk(bs) && b <= |bs|
    ensures |s| >= 2 && s[0] == (if b < |bs| then Open(b) else Close) && s[|s| - 1] == Stop
    decreases |bs| - b
  {
    if b == |bs| then [Close, Stop] else BatchItems(bs, b) + ItemsFrom(bs, b + 1)
  }

  // The items form a block
  // ----------------------------------------------------------------------------

  ghost predicate Linked(p: Plan, s: seq<Item>)
    requires p.Valid()
  {
    (forall i: nat | i < |s| :: ItemOk(p, s[i])) && forall i: nat | i + 1 < |s| :: PairAt(p, s, i)
  }

  lemma LinkAppend(p: Plan, s: seq<Item>, s': seq<Item>)
    requires p.Valid() && s != [] && s' != [] && Linked(p, s) && Linked(p, s') && Pair(p, s[|s| - 1], s'[0])
    ensures Linked(p, s + s')
  {
    forall i: nat | i + 1 < |s + s'|
      ensures PairAt(p, s + s', i)
    {
      if i + 1 < |s| {
        assert PairAt(p, s, i);
      } else if i >= |s| {
        assert PairAt(p, s', i - |s|);
      }
    }
  }

  lemma ExecsLinked(p: Plan, b: nat, ls: seq<Line>)
    requires p.Valid() && b < |p.sizes| && Chain(p.slots[b], p.sizes[b], ls)
    ensures Linked(p, Execs(b, ls))
  {
    var s := Execs(b, ls);
    forall i: nat | i + 1 < |s|
      ensures PairAt(p, s, i)
    {
      assert FollowsAt(p.slots[b], ls, i);
    }
  }

  lemma BatchLinked(p: Plan, bs: seq<seq<seq<Instr>>>, b: nat)
    requires BatchesOk(bs) && p == PlanOf(bs) && p.Valid() && b < |bs|
    ensures var s := BatchItems(bs, b);
            Linked(p, s) && s[|s| - 1].Exec? && s[|s| - 1].b == b && Ends(s[|s| - 1].line, p.sizes[b])
  {
    assert BatchOk(bs[b]);
    var ls := BatchLines(bs[b], 1);
    assert p.slots[b] == CellsOfBatch(bs[b]) && p.sizes[b] == |Slots(bs[b])|;
    BatchChain(p.slots[b], p.sizes[b], bs[b], 1);
    ExecsLinked(p, b, ls);
    assert Linked(p, [Open(b)]);
    LinkAppend(p, [Open(b)], Execs(b, ls));
  }

  lemma {:induction false} ItemsLinked(p: Plan, bs: seq<seq<seq<Instr>>>, b: nat)
    requires BatchesOk(bs) && p == PlanOf(bs) && p.Valid() && b <= |bs|
    ensures Linked(p, ItemsFrom(bs, b))
    decreases |bs| - b
  {
    if b < |bs| {
      BatchLinked(p, bs, b);
      ItemsLinked(p, bs, b + 1);
      LinkAppend(p, BatchItems(bs, b), ItemsFrom(bs, b + 1));
    } else {
      assert PairAt(p, [Close, Stop], 0);
    }
  }

  lemma BatchRows(bs: seq<seq<seq<Instr>>>, b: nat)
    requires BatchesOk(bs) && b < |bs|
    ensures 1 <= |Slots(bs[b])| < |BatchItems(bs, b)| && |BatchItems(bs, b)| == 1 + |Concat(bs[b])|
  {
    assert BatchOk(bs[b]);
    SlotsFit(bs[b]);
  }

  lemma RowsStep(p: Plan, bs: seq<seq<seq<Instr>>>, b: nat)
    requires BatchesOk(bs) && b < |bs| == |p.sizes| && p.sizes[b] == |Slots(bs[b])|
    requires p.CountFrom(b + 1) < |ItemsFrom(bs, b + 1)| && 2 * (|bs| - (b + 1)) < |ItemsFrom(bs, b + 1)|
    ensures p.CountFrom(b) < |ItemsFrom(bs, b)| && 2 * (|bs| - b) < |ItemsFrom(bs, b)|
  {
    BatchRows(bs, b);
  }

  /** A block has at least as many rows as slots, and two for each batch. */
  lemma {:induction false} RowsCover(p: Plan, bs: seq<seq<seq<Instr>>>, b: nat)
    requires BatchesOk(bs) && b <= |bs| == |p.sizes| && forall c: nat | c < |bs| :: p.sizes[c] == |Slots(bs[c])|
    ensures p.CountFrom(b) < |ItemsFrom(bs, b)| && 2 * (|bs| - b) < |ItemsFrom(bs, b)|
    decreases |bs| - b
  {
    if b < |bs| {
      RowsCover(p, bs, b + 1);
      RowsStep(p, bs, b);
    }
  }

  lemma PlanIsValid(bs: seq<seq<seq<Instr>>>)
    requires BatchesOk(bs) && |ItemsFrom(bs, 0)| < P
    ensures PlanOf(bs).Valid()
  {
    var p := PlanOf(bs);
    RowsCover(p, bs, 0);
    forall b: nat | b < |p.sizes|
      ensures IsSize(p.sizes[b]) && p.Unused(b)
    {
      assert BatchOk(bs[b]) && p.slots[b] == CellsOfBatch(bs[b]);
    }
  }

  lemma ItemsAreBlock(bs: seq<seq<seq<Instr>>>)
    requires BatchesOk(bs) && bs != [] && |ItemsFrom(bs, 0)| < P
    ensures IsBlock(PlanOf(bs), ItemsFrom(bs, 0))
  {
    PlanIsValid(bs);
    ItemsLinked(PlanOf(bs), bs, 0);
  }

  // Completeness
  // ----------------------------------------------------------------------------

  lemma {:induction false} OpsAppend(s: seq<Item>, s': seq<Item>)
    ensures Ops(s + s') == Ops(s) + Ops(s')
    decreases |s|
  {
    if s == [] {
      assert s + s' == s';
    } else {
      assert (s + s')[1..] == s[1..] + s';
      OpsAppend(s[1..], s');
      var h := if s[0].Exec? then [s[0].line.op] else [];
      assert Ops(s) == h + Ops(s[1..]) && Ops(s + s') == h + Ops(s[1..] + s');
      Assoc(h, Ops(s[1..]), Ops(s'));
    }
  }

  lemma {:induction false} GroupOps(b: nat, g: seq<Instr>, index: nat, used: nat, top: int)
    requires |g| <= 9 && GroupTail(g)
    ensures Ops(Execs(b, GroupLines(g, index, used, top))) == g
    decreases |g|
  {
    if g != [] {
      TailOk(g);
      var used' := used + (if g[0].Push? then 1 else 0);
      var top' := if g[0].Push? then g[0].value else 0;
      GroupOps(b, g[1..], index + 1, used', top');
      var s := Execs(b, GroupLines(g, index, used, top));
      assert s[1..] == Execs(b, GroupLines(g[1..], index + 1, used', top'));
    }
  }

  lemma {:induction false} BatchOps(b: nat, gs: seq<seq<Instr>>, used: nat)
    requires GroupsOk(gs)
    ensures Ops(Execs(b, BatchLines(gs, used))) == Concat(gs)
    decreases |gs|
  {
    if gs != [] {
      assert GroupOk(gs[0]);
      var used' := used + |Immediates(gs[0])| + 1;
      var ls, ms := GroupLines(gs[0], 0, used, 0), BatchLines(gs[1..], used');
      GroupOps(b, gs[0], 0, used, 0);
      BatchOps(b, gs[1..], used');
      LinesOps(b, ls, ms);
      assert BatchLines(gs, used) == ls + ms;
    }
  }

  lemma LinesOps(b: nat, ls: seq<Line>, ms: seq<Line>)
    ensures Ops(Execs(b, ls + ms)) == Ops(Execs(b, ls)) + Ops(Execs(b, ms))
  {
    assert Execs(b, ls + ms) == Execs(b, ls) + Execs(b, ms);
    OpsAppend(Execs(b, ls), Execs(b, ms));
  }

  lemma {:induction false} ItemsOps(bs: seq<seq<seq<Instr>>>, b: nat)
    requires BatchesOk(bs) && b <= |bs|
    ensures Ops(ItemsFrom(bs, b)) == Concat(Concat(bs[b..]))
    decreases |bs| - b
  {
    if b < |bs| {
      OpsAppend(BatchItems(bs, b), ItemsFrom(bs, b + 1));
      OneBatchOps(bs, b);
      ItemsOps(bs, b + 1);
      ConcatFrom(bs, b);
    } else {
      assert Ops([Close, Stop]) == Ops([Stop]) == [];
    }
  }

  lemma OneBatchOps(bs: seq<seq<seq<Instr>>>, b: nat)
    requires BatchesOk(bs) && b < |bs|
    ensures Ops(BatchItems(bs, b)) == Concat(bs[b])
  {
    assert BatchOk(bs[b]);
    assert BatchItems(bs, b)[1..] == Execs(b, BatchLines(bs[b], 1));
    BatchOps(b, bs[b], 1);
  }

  lemma ConcatFrom<T>(ss: seq<seq<seq<T>>>, b: nat)
    requires b < |ss|
    ensures Concat(Concat(ss[b..])) == Concat(ss[b]) + Concat(Concat(ss[b + 1..]))
  {
    assert ss[b..][0] == ss[b] && ss[b..][1..] == ss[b + 1..];
    ConcatAppend(ss[b], Concat(ss[b + 1..]));
  }

  lemma {:induction false} ConcatAppend<T>(ss: seq<seq<T>>, ss': seq<seq<T>>)
    ensures Concat(ss + ss') == Concat(ss) + Concat(ss')
    decreases |ss|
  {
    if ss == [] {
      assert ss + ss' == ss';
    } else {
      assert (ss + ss')[1..] == ss[1..] + ss';
      ConcatAppend(ss[1..], ss');
    }
  }

  lemma {:induction false} SlotsAppend(p: Plan, s: seq<Item>, s': seq<Item>)
    ensures SlotsOf(p, s + s') == SlotsOf(p, s) + SlotsOf(p, s')
    decreases |s|
  {
    if s == [] {
      assert s + s' == s';
    } else {
      assert (s + s')[1..] == s[1..] + s';
      SlotsAppend(p, s[1..], s');
    }
  }

  lemma {:induction false} ExecsOpenNone(p: Plan, b: nat, ls: seq<Line>)
    ensures SlotsOf(p, Execs(b, ls)) == []
    decreases |ls|
  {
    if ls != [] {
      assert Execs(b, ls)[1..] == Execs(b, ls[1..]);
      ExecsOpenNone(p, b, ls[1..]);
    }
  }

  /** The cells of each batch: its slots, then zeros. */
  function Committed(bs: seq<seq<seq<Instr>>>): (c: seq<seq<nat>>)
    requires BatchesOk(bs)
    ensures |c| == |bs| && forall b: nat | b < |bs| :: CommitsTo(bs, c, b)
  {
    seq(|bs|, b requires 0 <= b < |bs| => assert BatchOk(bs[b]); Natural(CellsOfBatch(bs[b])))
  }

  ghost predicate CommitsTo(bs: seq<seq<seq<Instr>>>, c: seq<seq<nat>>, b: nat)
    requires BatchesOk(bs) && b < |bs| == |c|
  {
    BatchOk(bs[b]) && c[b] == Natural(CellsOfBatch(bs[b]))
  }

  lemma {:induction false} ItemsOpen(p: Plan, bs: seq<seq<seq<Instr>>>, c: seq<seq<nat>>, b: nat)
    requires BatchesOk(bs) && p == PlanOf(bs) && b <= |bs| == |c| && forall d: nat | d < |bs| :: CommitsTo(bs, c, d)
    ensures SlotsOf(p, ItemsFrom(bs, b)) == c[b..]
    decreases |bs| - b
  {
    if b < |bs| {
      SlotsAppend(p, BatchItems(bs, b), ItemsFrom(bs, b + 1));
      assert CommitsTo(bs, c, b);
      OneBatchOpens(p, bs, c, b);
      ItemsOpen(p, bs, c, b + 1);
      FromHere(c, b);
    } else {
      assert SlotsOf(p, [Close, Stop]) == SlotsOf(p, [Stop]) == [];
    }
  }

  lemma FromHere<T>(c: seq<T>, b: nat)
    requires b < |c|
    ensures c[b..] == [c[b]] + c[b + 1..]
  {
  }

  lemma OneBatchOpens(p: Plan, bs: seq<seq<seq<Instr>>>, c: seq<seq<nat>>, b: nat)
    requires BatchesOk(bs) && p == PlanOf(bs) && b < |bs| == |c| && CommitsTo(bs, c, b)
    ensures SlotsOf(p, BatchItems(bs, b)) == [c[b]]
  {
    var s := BatchItems(bs, b);
    assert s[1..] == Execs(b, BatchLines(bs[b], 1));
    ExecsOpenNone(p, b, BatchLines(bs[b], 1));
    assert p.slots[b] == CellsOfBatch(bs[b]);
  }

  /** SPAN, the operations of the first batch, RESPAN, those of the next, and so on, END and HALT. */
  function BlockTrace(bs: seq<seq<seq<Instr>>>): (t: seq<Row>)
    requires BatchesOk(bs) && bs != [] && |ItemsFrom(bs, 0)| < P
  {
    ItemsAreBlock(bs);
    Trace(PlanOf(bs), ItemsFrom(bs, 0))
  }

  lemma {:induction false} TraceLength(bs: seq<seq<seq<Instr>>>, b: nat)
    requires BatchesOk(bs) && b <= |bs|
    ensures |ItemsFrom(bs, b)| == |Concat(Concat(bs[b..]))| + (|bs| - b) + 2
    decreases |bs| - b
  {
    if b < |bs| {
      BatchRows(bs, b);
      TraceLength(bs, b + 1);
      ConcatFrom(bs, b);
    }
  }

  /** Any list of batches of one, two, four or eight slots, with up to nine operations a group and immediates
      in the slots after their group, is accepted: its trace satisfies every decoder constraint and balances
      the op group table both ways; it commits to those slots and executes those operations. */
  lemma DecodingIsComplete(bs: seq<seq<seq<Instr>>>)
    requires BatchesOk(bs) && bs != [] && |Concat(Concat(bs))| + |bs| + 2 < P
    ensures |ItemsFrom(bs, 0)| == |Concat(Concat(bs))| + |bs| + 2
    ensures var t := BlockTrace(bs);
            && |t| == |Concat(Concat(bs))| + |bs| + 2
            && DecoderTrace(t) && Framed(t)
            && RunFrom(t, 0) == NoNoops(Concat(Concat(bs)))
            && CommittedFrom(t, 0) == Committed(bs)
  {
    assert bs[0..] == bs;
    TraceLength(bs, 0);
    ItemsAreBlock(bs);
    var p, s, t := PlanOf(bs), ItemsFrom(bs, 0), BlockTrace(bs);
    assert s[0..] == s;
    BlockIsAccepted(p, s, t);
    TraceShows(p, s, t);
    BlockIsFramed(p, s, t);
    RunIs(p, s, t, 0);
    ItemsOps(bs, 0);
    CommittedIs(p, s, t, 0);
    ItemsOpen(p, bs, Committed(bs), 0);
  }
}
