/** The processor's continuation stack: continuations and, while tracking is on, a parallel
    stack of source node ids. */
module ContinuationStack {
  import opened Wrappers

  /** F represents a MAST forest, D the debug information of a package. */
  datatype Continuation<+F, +D> =
    | StartNode(node: nat)
    | FinishJoin(node: nat)
    | FinishSplit(node: nat)
    | FinishLoop(node: nat)
    | FinishCall(node: nat)
    | FinishDyn(node: nat)
    | ResumeBasicBlock(node: nat, batchIndex: nat, opIdxInBatch: nat)
    | Respan(node: nat, batchIndex: nat)
    | FinishBasicBlock(node: nat)
    | EnterForest(forest: F, debugInfo: Option<D>, inlineContextDepth: nat)
  {
    predicate IncrementsClk() {
      match this
      case EnterForest(_, _, _) => false
      case _ => true
    }

    function ExecNode(): Option<nat> {
      match this
      case EnterForest(_, _, _) => None
      case _ => Some(node)
    }
  }

  /** A continuation increments the clock exactly when it executes a node. */
  lemma ClockTicksOnNodes<F, D>(c: Continuation<F, D>)
    ensures c.IncrementsClk() <==> c.ExecNode().Some?
  {
  }

  type Id = Option<nat>
  type Entry<+F, +D> = (Continuation<F, D>, Id)

  /** The entries that run in the next clock cycle, top of the stack first. */
  function NextClock<F, D>(s: seq<Entry<F, D>>): seq<Entry<F, D>> {
    if s == [] then []
    else
      var top := s[|s| - 1];
      if top.0.IncrementsClk() then [top] else [top] + NextClock(s[..|s| - 1])
  }

  /** They are the top of the stack, read downwards, up to and including the first entry that
      increments the clock. */
  lemma {:induction false} NextClockIsTop<F, D>(s: seq<Entry<F, D>>)
    ensures |NextClock(s)| <= |s|
    ensures forall i: nat | i < |NextClock(s)| :: NextClock(s)[i] == s[|s| - 1 - i]
    ensures forall i: nat | i + 1 < |NextClock(s)| :: !NextClock(s)[i].0.IncrementsClk()
    ensures |NextClock(s)| < |s| ==> NextClock(s) != [] && NextClock(s)[|NextClock(s)| - 1].0.IncrementsClk()
  {
    if s != [] && !s[|s| - 1].0.IncrementsClk() {
      NextClockIsTop(s[..|s| - 1]);
    }
  }

  /** What is still to come when the walk has seen r and k entries are left below. */
  function Walk<F, D>(s: seq<Entry<F, D>>, r: seq<Entry<F, D>>, k: nat, found: bool): seq<Entry<F, D>>
    requires k <= |s|
  {
    if found then r else r + NextClock(s[..k])
  }

  lemma WalkStep<F, D>(s: seq<Entry<F, D>>, r: seq<Entry<F, D>>, k: nat)
    requires 0 < k <= |s|
    ensures Walk(s, r, k, false) == Walk(s, r + [s[k - 1]], k - 1, s[k - 1].0.IncrementsClk())
  {
    assert s[..k][..k - 1] == s[..k - 1];
    var rest := NextClock(s[..k - 1]);
    assert r + ([s[k - 1]] + rest) == r + [s[k - 1]] + rest;
  }

  lemma WalkEnds<F, D>(s: seq<Entry<F, D>>, r: seq<Entry<F, D>>, k: nat, found: bool)
    requires k <= |s| && (k == 0 || found)
    ensures Walk(s, r, k, found) == r && Walk(s, [], |s|, false) == NextClock(s)
  {
    assert s[..|s|] == s && s[..0] == [];
  }

  // Operations on one stack of (continuation, id) pairs
  // ----------------------------------------------------------------------------

  datatype Op<+F, +D> = Push(c: Continuation<F, D>, id: Id) | Pop | Track(next: Id)

  /** A stack of pairs; ids are recorded only while tracking is on. */
  datatype Model<+F, +D> = Model(entries: seq<Entry<F, D>>, tracking: bool) {
    function Apply(op: Op<F, D>): Model<F, D> {
      match op
      case Push(c, id) => Model(entries + [(c, if tracking then id else None)], tracking)
      case Pop => if entries == [] then this else Model(entries[..|entries| - 1], tracking)
      case Track(next) =>
        Model(seq(|entries|, i requires 0 <= i < |entries| => (entries[i].0, if i == |entries| - 1 then next else None)), true)
    }

    function Run(ops: seq<Op<F, D>>): Model<F, D> {
      if ops == [] then this else Run(ops[..|ops| - 1]).Apply(ops[|ops| - 1])
    }

    /** What a pop returns. */
    function Top(): Option<Entry<F, D>> {
      if entries == [] then None else Some(entries[|entries| - 1])
    }

    /** The results of the pops among ops. */
    function Popped(ops: seq<Op<F, D>>): seq<Option<Entry<F, D>>> {
      if ops == [] then []
      else
        var init := ops[..|ops| - 1];
        Popped(init) + if ops[|ops| - 1].Pop? then [Run(init).Top()] else []
    }
  }

  // Laws of the operations
  // ----------------------------------------------------------------------------

  /** The pair that a push leaves on top. */
  function Pushed<F, D>(c: Continuation<F, D>, id: Id, tracking: bool): Entry<F, D> {
    (c, if tracking then id else None)
  }

  /** A pop returns what was pushed last and undoes the push; on an empty stack it returns nothing. */
  lemma PushThenPop<F, D>(m: Model<F, D>, c: Continuation<F, D>, id: Id)
    ensures m.Apply(Push(c, id)).Top() == Some(Pushed(c, id, m.tracking))
    ensures m.Apply(Push(c, id)).Apply(Pop) == m
    ensures m.entries == [] ==> m.Top() == None && m.Apply(Pop) == m
  {
    var e := Pushed(c, id, m.tracking);
    PoppedEntries(m.entries, e);
    assert m.Apply(Push(c, id)) == Model(m.entries + [e], m.tracking);
  }

  lemma PoppedEntries<T>(s: seq<T>, e: T)
    ensures (s + [e])[..|s + [e]| - 1] == s && (s + [e])[|s + [e]| - 1] == e
  {
  }

  /** Pushes less pops. */
  function Net<F, D>(ops: seq<Op<F, D>>): int {
    if ops == [] then 0 else Net(ops[..|ops| - 1]) + (match ops[|ops| - 1] case Push(_, _) => 1 case Pop => -1 case Track(_) => 0)
  }

  ghost predicate StaysAt<F, D>(ops: seq<Op<F, D>>, k: nat, level: int)
    requires k <= |ops|
  {
    Net(ops[..k]) >= level
  }

  /** Pushes and pops that never take more than level off what was there. */
  ghost predicate StaysAbove<F, D>(ops: seq<Op<F, D>>, level: int) {
    && (forall k: nat | k < |ops| :: !ops[k].Track?)
    && (forall k: nat | k <= |ops| :: StaysAt(ops, k, level))
  }

  /** A sequence in which every push is popped again and nothing else is. */
  ghost predicate Balanced<F, D>(ops: seq<Op<F, D>>) {
    StaysAbove(ops, 0) && Net(ops) == 0
  }

  /** What lies below the lowest level reached is not touched. */
  lemma {:induction false} RunKeepsBelow<F, D>(m: Model<F, D>, ops: seq<Op<F, D>>, n: nat)
    requires n <= |m.entries| && StaysAbove(ops, n - |m.entries|)
    ensures var r := m.Run(ops);
            && r.tracking == m.tracking && |r.entries| == |m.entries| + Net(ops)
            && n <= |r.entries| && r.entries[..n] == m.entries[..n]
    decreases |ops|
  {
    if ops != [] {
      var init, op := ops[..|ops| - 1], ops[|ops| - 1];
      StaysInit(ops, n - |m.entries|);
      RunKeepsBelow(m, init, n);
      assert StaysAt(ops, |ops|, n - |m.entries|) && ops[..|ops|] == ops;
      StepKeepsBelow(m.Run(init), op, n);
    }
  }

  lemma StaysInit<F, D>(ops: seq<Op<F, D>>, level: int)
    requires StaysAbove(ops, level) && ops != []
    ensures StaysAbove(ops[..|ops| - 1], level)
  {
    var init := ops[..|ops| - 1];
    forall k: nat | k <= |init|
      ensures StaysAt(init, k, level)
    {
      assert StaysAt(ops, k, level) && init[..k] == ops[..k];
    }
  }

  lemma StepKeepsBelow<F, D>(m: Model<F, D>, op: Op<F, D>, n: nat)
    requires !op.Track? && n <= |m.entries| && (op.Pop? ==> n < |m.entries|)
    ensures var r := m.Apply(op);
            && r.tracking == m.tracking && |r.entries| == |m.entries| + (if op.Push? then 1 else -1)
            && n <= |r.entries| && r.entries[..n] == m.entries[..n]
  {
  }

  lemma {:induction false} RunAppend<F, D>(m: Model<F, D>, a: seq<Op<F, D>>, b: seq<Op<F, D>>)
    ensures m.Run(a + b) == m.Run(a).Run(b)
    decreases |b|
  {
    if b == [] {
      assert a + b == a;
    } else {
      assert (a + b)[..|a + b| - 1] == a + b[..|b| - 1];
      RunAppend(m, a, b[..|b| - 1]);
    }
  }

  /** Last in, first out: in any run, a pop that follows a push and a balanced sequence returns the pair of
      that push and leaves the stack as it was before it. */
  lemma LastInFirstOut<F, D>(m: Model<F, D>, before: seq<Op<F, D>>, c: Continuation<F, D>, id: Id, between: seq<Op<F, D>>)
    requires Balanced(between)
    ensures var ops := before + [Push(c, id)] + between;
            && m.Run(ops).Top() == Some(Pushed(c, id, m.Run(before).tracking))
            && m.Run(ops + [Pop]) == m.Run(before)
            && m.Popped(ops + [Pop]) == m.Popped(ops) + [Some(Pushed(c, id, m.Run(before).tracking))]
  {
    var b, p := m.Run(before), before + [Push(c, id)];
    var ops := p + between;
    assert p[..|before|] == before;
    RunAppend(m, p, between);
    PushThenPop(b, c, id);
    var q := b.Apply(Push(c, id));
    BalancedKeeps(q, between);
    assert (ops + [Pop])[..|ops|] == ops;
  }

  lemma BalancedKeeps<F, D>(m: Model<F, D>, ops: seq<Op<F, D>>)
    requires Balanced(ops)
    ensures m.Run(ops) == m
  {
    RunKeepsBelow(m, ops, |m.entries|);
    var r := m.Run(ops);
    assert r.entries[..|m.entries|] == r.entries && m.entries[..|m.entries|] == m.entries;
  }

  /** After tracking starts, the entry then on top carries the given id and every one below it none, for as
      long as they stay. */
  lemma TrackedIds<F, D>(m: Model<F, D>, next: Id, ops: seq<Op<F, D>>, i: nat)
    requires i < |m.entries| && StaysAbove(ops, i + 1 - |m.entries|)
    ensures var r := m.Apply(Track(next)).Run(ops);
            && i < |r.entries| && r.tracking
            && r.entries[i] == (m.entries[i].0, if i == |m.entries| - 1 then next else None)
  {
    var t := m.Apply(Track(next));
    RunKeepsBelow(t, ops, i + 1);
    assert t.Run(ops).entries[i] == t.Run(ops).entries[..i + 1][i] == t.entries[..i + 1][i];
  }

  function Pops<F, D>(n: nat): (ops: seq<Op<F, D>>)
    ensures |ops| == n
  {
    seq(n, _ => Pop)
  }

  lemma {:induction false} PopsNet<F, D>(n: nat, k: nat)
    requires k <= n
    ensures Net<F, D>(Pops<F, D>(n)[..k]) + k == 0
    decreases k
  {
    if k > 0 {
      PopsNet<F, D>(n, k - 1);
      assert Pops<F, D>(n)[..k][..k - 1] == Pops<F, D>(n)[..k - 1];
    }
  }

  /** The first pop after tracking starts carries the given id, and every later one carries none. */
  lemma TrackThenPops<F, D>(m: Model<F, D>, next: Id, j: nat)
    requires j < |m.entries|
    ensures m.Apply(Track(next)).Run(Pops(j)).Top()
         == Some((m.entries[|m.entries| - 1 - j].0, if j == 0 then next else None))
  {
    var t, ops := m.Apply(Track(next)), Pops<F, D>(j);
    var i := |m.entries| - 1 - j;
    var level := i + 1 - |m.entries|;
    forall k: nat | k <= |ops|
      ensures StaysAt(ops, k, level)
    {
      PopsNet<F, D>(j, k);
    }
    TrackedIds(m, next, ops, i);
    RunKeepsBelow(t, ops, i + 1);
    PopsNet<F, D>(j, j);
    assert ops[..j] == ops;
  }

  class Stack<F, D> {
    var stack: seq<Continuation<F, D>>
    var sourceNodeIds: Option<seq<Id>>

    ghost predicate Valid()
      reads this
    {
      sourceNodeIds.Some? ==> |sourceNodeIds.value| == |stack|
    }

    function IdAt(i: nat): Id
      requires Valid() && i < |stack|
      reads this
    {
      if sourceNodeIds.Some? then sourceNodeIds.value[i] else None
    }

    ghost function State(): (m: Model<F, D>)
      requires Valid()
      reads this
    {
      Model(seq(|stack|, i requires Valid() && 0 <= i < |stack| reads this => (stack[i], IdAt(i))), sourceNodeIds.Some?)
    }

    /** A stack for a program, with the id of its entry point when ids are to be tracked. */
    constructor (entry: nat, tracked: Option<Id>)
      ensures Valid()
      ensures State() == Model([(StartNode(entry), if tracked.Some? then tracked.value else None)], tracked.Some?)
    {
      stack := [StartNode(entry)];
      sourceNodeIds := match tracked case Some(id) => Some([id]) case None => None;
    }

    method PushWithSourceNodeId(c: Continuation<F, D>, id: Id)
      requires Valid()
      modifies this
      ensures Valid() && State() == old(State()).Apply(Push(c, id))
      ensures PeekWithSourceNodeId() == Some((c, if old(sourceNodeIds).Some? then id else None))
    {
      stack := stack + [c];
      PushSourceNodeId(id);
    }

    method PushSourceNodeId(id: Id)
      modifies this`sourceNodeIds
      ensures sourceNodeIds == match old(sourceNodeIds) case Some(ids) => Some(ids + [id]) case None => None
    {
      if sourceNodeIds.Some? {
        sourceNodeIds := Some(sourceNodeIds.value + [id]);
      }
    }

    /** Every plain push records no id. */
    method PushContinuation(c: Continuation<F, D>)
      requires Valid()
      modifies this
      ensures Valid() && State() == old(State()).Apply(Push(c, None))
    {
      PushWithSourceNodeId(c, None);
    }

    method PopWithSourceNodeId() returns (r: Option<Entry<F, D>>)
      requires Valid()
      modifies this
      ensures Valid() && State() == old(State()).Apply(Pop)
      ensures r == old(PeekWithSourceNodeId()) == old(State()).Top()
    {
      if stack == [] {
        return None;
      }
      var n := |stack| - 1;
      var c, id := stack[n], None;
      stack := stack[..n];
      if sourceNodeIds.Some? {
        id := sourceNodeIds.value[n];
        sourceNodeIds := Some(sourceNodeIds.value[..n]);
      }
      return Some((c, id));
    }

    /** Tracking starts with no ids, except for the next continuation to run. */
    method StartTrackingSourceNodes(next: Id)
      requires Valid()
      modifies this`sourceNodeIds
      ensures Valid() && State() == old(State()).Apply(Track(next))
    {
      var ids: seq<Id> := seq(|stack|, _ => None);
      if ids != [] {
        ids := ids[|ids| - 1 := next];
      }
      sourceNodeIds := Some(ids);
    }

    function PeekWithSourceNodeId(): (r: Option<Entry<F, D>>)
      requires Valid()
      reads this
      ensures r == State().Top()
    {
      if stack == [] then None else Some((stack[|stack| - 1], IdAt(|stack| - 1)))
    }

    /** Walks down the stack without popping; each entry carries its own id. */
    method ContinuationsForNextClock() returns (r: seq<Entry<F, D>>)
      requires Valid()
      ensures r == NextClock(State().entries)
    {
      r := [];
      var index, found := |stack|, false;
      ghost var entries := State().entries;
      while index > 0 && !found
        invariant 0 <= index <= |stack| == |entries|
        invariant Walk(entries, [], |entries|, false) == Walk(entries, r, index, found)
      {
        WalkStep(entries, r, index);
        index := index - 1;
        r := r + [(stack[index], IdAt(index))];
        found := stack[index].IncrementsClk();
      }
      WalkEnds(entries, r, index, found);
    }

    /** Popping up to and including the first clock increment yields what the walk yields. */
    method PopNextClock() returns (r: seq<Entry<F, D>>)
      requires Valid()
      modifies this
      ensures Valid() && r == NextClock(old(State()).entries)
      ensures |r| <= |old(State()).entries|
      ensures State() == Model(old(State()).entries[..|old(State()).entries| - |r|], old(State()).tracking)
    {
      r := [];
      ghost var start, k := State(), |stack|;
      ghost var entries := start.entries;
      assert entries[..k] == entries;
      var found := false;
      while stack != [] && !found
        invariant Valid() && k == |stack| <= |entries| && |r| == |entries| - k
        invariant State() == Model(entries[..k], start.tracking)
        invariant Walk(entries, [], |entries|, false) == Walk(entries, r, k, found)
        decreases |stack|
      {
        WalkStep(entries, r, k);
        var top := PopWithSourceNodeId();
        k := k - 1;
        assert entries[..k + 1][..k] == entries[..k];
        SizeIs(k);
        r := r + [top.value];
        found := top.value.0.IncrementsClk();
      }
      WalkEnds(entries, r, k, found);
    }

    lemma SizeIs(k: nat)
      requires Valid() && |State().entries| == k
      ensures |stack| == k
    {
    }

    /** Any sequence of operations keeps the two stacks aligned and acts as on one stack of pairs, whose pops
        it returns. */
    method RunAll(ops: seq<Op<F, D>>) returns (popped: seq<Option<Entry<F, D>>>)
      requires Valid()
      modifies this
      ensures Valid() && State() == old(State()).Run(ops) && popped == old(State()).Popped(ops)
    {
      ghost var start := State();
      popped := [];
      for i := 0 to |ops|
        invariant Valid() && State() == start.Run(ops[..i]) && popped == start.Popped(ops[..i])
      {
        match ops[i] {
          case Push(c, id) => PushWithSourceNodeId(c, id);
          case Pop =>
            var r := PopWithSourceNodeId();
            popped := popped + [r];
          case Track(next) => StartTrackingSourceNodes(next);
        }
        assert ops[..i + 1][..i] == ops[..i];
      }
      assert ops[..|ops|] == ops;
    }
  }
}
