/** The symbolic side of LogUp: running (V, U) pairs in place of fractions, and a cyclic
    recurrence that pins the global sum. */
module LogUpConstraints {
  import opened AbstractField
  import opened LogUpAccumulator

  // Sums
  // ----------------------------------------------------------------------------

  lemma {:induction false} SumAppend<E(!new)>(f: Field<E>, s: seq<E>, t: seq<E>)
    requires f.Laws()
    ensures Sum(f, s + t) == f.add(Sum(f, s), Sum(f, t))
  {
    if t == [] {
      assert s + t == s;
      f.ZeroAdd(Sum(f, s));
    } else {
      var n := |t| - 1;
      SumAppend(f, s, t[..n]);
      assert (s + t)[..|s| + n] == s + t[..n];
      assert f.AddAssoc(Sum(f, s), Sum(f, t[..n]), t[n]);
    }
  }

  lemma SumOne<E(!new)>(f: Field<E>, x: E)
    requires f.Laws()
    ensures Sum(f, [x]) == x
  {
    assert [x][..0] == [];
    f.ZeroAdd(x);
  }

  // Interactions
  // ----------------------------------------------------------------------------

  /** One gated interaction of a group: a flag, and the (multiplicity, denominator) pairs it
      contributes; a single insertion has one pair, a batch any number. */
  datatype Interaction<!E> = Single(flag: E, m: E, d: E) | Batch(flag: E, pairs: seq<(E, E)>) {
    function Pairs(): seq<(E, E)> {
      match this
      case Single(_, m, d) => [(m, d)]
      case Batch(_, pairs) => pairs
    }
  }

  type Group<!E> = seq<Interaction<E>>
  type Column<!E> = seq<Group<E>>

  /** Running numerator and denominator (N, D) of a batch. */
  function BatchPair<E(!new)>(f: Field<E>, s: seq<(E, E)>): (E, E) {
    if s == [] then (f.zero, f.one)
    else
      var (n, d) := BatchPair(f, s[..|s| - 1]);
      var (m, v) := s[|s| - 1];
      (f.add(f.mul(n, v), f.mul(d, m)), f.mul(d, v))
  }

  /** Running pair (V, U) of a group. */
  function GroupPair<E(!new)>(f: Field<E>, g: Group<E>): (E, E) {
    if g == [] then (f.zero, f.one)
    else
      var (v, u) := GroupPair(f, g[..|g| - 1]);
      match g[|g| - 1]
      case Single(flag, m, d) => (f.add(v, f.mul(flag, m)), f.add(u, f.mul(f.Sub(d, f.one), flag)))
      case Batch(flag, pairs) =>
        var (n, d) := BatchPair(f, pairs);
        (f.add(v, f.mul(n, flag)), f.add(u, f.mul(f.Sub(d, f.one), flag)))
  }

  /** Running pair (V, U) of a column: groups compose by cross-multiplication. */
  function ColumnPair<E(!new)>(f: Field<E>, c: Column<E>): (E, E) {
    if c == [] then (f.zero, f.one)
    else
      var (v, u) := ColumnPair(f, c[..|c| - 1]);
      var (vg, ug) := GroupPair(f, c[|c| - 1]);
      (f.add(f.mul(v, ug), f.mul(vg, u)), f.mul(u, ug))
  }

  /** The fractions the prover collects: those of interactions whose flag is not zero. */
  function GroupFractions<E(==, !new)>(f: Field<E>, g: Group<E>): seq<(E, E)> {
    if g == [] then []
    else GroupFractions(f, g[..|g| - 1]) + (if g[|g| - 1].flag == f.zero then [] else g[|g| - 1].Pairs())
  }

  function ColumnFractions<E(==, !new)>(f: Field<E>, c: Column<E>): seq<(E, E)> {
    if c == [] then [] else ColumnFractions(f, c[..|c| - 1]) + GroupFractions(f, c[|c| - 1])
  }

  /** Flags are boolean and at most one of them is on. */
  ghost predicate Exclusive<E(!new)>(f: Field<E>, g: Group<E>) {
    && (forall i: nat | i < |g| :: g[i].flag == f.zero || g[i].flag == f.one)
    && (forall i: nat, j: nat | i < j < |g| :: g[i].flag == f.zero || g[j].flag == f.zero)
  }

  ghost predicate AllNonzero<E(!new)>(f: Field<E>, s: seq<(E, E)>) {
    forall i: nat | i < |s| :: s[i].1 != f.zero
  }

  /** A pair (V, U) stands for the value x. */
  ghost predicate Stands<E(!new)>(f: Field<E>, p: (E, E), x: E) {
    p.1 != f.zero && p.0 == f.mul(p.1, x)
  }

  /** A pair that stands for x is satisfied by x and by nothing else. */
  lemma StandsForOne<E(!new)>(f: Field<E>, p: (E, E), x: E, y: E)
    requires f.Laws() && Stands(f, p, x)
    ensures f.Sub(f.mul(p.1, y), p.0) == f.zero <==> y == x
  {
    f.SubIsZero(f.mul(p.1, y), p.0);
    if f.mul(p.1, y) == p.0 {
      assert f.MulComm(p.1, y) && f.MulComm(p.1, x);
      f.MulCancel(y, x, p.1);
    }
  }

  lemma {:induction false} QuotsAppend<E(!new)>(f: Field<E>, s: seq<(E, E)>, t: seq<(E, E)>)
    ensures Quots(f, s + t) == Quots(f, s) + Quots(f, t)
  {
  }

  /** Cross-multiplication adds what the two pairs stand for. */
  lemma CrossMultiply<E(!new)>(f: Field<E>, p: (E, E), q: (E, E), x: E, y: E)
    requires f.Laws() && Stands(f, p, x) && Stands(f, q, y)
    ensures Stands(f, (f.add(f.mul(p.0, q.1), f.mul(q.0, p.1)), f.mul(p.1, q.1)), f.add(x, y))
  {
    var u, w := p.1, q.1;
    f.MulNonzero(u, w);
    var uw := f.mul(u, w);
    // (u*x)*w == (u*w)*x
    assert f.MulAssoc(u, x, w) && f.MulComm(x, w) && f.MulAssoc(u, w, x);
    // (w*y)*u == (u*w)*y
    assert f.MulAssoc(w, y, u) && f.MulComm(y, u) && f.MulAssoc(w, u, y) && f.MulComm(w, u);
    f.DistribLeft(x, y, uw);
  }

  lemma {:induction false} BatchStands<E(!new)>(f: Field<E>, s: seq<(E, E)>)
    requires f.Laws() && AllNonzero(f, s)
    ensures Stands(f, BatchPair(f, s), Sum(f, Quots(f, s)))
  {
    if s == [] {
      f.MulZero(f.one);
    } else {
      var n := |s| - 1;
      var (m, v) := s[n];
      BatchStands(f, s[..n]);
      OneStands(f, m, v);
      CrossMultiply(f, BatchPair(f, s[..n]), (m, v), Sum(f, Quots(f, s[..n])), f.Quot(m, v));
      var p := BatchPair(f, s[..n]);
      assert f.MulComm(m, p.1);
      assert Quots(f, s)[..n] == Quots(f, s[..n]);
    }
  }

  lemma OneStands<E(!new)>(f: Field<E>, m: E, d: E)
    requires f.Laws() && d != f.zero
    ensures Stands(f, (m, d), f.Quot(m, d))
  {
    f.InvMul(d);
    f.OneMul(m);
    assert f.MulAssoc(d, f.inv(d), m);
  }

  // A group with at most one flag on stands for its active fractions
  // ----------------------------------------------------------------------------

  /** The pair of the last interaction, its flag aside. */
  function Raw<E(!new)>(f: Field<E>, x: Interaction<E>): (E, E) {
    match x
    case Single(_, m, d) => (m, d)
    case Batch(_, pairs) => BatchPair(f, pairs)
  }

  lemma FlagOff<E(!new)>(f: Field<E>, g: Group<E>)
    requires f.Laws() && g != [] && g[|g| - 1].flag == f.zero
    ensures GroupPair(f, g) == GroupPair(f, g[..|g| - 1])
  {
    var (v, u) := GroupPair(f, g[..|g| - 1]);
    var last := g[|g| - 1];
    var (n, d) := Raw(f, last);
    f.MulZero(n);
    f.MulZero(f.Sub(d, f.one));
    f.ZeroAdd(v);
    f.ZeroAdd(u);
  }

  lemma FlagOn<E(!new)>(f: Field<E>, g: Group<E>)
    requires f.Laws() && g != [] && g[|g| - 1].flag == f.one && GroupPair(f, g[..|g| - 1]) == (f.zero, f.one)
    ensures GroupPair(f, g) == Raw(f, g[|g| - 1])
  {
    var last := g[|g| - 1];
    var (n, d) := Raw(f, last);
    f.OneMul(n);
    f.OneMul(f.Sub(d, f.one));
    f.ZeroAdd(n);
    f.SubAdd(d, f.one);
    assert f.AddComm(f.one, f.Sub(d, f.one));
  }

  lemma {:induction false} IdleGroup<E(!new)>(f: Field<E>, g: Group<E>)
    requires f.Laws() && forall i: nat | i < |g| :: g[i].flag == f.zero
    ensures GroupPair(f, g) == (f.zero, f.one) && GroupFractions(f, g) == []
  {
    if g != [] {
      IdleGroup(f, g[..|g| - 1]);
      FlagOff(f, g);
    }
  }

  lemma {:induction false} GroupStands<E(!new)>(f: Field<E>, g: Group<E>)
    requires f.Laws() && Exclusive(f, g) && AllNonzero(f, GroupFractions(f, g))
    ensures Stands(f, GroupPair(f, g), Sum(f, Quots(f, GroupFractions(f, g))))
  {
    if g == [] {
      f.MulZero(f.one);
    } else {
      var n := |g| - 1;
      var init, last := g[..n], g[n];
      if last.flag == f.zero {
        FlagOff(f, g);
        assert GroupFractions(f, g) == GroupFractions(f, init);
        GroupStands(f, init);
      } else {
        forall i: nat | i < n
          ensures init[i].flag == f.zero
        {
          var x, y := g[i], g[n];
          assert x.flag == f.zero || y.flag == f.zero;
        }
        IdleGroup(f, init);
        FlagOn(f, g);
        assert GroupFractions(f, g) == last.Pairs();
        RawStands(f, last);
      }
    }
  }

  lemma RawStands<E(!new)>(f: Field<E>, x: Interaction<E>)
    requires f.Laws() && AllNonzero(f, x.Pairs())
    ensures Stands(f, Raw(f, x), Sum(f, Quots(f, x.Pairs())))
  {
    match x
    case Single(_, m, d) =>
      assert x.Pairs()[0] == (m, d);
      OneStands(f, m, d);
      assert Quots(f, [(m, d)]) == [f.Quot(m, d)];
      SumOne(f, f.Quot(m, d));
    case Batch(_, pairs) => BatchStands(f, pairs);
  }

  // Columns
  // ----------------------------------------------------------------------------

  /** Every group is exclusive and every active denominator is nonzero. */
  ghost predicate Good<E(!new)>(f: Field<E>, c: Column<E>) {
    (forall i: nat | i < |c| :: Exclusive(f, c[i])) && AllNonzero(f, ColumnFractions(f, c))
  }

  /** Sum of the fractions the prover collects for a column. */
  function ColumnSum<E(==, !new)>(f: Field<E>, c: Column<E>): E {
    Sum(f, Quots(f, ColumnFractions(f, c)))
  }

  lemma GoodInit<E(!new)>(f: Field<E>, c: Column<E>)
    requires c != [] && Good(f, c)
    ensures Good(f, c[..|c| - 1]) && Exclusive(f, c[|c| - 1]) && AllNonzero(f, GroupFractions(f, c[|c| - 1]))
  {
    var init := ColumnFractions(f, c[..|c| - 1]);
    var last := GroupFractions(f, c[|c| - 1]);
    var all := ColumnFractions(f, c);
    assert all == init + last;
    forall i: nat | i < |last|
      ensures last[i].1 != f.zero
    {
      assert all[|init| + i] == last[i];
    }
    forall i: nat | i < |init|
      ensures init[i].1 != f.zero
    {
      assert all[i] == init[i];
    }
  }

  /** The (V, U) fold preserves meaning: the pair of a column stands for the sum of the
      fractions the prover collects for it. */
  lemma {:induction false} ColumnStands<E(!new)>(f: Field<E>, c: Column<E>)
    requires f.Laws() && Good(f, c)
    ensures Stands(f, ColumnPair(f, c), ColumnSum(f, c))
  {
    if c == [] {
      f.MulZero(f.one);
    } else {
      var init, last := c[..|c| - 1], c[|c| - 1];
      GoodInit(f, c);
      ColumnStands(f, init);
      GroupStands(f, last);
      CrossMultiply(f, ColumnPair(f, init), GroupPair(f, last), ColumnSum(f, init), Sum(f, Quots(f, GroupFractions(f, last))));
      QuotsAppend(f, ColumnFractions(f, init), GroupFractions(f, last));
      SumAppend(f, Quots(f, ColumnFractions(f, init)), Quots(f, GroupFractions(f, last)));
    }
  }

  /** U*x - V vanishes exactly for the sum of the active fractions. */
  lemma ColumnConstraint<E(!new)>(f: Field<E>, c: Column<E>, x: E)
    requires f.Laws() && Good(f, c)
    ensures f.Sub(f.mul(ColumnPair(f, c).1, x), ColumnPair(f, c).0) == f.zero <==> x == ColumnSum(f, c)
  {
    ColumnStands(f, c);
    StandsForOne(f, ColumnPair(f, c), ColumnSum(f, c), x);
  }

  // Rows
  // ----------------------------------------------------------------------------

  /** The constraints a row puts on its auxiliary cells cur, the next accumulator and sigma'. */
  ghost predicate RowConstraints<E(!new)>(f: Field<E>, cols: seq<Column<E>>, cur: seq<E>, next: E, sigma': E) {
    && |cols| == |cur| > 0
    && Vanishes(f, cols[0], f.add(f.Sub(next, Sum(f, cur)), sigma'))
    && forall i: nat | 0 < i < |cols| :: Vanishes(f, cols[i], cur[i])
  }

  ghost predicate Vanishes<E(!new)>(f: Field<E>, c: Column<E>, x: E) {
    f.Sub(f.mul(ColumnPair(f, c).1, x), ColumnPair(f, c).0) == f.zero
  }

  function ColumnSums<E(==, !new)>(f: Field<E>, cols: seq<Column<E>>): (s: seq<E>)
    ensures |s| == |cols|
  {
    seq(|cols|, i requires 0 <= i < |cols| => ColumnSum(f, cols[i]))
  }

  lemma SumCons<E(!new)>(f: Field<E>, s: seq<E>)
    requires f.Laws() && s != []
    ensures Sum(f, s) == f.add(s[0], Sum(f, s[1..]))
  {
    assert s == [s[0]] + s[1..];
    SumAppend(f, [s[0]], s[1..]);
    SumOne(f, s[0]);
  }

  /** next - (a + rest) + s == x exactly when next == a + ((x + rest) - s) */
  lemma SolveNext<E(!new)>(f: Field<E>, next: E, a: E, rest: E, s: E, x: E)
    requires f.Laws()
    ensures f.add(f.Sub(next, f.add(a, rest)), s) == x <==> next == f.add(a, f.Sub(f.add(x, rest), s))
  {
    var sum := f.add(a, rest);
    f.SubAdd(next, sum);
    f.SubAdd(f.Sub(next, sum), s);
    f.SubAdd(x, s);
    f.SubAdd(f.Sub(x, s), sum);
    Regroup(f, a, rest, s, x);
  }

  /** (x - s) + (a + rest) == a + ((x + rest) - s) */
  lemma Regroup<E(!new)>(f: Field<E>, a: E, rest: E, s: E, x: E)
    requires f.Laws()
    ensures f.add(f.Sub(x, s), f.add(a, rest)) == f.add(a, f.Sub(f.add(x, rest), s))
  {
    var n := f.neg(s);
    // (x + n) + (a + rest) == (x + n) + (rest + a) == ((x + rest) + n) + a
    assert f.AddComm(a, rest);
    f.Interchange(x, n, rest, a);
    assert f.AddAssoc(f.add(x, rest), n, a);
    assert f.AddComm(f.add(f.add(x, rest), n), a);
  }

  ghost predicate GoodRow<E(!new)>(f: Field<E>, cols: seq<Column<E>>) {
    |cols| > 0 && forall i: nat | i < |cols| :: Good(f, cols[i])
  }

  /** A row is satisfied exactly when its fraction columns hold their sums and the accumulator
      moves by the row total less sigma'. */
  lemma RowMeaning<E(!new)>(f: Field<E>, cols: seq<Column<E>>, cur: seq<E>, next: E, sigma': E)
    requires f.Laws() && GoodRow(f, cols) && |cols| == |cur|
    ensures RowConstraints(f, cols, cur, next, sigma') <==>
            && cur[1..] == ColumnSums(f, cols)[1..]
            && next == f.add(cur[0], f.Sub(Sum(f, ColumnSums(f, cols)), sigma'))
  {
    var sums := ColumnSums(f, cols);
    forall i: nat | i < |cols|
      ensures forall x :: Vanishes(f, cols[i], x) <==> x == sums[i]
    {
      forall x
        ensures Vanishes(f, cols[i], x) <==> x == sums[i]
      {
        ColumnConstraint(f, cols[i], x);
      }
    }
    assert cur[1..] == sums[1..] <==> forall i: nat | 0 < i < |cols| :: cur[i] == sums[i] by {
      if cur[1..] == sums[1..] {
        forall i: nat | 0 < i < |cols|
          ensures cur[i] == sums[i]
        {
          assert cur[1..][i - 1] == sums[1..][i - 1];
        }
      }
    }
    if cur[1..] == sums[1..] {
      SumCons(f, cur);
      SumCons(f, sums);
      SolveNext(f, next, cur[0], Sum(f, sums[1..]), sigma', sums[0]);
    }
  }

  // The cyclic recurrence
  // ----------------------------------------------------------------------------

  /** a(0) = 0 and a(r + 1) = a(r) + t(r) - sigma', the row after the last being row 0. */
  ghost predicate Recurrence<E(!new)>(f: Field<E>, a: seq<E>, t: seq<E>, sigma': E) {
    && |a| == |t| > 0 && a[0] == f.zero
    && forall r: nat | r < |a| :: Moves(f, a, t, sigma', r)
  }

  ghost predicate Moves<E(!new)>(f: Field<E>, a: seq<E>, t: seq<E>, sigma': E, r: nat)
    requires r < |a| == |t|
  {
    At(a, r + 1) == f.add(a[r], f.Sub(t[r], sigma'))
  }

  /** Accumulator at row r, cyclically. */
  function At<E>(a: seq<E>, r: nat): E
    requires r <= |a| && |a| > 0
  {
    if r < |a| then a[r] else a[0]
  }

  lemma {:induction false} RecurrenceIsAcc<E(!new)>(f: Field<E>, a: seq<E>, t: seq<E>, sigma': E, r: nat)
    requires f.Laws() && Recurrence(f, a, t, sigma') && r <= |a|
    ensures At(a, r) == Acc(f, t, sigma', r)
  {
    if r > 0 {
      RecurrenceIsAcc(f, a, t, sigma', r - 1);
      assert Moves(f, a, t, sigma', r - 1);
    }
  }

  /** Acc(r) + r*sigma' is the plain running sum. */
  lemma {:induction false} AccUncentered<E(!new)>(f: Field<E>, t: seq<E>, sigma': E, r: nat)
    requires f.Laws() && r <= |t|
    ensures f.add(Acc(f, t, sigma', r), f.mul(f.Nat(r), sigma')) == Sum(f, t[..r])
  {
    if r == 0 {
      f.MulZero(sigma');
      f.ZeroAdd(f.zero);
    } else {
      AccUncentered(f, t, sigma', r - 1);
      var a, m, x := Acc(f, t, sigma', r - 1), f.mul(f.Nat(r - 1), sigma'), t[r - 1];
      assert f.Distrib(f.Nat(r - 1), f.one, sigma');
      f.OneMul(sigma');
      f.Interchange(a, f.Sub(x, sigma'), m, sigma');
      f.SubAdd(x, sigma');
      assert t[..r][..r - 1] == t[..r - 1];
    }
  }

  /** Any column that meets the recurrence forces n*sigma' to be the sum of all row totals. */
  lemma RecurrenceForcesSum<E(!new)>(f: Field<E>, a: seq<E>, t: seq<E>, sigma': E)
    requires f.Laws() && Recurrence(f, a, t, sigma')
    ensures f.mul(f.Nat(|t|), sigma') == Sum(f, t)
  {
    RecurrenceIsAcc(f, a, t, sigma', |a|);
    AccUncentered(f, t, sigma', |t|);
    f.ZeroAdd(f.mul(f.Nat(|t|), sigma'));
    assert t[..|t|] == t;
  }

  /** With n invertible the normalised sum closes the cycle. */
  lemma AccCloses<E(!new)>(f: Field<E>, t: seq<E>)
    requires f.Laws() && f.Nat(|t|) != f.zero
    ensures Acc(f, t, SigmaPrime(f, t), |t|) == f.zero
  {
    var n, s := f.Nat(|t|), Sum(f, t);
    var sigma' := SigmaPrime(f, t);
    AccUncentered(f, t, sigma', |t|);
    assert t[..|t|] == t;
    // n*(s*(1/n)) == s
    f.InvMul(n);
    f.OneMul(s);
    assert f.MulComm(s, f.inv(n)) && f.MulAssoc(n, f.inv(n), s);
    f.ZeroAdd(s);
    f.AddCancel(Acc(f, t, sigma', |t|), f.zero, s);
  }

  /** The accumulator column that is built meets the recurrence, and is the only one that does. */
  lemma RecurrenceHasOneSolution<E(!new)>(f: Field<E>, a: seq<E>, t: seq<E>, sigma': E)
    requires f.Laws() && |a| == |t| > 0 && f.Nat(|t|) != f.zero
    ensures Recurrence(f, a, t, sigma') <==>
            sigma' == SigmaPrime(f, t) && forall r: nat | r < |t| :: a[r] == Acc(f, t, sigma', r)
  {
    if Recurrence(f, a, t, sigma') {
      RecurrenceForcesSum(f, a, t, sigma');
      f.QuotIsSolution(f.Nat(|t|), Sum(f, t), sigma');
      assert f.MulComm(f.inv(f.Nat(|t|)), Sum(f, t));
      forall r: nat | r < |t|
        ensures a[r] == Acc(f, t, sigma', r)
      {
        RecurrenceIsAcc(f, a, t, sigma', r);
      }
    }
    if sigma' == SigmaPrime(f, t) && forall r: nat | r < |t| :: a[r] == Acc(f, t, sigma', r) {
      AccCloses(f, t);
      forall r: nat | r < |a|
        ensures Moves(f, a, t, sigma', r)
      {
        assert At(a, r + 1) == Acc(f, t, sigma', r + 1);
      }
    }
  }

  // Whole traces
  // ----------------------------------------------------------------------------

  /** Interactions of every row, each row with the same number of columns. */
  ghost predicate GoodTrace<E(!new)>(f: Field<E>, rows: seq<seq<Column<E>>>, cols: nat) {
    |rows| > 0 && forall r: nat | r < |rows| :: |rows[r]| == cols && GoodRow(f, rows[r])
  }

  function RowTotals<E(==, !new)>(f: Field<E>, rows: seq<seq<Column<E>>>): (t: seq<E>)
    ensures |t| == |rows|
  {
    seq(|rows|, r requires 0 <= r < |rows| => Sum(f, ColumnSums(f, rows[r])))
  }

  /** An auxiliary trace that satisfies the lookup constraints on every row, cyclically. */
  ghost predicate Satisfies<E(!new)>(f: Field<E>, rows: seq<seq<Column<E>>>, aux: seq<seq<E>>, sigma': E) {
    && |aux| == |rows| > 0
    && (forall r: nat | r < |aux| :: |aux[r]| == |rows[r]| > 0)
    && aux[0][0] == f.zero
    && forall r: nat | r < |aux| :: SatisfiesAt(f, rows, aux, sigma', r)
  }

  ghost predicate SatisfiesAt<E(!new)>(f: Field<E>, rows: seq<seq<Column<E>>>, aux: seq<seq<E>>, sigma': E, r: nat)
    requires r < |aux| == |rows| && |At(aux, r + 1)| > 0
  {
    RowConstraints(f, rows[r], aux[r], At(aux, r + 1)[0], sigma')
  }

  function Accumulators<E>(aux: seq<seq<E>>): (a: seq<E>)
    requires forall r: nat | r < |aux| :: |aux[r]| > 0
    ensures |a| == |aux|
  {
    seq(|aux|, r requires 0 <= r < |aux| => aux[r][0])
  }

  /** An auxiliary trace satisfies the constraints exactly when its fraction columns hold their
      sums and its accumulator meets the recurrence for the row totals. */
  lemma TraceMeaning<E(!new)>(f: Field<E>, rows: seq<seq<Column<E>>>, aux: seq<seq<E>>, sigma': E, cols: nat)
    requires f.Laws() && GoodTrace(f, rows, cols) && |aux| == |rows|
    requires forall r: nat | r < |aux| :: |aux[r]| == |rows[r]|
    ensures Satisfies(f, rows, aux, sigma') <==>
            && Recurrence(f, Accumulators(aux), RowTotals(f, rows), sigma')
            && forall r: nat | r < |aux| :: aux[r][1..] == ColumnSums(f, rows[r])[1..]
  {
    var a, t := Accumulators(aux), RowTotals(f, rows);
    forall r: nat | r < |aux|
      ensures SatisfiesAt(f, rows, aux, sigma', r) <==>
              Moves(f, a, t, sigma', r) && aux[r][1..] == ColumnSums(f, rows[r])[1..]
    {
      RowMeaning(f, rows[r], aux[r], At(aux, r + 1)[0], sigma');
    }
  }

  /** Soundness: the committed value of a satisfying trace is the normalised sum of all active
      fractions of all its rows. */
  lemma SatisfyingForcesSum<E(!new)>(f: Field<E>, rows: seq<seq<Column<E>>>, aux: seq<seq<E>>, sigma': E, cols: nat)
    requires f.Laws() && GoodTrace(f, rows, cols) && Satisfies(f, rows, aux, sigma')
    ensures f.mul(f.Nat(|rows|), sigma') == Sum(f, RowTotals(f, rows))
  {
    TraceMeaning(f, rows, aux, sigma', cols);
    RecurrenceForcesSum(f, Accumulators(aux), RowTotals(f, rows), sigma');
  }

  // Completeness: the built trace satisfies the constraints
  // ----------------------------------------------------------------------------

  /** The buffer holds, cell by cell, the fractions the prover collects. */
  ghost predicate Collected<E(!new)>(f: Field<E>, rows: seq<seq<Column<E>>>, fr: Fractions<E>) {
    && fr.Valid() && fr.numRows == |rows|
    && (forall r: nat | r < |rows| :: |rows[r]| == fr.numCols)
    && forall r: nat, c: nat | r < |rows| && c < fr.numCols :: CollectedAt(f, rows, fr, r, c)
  }

  ghost predicate CollectedAt<E(!new)>(f: Field<E>, rows: seq<seq<Column<E>>>, fr: Fractions<E>, r: nat, c: nat)
    requires fr.Valid() && fr.numRows == |rows| && r < |rows| && c < |rows[r]| == fr.numCols
  {
    IndexInside(r, c, fr.numRows, fr.numCols);
    var k := RowBase(fr.numCols, r) + c;
    PrefixGrows(fr.counts, k + 1, |fr.counts|);
    fr.fractions[Prefix(fr.counts, k)..Prefix(fr.counts, k + 1)] == ColumnFractions(f, rows[r][c])
  }

  lemma EntryIsColumnSum<E(!new)>(f: Field<E>, rows: seq<seq<Column<E>>>, fr: Fractions<E>, r: nat, c: nat, k: nat)
    requires Collected(f, rows, fr) && r < |rows| && c < fr.numCols && k == RowBase(fr.numCols, r) + c
    ensures k < |fr.counts| && Entry(f, fr, k) == ColumnSum(f, rows[r][c])
  {
    IndexInside(r, c, fr.numRows, fr.numCols);
    assert CollectedAt(f, rows, fr, r, c);
    PrefixGrows(fr.counts, k + 1, |fr.counts|);
    var lo, hi := Prefix(fr.counts, k), Prefix(fr.counts, k + 1);
    assert Quots(f, fr.fractions)[lo..hi] == Quots(f, fr.fractions[lo..hi]);
  }

  lemma {:induction false} CollectedNoZero<E(!new)>(f: Field<E>, rows: seq<seq<Column<E>>>, fr: Fractions<E>, r: nat, c: nat)
    requires Collected(f, rows, fr) && GoodTrace(f, rows, fr.numCols) && r < |rows| && c <= fr.numCols
    ensures RowBase(fr.numCols, r) + c <= |fr.counts| && Prefix(fr.counts, RowBase(fr.numCols, r) + c) <= |fr.fractions|
    ensures NoZero(f, fr.fractions, 0, Prefix(fr.counts, RowBase(fr.numCols, r) + c))
    decreases r, c
  {
    RowInside(r, fr.numRows, fr.numCols);
    var k := RowBase(fr.numCols, r) + c;
    PrefixGrows(fr.counts, k, |fr.counts|);
    if c > 0 {
      CollectedNoZero(f, rows, fr, r, c - 1);
      assert CollectedAt(f, rows, fr, r, c - 1) && Good(f, rows[r][c - 1]);
      SliceNoZero(f, fr.fractions, Prefix(fr.counts, k - 1), Prefix(fr.counts, k));
    } else if r > 0 {
      CollectedNoZero(f, rows, fr, r - 1, fr.numCols);
    }
  }

  function AuxRows<E(!new)>(f: Field<E>, fr: Fractions<E>): (aux: seq<seq<E>>)
    requires fr.Valid() && fr.numCols > 0
    ensures |aux| == fr.numRows
  {
    seq(fr.numRows, r requires 0 <= r < fr.numRows => RowCells(f, fr, r, RowBase(fr.numCols, r));
      FlatMatrix(f, fr)[RowBase(fr.numCols, r)..RowBase(fr.numCols, r) + fr.numCols])
  }

  lemma AuxFirst<E(!new)>(f: Field<E>, fr: Fractions<E>, r: nat)
    requires fr.Valid() && fr.numCols > 0 && r < fr.numRows
    ensures |AuxRows(f, fr)[r]| == fr.numCols
    ensures AuxRows(f, fr)[r][0] == Acc(f, Totals(f, fr), SigmaPrime(f, Totals(f, fr)), r)
  {
    RowCells(f, fr, r, RowBase(fr.numCols, r));
  }

  lemma AuxRest<E(!new)>(f: Field<E>, rows: seq<seq<Column<E>>>, fr: Fractions<E>, r: nat)
    requires Collected(f, rows, fr) && fr.numCols > 0 && r < |rows|
    ensures |AuxRows(f, fr)[r]| == fr.numCols && AuxRows(f, fr)[r][1..] == ColumnSums(f, rows[r])[1..]
  {
    var base := RowBase(fr.numCols, r);
    RowCells(f, fr, r, base);
    forall c: nat | 0 < c < fr.numCols
      ensures AuxRows(f, fr)[r][c] == ColumnSums(f, rows[r])[c]
    {
      EntryIsColumnSum(f, rows, fr, r, c, base + c);
    }
  }

  lemma TotalIs<E(!new)>(f: Field<E>, rows: seq<seq<Column<E>>>, fr: Fractions<E>, r: nat)
    requires Collected(f, rows, fr) && r < |rows|
    ensures RowTotal(f, fr, r) == Sum(f, ColumnSums(f, rows[r]))
  {
    var base := RowBase(fr.numCols, r);
    RowInside(r, fr.numRows, fr.numCols);
    forall c: nat | c < fr.numCols
      ensures RowValues(f, fr, base)[c] == ColumnSums(f, rows[r])[c]
    {
      EntryIsColumnSum(f, rows, fr, r, c, base + c);
    }
    assert RowValues(f, fr, base) == ColumnSums(f, rows[r]);
  }

  lemma TotalsAre<E(!new)>(f: Field<E>, rows: seq<seq<Column<E>>>, fr: Fractions<E>)
    requires Collected(f, rows, fr)
    ensures Totals(f, fr) == RowTotals(f, rows)
  {
    forall r: nat | r < |rows|
      ensures Totals(f, fr)[r] == RowTotals(f, rows)[r]
    {
      TotalIs(f, rows, fr, r);
    }
  }

  lemma AuxMeets<E(!new)>(f: Field<E>, rows: seq<seq<Column<E>>>, fr: Fractions<E>, aux: seq<seq<E>>, t: seq<E>, sigma': E)
    requires f.Laws() && fr.Valid() && fr.numCols > 0 && fr.numRows > 0 && f.Nat(fr.numRows) != f.zero
    requires aux == AuxRows(f, fr) && t == Totals(f, fr) && sigma' == SigmaPrime(f, t)
    ensures forall r: nat | r < |aux| :: |aux[r]| == fr.numCols
    ensures Recurrence(f, Accumulators(aux), t, sigma')
  {
    forall r: nat | r < |aux|
      ensures |aux[r]| == fr.numCols && aux[r][0] == Acc(f, t, sigma', r)
    {
      AuxFirst(f, fr, r);
    }
    RecurrenceHasOneSolution(f, Accumulators(aux), t, sigma');
  }

  lemma CollectedAccumulable<E(!new)>(f: Field<E>, rows: seq<seq<Column<E>>>, fr: Fractions<E>)
    requires GoodTrace(f, rows, fr.numCols) && Collected(f, rows, fr) && f.Nat(|rows|) != f.zero
    ensures Accumulable(f, fr)
  {
    assert |rows[0]| > 0;
    var last := |rows| - 1;
    CollectedNoZero(f, rows, fr, last, fr.numCols);
    assert RowBase(fr.numCols, last) + fr.numCols == |fr.counts|;
  }

  lemma AuxColumns<E(!new)>(f: Field<E>, rows: seq<seq<Column<E>>>, fr: Fractions<E>, aux: seq<seq<E>>)
    requires Collected(f, rows, fr) && fr.numCols > 0 && aux == AuxRows(f, fr)
    ensures forall r: nat | r < |aux| :: |aux[r]| == |rows[r]| && aux[r][1..] == ColumnSums(f, rows[r])[1..]
  {
    forall r: nat | r < |aux|
      ensures |aux[r]| == |rows[r]| && aux[r][1..] == ColumnSums(f, rows[r])[1..]
    {
      AuxRest(f, rows, fr, r);
    }
  }

  /** What the accumulator builds from the collected fractions satisfies every constraint. */
  lemma AccumulateSatisfies<E(!new)>(f: Field<E>, rows: seq<seq<Column<E>>>, fr: Fractions<E>)
    requires f.Laws() && GoodTrace(f, rows, fr.numCols) && Collected(f, rows, fr) && f.Nat(|rows|) != f.zero
    ensures Accumulable(f, fr)
    ensures Satisfies(f, rows, AuxRows(f, fr), SigmaPrime(f, Totals(f, fr)))
  {
    CollectedAccumulable(f, rows, fr);
    var aux, t := AuxRows(f, fr), Totals(f, fr);
    var sigma' := SigmaPrime(f, t);
    TotalsAre(f, rows, fr);
    AuxMeets(f, rows, fr, aux, t, sigma');
    AuxColumns(f, rows, fr, aux);
    TraceMeaning(f, rows, aux, sigma', fr.numCols);
  }
}
