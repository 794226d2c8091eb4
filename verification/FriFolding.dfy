/** FRIE2F4: one factor-four fold of a FRI layer over the quadratic extension. */
module FriFolding {
  import opened Goldilocks
  import opened CoreTrace
  import opened ExtField
  import opened HelperRegisters

  // 2^48 is a square root of -1; the constants are its powers -1, -2 and -3
  const TAU: int := 0x1_0000_0000_0000
  const TAU_INV: int := 18446462594437873665
  const TAU2_INV: int := 18446744069414584320
  const TAU3_INV: int := 281474976710656

  // Cells
  function Query(r: Row, k: nat): Ext
    requires k < 4
  {
    Ext(Stack(r, 2 * k), Stack(r, 2 * k + 1))
  }

  function Segment(r: Row): int { Stack(r, 9) }
  function Poe(r: Row): int { Stack(r, 10) }
  function Previous(r: Row): Ext { Ext(Stack(r, 11), Stack(r, 12)) }
  function Alpha(r: Row): Ext { Ext(Stack(r, 13), Stack(r, 14)) }
  function LayerPtr(r: Row): int { Stack(r, 15) }

  function Ev(r: Row): Ext { Ext(Helper(r, 0), Helper(r, 1)) }
  function Es(r: Row): Ext { Ext(Helper(r, 2), Helper(r, 3)) }
  function X(r: Row): int { Helper(r, 4) }
  function XInv(r: Row): int { Helper(r, 5) }

  // Scratch cells and outputs in the next row
  function Tmp0(r: Row): Ext { Ext(Stack(r, 0), Stack(r, 1)) }
  function Tmp1(r: Row): Ext { Ext(Stack(r, 2), Stack(r, 3)) }
  function Folded(r: Row): Ext { Ext(Stack(r, 12), Stack(r, 13)) }

  /** One-hot coset flags: the first one is what the other three leave. */
  function Coset(r: Row, k: nat): int
    requires k < 4
  {
    if k == 0 then 1 - Stack(r, 4) - Stack(r, 5) - Stack(r, 6) else Stack(r, 3 + k)
  }

  // Constraints
  // ----------------------------------------------------------------------------

  function Flag(r: Row): int {
    (1 - OpBit(r, 6)) * OpBit(r, 5) * (1 - OpBit(r, 4)) * (OpBit(r, 3) * (1 - OpBit(r, 2)) * (1 - OpBit(r, 1)))
    * (1 - OpBit(r, 0))
  }

  predicate IsFold(r: Row) {
    !On(r, 6) && On(r, 5) && !On(r, 4) && On(r, 3) && !On(r, 2) && !On(r, 1) && !On(r, 0)
  }

  function TauFactor(r: Row): int {
    Coset(r, 0) + Coset(r, 1) * TAU_INV + Coset(r, 2) * TAU2_INV + Coset(r, 3) * TAU3_INV
  }

  /** The query value of the claimed coset; the values come in bit-reversed order. */
  function Selected(m0: Row, m1: Row): Ext {
    Add(Add(Add(Scale(Query(m0, 0), Coset(m1, 0)), Scale(Query(m0, 2), Coset(m1, 1))),
            Scale(Query(m0, 1), Coset(m1, 2))), Scale(Query(m0, 3), Coset(m1, 3)))
  }

  /** Twice the fold of a pair of values at a point */
  function FoldPair(q: Ext, q': Ext, k: Ext): Ext {
    Add(Add(q, q'), Mul(Sub(q, q'), k))
  }

  ghost predicate SegmentConstraints(m0: Row, m1: Row, f: int) {
    && (forall k: nat | k < 4 :: Zero(f * (Coset(m1, k) * (Coset(m1, k) - 1))))
    && Zero(f * (Segment(m0) - (Coset(m1, 1) + Coset(m1, 2) * 2 + Coset(m1, 3) * 3)))
  }

  ghost predicate CosetConstraints(m0: Row, m1: Row, f: int) {
    && SegmentConstraints(m0, m1, f)
    && Zero(f * (X(m0) - Poe(m0) * TauFactor(m1)))
    && Zero(f * (X(m0) * XInv(m0) - 1))
  }

  ghost predicate FoldConstraints(m0: Row, m1: Row, f: int) {
    && GatedZero(f, Sub(Ev(m0), Scale(Alpha(m0), XInv(m0))))
    && GatedZero(f, Sub(Es(m0), Square(Ev(m0))))
    && GatedZero(f, Sub(Scale(Tmp0(m1), 2), FoldPair(Query(m0, 0), Query(m0, 1), Ev(m0))))
    && GatedZero(f, Sub(Scale(Tmp1(m1), 2), FoldPair(Query(m0, 2), Query(m0, 3), Scale(Ev(m0), TAU_INV))))
    && GatedZero(f, Sub(Scale(Folded(m1), 2), FoldPair(Tmp0(m1), Tmp1(m1), Es(m0))))
    && GatedZero(f, Sub(Previous(m0), Selected(m0, m1)))
  }

  ghost predicate LayoutConstraints(m0: Row, m1: Row, f: int) {
    && Zero(f * (Stack(m1, 7) - Poe(m0) * Poe(m0)))
    && Zero(f * (Poe(m1) - Stack(m1, 7) * Stack(m1, 7)))
    && Zero(f * (Stack(m1, 8) - (LayerPtr(m0) + 8)))
    && Zero(f * (Stack(m1, 9) - (LayerPtr(m0) + 8)))
    && Zero(f * (Stack(m1, 14) - (LayerPtr(m0) + 8)))
    && Zero(f * (Stack(m1, 11) - Stack(m0, 8)))
  }

  ghost predicate FriConstraints(m0: Row, m1: Row) {
    && CosetConstraints(m0, m1, Flag(m0))
    && FoldConstraints(m0, m1, Flag(m0))
    && LayoutConstraints(m0, m1, Flag(m0))
  }

  lemma FlagMeaning(r: Row)
    requires OpBits(r)
    ensures Flag(r) == AsBit(IsFold(r))
  {
    assert BitAt(r, 0) && BitAt(r, 1) && BitAt(r, 2) && BitAt(r, 3) && BitAt(r, 4) && BitAt(r, 5) && BitAt(r, 6);
  }

  lemma TauFacts()
    ensures Zero(TAU * TAU + 1) && Zero(TAU * TAU_INV - 1) && Zero(TAU_INV + TAU) && Zero(TAU2_INV + 1)
  {
  }

  // Polynomials of degree below four
  // ----------------------------------------------------------------------------

  datatype Cubic = Cubic(f0: Ext, f1: Ext, f2: Ext, f3: Ext)

  /** Value at a base-field point. */
  function At(f: Cubic, z: int): Ext {
    Add(Add(f.f0, Scale(f.f2, z * z)), Scale(Add(f.f1, Scale(f.f3, z * z)), z))
  }

  /** Value at a point of the extension. */
  function AtExt(f: Cubic, a: Ext): Ext {
    Add(Add(f.f0, Mul(f.f1, a)), Mul(Add(f.f2, Mul(f.f3, a)), Mul(a, a)))
  }

  function Even(f: Cubic, w: int): Ext { Add(f.f0, Scale(f.f2, w)) }
  function Odd(f: Cubic, w: int): Ext { Add(f.f1, Scale(f.f3, w)) }

  lemma EvenOdd(f: Cubic, z: int)
    ensures Add(At(f, z), At(f, -z)) == Scale(Even(f, z * z), 2)
    ensures Sub(At(f, z), At(f, -z)) == Scale(Odd(f, z * z), 2 * z)
  {
    EvenOddTerm(f.f0.c0, f.f1.c0, f.f2.c0, f.f3.c0, z);
    EvenOddTerm(f.f0.c1, f.f1.c1, f.f2.c1, f.f3.c1, z);
  }

  lemma EvenOddTerm(a: int, b: int, c: int, d: int, z: int)
    ensures (a + c * (z * z) + (b + d * (z * z)) * z) + (a + c * (-z * -z) + (b + d * (-z * -z)) * -z) == (a + c * (z * z)) * 2
    ensures (a + c * (z * z) + (b + d * (z * z)) * z) - (a + c * (-z * -z) + (b + d * (-z * -z)) * -z) == (b + d * (z * z)) * (2 * z)
  {
    assert -z * -z == z * z;
  }

  // Folding
  // ----------------------------------------------------------------------------

  lemma ScaleMul(o: Ext, k: Ext, c: int)
    ensures Mul(Scale(o, 2 * c), k) == Scale(Mul(o, Scale(k, c)), 2)
  {
  }

  /** If q + q' and q - q' are 2e and 2co, folding the pair at a point k with ck = beta gives e + o*beta. */
  lemma FoldMeaning(t: Ext, q: Ext, q': Ext, k: Ext, e: Ext, o: Ext, c: int, beta: Ext)
    requires Cong(Scale(t, 2), FoldPair(q, q', k))
    requires Cong(Add(q, q'), Scale(e, 2)) && Cong(Sub(q, q'), Scale(o, 2 * c)) && Cong(Scale(k, c), beta)
    ensures Cong(t, Add(e, Mul(o, beta)))
  {
    var kc := Scale(k, c);
    MulCong(Sub(q, q'), Scale(o, 2 * c), k);
    ScaleMul(o, k, c);
    MulCong(kc, beta, o);
    MulComm(kc, o);
    MulComm(beta, o);
    ScaleCong(Mul(o, kc), Mul(o, beta), 2);
    CongTrans(Mul(Sub(q, q'), k), Scale(Mul(o, kc), 2), Scale(Mul(o, beta), 2));
    AddCong(Add(q, q'), Scale(e, 2), Mul(Sub(q, q'), k), Scale(Mul(o, beta), 2));
    ScaleAdd(e, Mul(o, beta));
    CongTrans(Scale(t, 2), FoldPair(q, q', k), Scale(Add(e, Mul(o, beta)), 2));
    HalveCong(t, Add(e, Mul(o, beta)));
  }

  lemma ScaleAdd(x: Ext, y: Ext)
    ensures Add(Scale(x, 2), Scale(y, 2)) == Scale(Add(x, y), 2)
  {
  }

  /** Values at z and -z fold to e(z*z) + o(z*z)*beta. */
  lemma FoldPoints(f: Cubic, t: Ext, q: Ext, q': Ext, k: Ext, z: int, beta: Ext)
    requires Cong(Scale(t, 2), FoldPair(q, q', k))
    requires Cong(q, At(f, z)) && Cong(q', At(f, -z)) && Cong(Scale(k, z), beta)
    ensures Cong(t, Add(Even(f, z * z), Mul(Odd(f, z * z), beta)))
  {
    AddCong(q, At(f, z), q', At(f, -z));
    SubCong(q, At(f, z), q', At(f, -z));
    EvenOdd(f, z);
    FoldMeaning(t, q, q', k, Even(f, z * z), Odd(f, z * z), z, beta);
  }

  lemma PartsCong(f: Cubic, w: int, w': int, beta: Ext)
    requires Zero(w - w')
    ensures Cong(Add(Even(f, w), Mul(Odd(f, w), beta)), Add(Even(f, w'), Mul(Odd(f, w'), beta)))
  {
    ScalarCong(f.f2, w, w');
    ScalarCong(f.f3, w, w');
    AddCong(f.f0, f.f0, Scale(f.f2, w), Scale(f.f2, w'));
    AddCong(f.f1, f.f1, Scale(f.f3, w), Scale(f.f3, w'));
    MulCong(Odd(f, w), Odd(f, w'), beta);
    AddCong(Even(f, w), Even(f, w'), Mul(Odd(f, w), beta), Mul(Odd(f, w'), beta));
  }

  function Half(f: Cubic, w: int, a: Ext): Ext { Add(Even(f, w), Mul(Odd(f, w), a)) }

  lemma HalvesSplit(f: Cubic, w: int, a: Ext)
    ensures Add(Half(f, w, a), Half(f, -w, a)) == Scale(Add(f.f0, Mul(f.f1, a)), 2)
    ensures Sub(Half(f, w, a), Half(f, -w, a)) == Scale(Add(f.f2, Mul(f.f3, a)), 2 * w)
  {
    SplitTerm(f.f1.c0, f.f3.c0, a.c0, w);
    SplitTerm(f.f1.c1, f.f3.c1, a.c1, w);
    SplitTerm(f.f1.c0, f.f3.c0, a.c1, w);
    SplitTerm(f.f1.c1, f.f3.c1, a.c0, w);
  }

  lemma SplitTerm(b: int, d: int, a: int, w: int)
    ensures (b + d * w) * a + (b + d * -w) * a == b * a * 2
    ensures (b + d * w) * a - (b + d * -w) * a == d * a * (2 * w)
  {
  }

  lemma FoldHalves(f: Cubic, out: Ext, t0: Ext, t1: Ext, k: Ext, w: int, a: Ext)
    requires Cong(Scale(out, 2), FoldPair(t0, t1, k))
    requires Cong(t0, Half(f, w, a)) && Cong(t1, Half(f, -w, a)) && Cong(Scale(k, w), Mul(a, a))
    ensures Cong(out, AtExt(f, a))
  {
    AddCong(t0, Half(f, w, a), t1, Half(f, -w, a));
    SubCong(t0, Half(f, w, a), t1, Half(f, -w, a));
    HalvesSplit(f, w, a);
    FoldMeaning(out, t0, t1, k, Add(f.f0, Mul(f.f1, a)), Add(f.f2, Mul(f.f3, a)), w, Mul(a, a));
  }

  // The points of one fold
  // ----------------------------------------------------------------------------

  lemma CancelInverse(a: int, x: int, xi: int)
    requires Zero(x * xi - 1)
    ensures Zero(a * xi * x - a)
  {
    Rewrite(0, x * xi - 1, a);
    assert (x * xi - 1) * a == a * xi * x - a;
  }

  lemma EvTimesX(ev: Ext, a: Ext, x: int, xi: int)
    requires Cong(ev, Scale(a, xi)) && Zero(x * xi - 1)
    ensures Cong(Scale(ev, x), a)
  {
    ScaleCong(ev, Scale(a, xi), x);
    CancelInverse(a.c0, x, xi);
    CancelInverse(a.c1, x, xi);
    CongTrans(Scale(ev, x), Scale(Scale(a, xi), x), a);
  }

  /** The second pair is folded at ev/tau, which undoes the point tau*x. */
  lemma EvTimesTauX(ev: Ext, a: Ext, x: int, tau: int, ti: int)
    requires Cong(Scale(ev, x), a) && Zero(tau * ti - 1)
    ensures Cong(Scale(Scale(ev, ti), tau * x), a)
  {
    TauCancels(ev.c0, x, tau, ti);
    TauCancels(ev.c1, x, tau, ti);
    CongTrans(Scale(Scale(ev, ti), tau * x), Scale(ev, x), a);
  }

  lemma TauCancels(e: int, x: int, tau: int, ti: int)
    requires Zero(tau * ti - 1)
    ensures Zero(e * ti * (tau * x) - e * x)
  {
    Rewrite(0, tau * ti - 1, e * x);
    assert (tau * ti - 1) * (e * x) == e * ti * (tau * x) - e * x;
  }

  lemma EsTimesXX(es: Ext, ev: Ext, a: Ext, x: int)
    requires Cong(es, Square(ev)) && Cong(Scale(ev, x), a)
    ensures Cong(Scale(es, x * x), Mul(a, a))
  {
    var y := Scale(ev, x);
    ScaleCong(es, Square(ev), x * x);
    ScaleSquare(ev, x);
    MulCong(y, a, y);
    MulCong(y, a, a);
    MulComm(a, y);
    CongTrans(Mul(y, y), Mul(a, y), Mul(a, a));
    CongTrans(Scale(es, x * x), Mul(y, y), Mul(a, a));
  }

  lemma ScaleSquare(ev: Ext, x: int)
    ensures Scale(Square(ev), x * x) == Mul(Scale(ev, x), Scale(ev, x))
  {
    var a, b := ev.c0, ev.c1;
    assert (a * a + W * (b * b)) * (x * x) == a * x * (a * x) + W * (b * x * (b * x));
    assert (a * b + a * b) * (x * x) == a * x * (b * x) + b * x * (a * x);
  }

  lemma TauSquared(tau: int, x: int)
    requires Zero(tau * tau + 1)
    ensures Zero(tau * x * (tau * x) - -(x * x))
  {
    Rewrite(0, tau * tau + 1, x * x);
    assert (tau * tau + 1) * (x * x) == tau * x * (tau * x) - -(x * x);
  }

  /** The four query values are those of f at x, -x, tau*x and -tau*x. */
  ghost predicate Opened(m0: Row, f: Cubic) {
    var x := X(m0);
    && Cong(Query(m0, 0), At(f, x)) && Cong(Query(m0, 1), At(f, -x))
    && Cong(Query(m0, 2), At(f, TAU * x)) && Cong(Query(m0, 3), At(f, -(TAU * x)))
  }

  lemma Ungated(x: Ext, y: Ext)
    requires GatedZero(1, Sub(x, y))
    ensures Cong(x, y)
  {
  }

  lemma FoldPairs(m0: Row, m1: Row)
    requires FoldConstraints(m0, m1, 1)
    ensures Cong(Scale(Tmp0(m1), 2), FoldPair(Query(m0, 0), Query(m0, 1), Ev(m0)))
    ensures Cong(Scale(Tmp1(m1), 2), FoldPair(Query(m0, 2), Query(m0, 3), Scale(Ev(m0), TAU_INV)))
    ensures Cong(Scale(Folded(m1), 2), FoldPair(Tmp0(m1), Tmp1(m1), Es(m0)))
  {
    Ungated(Scale(Tmp0(m1), 2), FoldPair(Query(m0, 0), Query(m0, 1), Ev(m0)));
    Ungated(Scale(Tmp1(m1), 2), FoldPair(Query(m0, 2), Query(m0, 3), Scale(Ev(m0), TAU_INV)));
    Ungated(Scale(Folded(m1), 2), FoldPair(Tmp0(m1), Tmp1(m1), Es(m0)));
  }

  lemma FirstPair(m0: Row, m1: Row, f: Cubic)
    requires Cong(Scale(Tmp0(m1), 2), FoldPair(Query(m0, 0), Query(m0, 1), Ev(m0)))
    requires Cong(Scale(Ev(m0), X(m0)), Alpha(m0)) && Opened(m0, f)
    ensures Cong(Tmp0(m1), Half(f, X(m0) * X(m0), Alpha(m0)))
  {
    FoldPoints(f, Tmp0(m1), Query(m0, 0), Query(m0, 1), Ev(m0), X(m0), Alpha(m0));
  }

  lemma SecondPair(m0: Row, m1: Row, f: Cubic)
    requires Cong(Scale(Tmp1(m1), 2), FoldPair(Query(m0, 2), Query(m0, 3), Scale(Ev(m0), TAU_INV)))
    requires Cong(Scale(Ev(m0), X(m0)), Alpha(m0)) && Opened(m0, f)
    ensures Cong(Tmp1(m1), Half(f, -(X(m0) * X(m0)), Alpha(m0)))
  {
    var x, a := X(m0), Alpha(m0);
    TauFacts();
    EvTimesTauX(Ev(m0), a, x, TAU, TAU_INV);
    FoldPoints(f, Tmp1(m1), Query(m0, 2), Query(m0, 3), Scale(Ev(m0), TAU_INV), TAU * x, a);
    TauSquared(TAU, x);
    PartsCong(f, TAU * x * (TAU * x), -(x * x), a);
    CongTrans(Tmp1(m1), Half(f, TAU * x * (TAU * x), a), Half(f, -(x * x), a));
  }

  lemma FoldIsChecked(m0: Row, m1: Row)
    requires OpBits(m0) && IsFold(m0) && FriConstraints(m0, m1)
    ensures FoldConstraints(m0, m1, 1) && Zero(X(m0) * XInv(m0) - 1)
  {
    FlagMeaning(m0);
    assert CosetConstraints(m0, m1, 1) && FoldConstraints(m0, m1, 1);
  }

  lemma HelpersAreChecked(m0: Row, m1: Row)
    requires FoldConstraints(m0, m1, 1) && Zero(X(m0) * XInv(m0) - 1)
    ensures Cong(Scale(Ev(m0), X(m0)), Alpha(m0)) && Cong(Es(m0), Square(Ev(m0)))
  {
    Ungated(Ev(m0), Scale(Alpha(m0), XInv(m0)));
    Ungated(Es(m0), Square(Ev(m0)));
    EvTimesX(Ev(m0), Alpha(m0), X(m0), XInv(m0));
  }

  lemma LastFold(m0: Row, m1: Row, f: Cubic)
    requires Cong(Scale(Folded(m1), 2), FoldPair(Tmp0(m1), Tmp1(m1), Es(m0)))
    requires Cong(Scale(Ev(m0), X(m0)), Alpha(m0)) && Cong(Es(m0), Square(Ev(m0)))
    requires Cong(Tmp0(m1), Half(f, X(m0) * X(m0), Alpha(m0))) && Cong(Tmp1(m1), Half(f, -(X(m0) * X(m0)), Alpha(m0)))
    ensures Cong(Folded(m1), AtExt(f, Alpha(m0)))
  {
    EsTimesXX(Es(m0), Ev(m0), Alpha(m0), X(m0));
    FoldHalves(f, Folded(m1), Tmp0(m1), Tmp1(m1), Es(m0), X(m0) * X(m0), Alpha(m0));
  }

  lemma FoldsFrom(m0: Row, m1: Row, f: Cubic)
    requires FoldConstraints(m0, m1, 1) && Zero(X(m0) * XInv(m0) - 1) && Opened(m0, f)
    ensures Cong(Folded(m1), AtExt(f, Alpha(m0)))
  {
    HelpersAreChecked(m0, m1);
    FoldPairs(m0, m1);
    FirstPair(m0, m1, f);
    SecondPair(m0, m1, f);
    LastFold(m0, m1, f);
  }

  /** The fold of the values of any f of degree below four is f at the challenge. */
  lemma FoldsToAlpha(m0: Row, m1: Row, f: Cubic)
    requires OpBits(m0) && IsFold(m0) && FriConstraints(m0, m1) && Opened(m0, f)
    ensures Cong(Folded(m1), AtExt(f, Alpha(m0)))
  {
    FoldIsChecked(m0, m1);
    FoldsFrom(m0, m1, f);
  }

  // The value carried from the previous layer
  // ----------------------------------------------------------------------------

  ghost predicate OneHot(m1: Row, c: nat) {
    c < 4 && forall k: nat | k < 4 :: Coset(m1, k) == AsBit(k == c)
  }

  /** Three bits of which at most one is set, and the number they spell. */
  lemma OneOfFour(b1: int, b2: int, b3: int, seg: Felt) returns (c: nat)
    requires Bit(b1) && Bit(b2) && Bit(b3) && Zero((1 - b1 - b2 - b3) * (1 - b1 - b2 - b3 - 1)) && Zero(seg - (b1 + b2 * 2 + b3 * 3))
    ensures c < 4 && seg == c && b1 == AsBit(c == 1) && b2 == AsBit(c == 2) && b3 == AsBit(c == 3)
  {
    var c0 := 1 - b1 - b2 - b3;
    assert -2 <= c0 <= 1;
    ZeroIsSmall(c0 * (c0 - 1));
    c := b1 + b2 * 2 + b3 * 3;
    ZeroIsSmall(seg - c);
  }

  lemma OneHotCoset(m0: Row, m1: Row) returns (c: nat)
    requires SegmentConstraints(m0, m1, 1)
    ensures OneHot(m1, c) && Segment(m0) == c
  {
    ZeroIsBit(Coset(m1, 1));
    ZeroIsBit(Coset(m1, 2));
    ZeroIsBit(Coset(m1, 3));
    assert Zero(Coset(m1, 0) * (Coset(m1, 0) - 1));
    c := OneOfFour(Coset(m1, 1), Coset(m1, 2), Coset(m1, 3), Segment(m0));
  }

  lemma AtCong(f: Cubic, z: int, z': int)
    requires Zero(z - z')
    ensures Cong(At(f, z), At(f, z'))
  {
    Rewrite(0, z - z', z + z');
    assert (z - z') * (z + z') == z * z - z' * z';
    ScalarCong(f.f2, z * z, z' * z');
    ScalarCong(f.f3, z * z, z' * z');
    AddCong(f.f0, f.f0, Scale(f.f2, z * z), Scale(f.f2, z' * z'));
    AddCong(f.f1, f.f1, Scale(f.f3, z * z), Scale(f.f3, z' * z'));
    ScaleCong(Odd(f, z * z), Odd(f, z' * z'), z);
    ScalarCong(Odd(f, z' * z'), z, z');
    CongTrans(Scale(Odd(f, z * z), z), Scale(Odd(f, z' * z'), z), Scale(Odd(f, z' * z'), z'));
    AddCong(Even(f, z * z), Even(f, z' * z'), Scale(Odd(f, z * z), z), Scale(Odd(f, z' * z'), z'));
  }

  /** The point of query value k when the claimed domain point lies in coset c */
  lemma ClaimedPoint(x: int, poe: int, c: nat)
    requires c < 4 && Zero(x - poe * [1, TAU_INV, TAU2_INV, TAU3_INV][c])
    ensures Zero([x, TAU * x, -x, -(TAU * x)][c] - poe)
  {
    TauFacts();
    match c
    case 0 =>
    case 1 =>
      Rewrite(TAU * (x - poe * TAU_INV), TAU * TAU_INV - 1, poe) by { Rewrite(0, x - poe * TAU_INV, TAU); }
    case 2 =>
      Rewrite(-(x - poe * TAU2_INV), TAU2_INV + 1, -poe) by { Rewrite(0, x - poe * TAU2_INV, -1); }
    case _ =>
      Rewrite(-TAU * (x - poe * TAU), TAU * TAU + 1, -poe) by { Rewrite(0, x - poe * TAU, -TAU); }
  }

  lemma SelectedIs(m0: Row, m1: Row, c: nat)
    requires OneHot(m1, c)
    ensures Selected(m0, m1) == Query(m0, [0, 2, 1, 3][c])
  {
    assert Coset(m1, 0) == AsBit(0 == c) && Coset(m1, 1) == AsBit(1 == c)
        && Coset(m1, 2) == AsBit(2 == c) && Coset(m1, 3) == AsBit(3 == c);
    var (q0, q1, q2, q3) := (Query(m0, 0), Query(m0, 2), Query(m0, 1), Query(m0, 3));
    var (b0, b1, b2, b3) := (Coset(m1, 0), Coset(m1, 1), Coset(m1, 2), Coset(m1, 3));
    SelectSplit(m0, m1);
    SelectTerm(q0.c0, q1.c0, q2.c0, q3.c0, c, b0, b1, b2, b3);
    SelectTerm(q0.c1, q1.c1, q2.c1, q3.c1, c, b0, b1, b2, b3);
  }

  lemma SelectSplit(m0: Row, m1: Row)
    ensures var (q0, q1, q2, q3) := (Query(m0, 0), Query(m0, 2), Query(m0, 1), Query(m0, 3));
            var (b0, b1, b2, b3) := (Coset(m1, 0), Coset(m1, 1), Coset(m1, 2), Coset(m1, 3));
            Selected(m0, m1) == Ext(q0.c0 * b0 + q1.c0 * b1 + q2.c0 * b2 + q3.c0 * b3,
                                    q0.c1 * b0 + q1.c1 * b1 + q2.c1 * b2 + q3.c1 * b3)
  {
  }

  lemma SelectTerm(q0: int, q1: int, q2: int, q3: int, c: nat, b0: int, b1: int, b2: int, b3: int)
    requires c < 4 && b0 == AsBit(0 == c) && b1 == AsBit(1 == c) && b2 == AsBit(2 == c) && b3 == AsBit(3 == c)
    ensures q0 * b0 + q1 * b1 + q2 * b2 + q3 * b3 == [q0, q1, q2, q3][c]
  {
    if c == 0 {
    } else if c == 1 {
    } else if c == 2 {
    }
  }

  lemma OpenedAt(m0: Row, f: Cubic, c: nat)
    requires c < 4 && Opened(m0, f)
    ensures var x := X(m0); Cong(Query(m0, [0, 2, 1, 3][c]), At(f, [x, TAU * x, -x, -(TAU * x)][c]))
  {
    if c == 0 {
    } else if c == 1 {
    } else if c == 2 {
    }
  }

  lemma AtClaimedPoint(q: Ext, f: Cubic, x: int, poe: int, c: nat)
    requires c < 4 && Zero(x - poe * [1, TAU_INV, TAU2_INV, TAU3_INV][c])
    requires Cong(q, At(f, [x, TAU * x, -x, -(TAU * x)][c]))
    ensures Cong(q, At(f, poe))
  {
    var z := [x, TAU * x, -x, -(TAU * x)][c];
    ClaimedPoint(x, poe, c);
    AtCong(f, z, poe);
    CongTrans(q, At(f, z), At(f, poe));
  }

  lemma ClaimIsChecked(m0: Row, m1: Row)
    requires OpBits(m0) && IsFold(m0) && FriConstraints(m0, m1)
    ensures SegmentConstraints(m0, m1, 1) && GatedZero(1, Sub(Previous(m0), Selected(m0, m1)))
    ensures Zero(X(m0) - Poe(m0) * TauFactor(m1))
  {
    FlagMeaning(m0);
    assert CosetConstraints(m0, m1, 1) && FoldConstraints(m0, m1, 1);
  }

  lemma ClaimSelects(m0: Row, m1: Row, c: nat)
    requires OneHot(m1, c) && GatedZero(1, Sub(Previous(m0), Selected(m0, m1)))
    ensures Cong(Previous(m0), Query(m0, [0, 2, 1, 3][c]))
  {
    SelectedIs(m0, m1, c);
    Ungated(Previous(m0), Selected(m0, m1));
  }

  lemma ClaimScales(m0: Row, m1: Row, c: nat)
    requires OneHot(m1, c) && Zero(X(m0) - Poe(m0) * TauFactor(m1))
    ensures Zero(X(m0) - Poe(m0) * [1, TAU_INV, TAU2_INV, TAU3_INV][c])
  {
    TauFactorIs(m1, c);
  }

  lemma ClaimAtCoset(m0: Row, f: Cubic, c: nat)
    requires c < 4 && Opened(m0, f) && Cong(Previous(m0), Query(m0, [0, 2, 1, 3][c]))
    requires Zero(X(m0) - Poe(m0) * [1, TAU_INV, TAU2_INV, TAU3_INV][c])
    ensures Cong(Previous(m0), At(f, Poe(m0)))
  {
    var q := Query(m0, [0, 2, 1, 3][c]);
    OpenedAt(m0, f, c);
    AtClaimedPoint(q, f, X(m0), Poe(m0), c);
    CongTrans(Previous(m0), q, At(f, Poe(m0)));
  }

  /** The value carried into the fold is f at the claimed domain point. */
  lemma PreviousIsClaimed(m0: Row, m1: Row, f: Cubic)
    requires OpBits(m0) && IsFold(m0) && FriConstraints(m0, m1) && Opened(m0, f)
    ensures 0 <= Segment(m0) < 4
    ensures Cong(Previous(m0), At(f, Poe(m0)))
  {
    ClaimIsChecked(m0, m1);
    var c := OneHotCoset(m0, m1);
    ClaimSelects(m0, m1, c);
    ClaimScales(m0, m1, c);
    ClaimAtCoset(m0, f, c);
  }

  lemma TauFactorIs(m1: Row, c: nat)
    requires OneHot(m1, c)
    ensures TauFactor(m1) == [1, TAU_INV, TAU2_INV, TAU3_INV][c]
  {
    assert Coset(m1, 0) == AsBit(0 == c) && Coset(m1, 1) == AsBit(1 == c)
        && Coset(m1, 2) == AsBit(2 == c) && Coset(m1, 3) == AsBit(3 == c);
  }

  lemma PointAdvances(m0: Row, m1: Row)
    requires OpBits(m0) && IsFold(m0) && FriConstraints(m0, m1)
    ensures Poe(m1) == Pow(Poe(m0), 4) % P
  {
    FlagMeaning(m0);
    SquareTwice(Poe(m0), Stack(m1, 7), Poe(m1));
  }

  lemma SquareTwice(p: int, p2: int, p4: int)
    requires Zero(p2 - p * p) && Zero(p4 - p2 * p2) && 0 <= p4 < P
    ensures p4 == Pow(p, 4) % P
  {
    var p1 := p * p;
    Rewrite(0, p2 - p1, p2 + p1);
    assert (p2 - p1) * (p2 + p1) == p2 * p2 - p1 * p1;
    Rewrite(p4 - p2 * p2, p2 * p2 - p1 * p1, 1);
    PowerFour(p);
    ModZero(p1 * p1);
    Rewrite(p4 - p1 * p1, p1 * p1 - p1 * p1 % P, 1);
    ZeroIsSmall(p4 - p1 * p1 % P);
  }

  lemma PowerFour(p: int)
    ensures Pow(p, 4) == p * p * (p * p)
  {
    PowAdd(p, 2, 2);
    assert Pow(p, 2) == p * Pow(p, 1) && Pow(p, 1) == p;
  }

  // Interpolation: every opening is one of a polynomial
  // ----------------------------------------------------------------------------

  /** Half sum u and half difference v of two values, with k standing for a quarter. */
  lemma Interpolated(s: int, r: int, k: int, u: int, y: int, v: int)
    requires Zero(4 * k - 1) && u == (s + r) * k && y == (s - r) * k && Zero(v - y)
    ensures Zero(2 * (u + v) - s) && Zero(2 * (u - v) - r)
  {
    Rewrite(0, 4 * k - 1, s);
    Rewrite(0, 4 * k - 1, r);
    Rewrite(s * (4 * k - 1), v - y, 2);
    Rewrite(r * (4 * k - 1), v - y, -2);
    assert s * (4 * k - 1) + (v - y) * 2 == 2 * (u + v) - s;
    assert r * (4 * k - 1) + (v - y) * -2 == 2 * (u - v) - r;
  }

  /** With k = 1/4 and wi = 1/w, twice (s+r)k + (s-r)k*wi*w is s, and with -w it is r. */
  lemma BothSquares(s: int, r: int, k: int, w: int, wi: int)
    requires Zero(4 * k - 1) && Zero(w * wi - 1)
    ensures Zero(2 * (CoefTerm(s, r, k) + SquareTerm(s, r, k, wi) * w) - s)
    ensures Zero(2 * (CoefTerm(s, r, k) + SquareTerm(s, r, k, wi) * -w) - r)
  {
    var y := (s - r) * k;
    var v := y * wi * w;
    CancelInverse(y, w, wi);
    Interpolated(s, r, k, (s + r) * k, y, v);
    assert y * wi * -w == -v;
  }

  lemma MoveSquare(a: int, b: int, w: int, w': int, s: int)
    requires Zero(2 * (a + b * w) - s) && Zero(w' - w)
    ensures Zero(2 * (a + b * w') - s)
  {
    Rewrite(2 * (a + b * w) - s, w' - w, 2 * b);
    assert 2 * (a + b * w) - s + (w' - w) * (2 * b) == 2 * (a + b * w') - s;
  }

  lemma PointValue(e: int, o: int, z: int, s: int, u: int, d: int, q: int)
    requires Zero(2 * e - s) && Zero(2 * o - u) && Zero(u * z - d) && s + d == 2 * q
    ensures Zero(e + o * z - q)
  {
    Rewrite(2 * e - s, 2 * o - u, z);
    Rewrite(2 * e - s + (2 * o - u) * z, u * z - d, 1);
    assert 2 * e - s + (2 * o - u) * z + (u * z - d) == 2 * (e + o * z - q);
    HalveZero(e + o * z - q);
  }

  /** Coefficients of the interpolant, one component at a time. */
  function CoefTerm(s: int, r: int, k: int): int { (s + r) * k }
  function SquareTerm(s: int, r: int, k: int, wi: int): int { (s - r) * k * wi }

  lemma InterpolateTerm(q0: int, q1: int, q2: int, q3: int, x: int, xi: int, k: int, tau: int, ti: int)
    requires Zero(4 * k - 1) && Zero(x * xi - 1) && Zero(tau * tau + 1) && Zero(tau * ti - 1)
    ensures var (s0, s1, u0, u1) := (q0 + q1, q2 + q3, (q0 - q1) * xi, (q2 - q3) * ti * xi);
            var (a, c) := (CoefTerm(s0, s1, k), SquareTerm(s0, s1, k, xi * xi));
            var (b, d) := (CoefTerm(u0, u1, k), SquareTerm(u0, u1, k, xi * xi));
            var z := tau * x;
            && Zero(a + c * (x * x) + (b + d * (x * x)) * x - q0)
            && Zero(a + c * (-x * -x) + (b + d * (-x * -x)) * -x - q1)
            && Zero(a + c * (z * z) + (b + d * (z * z)) * z - q2)
            && Zero(a + c * (-z * -z) + (b + d * (-z * -z)) * -z - q3)
  {
    var (s0, s1, u0, u1) := (q0 + q1, q2 + q3, (q0 - q1) * xi, (q2 - q3) * ti * xi);
    var (a, c) := (CoefTerm(s0, s1, k), SquareTerm(s0, s1, k, xi * xi));
    var (b, d) := (CoefTerm(u0, u1, k), SquareTerm(u0, u1, k, xi * xi));
    var w, z := x * x, tau * x;
    InverseSquare(x, xi);
    BothSquares(s0, s1, k, w, xi * xi);
    BothSquares(u0, u1, k, w, xi * xi);
    CancelInverse(q0 - q1, x, xi);
    PointValue(a + c * w, b + d * w, x, s0, u0, q0 - q1, q0);
    Negated(u0, x, q0 - q1);
    assert -x * -x == w;
    PointValue(a + c * w, b + d * w, -x, s0, u0, q1 - q0, q1);
    TauSquared(tau, x);
    MoveSquare(a, c, -w, z * z, s1);
    MoveSquare(b, d, -w, z * z, u1);
    TauPoint(q2 - q3, x, xi, tau, ti);
    PointValue(a + c * (z * z), b + d * (z * z), z, s1, u1, q2 - q3, q2);
    Negated(u1, z, q2 - q3);
    assert -z * -z == z * z;
    PointValue(a + c * (z * z), b + d * (z * z), -z, s1, u1, q3 - q2, q3);
  }

  lemma Negated(u: int, z: int, d: int)
    requires Zero(u * z - d)
    ensures Zero(u * -z - -d)
  {
    Rewrite(0, u * z - d, -1);
  }

  lemma InverseSquare(x: int, xi: int)
    requires Zero(x * xi - 1)
    ensures Zero(x * x * (xi * xi) - 1)
  {
    Rewrite(0, x * xi - 1, x * xi + 1);
    assert (x * xi - 1) * (x * xi + 1) == x * x * (xi * xi) - 1;
  }

  lemma TauPoint(d: int, x: int, xi: int, tau: int, ti: int)
    requires Zero(x * xi - 1) && Zero(tau * ti - 1)
    ensures Zero(d * ti * xi * (tau * x) - d)
  {
    CancelInverse(d, x, xi);
    TauCancels(d * xi, x, tau, ti);
    assert d * xi * ti * (tau * x) == d * ti * xi * (tau * x);
    Rewrite(d * xi * ti * (tau * x) - d * xi * x, d * xi * x - d, 1);
  }

  lemma Interpolant(q: seq<Ext>, x: int, xi: int) returns (f: Cubic)
    requires |q| == 4 && Zero(x * xi - 1)
    ensures Cong(At(f, x), q[0]) && Cong(At(f, -x), q[1]) && Cong(At(f, TAU * x), q[2]) && Cong(At(f, -(TAU * x)), q[3])
  {
    var k := Inverse(4);
    var wi := xi * xi;
    TauFacts();
    InterpolateTerm(q[0].c0, q[1].c0, q[2].c0, q[3].c0, x, xi, k, TAU, TAU_INV);
    InterpolateTerm(q[0].c1, q[1].c1, q[2].c1, q[3].c1, x, xi, k, TAU, TAU_INV);
    var (s0, s1, u0, u1) := (Add(q[0], q[1]), Add(q[2], q[3]), Scale(Sub(q[0], q[1]), xi), Scale(Scale(Sub(q[2], q[3]), TAU_INV), xi));
    f := Cubic(Ext(CoefTerm(s0.c0, s1.c0, k), CoefTerm(s0.c1, s1.c1, k)),
               Ext(CoefTerm(u0.c0, u1.c0, k), CoefTerm(u0.c1, u1.c1, k)),
               Ext(SquareTerm(s0.c0, s1.c0, k, wi), SquareTerm(s0.c1, s1.c1, k, wi)),
               Ext(SquareTerm(u0.c0, u1.c0, k, wi), SquareTerm(u0.c1, u1.c1, k, wi)));
  }

  lemma Opens(m0: Row) returns (f: Cubic)
    requires Zero(X(m0) * XInv(m0) - 1)
    ensures Opened(m0, f)
  {
    f := Interpolant([Query(m0, 0), Query(m0, 1), Query(m0, 2), Query(m0, 3)], X(m0), XInv(m0));
    var x := X(m0);
    CongSym(At(f, x), Query(m0, 0));
    CongSym(At(f, -x), Query(m0, 1));
    CongSym(At(f, TAU * x), Query(m0, 2));
    CongSym(At(f, -(TAU * x)), Query(m0, 3));
  }

  /** Whatever the four values, the fold is the value at the challenge of the polynomial of degree
      below four through them, and the value carried in lies on the same polynomial. */
  lemma FoldInterpolates(m0: Row, m1: Row) returns (f: Cubic)
    requires OpBits(m0) && IsFold(m0) && FriConstraints(m0, m1)
    ensures Opened(m0, f)
    ensures Cong(Folded(m1), AtExt(f, Alpha(m0))) && Cong(Previous(m0), At(f, Poe(m0)))
  {
    FoldIsChecked(m0, m1);
    f := Opens(m0);
    FoldsToAlpha(m0, m1, f);
    PreviousIsClaimed(m0, m1, f);
  }

  // Completeness: what the processor computes satisfies the constraints
  // ----------------------------------------------------------------------------

  const TWO_INV: int := 9223372034707292161

  function Half2(q: Ext, q': Ext, k: Ext): Ext { Reduce(Scale(FoldPair(q, q', k), TWO_INV)) }

  /** Registers handed to the tracer for a fold at the domain point poe in coset c. */
  function FoldRegisters(a: Ext, poe: int, c: nat): Registers
    requires c < 4
  {
    var x := poe * [1, TAU_INV, TAU2_INV, TAU3_INV][c] % P;
    var xi := InverseOrZero(x);
    var ev := AsQuad(Scale(a, xi));
    FriExt2Fold4(ev, AsQuad(Square(OfQuad(ev))), x, xi)
  }

  ghost predicate Helpers(m0: Row, c: nat) {
    c < 4 && Helped(m0, ToUserOpHelpers(FoldRegisters(Alpha(m0), Poe(m0), c)))
  }

  ghost predicate Folds(m0: Row, m1: Row) {
    && Tmp0(m1) == Half2(Query(m0, 0), Query(m0, 1), Ev(m0))
    && Tmp1(m1) == Half2(Query(m0, 2), Query(m0, 3), Reduce(Scale(Ev(m0), TAU_INV)))
    && Folded(m1) == Half2(Tmp0(m1), Tmp1(m1), Es(m0))
  }

  ghost predicate LaidOut(m0: Row, m1: Row) {
    && Stack(m1, 7) == Poe(m0) * Poe(m0) % P && Poe(m1) == Stack(m1, 7) * Stack(m1, 7) % P
    && Stack(m1, 8) == Stack(m1, 9) == Stack(m1, 14) == (LayerPtr(m0) + 8) % P && Stack(m1, 11) == Stack(m0, 8)
  }

  /** The rows of an execution that the processor accepts. */
  ghost predicate Prepared(m0: Row, m1: Row, c: nat) {
    && c < 4 && Segment(m0) == c && Poe(m0) != 0 && Previous(m0) == Query(m0, [0, 2, 1, 3][c])
    && Helpers(m0, c) && OneHot(m1, c) && Folds(m0, m1) && LaidOut(m0, m1)
  }

  lemma HelpersAre(m0: Row, c: nat)
    requires Helpers(m0, c)
    ensures X(m0) == Poe(m0) * [1, TAU_INV, TAU2_INV, TAU3_INV][c] % P && XInv(m0) == InverseOrZero(X(m0))
    ensures Ev(m0) == Reduce(Scale(Alpha(m0), XInv(m0))) && Es(m0) == Reduce(Square(Ev(m0)))
  {
  }

  lemma NonzeroPoint(poe: int, c: nat)
    requires 0 < poe < P && c < 4
    ensures !Zero(poe * [1, TAU_INV, TAU2_INV, TAU3_INV][c])
  {
    var k := [1, TAU_INV, TAU2_INV, TAU3_INV][c];
    if Zero(poe * k) {
      ZeroProduct(poe, k);
      assert false;
    }
  }

  lemma PointComplete(x: Felt, xi: int, poe: int, k: int)
    requires x == poe * k % P && !Zero(poe * k) && xi == InverseOrZero(x)
    ensures Zero(x - poe * k) && Zero(x * xi - 1)
  {
    ModZero(poe * k);
  }

  lemma SegmentComplete(m0: Row, m1: Row, c: nat)
    requires OneHot(m1, c) && Segment(m0) == c
    ensures SegmentConstraints(m0, m1, 1)
  {
    assert Coset(m1, 0) == AsBit(0 == c) && Coset(m1, 1) == AsBit(1 == c)
        && Coset(m1, 2) == AsBit(2 == c) && Coset(m1, 3) == AsBit(3 == c);
  }

  lemma CosetComplete(m0: Row, m1: Row, c: nat)
    requires OneHot(m1, c) && Segment(m0) == c && Poe(m0) != 0 && XInv(m0) == InverseOrZero(X(m0))
    requires X(m0) == Poe(m0) * [1, TAU_INV, TAU2_INV, TAU3_INV][c] % P
    ensures CosetConstraints(m0, m1, 1)
  {
    NonzeroPoint(Poe(m0), c);
    TauFactorIs(m1, c);
    PointComplete(X(m0), XInv(m0), Poe(m0), TauFactor(m1));
    SegmentComplete(m0, m1, c);
  }

  lemma Half2Complete(t: Ext, q: Ext, q': Ext, k: Ext, k': Ext)
    requires t == Half2(q, q', k) && Cong(k, k')
    ensures Cong(Scale(t, 2), FoldPair(q, q', k'))
  {
    var y := FoldPair(q, q', k);
    ReduceCong(Scale(y, TWO_INV));
    ScaleCong(t, Scale(y, TWO_INV), 2);
    CancelInverse(y.c0, 2, TWO_INV);
    CancelInverse(y.c1, 2, TWO_INV);
    CongTrans(Scale(t, 2), Scale(Scale(y, TWO_INV), 2), y);
    var d := Sub(q, q');
    MulCong(k, k', d);
    MulComm(k, d);
    MulComm(k', d);
    AddCong(Add(q, q'), Add(q, q'), Mul(d, k), Mul(d, k'));
    CongTrans(Scale(t, 2), y, FoldPair(q, q', k'));
  }

  lemma FoldComplete(m0: Row, m1: Row, c: nat)
    requires OneHot(m1, c) && Folds(m0, m1) && Previous(m0) == Query(m0, [0, 2, 1, 3][c])
    requires Ev(m0) == Reduce(Scale(Alpha(m0), XInv(m0))) && Es(m0) == Reduce(Square(Ev(m0)))
    ensures FoldConstraints(m0, m1, 1)
  {
    ReduceCong(Scale(Alpha(m0), XInv(m0)));
    ReduceCong(Square(Ev(m0)));
    GateOne(1, Ev(m0), Scale(Alpha(m0), XInv(m0)));
    GateOne(1, Es(m0), Square(Ev(m0)));
    Half2Complete(Tmp0(m1), Query(m0, 0), Query(m0, 1), Ev(m0), Ev(m0));
    ReduceCong(Scale(Ev(m0), TAU_INV));
    Half2Complete(Tmp1(m1), Query(m0, 2), Query(m0, 3), Reduce(Scale(Ev(m0), TAU_INV)), Scale(Ev(m0), TAU_INV));
    Half2Complete(Folded(m1), Tmp0(m1), Tmp1(m1), Es(m0), Es(m0));
    GateOne(1, Scale(Tmp0(m1), 2), FoldPair(Query(m0, 0), Query(m0, 1), Ev(m0)));
    GateOne(1, Scale(Tmp1(m1), 2), FoldPair(Query(m0, 2), Query(m0, 3), Scale(Ev(m0), TAU_INV)));
    GateOne(1, Scale(Folded(m1), 2), FoldPair(Tmp0(m1), Tmp1(m1), Es(m0)));
    SelectedIs(m0, m1, c);
    GateOne(1, Previous(m0), Selected(m0, m1));
  }

  lemma LayoutComplete(m0: Row, m1: Row)
    requires LaidOut(m0, m1)
    ensures LayoutConstraints(m0, m1, 1)
  {
    ModZero(Poe(m0) * Poe(m0));
    ModZero(Stack(m1, 7) * Stack(m1, 7));
    ModZero(LayerPtr(m0) + 8);
  }

  /** Every fold the processor accepts yields rows that satisfy all constraints. */
  lemma FriComplete(m0: Row, m1: Row, c: nat)
    requires OpBits(m0) && IsFold(m0) && Prepared(m0, m1, c)
    ensures FriConstraints(m0, m1)
  {
    FlagMeaning(m0);
    HelpersAre(m0, c);
    CosetComplete(m0, m1, c);
    FoldComplete(m0, m1, c);
    LayoutComplete(m0, m1);
  }

  // The same, cell by cell
  // ----------------------------------------------------------------------------

  function Pair(r: Row, k: nat): Ext
    requires k < 15
  {
    Ext(Stack(r, k), Stack(r, k + 1))
  }

  /** The layer pointer advances by 8, the domain point in cell 10 to its fourth power, and the end pointer moves up. */
  lemma PointersAdvance(m0: Row, m1: Row)
    requires OpBits(m0) && IsFold(m0) && FriConstraints(m0, m1)
    ensures Stack(m1, 10) == Pow(Stack(m0, 10), 4) % P
    ensures Stack(m1, 8) == Stack(m1, 9) == Stack(m1, 14) == (Stack(m0, 15) + 8) % P && Stack(m1, 11) == Stack(m0, 8)
  {
    FlagMeaning(m0);
    PointAdvances(m0, m1);
    NextPointer(Stack(m1, 8), Stack(m0, 15) + 8);
    NextPointer(Stack(m1, 9), Stack(m0, 15) + 8);
    NextPointer(Stack(m1, 14), Stack(m0, 15) + 8);
    ZeroIsSmall(Stack(m1, 11) - Stack(m0, 8));
  }

  lemma NextPointer(x: Felt, y: int)
    requires Zero(x - y)
    ensures x == y % P
  {
    ModZero(y);
    Rewrite(x - y, y - y % P, 1);
    ZeroIsSmall(x - y % P);
  }

  /** A fold from cells to cells: the values in cells 0 to 7 are those of one f of degree below four at x, -x, tau*x
      and -tau*x, with tau = 2^48; cells 11 and 12 hold f at the point in cell 10, and cells 12 and 13 of the next row
      f at the challenge in cells 13 and 14. */
  lemma FoldOnCells(m0: Row, m1: Row) returns (f: Cubic, x: int)
    requires OpBits(m0) && IsFold(m0) && FriConstraints(m0, m1)
    ensures OpensCells(m0, f, x)
    ensures Cong(Ext(Stack(m1, 12), Stack(m1, 13)), AtExt(f, Ext(Stack(m0, 13), Stack(m0, 14))))
    ensures Cong(Ext(Stack(m0, 11), Stack(m0, 12)), At(f, Stack(m0, 10))) && Stack(m0, 9) < 4
  {
    f := FoldInterpolates(m0, m1);
    x := X(m0);
    PreviousIsClaimed(m0, m1, f);
  }

  ghost predicate OpensCells(r: Row, f: Cubic, x: int) {
    && Cong(Ext(Stack(r, 0), Stack(r, 1)), At(f, x)) && Cong(Ext(Stack(r, 2), Stack(r, 3)), At(f, -x))
    && Cong(Ext(Stack(r, 4), Stack(r, 5)), At(f, 0x1_0000_0000_0000 * x)) && Cong(Ext(Stack(r, 6), Stack(r, 7)), At(f, -(0x1_0000_0000_0000 * x)))
  }

  /** Cells 0 to 14 after a fold in coset c with the helper values ev and es. */
  function FoldedCells(m0: Row, ev: Ext, es: Ext, c: nat): (s: seq<int>)
    ensures |s| == 15
  {
    var t0 := Half2(Pair(m0, 0), Pair(m0, 2), ev);
    var t1 := Half2(Pair(m0, 4), Pair(m0, 6), Reduce(Scale(ev, TAU_INV)));
    var out, p2, ptr := Half2(t0, t1, es), Stack(m0, 10) * Stack(m0, 10) % P, (Stack(m0, 15) + 8) % P;
    [t0.c0, t0.c1, t1.c0, t1.c1, AsBit(c == 1), AsBit(c == 2), AsBit(c == 3), p2, ptr, ptr, p2 * p2 % P, Stack(m0, 8), out.c0, out.c1, ptr]
  }

  /** So, whatever cells the processor starts from, the fold it computes satisfies all constraints. */
  lemma CellsComplete(m0: Row, m1: Row, c: nat)
    requires OpBits(m0) && IsFold(m0) && c < 4 && Stack(m0, 9) == c && Stack(m0, 10) != 0
    requires Pair(m0, 11) == Pair(m0, [0, 4, 2, 6][c])
    requires Helped(m0, ToUserOpHelpers(FoldRegisters(Pair(m0, 13), Stack(m0, 10), c)))
    requires forall k: nat | k < 15 :: Stack(m1, k) == FoldedCells(m0, Ev(m0), Es(m0), c)[k]
    ensures FriConstraints(m0, m1)
  {
    var s := FoldedCells(m0, Ev(m0), Es(m0), c);
    assert Stack(m1, 0) == s[0] && Stack(m1, 1) == s[1] && Stack(m1, 2) == s[2] && Stack(m1, 3) == s[3];
    assert Stack(m1, 4) == s[4] && Stack(m1, 5) == s[5] && Stack(m1, 6) == s[6] && Stack(m1, 7) == s[7];
    assert Stack(m1, 8) == s[8] && Stack(m1, 9) == s[9] && Stack(m1, 10) == s[10] && Stack(m1, 11) == s[11];
    assert Stack(m1, 12) == s[12] && Stack(m1, 13) == s[13] && Stack(m1, 14) == s[14];
    FriComplete(m0, m1, c);
  }
}
