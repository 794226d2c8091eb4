/** HORNERBASE and HORNEREXT: eight base-field or four extension-field coefficients a step. */
module HornerOps {
  import opened Goldilocks
  import opened CoreTrace
  import opened ExtField
  import opened HelperRegisters

  // Cells
  function Alpha(r: Row): Ext { Ext(Helper(r, 0), Helper(r, 1)) }
  function Tmp1(r: Row): Ext { Ext(Helper(r, 2), Helper(r, 3)) }
  function Tmp0(r: Row): Ext { Ext(Helper(r, 4), Helper(r, 5)) }
  function Acc(r: Row): Ext { Ext(Stack(r, 14), Stack(r, 15)) }

  function Coef(r: Row, k: nat): Ext
    requires k < 8
  {
    Base(Stack(r, k))
  }

  function ExtCoef(r: Row, k: nat): Ext
    requires k < 4
  {
    Ext(Stack(r, 2 * k), Stack(r, 2 * k + 1))
  }

  // Constraints
  // ----------------------------------------------------------------------------

  function BaseFlag(r: Row): int {
    Extra0(r) * (OpBit(r, 3) * (1 - OpBit(r, 2)) * (1 - OpBit(r, 1)) * OpBit(r, 0))
  }

  function ExtFlag(r: Row): int {
    Extra0(r) * (OpBit(r, 3) * (1 - OpBit(r, 2)) * OpBit(r, 1) * (1 - OpBit(r, 0)))
  }

  predicate IsBase(r: Row) {
    On(r, 6) && !On(r, 5) && On(r, 4) && On(r, 3) && !On(r, 2) && !On(r, 1) && On(r, 0)
  }

  predicate IsExt(r: Row) {
    On(r, 6) && !On(r, 5) && On(r, 4) && On(r, 3) && !On(r, 2) && On(r, 1) && !On(r, 0)
  }

  /** acc*alpha^2 + alpha*c0 + c1 */
  function Two(acc: Ext, a: Ext, c0: Ext, c1: Ext): Ext {
    Add(Add(Mul(acc, Square(a)), Mul(a, c0)), c1)
  }

  /** acc*alpha^3 + alpha^2*c0 + alpha*c1 + c2 */
  function Three(acc: Ext, a: Ext, c0: Ext, c1: Ext, c2: Ext): Ext {
    Add(Add(Add(Mul(acc, Mul(Square(a), a)), Mul(Square(a), c0)), Mul(a, c1)), c2)
  }

  ghost predicate BaseConstraints(m0: Row, m1: Row) {
    var f, a := BaseFlag(m0), Alpha(m0);
    && GatedZero(f, Sub(Tmp0(m0), Two(Acc(m0), a, Coef(m0, 0), Coef(m0, 1))))
    && GatedZero(f, Sub(Tmp1(m0), Three(Tmp0(m0), a, Coef(m0, 2), Coef(m0, 3), Coef(m0, 4))))
    && GatedZero(f, Sub(Acc(m1), Three(Tmp1(m0), a, Coef(m0, 5), Coef(m0, 6), Coef(m0, 7))))
  }

  ghost predicate ExtConstraints(m0: Row, m1: Row) {
    var f, a := ExtFlag(m0), Alpha(m0);
    && GatedZero(f, Sub(Tmp0(m0), Two(Acc(m0), a, ExtCoef(m0, 0), ExtCoef(m0, 1))))
    && GatedZero(f, Sub(Acc(m1), Two(Tmp0(m0), a, ExtCoef(m0, 2), ExtCoef(m0, 3))))
  }

  // Horner's rule and the polynomial it evaluates
  // ----------------------------------------------------------------------------

  function Step(acc: Ext, a: Ext, c: Ext): Ext { Add(Mul(acc, a), c) }

  function Fold(acc: Ext, cs: seq<Ext>, a: Ext): Ext
    decreases |cs|
  {
    if cs == [] then acc else Fold(Step(acc, a, cs[0]), cs[1..], a)
  }

  function Power(a: Ext, n: nat): Ext {
    if n == 0 then ONE else Mul(Power(a, n - 1), a)
  }

  /** cs[0]*a^(n-1) + cs[1]*a^(n-2) + ... + cs[n-1] */
  function Poly(cs: seq<Ext>, a: Ext): Ext {
    if cs == [] then ZERO else Add(Mul(cs[0], Power(a, |cs| - 1)), Poly(cs[1..], a))
  }

  lemma PowerSucc(x: Ext, a: Ext, n: nat)
    ensures Mul(Mul(x, a), Power(a, n)) == Mul(x, Power(a, n + 1))
  {
    MulAssoc(x, a, Power(a, n));
    MulComm(a, Power(a, n));
  }

  lemma {:induction false} FoldIsPoly(acc: Ext, cs: seq<Ext>, a: Ext)
    ensures Fold(acc, cs, a) == Add(Mul(acc, Power(a, |cs|)), Poly(cs, a))
    decreases |cs|
  {
    if cs == [] {
      assert Power(a, 0) == ONE;
    } else {
      var n := |cs| - 1;
      FoldIsPoly(Step(acc, a, cs[0]), cs[1..], a);
      MulDistrib(Mul(acc, a), cs[0], Power(a, n));
      PowerSucc(acc, a, n);
    }
  }

  lemma {:induction false} FoldAppend(acc: Ext, cs: seq<Ext>, ds: seq<Ext>, a: Ext)
    ensures Fold(acc, cs + ds, a) == Fold(Fold(acc, cs, a), ds, a)
    decreases |cs|
  {
    if cs == [] {
      assert cs + ds == ds;
    } else {
      assert (cs + ds)[1..] == cs[1..] + ds;
      FoldAppend(Step(acc, a, cs[0]), cs[1..], ds, a);
    }
  }

  lemma {:induction false} FoldCong(acc: Ext, acc': Ext, cs: seq<Ext>, a: Ext)
    requires Cong(acc, acc')
    ensures Cong(Fold(acc, cs, a), Fold(acc', cs, a))
    decreases |cs|
  {
    if cs != [] {
      StepCong(acc, acc', a, cs[0]);
      FoldCong(Step(acc, a, cs[0]), Step(acc', a, cs[0]), cs[1..], a);
    }
  }

  lemma StepCong(acc: Ext, acc': Ext, a: Ext, c: Ext)
    requires Cong(acc, acc')
    ensures Cong(Step(acc, a, c), Step(acc', a, c))
  {
    MulCong(acc, acc', a);
    AddCong(Mul(acc, a), Mul(acc', a), c, c);
  }

  lemma StepTwice(acc: Ext, a: Ext, c0: Ext, c1: Ext)
    ensures Step(Step(acc, a, c0), a, c1) == Two(acc, a, c0, c1)
  {
    MulDistrib(Mul(acc, a), c0, a);
    MulAssoc(acc, a, a);
    MulComm(c0, a);
  }

  lemma TwoIsFold(acc: Ext, a: Ext, c0: Ext, c1: Ext)
    ensures Fold(acc, [c0, c1], a) == Two(acc, a, c0, c1)
  {
    StepTwice(acc, a, c0, c1);
    assert [c0, c1][1..] == [c1] && [c1][1..] == [];
    assert Fold(acc, [c0, c1], a) == Fold(Step(acc, a, c0), [c1], a);
  }

  lemma ThreeIsFold(acc: Ext, a: Ext, c0: Ext, c1: Ext, c2: Ext)
    ensures Fold(acc, [c0, c1, c2], a) == Three(acc, a, c0, c1, c2)
  {
    var x := Step(acc, a, c0);
    assert [c0, c1, c2][1..] == [c1, c2];
    TwoIsFold(x, a, c1, c2);
    MulDistrib(Mul(acc, a), c0, Square(a));
    MulAssoc(acc, a, Square(a));
    MulComm(a, Square(a));
    MulComm(c0, Square(a));
  }

  // One step
  // ----------------------------------------------------------------------------

  lemma FlagMeaning(r: Row)
    requires OpBits(r)
    ensures BaseFlag(r) == AsBit(IsBase(r)) && ExtFlag(r) == AsBit(IsExt(r))
  {
    assert BitAt(r, 0) && BitAt(r, 1) && BitAt(r, 2) && BitAt(r, 3);
  }

  lemma FoldBy(out: Ext, acc: Ext, mid: Ext, cs: seq<Ext>, ds: seq<Ext>, a: Ext)
    requires Cong(mid, Fold(acc, cs, a)) && Cong(out, Fold(mid, ds, a))
    ensures Cong(out, Fold(acc, cs + ds, a))
  {
    FoldCong(mid, Fold(acc, cs, a), ds, a);
    FoldAppend(acc, cs, ds, a);
    CongTrans(out, Fold(mid, ds, a), Fold(acc, cs + ds, a));
  }

  function Coefs(r: Row): seq<Ext> {
    if IsBase(r) then seq(8, k requires 0 <= k < 8 => Coef(r, k))
    else seq(4, k requires 0 <= k < 4 => ExtCoef(r, k))
  }

  /** Two coefficients, then three, then three, through the helper values t0 and t1 */
  lemma EightIsFold(out: Ext, t1: Ext, t0: Ext, acc: Ext, s: seq<Ext>, a: Ext)
    requires |s| == 8 && Cong(t0, Two(acc, a, s[0], s[1]))
    requires Cong(t1, Three(t0, a, s[2], s[3], s[4])) && Cong(out, Three(t1, a, s[5], s[6], s[7]))
    ensures Cong(out, Fold(acc, s, a))
  {
    TwoIsFold(acc, a, s[0], s[1]);
    ThreeIsFold(t0, a, s[2], s[3], s[4]);
    ThreeIsFold(t1, a, s[5], s[6], s[7]);
    FoldBy(t1, acc, t0, [s[0], s[1]], [s[2], s[3], s[4]], a);
    FoldBy(out, acc, t1, [s[0], s[1]] + [s[2], s[3], s[4]], [s[5], s[6], s[7]], a);
    assert [s[0], s[1]] + [s[2], s[3], s[4]] + [s[5], s[6], s[7]] == s;
  }

  lemma BaseStep(m0: Row, m1: Row)
    requires OpBits(m0) && IsBase(m0) && BaseConstraints(m0, m1)
    ensures Cong(Acc(m1), Fold(Acc(m0), Coefs(m0), Alpha(m0)))
  {
    FlagMeaning(m0);
    EightIsFold(Acc(m1), Tmp1(m0), Tmp0(m0), Acc(m0), Coefs(m0), Alpha(m0));
  }

  lemma ExtStep(m0: Row, m1: Row)
    requires OpBits(m0) && IsExt(m0) && ExtConstraints(m0, m1)
    ensures Cong(Acc(m1), Fold(Acc(m0), Coefs(m0), Alpha(m0)))
  {
    FlagMeaning(m0);
    var a, s := Alpha(m0), Coefs(m0);
    TwoIsFold(Acc(m0), a, s[0], s[1]);
    TwoIsFold(Tmp0(m0), a, s[2], s[3]);
    FoldBy(Acc(m1), Acc(m0), Tmp0(m0), [s[0], s[1]], [s[2], s[3]], a);
    assert [s[0], s[1]] + [s[2], s[3]] == s;
  }

  /** One step on its cells: coefficients in cells 0 to 7, the accumulator in cells 14 and 15, the point in the first two
      helper registers. */
  lemma StepOnCells(m0: Row, m1: Row)
    requires OpBits(m0) && BaseConstraints(m0, m1) && ExtConstraints(m0, m1)
    ensures var acc, out, a := Ext(Stack(m0, 14), Stack(m0, 15)), Ext(Stack(m1, 14), Stack(m1, 15)), Ext(Helper(m0, 0), Helper(m0, 1));
            && (IsBase(m0) ==>
                  Cong(out, Fold(acc, [Base(Stack(m0, 0)), Base(Stack(m0, 1)), Base(Stack(m0, 2)), Base(Stack(m0, 3)),
                                       Base(Stack(m0, 4)), Base(Stack(m0, 5)), Base(Stack(m0, 6)), Base(Stack(m0, 7))], a)))
            && (IsExt(m0) ==>
                  Cong(out, Fold(acc, [Ext(Stack(m0, 0), Stack(m0, 1)), Ext(Stack(m0, 2), Stack(m0, 3)),
                                       Ext(Stack(m0, 4), Stack(m0, 5)), Ext(Stack(m0, 6), Stack(m0, 7))], a)))
  {
    if IsBase(m0) {
      BaseStep(m0, m1);
      BaseCoefs(m0);
    }
    if IsExt(m0) {
      ExtStep(m0, m1);
      ExtCoefs(m0);
    }
  }

  lemma BaseCoefs(r: Row)
    requires IsBase(r)
    ensures Coefs(r) == [Base(Stack(r, 0)), Base(Stack(r, 1)), Base(Stack(r, 2)), Base(Stack(r, 3)),
                         Base(Stack(r, 4)), Base(Stack(r, 5)), Base(Stack(r, 6)), Base(Stack(r, 7))]
  {
  }

  lemma ExtCoefs(r: Row)
    requires IsExt(r)
    ensures Coefs(r) == [Ext(Stack(r, 0), Stack(r, 1)), Ext(Stack(r, 2), Stack(r, 3)), Ext(Stack(r, 4), Stack(r, 5)), Ext(Stack(r, 6), Stack(r, 7))]
  {
  }

  // Runs of steps
  // ----------------------------------------------------------------------------

  /** Horner steps of one evaluation: row pairs at the same point, each picking up the
      accumulator where the previous one left it. */
  ghost predicate Steps(blocks: seq<(Row, Row)>, a: Ext) {
    && (forall i: nat | i < |blocks| ::
          var (m0, m1) := blocks[i];
          OpBits(m0) && (IsBase(m0) || IsExt(m0)) && BaseConstraints(m0, m1) && ExtConstraints(m0, m1) && Alpha(m0) == a)
    && (forall i: nat | i + 1 < |blocks| :: Linked(blocks, i))
  }

  ghost predicate Linked(blocks: seq<(Row, Row)>, i: nat)
    requires i + 1 < |blocks|
  {
    Acc(blocks[i + 1].0) == Acc(blocks[i].1)
  }

  function Streamed(blocks: seq<(Row, Row)>): seq<Ext> {
    if blocks == [] then [] else Streamed(blocks[..|blocks| - 1]) + Coefs(blocks[|blocks| - 1].0)
  }

  lemma {:induction false} StepsFold(blocks: seq<(Row, Row)>, a: Ext)
    requires |blocks| > 0 && Steps(blocks, a)
    ensures Cong(Acc(blocks[|blocks| - 1].1), Fold(Acc(blocks[0].0), Streamed(blocks), a))
  {
    var n := |blocks| - 1;
    var (m0, m1) := blocks[n];
    if IsBase(m0) {
      BaseStep(m0, m1);
    } else {
      ExtStep(m0, m1);
    }
    var init := blocks[..n];
    if n == 0 {
      assert Streamed(blocks) == Streamed(init) + Coefs(m0) == Coefs(m0);
    } else {
      assert Linked(blocks, n - 1);
      StepsInit(blocks, a);
      StepsFold(init, a);
      FoldBy(Acc(m1), Acc(blocks[0].0), Acc(m0), Streamed(init), Coefs(m0), a);
    }
  }

  lemma StepsInit(blocks: seq<(Row, Row)>, a: Ext)
    requires |blocks| > 0 && Steps(blocks, a)
    ensures Steps(blocks[..|blocks| - 1], a)
  {
    var init := blocks[..|blocks| - 1];
    forall i: nat | i + 1 < |init|
      ensures Linked(init, i)
    {
      assert Linked(blocks, i);
    }
  }

  /** Any number of Horner steps leaves acc*alpha^n plus the polynomial of all n streamed
      coefficients at alpha; from accumulator zero, the polynomial itself. */
  lemma HornerEvaluates(blocks: seq<(Row, Row)>, a: Ext)
    requires |blocks| > 0 && Steps(blocks, a)
    ensures Cong(Acc(blocks[|blocks| - 1].1),
                 Add(Mul(Acc(blocks[0].0), Power(a, |Streamed(blocks)|)), Poly(Streamed(blocks), a)))
    ensures Acc(blocks[0].0) == ZERO ==> Cong(Acc(blocks[|blocks| - 1].1), Poly(Streamed(blocks), a))
  {
    StepsFold(blocks, a);
    FoldIsPoly(Acc(blocks[0].0), Streamed(blocks), a);
    FromZero(Power(a, |Streamed(blocks)|), Poly(Streamed(blocks), a));
  }

  lemma FromZero(x: Ext, y: Ext)
    ensures Add(Mul(ZERO, x), y) == y
  {
  }

  // Completeness: the tracer's helpers satisfy the constraints
  // ----------------------------------------------------------------------------

  ghost predicate BaseHolds(m0: Row, m1: Row) {
    && Cong(Tmp0(m0), Two(Acc(m0), Alpha(m0), Coef(m0, 0), Coef(m0, 1)))
    && Cong(Tmp1(m0), Three(Tmp0(m0), Alpha(m0), Coef(m0, 2), Coef(m0, 3), Coef(m0, 4)))
    && Cong(Acc(m1), Three(Tmp1(m0), Alpha(m0), Coef(m0, 5), Coef(m0, 6), Coef(m0, 7)))
  }

  ghost predicate ExtHolds(m0: Row, m1: Row) {
    && Cong(Tmp0(m0), Two(Acc(m0), Alpha(m0), ExtCoef(m0, 0), ExtCoef(m0, 1)))
    && Cong(Acc(m1), Two(Tmp0(m0), Alpha(m0), ExtCoef(m0, 2), ExtCoef(m0, 3)))
  }

  lemma GateBase(m0: Row, m1: Row, f: int)
    requires f == BaseFlag(m0) && (f == 0 || (f == 1 && BaseHolds(m0, m1)))
    ensures BaseConstraints(m0, m1)
  {
    var a := Alpha(m0);
    GateOne(f, Tmp0(m0), Two(Acc(m0), a, Coef(m0, 0), Coef(m0, 1)));
    GateOne(f, Tmp1(m0), Three(Tmp0(m0), a, Coef(m0, 2), Coef(m0, 3), Coef(m0, 4)));
    GateOne(f, Acc(m1), Three(Tmp1(m0), a, Coef(m0, 5), Coef(m0, 6), Coef(m0, 7)));
  }

  lemma GateExt(m0: Row, m1: Row, f: int)
    requires f == ExtFlag(m0) && (f == 0 || (f == 1 && ExtHolds(m0, m1)))
    ensures ExtConstraints(m0, m1)
  {
    var a := Alpha(m0);
    GateOne(f, Tmp0(m0), Two(Acc(m0), a, ExtCoef(m0, 0), ExtCoef(m0, 1)));
    GateOne(f, Acc(m1), Two(Tmp0(m0), a, ExtCoef(m0, 2), ExtCoef(m0, 3)));
  }

  function StepTwo(acc: Ext, a: Ext, c0: Ext, c1: Ext): Ext { Step(Step(acc, a, c0), a, c1) }
  function StepThree(acc: Ext, a: Ext, c0: Ext, c1: Ext, c2: Ext): Ext { Step(StepTwo(acc, a, c0, c1), a, c2) }

  lemma HelpersAre(m0: Row, alpha: Quad, tmp0: Quad, tmp1: Quad)
    requires Helped(m0, ToUserOpHelpers(HornerEvalBase(alpha, tmp0, tmp1)))
    ensures Alpha(m0) == OfQuad(alpha) && Tmp0(m0) == OfQuad(tmp0) && Tmp1(m0) == OfQuad(tmp1)
  {
  }

  /** The values the processor computes by plain Horner steps satisfy the constraints. */
  lemma BaseComplete(m0: Row, m1: Row, alpha: Quad, tmp0: Quad, tmp1: Quad)
    requires OpBits(m0) && IsBase(m0)
    requires Helped(m0, ToUserOpHelpers(HornerEvalBase(alpha, tmp0, tmp1)))
    requires tmp0 == AsQuad(StepTwo(Acc(m0), OfQuad(alpha), Coef(m0, 0), Coef(m0, 1)))
    requires tmp1 == AsQuad(StepThree(OfQuad(tmp0), OfQuad(alpha), Coef(m0, 2), Coef(m0, 3), Coef(m0, 4)))
    requires Acc(m1) == OfQuad(AsQuad(StepThree(OfQuad(tmp1), OfQuad(alpha), Coef(m0, 5), Coef(m0, 6), Coef(m0, 7))))
    ensures BaseConstraints(m0, m1) && ExtConstraints(m0, m1)
  {
    HelpersAre(m0, alpha, tmp0, tmp1);
    ReducedTwo(Tmp0(m0), Acc(m0), Alpha(m0), Coef(m0, 0), Coef(m0, 1));
    ReducedThree(Tmp1(m0), Tmp0(m0), Alpha(m0), Coef(m0, 2), Coef(m0, 3), Coef(m0, 4));
    ReducedThree(Acc(m1), Tmp1(m0), Alpha(m0), Coef(m0, 5), Coef(m0, 6), Coef(m0, 7));
    FlagMeaning(m0);
    GateBase(m0, m1, BaseFlag(m0));
    GateExt(m0, m1, ExtFlag(m0));
  }

  lemma ReducedTwo(out: Ext, acc: Ext, a: Ext, c0: Ext, c1: Ext)
    requires out == OfQuad(AsQuad(StepTwo(acc, a, c0, c1)))
    ensures Cong(out, Two(acc, a, c0, c1))
  {
    StepTwice(acc, a, c0, c1);
    ReduceCong(Step(Step(acc, a, c0), a, c1));
  }

  lemma ReducedThree(out: Ext, acc: Ext, a: Ext, c0: Ext, c1: Ext, c2: Ext)
    requires out == OfQuad(AsQuad(StepThree(acc, a, c0, c1, c2)))
    ensures Cong(out, Three(acc, a, c0, c1, c2))
  {
    ReduceCong(Step(Step(Step(acc, a, c0), a, c1), a, c2));
    StepTwice(Step(acc, a, c0), a, c1, c2);
    TwoIsFold(Step(acc, a, c0), a, c1, c2);
    ThreeIsFold(acc, a, c0, c1, c2);
    assert [c0, c1, c2][1..] == [c1, c2];
  }

  lemma ExtComplete(m0: Row, m1: Row, alpha: Quad, tmp: Quad)
    requires OpBits(m0) && IsExt(m0)
    requires Helped(m0, ToUserOpHelpers(HornerEvalExt(alpha, tmp)))
    requires tmp == AsQuad(StepTwo(Acc(m0), OfQuad(alpha), ExtCoef(m0, 0), ExtCoef(m0, 1)))
    requires Acc(m1) == OfQuad(AsQuad(StepTwo(OfQuad(tmp), OfQuad(alpha), ExtCoef(m0, 2), ExtCoef(m0, 3))))
    ensures BaseConstraints(m0, m1) && ExtConstraints(m0, m1)
  {
    HelpersAre(m0, alpha, tmp, Quad(0, 0));
    ReducedTwo(Tmp0(m0), Acc(m0), Alpha(m0), ExtCoef(m0, 0), ExtCoef(m0, 1));
    ReducedTwo(Acc(m1), Tmp0(m0), Alpha(m0), ExtCoef(m0, 2), ExtCoef(m0, 3));
    FlagMeaning(m0);
    GateBase(m0, m1, BaseFlag(m0));
    GateExt(m0, m1, ExtFlag(m0));
  }
}
