/** The cross-AIR closure of LogUp: committed sums, weighted by trace length, plus the
    fractions of the boundary messages. */
module LogUpClosure {
  import opened AbstractField
  import opened LogUpAccumulator
  import opened LogUpConstraints
  import opened Wrappers
  import Goldilocks

  datatype Air = Core | Chiplets | Poseidon2Permutation

  const AIRS: seq<Air> := [Core, Chiplets, Poseidon2Permutation]
  const WORD_SIZE: nat := 4
  const AUX_KERNEL_DIGESTS: nat := 2 * WORD_SIZE
  const MAX_NUM_PROCEDURES: nat := 255
  const NUM_PUBLIC_VALUES: nat := 32
  const NUM_CHALLENGES: nat := 2

  datatype ReductionError =
    | AuxValueLists | LogHeights | ChallengeCount | PublicValues | AuxInputsTooShort | AuxInputsTooLong
    | KernelDigests | ZeroDenominator | AuxValues | HeightTooLarge

  // Boundary messages
  // ----------------------------------------------------------------------------

  /** Sums multiplicity / denominator over the boundary messages it is given, and remembers the
      first zero denominator. */
  class ReduceBoundaryBuilder<E(==, !new)> {
    const f: Field<E>
    var sum: E
    var error: Option<ReductionError>

    /** State after the messages s. */
    ghost predicate Reduced(s: seq<(E, E)>)
      reads this
    {
      && (error.None? <==> AllNonzero(f, s))
      && (error.None? ==> sum == Sum(f, Quots(f, s)))
      && (error.Some? ==> error.value == ZeroDenominator)
    }

    constructor (f: Field<E>)
      ensures this.f == f && Reduced([])
    {
      this.f := f;
      sum := f.zero;
      error := None;
    }

    method Insert(m: E, d: E, ghost s: seq<(E, E)>)
      requires Reduced(s)
      modifies this
      ensures Reduced(s + [(m, d)])
      ensures old(error).Some? || d == f.zero ==> sum == old(sum)
    {
      ghost var next := s + [(m, d)];
      assert next[|s|] == (m, d) && forall i: nat | i < |s| :: next[i] == s[i];
      if error.Some? {
        return;
      }
      if d == f.zero {
        error := Some(ZeroDenominator);
      } else {
        sum := f.add(sum, f.mul(f.inv(d), m));
        SumSnoc(f, Quots(f, s), f.Quot(m, d));
        assert Quots(f, next) == Quots(f, s) + [f.Quot(m, d)];
      }
    }

    method Finalize(ghost s: seq<(E, E)>) returns (r: Result<E, ReductionError>)
      requires Reduced(s)
      ensures r == if AllNonzero(f, s) then Ok(Sum(f, Quots(f, s))) else Err(ZeroDenominator)
    {
      r := match error case Some(e) => Err(e) case None => Ok(sum);
    }
  }

  /** Boundary correction of one AIR, for messages encoded from its public inputs. The permutation AIR has
      no boundary, whatever messages are given for it. */
  method BoundaryCorrection<E(==, !new)>(f: Field<E>, air: Air, numAuxInputs: nat, messages: Air -> seq<(E, E)>)
    returns (r: Result<E, ReductionError>)
    requires numAuxInputs >= AUX_KERNEL_DIGESTS
    ensures air == Core ==> r == if AllNonzero(f, messages(Core)) then Ok(Sum(f, Quots(f, messages(Core)))) else Err(ZeroDenominator)
    ensures air == Chiplets ==>
              r == if (numAuxInputs - 8) % 4 != 0 then Err(KernelDigests)
                   else if AllNonzero(f, messages(Chiplets)) then Ok(Sum(f, Quots(f, messages(Chiplets)))) else Err(ZeroDenominator)
    ensures air == Poseidon2Permutation ==> r == Ok(f.zero)
  {
    if air == Chiplets && (numAuxInputs - AUX_KERNEL_DIGESTS) % WORD_SIZE != 0 {
      return Err(KernelDigests);
    }
    if air == Poseidon2Permutation {
      return Ok(f.zero);
    }
    var s := messages(air);
    var reducer := new ReduceBoundaryBuilder(f);
    assert s[..0] == [];
    for i := 0 to |s|
      invariant reducer.f == f && reducer.Reduced(s[..i])
    {
      reducer.Insert(s[i].0, s[i].1, s[..i]);
      assert s[..i + 1] == s[..i] + [s[i]];
    }
    assert s[..|s|] == s;
    r := reducer.Finalize(s);
  }

  // The external reduction
  // ----------------------------------------------------------------------------

  datatype Inputs<!E> = Inputs(challenges: seq<E>, airInputs: seq<E>, auxInputs: seq<E>, auxValues: seq<seq<E>>,
                               logHeights: seq<nat>)

  /** What is demanded of the boundary messages of an AIR. */
  ghost predicate BoundaryOk<E(!new)>(f: Field<E>, air: Air, numAuxInputs: nat, messages: Air -> seq<(E, E)>) {
    match air
    case Core => AllNonzero(f, messages(Core))
    case Chiplets => (numAuxInputs - 8) % 4 == 0 && AllNonzero(f, messages(Chiplets))
    case Poseidon2Permutation => true
  }

  ghost predicate AirOk<E(!new)>(f: Field<E>, x: Inputs<E>, messages: Air -> seq<(E, E)>, i: nat)
    requires i < |AIRS| && i < |x.auxValues| && i < |x.logHeights|
  {
    && BoundaryOk(f, AIRS[i], |x.auxInputs|, messages)
    && |x.auxValues[i]| == 1 && x.logHeights[i] < 64
  }

  ghost predicate ValueOk<E>(x: Inputs<E>, i: nat)
    requires i < |x.auxValues| && i < |x.logHeights|
  {
    |x.auxValues[i]| == 1 && x.logHeights[i] < 64
  }

  /** The inputs that the reduction accepts: one value and a 64-bit trace length for each of three AIRs, two
      challenges, 32 public values, two words of statement and up to 255 whole kernel digests, and no zero
      denominator among the messages of Core and Chiplets. */
  ghost predicate Accepts<E(!new)>(f: Field<E>, x: Inputs<E>, messages: Air -> seq<(E, E)>) {
    && |x.auxValues| == 3 && |x.logHeights| == 3 && (forall i: nat | i < 3 :: ValueOk(x, i))
    && |x.challenges| == 2 && |x.airInputs| == 32
    && 8 <= |x.auxInputs| <= 1028 && (|x.auxInputs| - 8) % 4 == 0
    && AllNonzero(f, messages(Core)) && AllNonzero(f, messages(Chiplets))
  }

  lemma AllAirsOk<E(!new)>(f: Field<E>, x: Inputs<E>, messages: Air -> seq<(E, E)>)
    requires |x.auxValues| == 3 && |x.logHeights| == 3 && |x.auxInputs| >= 8
    ensures (forall i: nat | i < |AIRS| :: AirOk(f, x, messages, i))
       <==> (forall i: nat | i < 3 :: ValueOk(x, i)) && (|x.auxInputs| - 8) % 4 == 0
            && AllNonzero(f, messages(Core)) && AllNonzero(f, messages(Chiplets))
  {
    if forall i: nat | i < |AIRS| :: AirOk(f, x, messages, i) {
      assert AirOk(f, x, messages, 0) && AirOk(f, x, messages, 1) && AirOk(f, x, messages, 2);
      assert ValueOk(x, 0) && ValueOk(x, 1) && ValueOk(x, 2);
    } else if forall i: nat | i < 3 :: ValueOk(x, i) {
      assert ValueOk(x, 0) && ValueOk(x, 1) && ValueOk(x, 2);
    }
  }

  function Weighted<E(!new)>(f: Field<E>, values: seq<seq<E>>, logHeights: seq<nat>): (w: seq<E>)
    requires |values| == |logHeights|
    ensures |w| == |values|
  {
    seq(|values|, i requires 0 <= i < |values| => f.mul(Sum(f, values[i]), f.Nat(Goldilocks.Pow2(logHeights[i]))))
  }

  function Correction<E(!new)>(f: Field<E>, air: Air, messages: Air -> seq<(E, E)>): E {
    if air == Poseidon2Permutation then f.zero else Sum(f, Quots(f, messages(air)))
  }

  function Corrections<E(!new)>(f: Field<E>, messages: Air -> seq<(E, E)>): (w: seq<E>)
    ensures |w| == |AIRS|
  {
    seq(|AIRS|, i requires 0 <= i < |AIRS| => Correction(f, AIRS[i], messages))
  }

  /** Every boundary fraction of Core and of Chiplets, and nothing else, is counted once. */
  lemma CorrectionsAre<E(!new)>(f: Field<E>, messages: Air -> seq<(E, E)>)
    requires f.Laws()
    ensures Sum(f, Corrections(f, messages)) == f.add(Sum(f, Quots(f, messages(Core))), Sum(f, Quots(f, messages(Chiplets))))
  {
    var c, d := Sum(f, Quots(f, messages(Core))), Sum(f, Quots(f, messages(Chiplets)));
    assert Corrections(f, messages) == [c] + [d] + [f.zero];
    SumSnoc(f, [c] + [d], f.zero);
    SumSnoc(f, [c], d);
    SumOne(f, c);
    f.ZeroAdd(f.add(c, d));
  }

  /** One iteration of the reduction. */
  method ReduceAir<E(==, !new)>(f: Field<E>, x: Inputs<E>, messages: Air -> seq<(E, E)>, i: nat) returns (r: Result<(E, E), ReductionError>)
    requires i < |AIRS| == |x.auxValues| == |x.logHeights| && |x.auxInputs| >= AUX_KERNEL_DIGESTS
    ensures r.Ok? <==> AirOk(f, x, messages, i)
    ensures r.Ok? ==> r.value == (Weighted(f, x.auxValues, x.logHeights)[i], Corrections(f, messages)[i])
  {
    var boundary := BoundaryCorrection(f, AIRS[i], |x.auxInputs|, messages);
    if boundary.Err? {
      return Err(boundary.error);
    }
    if |x.auxValues[i]| != 1 {
      return Err(AuxValues);
    }
    if x.logHeights[i] >= 64 {
      return Err(HeightTooLarge);
    }
    var sum := SumAll(f, x.auxValues[i]);
    return Ok((f.mul(sum, f.Nat(Goldilocks.Pow2(x.logHeights[i]))), boundary.value));
  }

  /** The loop over the AIRs: weighted committed sums, and boundary corrections. */
  method ReduceAll<E(==, !new)>(f: Field<E>, x: Inputs<E>, messages: Air -> seq<(E, E)>) returns (r: Result<(E, E), ReductionError>)
    requires |AIRS| == |x.auxValues| == |x.logHeights| && |x.auxInputs| >= AUX_KERNEL_DIGESTS
    ensures r.Ok? <==> forall i: nat | i < |AIRS| :: AirOk(f, x, messages, i)
    ensures r.Ok? ==> r.value == (Sum(f, Weighted(f, x.auxValues, x.logHeights)), Sum(f, Corrections(f, messages)))
  {
    var weighted, boundary := f.zero, f.zero;
    ghost var ws, bs := Weighted(f, x.auxValues, x.logHeights), Corrections(f, messages);
    for i := 0 to |AIRS|
      invariant weighted == Sum(f, ws[..i]) && boundary == Sum(f, bs[..i])
      invariant forall j: nat | j < i :: AirOk(f, x, messages, j)
    {
      var terms := ReduceAir(f, x, messages, i);
      if terms.Err? {
        return Err(terms.error);
      }
      weighted, boundary := f.add(weighted, terms.value.0), f.add(boundary, terms.value.1);
      SumSnoc(f, ws[..i], ws[i]);
      SumSnoc(f, bs[..i], bs[i]);
      assert ws[..i + 1] == ws[..i] + [ws[i]] && bs[..i + 1] == bs[..i] + [bs[i]];
    }
    assert ws[..|AIRS|] == ws && bs[..|AIRS|] == bs;
    return Ok((weighted, boundary));
  }

  method EvalExternal<E(==, !new)>(f: Field<E>, x: Inputs<E>, messages: Air -> seq<(E, E)>) returns (r: Result<seq<E>, ReductionError>)
    ensures r.Ok? <==> Accepts(f, x, messages)
    ensures r.Ok? && f.Laws() ==>
              r.value == [f.add(Sum(f, Weighted(f, x.auxValues, x.logHeights)),
                                f.add(Sum(f, Quots(f, messages(Core))), Sum(f, Quots(f, messages(Chiplets)))))]
  {
    if |x.auxValues| != |AIRS| {
      return Err(AuxValueLists);
    }
    if |x.logHeights| != |AIRS| {
      return Err(LogHeights);
    }
    if |x.challenges| != NUM_CHALLENGES {
      return Err(ChallengeCount);
    }
    if |x.airInputs| != NUM_PUBLIC_VALUES {
      return Err(PublicValues);
    }
    if |x.auxInputs| < AUX_KERNEL_DIGESTS {
      return Err(AuxInputsTooShort);
    }
    if |x.auxInputs| > AUX_KERNEL_DIGESTS + MAX_NUM_PROCEDURES * WORD_SIZE {
      return Err(AuxInputsTooLong);
    }
    AllAirsOk(f, x, messages);
    if f.Laws() {
      CorrectionsAre(f, messages);
    }
    var sums := ReduceAll(f, x, messages);
    if sums.Err? {
      return Err(sums.error);
    }
    return Ok([f.add(sums.value.0, sums.value.1)]);
  }

  // End to end
  // ----------------------------------------------------------------------------

  /** One proven trace: its interactions, the auxiliary trace and the committed value. */
  datatype Proven<!E> = Proven(rows: seq<seq<Column<E>>>, cols: nat, aux: seq<seq<E>>, sigma': E)

  ghost predicate Committed<E(!new)>(f: Field<E>, p: Proven<E>, values: seq<E>, logHeight: nat) {
    && GoodTrace(f, p.rows, p.cols) && Satisfies(f, p.rows, p.aux, p.sigma')
    && |p.rows| == Goldilocks.Pow2(logHeight) && values == [p.sigma']
  }

  /** If the committed values come from satisfying traces, the reduction returns exactly the sum of
      all row fractions of all AIRs plus the boundary fractions of Core and of Chiplets. */
  lemma ReductionIsGlobalSum<E(!new)>(f: Field<E>, x: Inputs<E>, messages: Air -> seq<(E, E)>, ps: seq<Proven<E>>)
    requires f.Laws() && Accepts(f, x, messages) && |ps| == 3
    requires forall i: nat | i < 3 :: Committed(f, ps[i], x.auxValues[i], x.logHeights[i])
    ensures f.add(Sum(f, Weighted(f, x.auxValues, x.logHeights)),
                  f.add(Sum(f, Quots(f, messages(Core))), Sum(f, Quots(f, messages(Chiplets)))))
         == f.add(f.add(f.add(Sum(f, RowTotals(f, ps[0].rows)), Sum(f, RowTotals(f, ps[1].rows))), Sum(f, RowTotals(f, ps[2].rows))),
                  f.add(Sum(f, Quots(f, messages(Core))), Sum(f, Quots(f, messages(Chiplets)))))
  {
    var ws := Weighted(f, x.auxValues, x.logHeights);
    forall i: nat | i < 3
      ensures ws[i] == Sum(f, RowTotals(f, ps[i].rows))
    {
      WeightedIs(f, x, ps, i);
    }
    ThreeSum(f, ws);
  }

  lemma WeightedIs<E(!new)>(f: Field<E>, x: Inputs<E>, ps: seq<Proven<E>>, i: nat)
    requires f.Laws() && |ps| == |x.auxValues| == |x.logHeights| && i < |ps|
    requires Committed(f, ps[i], x.auxValues[i], x.logHeights[i])
    ensures Weighted(f, x.auxValues, x.logHeights)[i] == Sum(f, RowTotals(f, ps[i].rows))
  {
    var p := ps[i];
    SatisfyingForcesSum(f, p.rows, p.aux, p.sigma', p.cols);
    SumOne(f, p.sigma');
    assert f.MulComm(p.sigma', f.Nat(|p.rows|));
  }

  lemma ThreeSum<E(!new)>(f: Field<E>, s: seq<E>)
    requires f.Laws() && |s| == 3
    ensures Sum(f, s) == f.add(f.add(s[0], s[1]), s[2])
  {
    assert s == [s[0]] + [s[1]] + [s[2]];
    SumSnoc(f, [s[0]] + [s[1]], s[2]);
    SumSnoc(f, [s[0]], s[1]);
    SumOne(f, s[0]);
  }

  // The messages of a statement
  // ----------------------------------------------------------------------------

  /** Messages at the boundary: the block hash of the program, the deferred root, a kernel procedure. */
  datatype BoundaryMessage<!E> = BlockHashSeed(digest: seq<E>) | DeferredRoot(state: seq<E>) | KernelInit(digest: seq<E>)

  /** The auxiliary inputs are program hash, deferred root and kernel digests, a word each. Multiplicity
      and denominator of every message they give rise to. */
  function StatementMessages<E(!new)>(f: Field<E>, encode: BoundaryMessage<E> -> E, aux: seq<E>): Air -> seq<(E, E)>
    requires |aux| >= 8 && (|aux| - 8) % 4 == 0
  {
    var core := [(f.one, encode(BlockHashSeed(aux[0..4]))),
                 (f.one, encode(DeferredRoot([f.zero, f.zero, f.zero, f.zero]))),
                 (f.neg(f.one), encode(DeferredRoot(aux[4..8])))];
    var chiplets := seq((|aux| - 8) / 4, k requires 0 <= k < (|aux| - 8) / 4 => (f.one, encode(KernelInit(aux[8 + 4 * k..12 + 4 * k]))));
    (air: Air) => match air case Core => core case Chiplets => chiplets case Poseidon2Permutation => []
  }

  /** The kernel digests' share of the boundary. */
  function KernelShare<E(!new)>(f: Field<E>, encode: BoundaryMessage<E> -> E, digests: seq<E>): E
    requires |digests| % 4 == 0
    decreases |digests|
  {
    if digests == [] then f.zero
    else
      var n := |digests| - 4;
      f.add(KernelShare(f, encode, digests[..n]), f.inv(encode(KernelInit(digests[n..]))))
  }

  lemma {:induction false} KernelQuots<E(!new)>(f: Field<E>, encode: BoundaryMessage<E> -> E, aux: seq<E>)
    requires f.Laws() && |aux| >= 8 && (|aux| - 8) % 4 == 0
    ensures Sum(f, Quots(f, StatementMessages(f, encode, aux)(Chiplets))) == KernelShare(f, encode, aux[8..])
    decreases |aux|
  {
    if |aux| > 8 {
      var short := aux[..|aux| - 4];
      KernelQuots(f, encode, short);
      var q, q' := Quots(f, StatementMessages(f, encode, aux)(Chiplets)), Quots(f, StatementMessages(f, encode, short)(Chiplets));
      var i := f.inv(encode(KernelInit(aux[|aux| - 4..])));
      KernelSnoc(f, encode, aux, short, i);
      SumSnoc(f, q', i);
      assert short[8..] == aux[8..][..|aux[8..]| - 4] && aux[8..][|aux[8..]| - 4..] == aux[|aux| - 4..];
    }
  }

  lemma KernelSnoc<E(!new)>(f: Field<E>, encode: BoundaryMessage<E> -> E, aux: seq<E>, short: seq<E>, i: E)
    requires f.Laws() && |aux| >= 12 && (|aux| - 8) % 4 == 0 && short == aux[..|aux| - 4]
    requires i == f.inv(encode(KernelInit(aux[|aux| - 4..])))
    ensures Quots(f, StatementMessages(f, encode, aux)(Chiplets)) == Quots(f, StatementMessages(f, encode, short)(Chiplets)) + [i]
  {
    var s, s' := StatementMessages(f, encode, aux)(Chiplets), StatementMessages(f, encode, short)(Chiplets);
    var n := |s'|;
    assert |s| == n + 1 && 8 + 4 * n == |aux| - 4;
    forall k: nat | k < n
      ensures s[k] == s'[k]
    {
      assert short[8 + 4 * k..12 + 4 * k] == aux[8 + 4 * k..12 + 4 * k];
    }
    assert aux[8 + 4 * n..12 + 4 * n] == aux[|aux| - 4..];
    f.OneMul(i);
  }

  lemma CoreQuots<E(!new)>(f: Field<E>, encode: BoundaryMessage<E> -> E, aux: seq<E>, seed: E, first: E, last: E)
    requires f.Laws() && |aux| >= 8 && (|aux| - 8) % 4 == 0
    requires seed == f.inv(encode(BlockHashSeed(aux[0..4]))) && last == f.inv(encode(DeferredRoot(aux[4..8])))
    requires first == f.inv(encode(DeferredRoot([f.zero, f.zero, f.zero, f.zero])))
    ensures Sum(f, Quots(f, StatementMessages(f, encode, aux)(Core))) == f.Sub(f.add(seed, first), last)
  {
    var q := Quots(f, StatementMessages(f, encode, aux)(Core));
    f.OneMul(seed);
    f.OneMul(first);
    f.MulNeg(last);
    assert q[0] == seed && q[1] == first && q[2] == f.neg(last);
    ThreeSum(f, q);
  }

  /** End to end, for the messages of a statement: what the reduction adds to the row fractions is
      1/seed + 1/initial root - 1/final root + the sum of 1/digest over the kernel. */
  lemma StatementBoundary<E(!new)>(f: Field<E>, encode: BoundaryMessage<E> -> E, aux: seq<E>)
    requires f.Laws() && |aux| >= 8 && (|aux| - 8) % 4 == 0
    ensures f.add(Sum(f, Quots(f, StatementMessages(f, encode, aux)(Core))), Sum(f, Quots(f, StatementMessages(f, encode, aux)(Chiplets))))
         == f.add(f.Sub(f.add(f.inv(encode(BlockHashSeed(aux[0..4]))), f.inv(encode(DeferredRoot([f.zero, f.zero, f.zero, f.zero])))),
                        f.inv(encode(DeferredRoot(aux[4..8])))),
                  KernelShare(f, encode, aux[8..]))
  {
    CoreQuots(f, encode, aux, f.inv(encode(BlockHashSeed(aux[0..4]))),
              f.inv(encode(DeferredRoot([f.zero, f.zero, f.zero, f.zero]))), f.inv(encode(DeferredRoot(aux[4..8]))));
    KernelQuots(f, encode, aux);
  }
}
