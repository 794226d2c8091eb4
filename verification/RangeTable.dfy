/** The range-check table in the core trace: a column that walks from 0 to 65535. */
module RangeTable {
  import opened Goldilocks
  import opened CoreTrace

  function V(r: Row): int { r[50] }

  /** The nine permitted step sizes: 0 and the powers of 3 up to 3^7. */
  const STEPS: seq<int> := [0, 1, 3, 9, 27, 81, 243, 729, 2187]

  /** Product of (d - s) over the first n permitted steps. */
  function StepProduct(d: int, n: nat): int
    requires n <= |STEPS|
  {
    if n == 0 then 1 else StepProduct(d, n - 1) * (d - STEPS[n - 1])
  }

  ghost predicate RangeAt(t: seq<Row>, i: nat)
    requires i < |t|
  {
    && Zero(Fst(i) * V(t[i]))
    && Zero(Lst(t, i) * (V(t[i]) - 65535))
    && Zero(Tr(t, i) * StepProduct(V(Next(t, i)) - V(t[i]), 9))
  }

  /** A satisfying table whose largest possible climb stays below the field order. */
  ghost predicate Table(t: seq<Row>) {
    0 < |t| && |t| * 2187 < P && forall i | 0 <= i < |t| :: RangeAt(t, i)
  }

  lemma {:induction false} StepIsPermitted(d: int, n: nat)
    requires n <= |STEPS| && Zero(StepProduct(d, n))
    ensures exists k | 0 <= k < n :: Zero(d - STEPS[k])
  {
    if n == 0 {
      ZeroIsSmall(1);
    } else {
      ZeroProduct(StepProduct(d, n - 1), d - STEPS[n - 1]);
      if Zero(StepProduct(d, n - 1)) {
        StepIsPermitted(d, n - 1);
      }
    }
  }

  lemma StepExact(a: nat, b: Felt, k: nat)
    requires k < |STEPS| && Zero(b - a - STEPS[k]) && a + 2187 < P
    ensures a <= b <= a + 2187
  {
    assert 0 <= STEPS[k] <= 2187;
    ZeroIsSmall(b - a - STEPS[k]);
  }

  lemma {:induction false} Climb(t: seq<Row>, i: nat)
    requires Table(t) && i < |t|
    ensures V(t[i]) <= 2187 * i
    ensures forall j | 0 <= j <= i :: V(t[j]) <= V(t[i])
  {
    if i == 0 {
      assert RangeAt(t, 0);
      ZeroIsSmall(V(t[0]));
    } else {
      Climb(t, i - 1);
      assert RangeAt(t, i - 1);
      var d := V(t[i]) - V(t[i - 1]);
      StepIsPermitted(d, 9);
      var k :| 0 <= k < 9 && Zero(d - STEPS[k]);
      StepExact(V(t[i - 1]), V(t[i]), k);
    }
  }

  /** The table climbs from 0 to 65535 and holds nothing else. */
  lemma TableIsSixteenBits(t: seq<Row>)
    requires Table(t)
    ensures forall i, j | 0 <= i <= j < |t| :: V(t[i]) <= V(t[j])
    ensures forall i | 0 <= i < |t| :: U16(V(t[i]))
    ensures V(t[0]) == 0 && V(t[|t| - 1]) == 65535
  {
    var l := |t| - 1;
    forall i, j | 0 <= i <= j < |t|
      ensures V(t[i]) <= V(t[j])
    {
      Climb(t, j);
    }
    assert RangeAt(t, 0) && RangeAt(t, l);
    ZeroIsSmall(V(t[0]));
    ZeroIsSmall(V(t[l]) - 65535);
  }

  /** A range-check request is balanced by a table row with the same value. */
  ghost predicate RangeChecked(t: seq<Row>, x: int) {
    exists i | 0 <= i < |t| :: V(t[i]) == x
  }

  /** So every range-checked cell holds a 16-bit value. */
  lemma RangeCheckedIsU16(t: seq<Row>, x: int)
    requires Table(t) && RangeChecked(t, x)
    ensures U16(x)
  {
    TableIsSixteenBits(t);
  }

  // Which tables are accepted
  // ----------------------------------------------------------------------------

  ghost predicate Permitted(d: int) { d == 0 || d == 1 || d == 3 || d == 9 || d == 27 || d == 81 || d == 243 || d == 729 || d == 2187 }

  lemma {:induction false} PermittedVanishes(d: int, n: nat, k: nat)
    requires k < n <= |STEPS| && d == STEPS[k]
    ensures StepProduct(d, n) == 0
  {
    if k < n - 1 {
      PermittedVanishes(d, n - 1, k);
    }
  }

  lemma StepOfPermitted(d: int)
    requires Permitted(d)
    ensures StepProduct(d, 9) == 0
  {
    var k := if d == 0 then 0 else if d == 1 then 1 else if d == 3 then 2 else if d == 9 then 3 else if d == 27 then 4
             else if d == 81 then 5 else if d == 243 then 6 else if d == 729 then 7 else 8;
    PermittedVanishes(d, 9, k);
  }

  lemma PermittedOfStep(a: nat, b: Felt, k: nat)
    requires k < |STEPS| && Zero(b - a - STEPS[k]) && a + 2187 < P
    ensures Permitted(b - a)
  {
    assert 0 <= STEPS[k] <= 2187;
    ZeroIsSmall(b - a - STEPS[k]);
  }

  ghost predicate StepAt(t: seq<Row>, i: nat)
    requires i + 1 < |t|
  {
    Permitted(V(t[i + 1]) - V(t[i]))
  }

  lemma StepsArePermitted(t: seq<Row>, i: nat)
    requires Table(t) && i + 1 < |t|
    ensures StepAt(t, i)
  {
    Climb(t, i);
    assert RangeAt(t, i);
    var d := V(t[i + 1]) - V(t[i]);
    StepIsPermitted(d, 9);
    var k :| 0 <= k < 9 && Zero(d - STEPS[k]);
    PermittedOfStep(V(t[i]), V(t[i + 1]), k);
  }

  /** The accepted tables are those that go from 0 to 65535 in steps of 0 and the powers of 3 up to 3^7. */
  lemma TableIff(t: seq<Row>)
    requires 0 < |t| && |t| * 2187 < P
    ensures Table(t) <==> V(t[0]) == 0 && V(t[|t| - 1]) == 65535 && forall i: nat | i + 1 < |t| :: StepAt(t, i)
  {
    if Table(t) {
      TableIsSixteenBits(t);
      forall i: nat | i + 1 < |t|
        ensures StepAt(t, i)
      {
        StepsArePermitted(t, i);
      }
    }
    if V(t[0]) == 0 && V(t[|t| - 1]) == 65535 && forall i: nat | i + 1 < |t| :: StepAt(t, i) {
      forall i | 0 <= i < |t|
        ensures RangeAt(t, i)
      {
        if i + 1 < |t| {
          assert StepAt(t, i);
          StepOfPermitted(V(t[i + 1]) - V(t[i]));
        }
      }
    }
  }

  function TableRow(v: Felt): (r: Row)
    ensures V(r) == v
  {
    seq(51, k requires 0 <= k < 51 => if k == 50 then v else 0)
  }

  /** All 16-bit values in turn. */
  function FullTable(): (t: seq<Row>)
    ensures |t| == 65536 && forall i: nat | i < 65536 :: V(t[i]) == i
  {
    seq(65536, i requires 0 <= i < 65536 => TableRow(i))
  }

  /** A value can be range-checked exactly if it has 16 bits. */
  lemma CheckableIffU16(x: int)
    ensures (exists t: seq<Row> :: Table(t) && RangeChecked(t, x)) <==> 0 <= x < 65536
  {
    if 0 <= x < 65536 {
      var t := FullTable();
      assert V(t[x]) == x;
      forall i: nat | i + 1 < |t|
        ensures StepAt(t, i)
      {
        assert V(t[i]) == i && V(t[i + 1]) == i + 1;
      }
      assert V(t[0]) == 0 && V(t[65535]) == 65535;
      TableIff(t);
    }
    if t: seq<Row> :| Table(t) && RangeChecked(t, x) {
      RangeCheckedIsU16(t, x);
    }
  }
}
