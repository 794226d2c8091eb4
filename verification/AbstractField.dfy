/** A field given by its operations. Each law is a named predicate, so that a proof states
    the instances it uses. */
module AbstractField {
  datatype Field<!E(!new)> = Field(zero: E, one: E, add: (E, E) -> E, neg: E -> E, mul: (E, E) -> E, inv: E -> E) {
    function Sub(a: E, b: E): E { add(a, neg(b)) }

    /** a / b, for nonzero b */
    function Quot(a: E, b: E): E { mul(inv(b), a) }

    /** n as a field element */
    function Nat(n: nat): E { if n == 0 then zero else add(Nat(n - 1), one) }

    ghost predicate AddAssoc(a: E, b: E, c: E) { add(add(a, b), c) == add(a, add(b, c)) }
    ghost predicate AddComm(a: E, b: E) { add(a, b) == add(b, a) }
    ghost predicate AddZero(a: E) { add(a, zero) == a }
    ghost predicate AddNeg(a: E) { add(a, neg(a)) == zero }
    ghost predicate MulAssoc(a: E, b: E, c: E) { mul(mul(a, b), c) == mul(a, mul(b, c)) }
    ghost predicate MulComm(a: E, b: E) { mul(a, b) == mul(b, a) }
    ghost predicate MulOne(a: E) { mul(a, one) == a }
    ghost predicate MulInv(a: E) { a != zero ==> mul(a, inv(a)) == one }
    ghost predicate Distrib(a: E, b: E, c: E) { mul(add(a, b), c) == add(mul(a, c), mul(b, c)) }

    ghost predicate AddLaws() {
      && (forall a, b, c :: AddAssoc(a, b, c)) && (forall a, b :: AddComm(a, b))
      && (forall a :: AddZero(a)) && (forall a :: AddNeg(a))
    }

    ghost predicate MulLaws() {
      && (forall a, b, c :: MulAssoc(a, b, c)) && (forall a, b :: MulComm(a, b))
      && (forall a :: MulOne(a)) && (forall a :: MulInv(a)) && one != zero
    }

    ghost predicate Laws() {
      AddLaws() && MulLaws() && forall a, b, c :: Distrib(a, b, c)
    }

    // Addition
    // --------------------------------------------------------------------------

    lemma AddCancel(a: E, b: E, c: E)
      requires Laws() && add(a, c) == add(b, c)
      ensures a == b
    {
      assert AddAssoc(a, c, neg(c)) && AddAssoc(b, c, neg(c)) && AddNeg(c) && AddZero(a) && AddZero(b);
    }

    lemma ZeroAdd(a: E)
      requires Laws()
      ensures add(zero, a) == a && add(a, zero) == a
    {
      assert AddComm(zero, a) && AddZero(a);
    }

    lemma SubAdd(a: E, b: E)
      requires Laws()
      ensures add(Sub(a, b), b) == a && Sub(add(a, b), b) == a
    {
      assert AddAssoc(a, neg(b), b) && AddComm(neg(b), b) && AddNeg(b) && AddZero(a) && AddAssoc(a, b, neg(b));
    }

    lemma SubIsZero(a: E, b: E)
      requires Laws()
      ensures Sub(a, b) == zero <==> a == b
    {
      SubAdd(a, b);
      ZeroAdd(b);
      assert AddNeg(b);
    }

    /** (a + b) + (c + d) == (a + c) + (b + d) */
    lemma Interchange(a: E, b: E, c: E, d: E)
      requires Laws()
      ensures add(add(a, b), add(c, d)) == add(add(a, c), add(b, d))
    {
      assert AddAssoc(a, b, add(c, d)) && AddAssoc(b, c, d) && AddComm(b, c) && AddAssoc(c, b, d) && AddAssoc(a, c, add(b, d));
    }

    // Multiplication
    // --------------------------------------------------------------------------

    lemma MulZero(a: E)
      requires Laws()
      ensures mul(zero, a) == zero && mul(a, zero) == zero
    {
      var z := mul(zero, a);
      ZeroAdd(zero);
      assert Distrib(zero, zero, a) && MulComm(zero, a);
      ZeroAdd(z);
      AddCancel(z, zero, z);
    }

    lemma MulNeg(a: E)
      requires Laws()
      ensures mul(a, neg(one)) == neg(a)
    {
      OneMul(a);
      MulZero(a);
      assert AddNeg(one) && AddNeg(a) && AddComm(one, neg(one)) && AddComm(a, neg(a));
      assert Distrib(neg(one), one, a) && MulComm(neg(one), a) && MulComm(one, a);
      AddCancel(mul(a, neg(one)), neg(a), a);
    }

    lemma OneMul(a: E)
      requires Laws()
      ensures mul(one, a) == a && mul(a, one) == a
    {
      assert MulComm(one, a) && MulOne(a);
    }

    lemma InvMul(a: E)
      requires Laws() && a != zero
      ensures mul(inv(a), a) == one && mul(a, inv(a)) == one
    {
      assert MulInv(a) && MulComm(a, inv(a));
    }

    lemma MulCancel(a: E, b: E, c: E)
      requires Laws() && c != zero && mul(a, c) == mul(b, c)
      ensures a == b
    {
      InvMul(c);
      assert MulAssoc(a, c, inv(c)) && MulAssoc(b, c, inv(c)) && MulOne(a) && MulOne(b);
    }

    lemma MulNonzero(a: E, b: E)
      requires Laws()
      ensures mul(a, b) == zero <==> a == zero || b == zero
    {
      MulZero(a);
      MulZero(b);
      if mul(a, b) == zero && b != zero {
        MulCancel(a, zero, b);
      }
    }

    lemma InverseIsUnique(x: E, a: E)
      requires Laws() && mul(x, a) == one
      ensures a != zero && x == inv(a)
    {
      MulZero(x);
      InvMul(a);
      MulCancel(x, inv(a), a);
    }

    lemma DistribLeft(a: E, b: E, c: E)
      requires Laws()
      ensures mul(c, add(a, b)) == add(mul(c, a), mul(c, b))
    {
      assert Distrib(a, b, c) && MulComm(add(a, b), c) && MulComm(a, c) && MulComm(b, c);
    }

    /** u*x == v holds exactly for the quotient. */
    lemma QuotIsSolution(u: E, v: E, x: E)
      requires Laws() && u != zero
      ensures mul(u, x) == v <==> x == Quot(v, u)
    {
      InvMul(u);
      OneMul(x);
      OneMul(v);
      assert MulAssoc(inv(u), u, x) && MulAssoc(u, inv(u), v);
    }
  }
}
