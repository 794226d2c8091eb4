/** The base field is an instance of the abstract one. */
module FeltField {
  import opened Goldilocks
  import opened AbstractField

  function AddFelts(a: Felt, b: Felt): Felt { (a + b) % P }
  function NegFelt(a: Felt): Felt { (P - a) % P }
  function MulFelts(a: Felt, b: Felt): Felt { (a * b) % P }

  function Felts(): Field<Felt> {
    Field<Felt>.Field(0, 1, AddFelts, NegFelt, MulFelts, InverseOrZero)
  }

  lemma SameFelt(x: int, y: int)
    requires Zero(x - y)
    ensures x % P == y % P
  {
    ModZero(x);
    ModZero(y);
    Rewrite(x % P - x, x - y, 1);
    Rewrite(x % P - y, y - y % P, 1);
    ZeroIsSmall(x % P - y % P);
  }

  lemma ReduceLeft(a: int, b: int)
    ensures (a % P + b) % P == (a + b) % P && (a % P * b) % P == (a * b) % P
  {
    ModZero(a);
    SameFelt(a % P + b, a + b);
    Rewrite(0, a % P - a, b);
    assert (a % P - a) * b == a % P * b - a * b;
    SameFelt(a % P * b, a * b);
  }

  lemma Adds(f: Field<Felt>)
    requires f == Felts()
    ensures f.AddLaws()
  {
    forall a: Felt, b: Felt, c: Felt
      ensures f.AddAssoc(a, b, c)
    {
      ReduceLeft(a + b, c);
      ReduceLeft(b + c, a);
    }
    forall a: Felt, b: Felt
      ensures f.AddComm(a, b)
    {
    }
    forall a: Felt
      ensures f.AddZero(a) && f.AddNeg(a)
    {
    }
  }

  lemma Muls(f: Field<Felt>)
    requires f == Felts()
    ensures f.MulLaws()
  {
    forall a: Felt, b: Felt, c: Felt
      ensures f.MulAssoc(a, b, c)
    {
      AssocFelt(a, b, c);
    }
    forall a: Felt, b: Felt
      ensures f.MulComm(a, b)
    {
      assert a * b == b * a;
    }
    forall a: Felt
      ensures f.MulOne(a) && f.MulInv(a)
    {
      if a != 0 {
        SameFelt(a * Inverse(a), 1);
      }
    }
  }

  lemma AssocFelt(a: int, b: int, c: int)
    ensures (a * b) % P * c % P == a * ((b * c) % P) % P
  {
    ReduceLeft(a * b, c);
    ReduceLeft(b * c, a);
    assert a * b * c == b * c * a;
    assert (b * c) % P * a == a * ((b * c) % P);
  }

  lemma DistribFelt(a: int, b: int, c: int)
    ensures (a + b) % P * c % P == ((a * c) % P + (b * c) % P) % P
  {
    ReduceLeft(a + b, c);
    ReduceLeft(a * c, (b * c) % P);
    ReduceLeft(b * c, a * c);
    assert (a + b) * c == a * c + b * c;
  }

  /** Goldilocks arithmetic meets every law of a field. */
  lemma FeltsAreAField()
    ensures Felts().Laws()
  {
    var f := Felts();
    Adds(f);
    Muls(f);
    forall a: Felt, b: Felt, c: Felt
      ensures f.Distrib(a, b, c)
    {
      DistribFelt(a, b, c);
    }
  }
}
