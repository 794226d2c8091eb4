/** The quadratic extension, in which the lookup argument runs, is an instance of the abstract field:
    7 is no square in the base field, so no element but zero has norm zero. */
module QuadField {
  import opened Goldilocks
  import opened AbstractField
  import opened HelperRegisters
  import E = ExtField
  import FeltField

  // 7 is not a square
  // ----------------------------------------------------------------------------

  const ROOT: int := 0x1_0000_0000

  lemma ModShift(n: int, k: int, y: int)
    requires n > 0
    ensures (n * k + y) % n == y % n
  {
    var x := n * k + y;
    assert x % n - y % n == n * (k - x / n + y / n);
    SmallMultiple(n, k - x / n + y / n);
  }

  lemma SquareMod(x: int, n: int)
    requires n > 0
    ensures (x * x) % n == ((x % n) * (x % n)) % n
  {
    var q, r := x / n, x % n;
    assert x * x == n * (q * x + q * r) + r * r by {
      assert x * x == (n * q + r) * x && r * x == r * (n * q + r);
    }
    ModShift(n, q * x + q * r, r * r);
  }

  lemma SquareModSeven(x: int)
    ensures (x * x) % 7 == 0 || (x * x) % 7 == 1 || (x * x) % 7 == 2 || (x * x) % 7 == 4
  {
    SquareMod(x, 7);
    SmallSquareSeven(x % 7);
  }

  lemma SmallSquareSeven(r: int)
    requires 0 <= r < 7
    ensures (r * r) % 7 == 0 || (r * r) % 7 == 1 || (r * r) % 7 == 2 || (r * r) % 7 == 4
  {
    assert r == 0 || r == 1 || r == 2 || r == 3 || r == 4 || r == 5 || r == 6;
  }

  lemma SquareModEight(x: int)
    ensures if x % 2 == 0 then (x * x) % 8 == 0 || (x * x) % 8 == 4 else (x * x) % 8 == 1
  {
    SquareMod(x, 8);
    SmallSquareEight(x % 8);
    assert x % 8 % 2 == x % 2;
  }

  lemma SmallSquareEight(r: int)
    requires 0 <= r < 8
    ensures if r % 2 == 0 then (r * r) % 8 == 0 || (r * r) % 8 == 4 else (r * r) % 8 == 1
  {
    assert r == 0 || r == 1 || r == 2 || r == 3 || r == 4 || r == 5 || r == 6 || r == 7;
  }

  lemma {:induction false} SevenIsNoSquare(x: nat, y: nat)
    requires x * x == 7 * (y * y)
    ensures y == 0
    decreases y
  {
    if y > 0 {
      SquareModEight(x);
      SquareModEight(y);
      var x', y' := x / 2, y / 2;
      assert x == 2 * x' && y == 2 * y';
      assert x * x == 4 * (x' * x') && y * y == 4 * (y' * y');
      SevenIsNoSquare(x', y');
    }
  }

  /** What p = -1 modulo 7 and p = 1 modulo 8 leave of 7Y - X = kp for squares X and Y. */
  lemma Residues(X: int, Y: int, k: int, p: int, a: int, b: int)
    requires p == 7 * a - 1 && p == 8 * b + 1 && 0 < k < 7 && 7 * Y - X == k * p
    requires X % 7 == 0 || X % 7 == 1 || X % 7 == 2 || X % 7 == 4
    requires (X % 8 == 0 || X % 8 == 1 || X % 8 == 4) && (Y % 8 == 0 || Y % 8 == 1 || Y % 8 == 4)
    ensures k == 4 && X % 8 != 1 && Y % 8 != 1
  {
    assert k == 1 || k == 2 || k == 3 || k == 4 || k == 5 || k == 6;
  }

  lemma PResidues(x: int, y: int, k: int)
    requires 0 < k < 7 && 7 * (y * y) - x * x == k * P
    ensures k == 4 && x % 2 == 0 && y % 2 == 0
  {
    SquareModSeven(x);
    SquareModEight(x);
    SquareModEight(y);
    Residues(x * x, y * y, k, P, 2635249152773512046, 2305843008676823040);
  }

  lemma Halved(x: int, y: int)
    requires x % 2 == 0 && y % 2 == 0
    ensures x * x == 4 * (x / 2 * (x / 2)) && y * y == 4 * (y / 2 * (y / 2))
  {
    assert x == 2 * (x / 2) && y == 2 * (y / 2);
  }

  /** No small multiple of P is of the form 7y^2 - x^2. */
  lemma NoSmallMultiple(x: nat, y: nat, k: int)
    requires 0 <= k < 7 && y > 0
    ensures 7 * (y * y) - x * x != k * P
  {
    if 7 * (y * y) - x * x == k * P {
      if k == 0 {
        SevenIsNoSquare(x, y);
      } else {
        PResidues(x, y, k);
        Halved(x, y);
        PResidues(x / 2, y / 2, 1);
      }
    }
  }

  lemma CongruenceStep(a: int, b: int, u: int, v: int, e: int, s: int, q: int)
    requires Zero(a + e * u * s) && Zero(b - e * v * s)
    ensures Zero(a - q * b - -e * (u + q * v) * s) && Zero(b + -e * v * s)
  {
    Rewrite(a + e * u * s, b - e * v * s, -q);
    assert a + e * u * s + (b - e * v * s) * -q == a - q * b - -e * (u + q * v) * s by {
      assert e * (u + q * v) * s == e * u * s + e * v * s * q;
    }
  }

  lemma EuclidStep(a: int, b: int, u: int, v: int, q: int, r: int, p: int)
    requires a == q * b + r && a * v + b * u == p
    ensures b * (u + q * v) + r * v == p
  {
    assert b * (u + q * v) + r * v == b * u + (q * b + r) * v;
  }

  lemma NonPositive(q: int, b: int)
    requires q <= 0 <= b
    ensures q * b <= 0
  {
  }

  lemma PositiveQuotient(a: nat, b: nat, q: int, r: int, u: nat, v: nat)
    requires a > b > r >= 0 && a == q * b + r && v >= 1
    ensures u + q * v >= 1
  {
    if q <= 0 {
      NonPositive(q, b);
    }
    assert q * v >= 1;
  }

  /** Euclid's algorithm, stopped at the square root: two small numbers whose quotient is a given one. */
  lemma {:induction false} SmallQuotient(a: nat, b: nat, u: nat, v: nat, e: int, s: int) returns (x: nat, y: nat, f: int)
    requires a > b && a >= ROOT && v >= 1 && a * v + b * u == P && (e == 1 || e == -1)
    requires Zero(a + e * u * s) && Zero(b - e * v * s)
    ensures x < ROOT && 1 <= y < ROOT && (f == 1 || f == -1) && Zero(x - f * y * s)
    decreases b
  {
    if b < ROOT {
      x, y, f := b, v, e;
      SmallFactor(a, v, b * u);
    } else {
      var q, r := a / b, a % b;
      assert a == q * b + r;
      CongruenceStep(a, b, u, v, e, s, q);
      EuclidStep(a, b, u, v, q, r, P);
      PositiveQuotient(a, b, q, r, u, v);
      x, y, f := SmallQuotient(b, r, v, u + q * v, -e, s);
    }
  }

  lemma ProductBound(a: int, v: int, m: int)
    requires a >= m >= 0 && v >= m
    ensures a * v >= m * m
  {
    assert a * v >= m * v >= m * m;
  }

  lemma SmallFactor(a: nat, v: nat, w: nat)
    requires a >= ROOT && a * v + w == P
    ensures v < ROOT
  {
    if v >= ROOT {
      ProductBound(a, v, ROOT);
    }
  }

  lemma SquaresAgree(x: int, y: int, f: int, s: int)
    requires (f == 1 || f == -1) && Zero(x - f * y * s) && Zero(s * s - 7)
    ensures Zero(x * x - 7 * (y * y))
  {
    var z := f * y * s;
    Rewrite(0, x - z, x + z);
    assert (x - z) * (x + z) == x * x - z * z;
    assert z * z == y * y * (s * s) by { assert f * f == 1; assert z * z == f * f * (y * y) * (s * s); }
    Rewrite(x * x - z * z, s * s - 7, y * y);
    assert x * x - z * z + (s * s - 7) * (y * y) == x * x - 7 * (y * y);
  }

  lemma MultipleOf(e: int) returns (k: int)
    requires Zero(e)
    ensures e == k * P
  {
    k := e / P;
  }

  lemma SquareBound(x: nat)
    requires x < ROOT
    ensures x * x < P
  {
    ProductBound(ROOT - 1, ROOT - 1, x);
  }

  lemma MultipleRange(m: int, X: int, Y: int)
    requires X - 7 * Y == m * P && 0 <= X < P && 0 <= Y < P
    ensures -7 < m <= 0
  {
  }

  lemma NoSmallRoot(x: nat, y: nat)
    requires x < ROOT && 1 <= y < ROOT
    ensures !Zero(x * x - 7 * (y * y))
  {
    if Zero(x * x - 7 * (y * y)) {
      var m := MultipleOf(x * x - 7 * (y * y));
      SquareBound(x);
      SquareBound(y);
      MultipleRange(m, x * x, y * y);
      NoSmallMultiple(x, y, -m);
    }
  }

  /** No field element squares to 7. */
  lemma NonResidue(s: Felt)
    ensures !Zero(s * s - 7)
  {
    if Zero(s * s - 7) {
      var x, y, f := SmallQuotient(P, s, 0, 1, 1, s);
      SquaresAgree(x, y, f, s);
      NoSmallRoot(x, y);
    }
  }

  /** The norm vanishes at zero only. */
  lemma NormIsZero(a: Felt, b: Felt)
    ensures Zero(a * a - 7 * (b * b)) <==> a == 0 && b == 0
  {
    if Zero(a * a - 7 * (b * b)) {
      if b == 0 {
        ZeroProduct(a, a);
      } else {
        SquareOfQuotient(a, b, Inverse(b));
        NonResidue((a * Inverse(b)) % P);
      }
    }
  }

  lemma SquareOfQuotient(a: int, b: int, i: int)
    requires Zero(a * a - 7 * (b * b)) && Zero(b * i - 1)
    ensures Zero((a * i) % P * ((a * i) % P) - 7)
  {
    var s := (a * i) % P;
    ModZero(a * i);
    Rewrite(0, s - a * i, s + a * i);
    assert (s - a * i) * (s + a * i) == s * s - a * i * (a * i);
    Rewrite(0, a * a - 7 * (b * b), i * i);
    assert (a * a - 7 * (b * b)) * (i * i) == a * i * (a * i) - 7 * (b * i * (b * i));
    Rewrite(0, b * i - 1, 7 * (b * i + 1));
    assert (b * i - 1) * (7 * (b * i + 1)) == 7 * (b * i * (b * i)) - 7;
    Rewrite(s * s - a * i * (a * i), a * i * (a * i) - 7 * (b * i * (b * i)), 1);
    Rewrite(s * s - 7 * (b * i * (b * i)), 7 * (b * i * (b * i)) - 7, 1);
  }

  // The field
  // ----------------------------------------------------------------------------

  const ZERO: Quad := Quad(0, 0)
  const ONE: Quad := Quad(1, 0)

  function AddQuads(x: Quad, y: Quad): Quad { AsQuad(E.Add(OfQuad(x), OfQuad(y))) }
  function NegQuad(x: Quad): Quad { AsQuad(E.Scale(OfQuad(x), -1)) }
  function MulQuads(x: Quad, y: Quad): Quad { AsQuad(E.Mul(OfQuad(x), OfQuad(y))) }

  function NormOf(a: int, b: int): int { a * a - 7 * (b * b) }

  function Norm(x: Quad): Felt { NormOf(x.c0, x.c1) % P }

  /** a - bu, times i */
  function Conjugate(a: int, b: int, i: int): E.Ext { E.Ext(a * i, -b * i) }

  /** The conjugate over the norm. */
  function InvQuad(x: Quad): Quad { AsQuad(Conjugate(x.c0, x.c1, InverseOrZero(Norm(x)))) }

  function Quads(): Field<Quad> {
    Field<Quad>.Field(ZERO, ONE, AddQuads, NegQuad, MulQuads, InvQuad)
  }

  lemma SameQuad(x: E.Ext, y: E.Ext)
    requires E.Cong(x, y)
    ensures AsQuad(x) == AsQuad(y)
  {
    FeltField.SameFelt(x.c0, y.c0);
    FeltField.SameFelt(x.c1, y.c1);
  }

  lemma RoundTrip(x: Quad)
    ensures AsQuad(OfQuad(x)) == x
  {
  }

  /** Reducing a factor or a summand first changes nothing. */
  lemma ReduceFirst(x: E.Ext, y: E.Ext)
    ensures AsQuad(E.Add(OfQuad(AsQuad(x)), y)) == AsQuad(E.Add(x, y))
    ensures AsQuad(E.Mul(OfQuad(AsQuad(x)), y)) == AsQuad(E.Mul(x, y))
  {
    E.ReduceCong(x);
    ReflCong(y);
    E.AddCong(E.Reduce(x), x, y, y);
    SameQuad(E.Add(E.Reduce(x), y), E.Add(x, y));
    E.MulCong(E.Reduce(x), x, y);
    SameQuad(E.Mul(E.Reduce(x), y), E.Mul(x, y));
  }

  lemma ReflCong(x: E.Ext)
    ensures E.Cong(x, x)
  {
  }

  lemma AddComm(x: E.Ext, y: E.Ext)
    ensures E.Add(x, y) == E.Add(y, x)
  {
  }

  lemma AssocAdd(f: Field<Quad>, a: Quad, b: Quad, c: Quad)
    requires f == Quads()
    ensures f.AddAssoc(a, b, c)
  {
    var x, y, z := OfQuad(a), OfQuad(b), OfQuad(c);
    ReduceFirst(E.Add(x, y), z);
    ReduceFirst(E.Add(y, z), x);
    AddComm(x, OfQuad(AsQuad(E.Add(y, z))));
    AddComm(x, E.Add(y, z));
    assert E.Add(E.Add(x, y), z) == E.Add(x, E.Add(y, z));
  }

  lemma AssocMul(f: Field<Quad>, a: Quad, b: Quad, c: Quad)
    requires f == Quads()
    ensures f.MulAssoc(a, b, c)
  {
    var x, y, z := OfQuad(a), OfQuad(b), OfQuad(c);
    ReduceFirst(E.Mul(x, y), z);
    ReduceFirst(E.Mul(y, z), x);
    E.MulComm(x, OfQuad(AsQuad(E.Mul(y, z))));
    E.MulComm(x, E.Mul(y, z));
    E.MulAssoc(x, y, z);
  }

  lemma DistribQuad(f: Field<Quad>, a: Quad, b: Quad, c: Quad)
    requires f == Quads()
    ensures f.Distrib(a, b, c)
  {
    var x, y, z := OfQuad(a), OfQuad(b), OfQuad(c);
    var u, v := E.Mul(x, z), E.Mul(y, z);
    ReduceFirst(E.Add(x, y), z);
    E.MulDistrib(x, y, z);
    ReduceFirst(u, OfQuad(AsQuad(v)));
    AddComm(u, OfQuad(AsQuad(v)));
    ReduceFirst(v, u);
    AddComm(v, u);
  }

  lemma UnitLaws(f: Field<Quad>, a: Quad)
    requires f == Quads()
    ensures f.AddZero(a) && f.AddNeg(a) && f.MulOne(a)
  {
    var x := OfQuad(a);
    RoundTrip(a);
    assert E.Add(x, OfQuad(ZERO)) == x && E.Mul(x, OfQuad(ONE)) == x;
    var n := E.Scale(x, -1);
    ReduceFirst(n, x);
    AddComm(x, OfQuad(AsQuad(n)));
    assert E.Add(n, x) == OfQuad(ZERO);
  }

  lemma InverseOfNorm(a: int, b: int, i: int)
    requires Zero(NormOf(a, b) % P * i - 1)
    ensures E.Cong(E.Mul(Conjugate(a, b, i), E.Ext(a, b)), E.Ext(1, 0))
  {
    var n := NormOf(a, b);
    ModZero(n);
    Rewrite(n % P * i - 1, n - n % P, i);
    assert n % P * i - 1 + (n - n % P) * i == n * i - 1;
    ConjugateProduct(a, b, i);
  }

  lemma ConjugateProduct(a: int, b: int, i: int)
    ensures E.Mul(Conjugate(a, b, i), E.Ext(a, b)) == E.Ext(NormOf(a, b) * i, 0)
  {
  }

  lemma NonzeroNorm(a: Quad)
    requires a != ZERO
    ensures Norm(a) != 0
  {
    NormIsZero(a.c0, a.c1);
  }

  lemma InverseLaw(f: Field<Quad>, a: Quad)
    requires f == Quads()
    ensures f.MulInv(a)
  {
    if a != ZERO {
      NonzeroNorm(a);
      var i := Inverse(Norm(a));
      var x, y := OfQuad(a), Conjugate(a.c0, a.c1, i);
      InverseOfNorm(a.c0, a.c1, i);
      ReduceFirst(y, x);
      E.MulComm(x, OfQuad(AsQuad(y)));
      SameQuad(E.Mul(y, x), OfQuad(ONE));
      RoundTrip(ONE);
    }
  }

  lemma Adds(f: Field<Quad>)
    requires f == Quads()
    ensures f.AddLaws()
  {
    forall a: Quad, b: Quad, c: Quad
      ensures f.AddAssoc(a, b, c)
    {
      AssocAdd(f, a, b, c);
    }
    forall a: Quad, b: Quad
      ensures f.AddComm(a, b)
    {
      AddComm(OfQuad(a), OfQuad(b));
    }
    forall a: Quad
      ensures f.AddZero(a) && f.AddNeg(a)
    {
      UnitLaws(f, a);
    }
  }

  lemma Muls(f: Field<Quad>)
    requires f == Quads()
    ensures f.MulLaws()
  {
    forall a: Quad, b: Quad, c: Quad
      ensures f.MulAssoc(a, b, c)
    {
      AssocMul(f, a, b, c);
    }
    forall a: Quad, b: Quad
      ensures f.MulComm(a, b)
    {
      E.MulComm(OfQuad(a), OfQuad(b));
    }
    forall a: Quad
      ensures f.MulOne(a) && f.MulInv(a)
    {
      UnitLaws(f, a);
      InverseLaw(f, a);
    }
  }

  /** The extension meets every law of a field. */
  lemma QuadsAreAField()
    ensures Quads().Laws()
  {
    var f := Quads();
    Adds(f);
    Muls(f);
    forall a: Quad, b: Quad, c: Quad
      ensures f.Distrib(a, b, c)
    {
      DistribQuad(f, a, b, c);
    }
  }
}
