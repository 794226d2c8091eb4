/** Arithmetic in the ring of integer pairs a + b*u with u*u = 7. Reducing both coefficients
    modulo P gives the quadratic extension that the Horner and FRI operations work in. */
module ExtField {
  import opened Goldilocks

  const W: int := 7

  datatype Ext = Ext(c0: int, c1: int)

  const ZERO: Ext := Ext(0, 0)
  const ONE: Ext := Ext(1, 0)

  function Base(x: int): Ext { Ext(x, 0) }
  function Add(x: Ext, y: Ext): Ext { Ext(x.c0 + y.c0, x.c1 + y.c1) }
  function Sub(x: Ext, y: Ext): Ext { Ext(x.c0 - y.c0, x.c1 - y.c1) }
  function Scale(x: Ext, k: int): Ext { Ext(x.c0 * k, x.c1 * k) }
  function Mul(x: Ext, y: Ext): Ext { Ext(x.c0 * y.c0 + W * (x.c1 * y.c1), x.c0 * y.c1 + x.c1 * y.c0) }

  function Square(x: Ext): (r: Ext)
    ensures r == Mul(x, x)
  {
    Ext(x.c0 * x.c0 + W * (x.c1 * x.c1), x.c0 * x.c1 + x.c0 * x.c1)
  }

  /** Equality in the quotient by P. */
  ghost predicate Cong(x: Ext, y: Ext) {
    Zero(x.c0 - y.c0) && Zero(x.c1 - y.c1)
  }

  /** Both coefficients of a gated extension constraint vanish. */
  ghost predicate GatedZero(flag: int, x: Ext) {
    Zero(flag * x.c0) && Zero(flag * x.c1)
  }

  lemma GateOne(flag: int, x: Ext, y: Ext)
    requires flag == 0 || (flag == 1 && Cong(x, y))
    ensures GatedZero(flag, Sub(x, y))
  {
  }

  // Ring laws
  // ----------------------------------------------------------------------------

  lemma MulComm(x: Ext, y: Ext)
    ensures Mul(x, y) == Mul(y, x)
  {
  }

  lemma MulAssoc(x: Ext, y: Ext, z: Ext)
    ensures Mul(Mul(x, y), z) == Mul(x, Mul(y, z))
  {
    AssocTerms(x.c0, x.c1, y.c0, y.c1, z.c0, z.c1);
  }

  lemma AssocTerms(a: int, b: int, c: int, d: int, e: int, f: int)
    ensures (a * c + W * (b * d)) * e + W * ((a * d + b * c) * f) == a * (c * e + W * (d * f)) + W * (b * (c * f + d * e))
    ensures (a * c + W * (b * d)) * f + (a * d + b * c) * e == a * (c * f + d * e) + b * (c * e + W * (d * f))
  {
  }

  lemma MulDistrib(x: Ext, y: Ext, z: Ext)
    ensures Mul(Add(x, y), z) == Add(Mul(x, z), Mul(y, z))
  {
  }

  // Congruence
  // ----------------------------------------------------------------------------

  lemma CongTrans(x: Ext, y: Ext, z: Ext)
    requires Cong(x, y) && Cong(y, z)
    ensures Cong(x, z)
  {
    Rewrite(x.c0 - y.c0, y.c0 - z.c0, 1);
    Rewrite(x.c1 - y.c1, y.c1 - z.c1, 1);
  }

  lemma CongSym(x: Ext, y: Ext)
    requires Cong(x, y)
    ensures Cong(y, x)
  {
    Rewrite(0, x.c0 - y.c0, -1);
    Rewrite(0, x.c1 - y.c1, -1);
  }

  lemma AddCong(x: Ext, x': Ext, y: Ext, y': Ext)
    requires Cong(x, x') && Cong(y, y')
    ensures Cong(Add(x, y), Add(x', y'))
  {
    Rewrite(x.c0 - x'.c0, y.c0 - y'.c0, 1);
    Rewrite(x.c1 - x'.c1, y.c1 - y'.c1, 1);
  }

  lemma MulCong(x: Ext, x': Ext, y: Ext)
    requires Cong(x, x')
    ensures Cong(Mul(x, y), Mul(x', y))
  {
    var d0, d1 := x.c0 - x'.c0, x.c1 - x'.c1;
    CombineZero(d0, y.c0, d1, W * y.c1);
    CombineZero(d0, y.c1, d1, y.c0);
    MulDiff(x.c0, x.c1, x'.c0, x'.c1, y.c0, y.c1);
  }

  lemma CombineZero(a: int, k: int, b: int, l: int)
    requires Zero(a) && Zero(b)
    ensures Zero(a * k + b * l)
  {
    Rewrite(0, a, k);
    Rewrite(a * k, b, l);
  }

  lemma MulDiff(a: int, b: int, a': int, b': int, c: int, d: int)
    ensures (a - a') * c + (b - b') * (W * d) == (a * c + W * (b * d)) - (a' * c + W * (b' * d))
    ensures (a - a') * d + (b - b') * c == (a * d + b * c) - (a' * d + b' * c)
  {
  }

  lemma SubCong(x: Ext, x': Ext, y: Ext, y': Ext)
    requires Cong(x, x') && Cong(y, y')
    ensures Cong(Sub(x, y), Sub(x', y'))
  {
    Rewrite(x.c0 - x'.c0, y.c0 - y'.c0, -1);
    Rewrite(x.c1 - x'.c1, y.c1 - y'.c1, -1);
  }

  lemma ScaleCong(x: Ext, x': Ext, k: int)
    requires Cong(x, x')
    ensures Cong(Scale(x, k), Scale(x', k))
  {
    Rewrite(0, x.c0 - x'.c0, k);
    Rewrite(0, x.c1 - x'.c1, k);
    assert (x.c0 - x'.c0) * k == x.c0 * k - x'.c0 * k && (x.c1 - x'.c1) * k == x.c1 * k - x'.c1 * k;
  }

  lemma ScalarCong(x: Ext, k: int, k': int)
    requires Zero(k - k')
    ensures Cong(Scale(x, k), Scale(x, k'))
  {
    Rewrite(0, k - k', x.c0);
    Rewrite(0, k - k', x.c1);
    assert (k - k') * x.c0 == x.c0 * k - x.c0 * k' && (k - k') * x.c1 == x.c1 * k - x.c1 * k';
  }

  lemma HalveCong(x: Ext, y: Ext)
    requires Cong(Scale(x, 2), Scale(y, 2))
    ensures Cong(x, y)
  {
    HalveZero(x.c0 - y.c0);
    HalveZero(x.c1 - y.c1);
  }

  lemma HalveZero(e: int)
    requires Zero(2 * e)
    ensures Zero(e)
  {
    if Zero(2) {
      ZeroIsSmall(2);
    }
    Ungate(2, e);
  }

  // Canonical representatives
  // ----------------------------------------------------------------------------

  function Reduce(x: Ext): Ext { Ext(x.c0 % P, x.c1 % P) }

  lemma ReduceCong(x: Ext)
    ensures Cong(Reduce(x), x)
  {
    ModZero(x.c0);
    ModZero(x.c1);
  }
}
