/** The base field of the virtual machine: integers modulo P = 2^64 - 2^32 + 1.
    A trace cell is a canonical residue. A constraint is an integer polynomial in
    the cells; the evaluator accepts it exactly when it is a multiple of P. */
module Goldilocks {

  const P: int := 0xFFFF_FFFF_0000_0001

  type Felt = x: int | 0 <= x < P witness 0

  function AsBit(b: bool): int {
    if b then 1 else 0
  }

  predicate Canonical(r: seq<int>) {
    forall i | 0 <= i < |r| :: 0 <= r[i] < P
  }

  /** What `assert_zero` demands of an evaluated constraint. */
  predicate Zero(e: int) {
    e % P == 0
  }

  lemma ZeroSum(a: int, b: int)
    requires Zero(a) && Zero(b)
    ensures Zero(a + b)
  {
  }

  // Divisibility by an arbitrary positive number
  // ----------------------------------------------------------------------------

  predicate Div(r: int, e: int)
    requires r > 0
  {
    e % r == 0
  }

  lemma DivElim(r: int, e: int) returns (k: int)
    requires r > 0 && Div(r, e)
    ensures e == k * r
  {
    k := e / r;
  }

  lemma DivIntro(r: int, e: int, k: int)
    requires r > 0 && e == k * r
    ensures Div(r, e)
  {
    assert e % r == r * (k - e / r);
    SmallMultiple(r, k - e / r);
  }

  lemma SmallMultiple(r: int, t: int)
    requires -r < r * t < r
    ensures t == 0
  {
  }

  /** Divisibility survives integer combination. */
  lemma DivCombine(r: int, a: int, x: int, b: int, y: int)
    requires r > 0 && Div(r, a) && Div(r, b)
    ensures Div(r, a * x + b * y)
  {
    var i := DivElim(r, a);
    var j := DivElim(r, b);
    assert a * x + b * y == (i * x + j * y) * r;
    DivIntro(r, a * x + b * y, i * x + j * y);
  }

  // Powers
  // ----------------------------------------------------------------------------

  function Pow(x: int, n: nat): int {
    if n == 0 then 1 else x * Pow(x, n - 1)
  }

  lemma {:induction false} PowAdd(x: int, a: nat, b: nat)
    ensures Pow(x, a + b) == Pow(x, a) * Pow(x, b)
  {
    if a > 0 {
      PowAdd(x, a - 1, b);
      assert Pow(x, a + b) == x * Pow(x, a - 1 + b);
    }
  }

  lemma {:induction false} PowMul(x: int, a: nat, b: nat)
    ensures Pow(Pow(x, a), b) == Pow(x, a * b)
  {
    if b > 0 {
      PowMul(x, a, b - 1);
      PowAdd(x, a, a * (b - 1));
      assert a + a * (b - 1) == a * b;
    }
  }

  lemma {:induction false} PowOfOne(n: nat)
    ensures Pow(1, n) == 1
  {
    if n > 0 { PowOfOne(n - 1); }
  }

  lemma {:induction false} PowOfMinusOne(n: nat)
    ensures Pow(-1, n) == if n % 2 == 0 then 1 else -1
  {
    if n > 0 { PowOfMinusOne(n - 1); }
  }

  lemma {:induction false} PowCongruent(r: int, a: int, b: int, n: nat)
    requires r > 0 && Div(r, a - b)
    ensures Div(r, Pow(a, n) - Pow(b, n))
  {
    if n > 0 {
      PowCongruent(r, a, b, n - 1);
      DivCombine(r, a - b, Pow(a, n - 1), Pow(a, n - 1) - Pow(b, n - 1), b);
      assert Pow(a, n) - Pow(b, n) == (a - b) * Pow(a, n - 1) + (Pow(a, n - 1) - Pow(b, n - 1)) * b;
    }
  }

  // P is prime
  // ----------------------------------------------------------------------------
  // ROOT generates the subgroup of order 2^32: its 2^31-st power is -1. Modulo any
  // divisor r >= 2 of P its first 2^32 powers stay distinct and nonzero, so r > 2^32,
  // and two such factors would exceed P.

  const ROOT: int := 1753635133440165772

  function Pow2(n: nat): (r: nat)
    ensures r >= 1
  {
    if n == 0 then 1 else 2 * Pow2(n - 1)
  }

  function ShiftRight(n: nat, k: nat): nat {
    if k == 0 then n else ShiftRight(n / 2, k - 1)
  }

  lemma {:induction false} Pow2Add(a: nat, b: nat)
    ensures Pow2(a + b) == Pow2(a) * Pow2(b)
  {
    if a > 0 { Pow2Add(a - 1, b); }
  }

  lemma {:induction false} Pow2Monotone(m: nat, n: nat)
    requires m <= n
    ensures Pow2(m) <= Pow2(n)
  {
    if m < n { Pow2Monotone(m, n - 1); }
  }

  lemma Pow2Values()
    ensures Pow2(16) == 0x1_0000 && Pow2(31) == 0x8000_0000 && Pow2(32) == 0x1_0000_0000
    ensures Pow2(63) == 0x8000_0000_0000_0000 && Pow2(64) == 0x1_0000_0000_0000_0000
  {
    assert Pow2(4) == 16;
    Pow2Add(4, 4);
    Pow2Add(8, 8);
    Pow2Add(16, 15);
    Pow2Add(16, 16);
    Pow2Add(32, 31);
    Pow2Add(32, 32);
    assert Pow2(15) == Pow2(8) * Pow2(7) by { Pow2Add(8, 7); }
    assert Pow2(7) == 128;
  }

  function RepeatedSquare(x: int, n: nat): int
    decreases n
  {
    if n == 0 then x else RepeatedSquare(x * x % P, n - 1)
  }

  lemma {:induction false} RepeatedSquareIsPower(x: int, n: nat)
    ensures Zero(Pow(x, Pow2(n)) - RepeatedSquare(x, n))
    decreases n
  {
    if n == 0 {
      assert Pow(x, 1) == x;
    } else {
      var y := x * x % P;
      RepeatedSquareIsPower(y, n - 1);
      var h := Pow2(n - 1);
      assert Pow(Pow(x, 2), h) == Pow(x, Pow2(n)) by { PowMul(x, 2, h); }
      assert Pow(x, 2) == x * x by { assert Pow(x, 1) == x; }
      assert Zero(Pow(x * x, h) - Pow(y, h)) by {
        assert Div(P, x * x - y);
        PowCongruent(P, x * x, y, h);
      }
      assert RepeatedSquare(x, n) == RepeatedSquare(y, n - 1);
      ZeroSum(Pow(x * x, h) - Pow(y, h), Pow(y, h) - RepeatedSquare(y, n - 1));
    }
  }

  lemma SquareOnce(x: int, y: int, n: nat)
    requires x * x % P == y
    ensures RepeatedSquare(x, n + 1) == RepeatedSquare(y, n)
  {
  }

  lemma RootSquares0()
    ensures RepeatedSquare(1753635133440165772, 31) == RepeatedSquare(9713644485405565297, 23)
  {
    assert 1753635133440165772 * 1753635133440165772 % P == 4614640910117430873;
    SquareOnce(1753635133440165772, 4614640910117430873, 30);
    assert 4614640910117430873 * 4614640910117430873 % P == 9123114210336311365;
    SquareOnce(4614640910117430873, 9123114210336311365, 29);
    assert 9123114210336311365 * 9123114210336311365 % P == 16116352524544190054;
    SquareOnce(9123114210336311365, 16116352524544190054, 28);
    assert 16116352524544190054 * 16116352524544190054 % P == 6414415596519834757;
    SquareOnce(16116352524544190054, 6414415596519834757, 27);
    assert 6414415596519834757 * 6414415596519834757 % P == 1213594585890690845;
    SquareOnce(6414415596519834757, 1213594585890690845, 26);
    assert 1213594585890690845 * 1213594585890690845 % P == 17096174751763063430;
    SquareOnce(1213594585890690845, 17096174751763063430, 25);
    assert 17096174751763063430 * 17096174751763063430 % P == 5456943929260765144;
    SquareOnce(17096174751763063430, 5456943929260765144, 24);
    assert 5456943929260765144 * 5456943929260765144 % P == 9713644485405565297;
    SquareOnce(5456943929260765144, 9713644485405565297, 23);
  }

  lemma RootSquares1()
    ensures RepeatedSquare(9713644485405565297, 23) == RepeatedSquare(6115771955107415310, 15)
  {
    assert 9713644485405565297 * 9713644485405565297 % P == 16905767614792059275;
    SquareOnce(9713644485405565297, 16905767614792059275, 22);
    assert 16905767614792059275 * 16905767614792059275 % P == 5416168637041100469;
    SquareOnce(16905767614792059275, 5416168637041100469, 21);
    assert 5416168637041100469 * 5416168637041100469 % P == 17654865857378133588;
    SquareOnce(5416168637041100469, 17654865857378133588, 20);
    assert 17654865857378133588 * 17654865857378133588 % P == 3511170319078647661;
    SquareOnce(17654865857378133588, 3511170319078647661, 19);
    assert 3511170319078647661 * 3511170319078647661 % P == 18146160046829613826;
    SquareOnce(3511170319078647661, 18146160046829613826, 18);
    assert 18146160046829613826 * 18146160046829613826 % P == 9306717745644682924;
    SquareOnce(18146160046829613826, 9306717745644682924, 17);
    assert 9306717745644682924 * 9306717745644682924 % P == 12380578893860276750;
    SquareOnce(9306717745644682924, 12380578893860276750, 16);
    assert 12380578893860276750 * 12380578893860276750 % P == 6115771955107415310;
    SquareOnce(12380578893860276750, 6115771955107415310, 15);
  }

  lemma RootSquares2()
    ensures RepeatedSquare(6115771955107415310, 15) == RepeatedSquare(13797081185216407910, 7)
  {
    assert 6115771955107415310 * 6115771955107415310 % P == 17776499369601055404;
    SquareOnce(6115771955107415310, 17776499369601055404, 14);
    assert 17776499369601055404 * 17776499369601055404 % P == 16207902636198568418;
    SquareOnce(17776499369601055404, 16207902636198568418, 13);
    assert 16207902636198568418 * 16207902636198568418 % P == 1532612707718625687;
    SquareOnce(16207902636198568418, 1532612707718625687, 12);
    assert 1532612707718625687 * 1532612707718625687 % P == 17492915097719143606;
    SquareOnce(1532612707718625687, 17492915097719143606, 11);
    assert 17492915097719143606 * 17492915097719143606 % P == 455906449640507599;
    SquareOnce(17492915097719143606, 455906449640507599, 10);
    assert 455906449640507599 * 455906449640507599 % P == 11353340290879379826;
    SquareOnce(455906449640507599, 11353340290879379826, 9);
    assert 11353340290879379826 * 11353340290879379826 % P == 1803076106186727246;
    SquareOnce(11353340290879379826, 1803076106186727246, 8);
    assert 1803076106186727246 * 1803076106186727246 % P == 13797081185216407910;
    SquareOnce(1803076106186727246, 13797081185216407910, 7);
  }

  lemma RootSquares3()
    ensures RepeatedSquare(13797081185216407910, 7) == RepeatedSquare(18446744069414584320, 0)
  {
    assert 13797081185216407910 * 13797081185216407910 % P == 17870292113338400769;
    SquareOnce(13797081185216407910, 17870292113338400769, 6);
    assert 17870292113338400769 * 17870292113338400769 % P == 549755813888;
    SquareOnce(17870292113338400769, 549755813888, 5);
    assert 549755813888 * 549755813888 % P == 70368744161280;
    SquareOnce(549755813888, 70368744161280, 4);
    assert 70368744161280 * 70368744161280 % P == 17293822564807737345;
    SquareOnce(70368744161280, 17293822564807737345, 3);
    assert 17293822564807737345 * 17293822564807737345 % P == 18446744069397807105;
    SquareOnce(17293822564807737345, 18446744069397807105, 2);
    assert 18446744069397807105 * 18446744069397807105 % P == 281474976710656;
    SquareOnce(18446744069397807105, 281474976710656, 1);
    assert 281474976710656 * 281474976710656 % P == 18446744069414584320;
    SquareOnce(281474976710656, 18446744069414584320, 0);
  }

  lemma RootSquaresToMinusOne()
    ensures RepeatedSquare(ROOT, 31) == P - 1
  {
    RootSquares0();
    RootSquares1();
    RootSquares2();
    RootSquares3();
  }

  lemma RootRepeatedSquare() returns (g: int, e: nat)
    ensures RepeatedSquare(g, e) == P - 1 && Pow2(e + 1) == 0x1_0000_0000
  {
    g, e := ROOT, 31;
    RootSquaresToMinusOne();
    Pow2Values();
  }

  /** A generator of the subgroup of order 2^(e+1) = 2^32. */
  lemma GeneratorExists() returns (g: int, e: nat)
    ensures Zero(Pow(g, Pow2(e)) + 1)
    ensures Pow2(e + 1) == 0x1_0000_0000
  {
    g, e := RootRepeatedSquare();
    RepeatedSquareIsPower(g, e);
  }

  /** If y^(2^e) is -1 modulo an r > 2, no power y^k with 0 < k < 2^(e+1) is 1. */
  lemma {:induction false} NoSmallOrder(r: int, y: int, e: nat, k: nat)
    requires r > 2 && Div(r, Pow(y, Pow2(e)) + 1)
    requires 0 < k < Pow2(e + 1)
    ensures !Div(r, Pow(y, k) - 1)
    decreases e
  {
    var h := Pow2(e);
    if k % 2 == 1 {
      if Div(r, Pow(y, k) - 1) {
        PowCongruent(r, Pow(y, k), 1, h);
        PowCongruent(r, Pow(y, h), -1, k);
        PowOfOne(h);
        PowOfMinusOne(k);
        PowMul(y, k, h);
        PowMul(y, h, k);
        DivCombine(r, Pow(y, h * k) + 1, 1, Pow(y, k * h) - 1, -1);
        assert false;
      }
    } else {
      assert Pow(y, 2) == y * y by { assert Pow(y, 1) == y; }
      PowMul(y, 2, Pow2(e - 1));
      PowMul(y, 2, k / 2);
      NoSmallOrder(r, Pow(y, 2), e - 1, k / 2);
    }
  }

  lemma OrderModDivisor(r: int, g: int, e: nat)
    requires r > 0 && Div(r, P) && Zero(Pow(g, Pow2(e)) + 1)
    ensures Div(r, Pow(g, Pow2(e)) + 1)
    ensures Div(r, Pow(g, Pow2(e + 1)) - 1)
  {
    var h := Pow(g, Pow2(e));
    var k := DivElim(P, h + 1);
    DivCombine(r, P, k, P, 0);
    PowAdd(g, Pow2(e), Pow2(e));
    DivCombine(r, h + 1, h - 1, P, 0);
    assert (h + 1) * (h - 1) == h * h - 1;
  }

  lemma PowersDistinct(r: int, g: int, e: nat, i: nat, j: nat)
    requires r > 2 && Div(r, P) && Zero(Pow(g, Pow2(e)) + 1)
    requires i < j < Pow2(e + 1)
    ensures Pow(g, i) % r != Pow(g, j) % r
  {
    OrderModDivisor(r, g, e);
    NoSmallOrder(r, g, e, j - i);
    var n, a, b := Pow2(e + 1), Pow(g, i), Pow(g, j);
    PowAdd(g, i, j - i);
    PowAdd(g, i, n - i);
    if a % r == b % r {
      CancelUnit(r, a, Pow(g, n - i), Pow(g, j - i));
      assert false;
    }
  }

  lemma CancelUnit(r: int, a: int, c: int, d: int)
    requires r > 0 && Div(r, a * c - 1) && a % r == (a * d) % r
    ensures Div(r, d - 1)
  {
    DivIntro(r, a * d - a, a * d / r - a / r);
    DivCombine(r, a * d - a, c, a * c - 1, 1 - d);
    assert (a * d - a) * c + (a * c - 1) * (1 - d) == d - 1;
  }

  lemma PowersNonzero(r: int, g: int, e: nat, i: nat)
    requires r > 2 && Div(r, P) && Zero(Pow(g, Pow2(e)) + 1)
    requires i < Pow2(e + 1)
    ensures Pow(g, i) % r != 0
  {
    OrderModDivisor(r, g, e);
    var n := Pow2(e + 1);
    PowAdd(g, i, n - i);
    if Pow(g, i) % r == 0 {
      DivCombine(r, Pow(g, i), Pow(g, n - i), Pow(g, n) - 1, -1);
      assert false;
    }
  }

  ghost predicate IsRemainder(r: int, g: int, n: nat, x: int)
    requires r > 0
  {
    exists i: nat :: i < n && x == Pow(g, i) % r
  }

  /** The first n powers of g leave n different nonzero remainders. */
  lemma {:induction false} Remainders(r: int, g: int, e: nat, n: nat) returns (s: set<int>)
    requires r > 2 && Div(r, P) && Zero(Pow(g, Pow2(e)) + 1)
    requires n <= Pow2(e + 1)
    ensures |s| == n
    ensures forall x <- s :: 1 <= x < r && IsRemainder(r, g, n, x)
  {
    if n == 0 {
      s := {};
    } else {
      var t := Remainders(r, g, e, n - 1);
      var y := Pow(g, n - 1) % r;
      PowersNonzero(r, g, e, n - 1);
      if IsRemainder(r, g, n - 1, y) {
        var i: nat :| i < n - 1 && y == Pow(g, i) % r;
        PowersDistinct(r, g, e, i, n - 1);
        assert false;
      }
      s := t + {y};
      forall x <- s
        ensures 1 <= x < r && IsRemainder(r, g, n, x)
      {
        if x == y {
          assert n - 1 < n;
        } else {
          var i: nat :| i < n - 1 && x == Pow(g, i) % r;
        }
      }
    }
  }

  lemma {:induction false} BoundedSetSize(s: set<int>, n: nat)
    requires forall x <- s :: 1 <= x <= n
    ensures |s| <= n
  {
    if n == 0 {
      assert forall x :: x !in s;
    } else {
      BoundedSetSize(s - {n}, n - 1);
    }
  }

  lemma LargeDivisor(r: int, q: int)
    requires r > 2 && r * q == P
    ensures r > 0x1_0000_0000
  {
    assert P == q * r;
    DivIntro(r, P, q);
    var g, e := GeneratorExists();
    var s := Remainders(r, g, e, Pow2(e + 1));
    BoundedSetSize(s, r - 1);
  }

  /** P has no divisor strictly between 1 and itself. */
  lemma PrimeP(r: int, q: int)
    requires r > 1 && q > 1
    ensures r * q != P
  {
    if r * q == P {
      assert r != 2 && q != 2;
      assert q * r == P;
      LargeDivisor(r, q);
      LargeDivisor(q, r);
      ProductExceeds(r, q);
    }
  }

  lemma ProductExceeds(r: int, q: int)
    requires r > 0x1_0000_0000 && q > 0x1_0000_0000
    ensures r * q > P
  {
    assert r * q >= 0x1_0000_0001 * q;
  }

  // The field laws that depend on primality
  // ----------------------------------------------------------------------------

  /** A product is zero in the field only if one of its factors is. */
  lemma ZeroProduct(a: int, b: int)
    requires Zero(a * b)
    ensures Zero(a) || Zero(b)
  {
    if !Zero(a) {
      var i, r := a / P, a % P;
      DivCombine(P, a * b, 1, P, -(i * b));
      assert a * b * 1 + P * -(i * b) == r * b;
      NonzeroCancels(r, b);
    }
  }

  lemma {:induction false} NonzeroCancels(a: int, b: int)
    requires 0 < a < P && Zero(a * b)
    ensures Zero(b)
    decreases a
  {
    if a > 1 {
      var q, r := P / a, P % a;
      assert P == q * a + r;
      if r == 0 {
        PrimeP(q, a);
      } else {
        DivCombine(P, P, b, a * b, -q);
        assert P * b + (a * b) * -q == r * b;
        NonzeroCancels(r, b);
      }
    }
  }

  /** Multiplicative inverse by the extended Euclidean recursion. */
  function Inverse(a: int): (b: Felt)
    requires 0 < a < P
    ensures Zero(a * b - 1)
    decreases a
  {
    if a == 1 then 1 else
      var q, r := P / a, P % a;
      assert P == q * a + r;
      assert r != 0 by { if r == 0 { PrimeP(q, a); } }
      var c := Inverse(r);
      assert Zero(a * ((-q * c) % P) - 1) by {
        InverseStep(a, q, r, c);
        ReducedFactor(a, -q * c);
      }
      (-q * c) % P
  }

  function InverseOrZero(x: Felt): Felt {
    if x == 0 then 0 else Inverse(x)
  }

  lemma InverseStep(a: int, q: int, r: int, c: int)
    requires P == q * a + r && Zero(r * c - 1)
    ensures Zero(a * (-q * c) - 1)
  {
    DivCombine(P, r * c - 1, 1, P, -c);
    assert (r * c - 1) * 1 + P * -c == a * (-q * c) - 1 by {
      assert r * c == P * c - q * a * c;
    }
  }

  lemma ReducedFactor(a: int, y: int)
    requires Zero(a * y - 1)
    ensures Zero(a * (y % P) - 1)
  {
    DivCombine(P, a * y - 1, 1, P, -(a * (y / P)));
    assert a * (y % P) == a * y - P * (a * (y / P));
  }

  // Reading constraints
  // ----------------------------------------------------------------------------

  predicate U16(x: int) { 0 <= x < 0x1_0000 }

  predicate U32(x: int) { 0 <= x < 0x1_0000_0000 }

  predicate Bit(x: int) {
    x == 0 || x == 1
  }

  lemma ZeroIsBit(x: Felt)
    requires Zero(x * (x - 1))
    ensures Bit(x)
  {
    ZeroProduct(x, x - 1);
  }

  /** Quotient and remainder are determined by their equation. */
  lemma ModUnique(x: nat, m: nat, q: nat, r: nat)
    requires m > 0 && x == m * q + r && r < m
    ensures x % m == r && x / m == q
  {
    var q', r' := x / m, x % m;
    assert m * (q' - q) == r - r';
    SmallMultiple(m, q' - q);
  }

  lemma ModZero(a: int)
    ensures Zero(a % P - a) && Zero(a - a % P)
  {
    assert a - a % P == P * (a / P);
    Rewrite(0, a - a % P, -1);
  }

  /** A nonzero gate can be dropped from a gated constraint. */
  lemma Ungate(g: int, e: int)
    requires Zero(g * e) && !Zero(g)
    ensures Zero(e)
  {
    ZeroProduct(g, e);
  }

  /** Adding a multiple of a zero expression changes nothing. */
  lemma Rewrite(a: int, b: int, x: int)
    requires Zero(a) && Zero(b)
    ensures Zero(a + b * x)
  {
    DivCombine(P, a, 1, b, x);
  }

  lemma ZeroIsSmall(e: int)
    requires Zero(e) && -P < e < P
    ensures e == 0
  {
  }

  /** A conditional inverse: c is d times its inverse, which a nonzero d forces to be 1. */
  lemma ForcedOne(c: int, d: int)
    requires -P < d < P && d != 0 && Zero((1 - c) * d)
    ensures Zero(c - 1)
  {
    ZeroProduct(1 - c, d);
    if Zero(d) {
      ZeroIsSmall(d);
    }
    Rewrite(0, 1 - c, -1);
  }
}
