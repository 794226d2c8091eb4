/** The helper registers that the tracer derives for the user-operation helper columns. */
module HelperRegisters {
  import opened Goldilocks
  import opened ExtField

  /** An element of the quadratic extension, by its two base-field coefficients. */
  datatype Quad = Quad(c0: Felt, c1: Felt)

  function AsQuad(x: Ext): Quad { Quad(Reduce(x).c0, Reduce(x).c1) }
  function OfQuad(x: Quad): Ext { Ext(x.c0, x.c1) }

  datatype Registers =
    | Eq(stackSecond: Felt, stackFirst: Felt)
    | U32Split(lo: Felt, hi: Felt)
    | Eqz(top: Felt)
    | Expacc(accUpdateVal: Felt)
    | FriExt2Fold4(ev: Quad, es: Quad, x: Felt, xInv: Felt)
    | U32Add(sum: Felt, carry: Felt)
    | U32Add3(sum: Felt, carry: Felt)
    | U32Sub(secondNew: Felt)
    | U32Mul(lo: Felt, hi: Felt)
    | U32Madd(lo: Felt, hi: Felt)
    | U32Div(quotient: Felt, remainder: Felt, remainderDiff: Felt)
    | U32Assert2(first: Felt, second: Felt)
    | HPerm(addr: Felt)
    | MerklePath(addr: Felt)
    | HornerEvalBase(alpha: Quad, tmp0: Quad, tmp1: Quad)
    | HornerEvalExt(alpha: Quad, accTmp: Quad)
    | LogDeferred(addr: Felt, statePrev: seq<Felt>)
    | Empty

  function Limb0(x: Felt): Felt { x % 0x1_0000 }
  function Limb1(x: Felt): Felt { x / 0x1_0000 % 0x1_0000 }

  /** Four 16-bit limbs of two 32-bit values, low value first. */
  function Limbs(lo: Felt, hi: Felt): seq<Felt> {
    [Limb0(lo), Limb1(lo), Limb0(hi), Limb1(hi)]
  }

  function ToUserOpHelpers(r: Registers): (h: seq<Felt>)
    requires r.LogDeferred? ==> |r.statePrev| == 4
    ensures |h| == 6
  {
    match r
    case Eq(b, a) => [InverseOrZero((a - b) % P), 0, 0, 0, 0, 0]
    case U32Split(lo, hi) => Limbs(lo, hi) + [InverseOrZero((0xFFFF_FFFF - hi) % P), 0]
    case Eqz(top) => [InverseOrZero(top), 0, 0, 0, 0, 0]
    case Expacc(v) => [v, 0, 0, 0, 0, 0]
    case FriExt2Fold4(ev, es, x, xInv) => [ev.c0, ev.c1, es.c0, es.c1, x, xInv]
    case U32Add(sum, carry) => Limbs(sum, carry) + [0, 0]
    case U32Add3(sum, carry) => Limbs(sum, carry) + [0, 0]
    case U32Sub(d) => [Limb0(d), Limb1(d), 0, 0, 0, 0]
    case U32Mul(lo, hi) => Limbs(lo, hi) + [InverseOrZero((0xFFFF_FFFF - hi) % P), 0]
    case U32Madd(lo, hi) => Limbs(lo, hi) + [InverseOrZero((0xFFFF_FFFF - hi) % P), 0]
    case U32Div(q, r, d) => Limbs(q, r) + [Limb0(d), Limb1(d)]
    case U32Assert2(first, second) => Limbs(second, first) + [0, 0]
    case HPerm(addr) => [addr, 0, 0, 0, 0, 0]
    case MerklePath(addr) => [addr, 0, 0, 0, 0, 0]
    case HornerEvalBase(alpha, tmp0, tmp1) => [alpha.c0, alpha.c1, tmp1.c0, tmp1.c1, tmp0.c0, tmp0.c1]
    case HornerEvalExt(alpha, accTmp) => [alpha.c0, alpha.c1, 0, 0, accTmp.c0, accTmp.c1]
    case LogDeferred(addr, s) => [addr, s[0], s[1], s[2], s[3], 0]
    case Empty => [0, 0, 0, 0, 0, 0]
  }
}
