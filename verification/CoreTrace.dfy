/** The core trace: 51 columns (system, decoder, stack, range). */
module CoreTrace {
  import opened Goldilocks

  type Row = r: seq<int> | |r| == 51 && Canonical(r) witness seq(51, _ => 0)

  // System
  function Clk(r: Row): int { r[0] }
  function Ctx(r: Row): int { r[1] }

  function FnHash(r: Row): seq<int> { r[2..6] }

  // Decoder: block address, opcode bits, least significant first, and the two degree-reduction columns
  function Addr(r: Row): int { r[6] }

  function OpBit(r: Row, k: nat): int
    requires k < 7
  {
    r[7 + k]
  }

  function Extra0(r: Row): int { r[28] }
  function Extra1(r: Row): int { r[29] }

  function HasherState(r: Row, k: nat): int
    requires k < 8
  {
    r[14 + k]
  }

  // The six user-operation helper registers are hasher state cells 2 to 7
  function Helper(r: Row, k: nat): int
    requires k < 6
  {
    HasherState(r, 2 + k)
  }

  ghost predicate Helped(r: Row, h: seq<int>)
    requires |h| == 6
  {
    forall k: nat | k < 6 :: Helper(r, k) == h[k]
  }

  // Stack: sixteen visible cells, depth, overflow pointer, overflow helper
  function Stack(r: Row, k: nat): int
    requires k < 16
  {
    r[30 + k]
  }

  function Depth(r: Row): int { r[46] }
  function Pointer(r: Row): int { r[47] }
  function DepthInv(r: Row): int { r[48] }

  // Window over a trace
  function Next(t: seq<Row>, i: nat): Row
    requires i < |t|
  {
    if i + 1 < |t| then t[i + 1] else t[0]
  }

  function Tr(t: seq<Row>, i: nat): int { AsBit(i + 1 < |t|) }
  function Fst(i: nat): int { AsBit(i == 0) }
  function Lst(t: seq<Row>, i: nat): int { AsBit(i + 1 == |t|) }

  // Opcode bits are boolean and determine the extra columns
  // ----------------------------------------------------------------------------

  ghost predicate OpBitConstraints(m: Row) {
    && (forall k: nat | k < 7 :: Zero(OpBit(m, k) * (OpBit(m, k) - 1)))
    && Zero(Extra0(m) - OpBit(m, 6) * (1 - OpBit(m, 5)) * OpBit(m, 4))
    && Zero(Extra1(m) - OpBit(m, 6) * OpBit(m, 5))
  }

  predicate On(r: Row, k: nat)
    requires k < 7
  {
    OpBit(r, k) == 1
  }

  // The END and RESPAN operations
  function EndFlag(r: Row): int {
    OpBit(r, 4) * ((1 - OpBit(r, 3)) * (1 - OpBit(r, 2))) * Extra1(r)
  }

  predicate IsEnd(r: Row) { On(r, 6) && On(r, 5) && On(r, 4) && !On(r, 3) && !On(r, 2) }
  predicate IsRespan(r: Row) { On(r, 6) && On(r, 5) && On(r, 4) && On(r, 3) && !On(r, 2) }

  ghost predicate BitAt(r: Row, k: nat)
    requires k < 7
  {
    Bit(OpBit(r, k))
  }

  ghost predicate OpBits(r: Row) {
    && (forall k: nat | k < 7 :: BitAt(r, k))
    && Extra0(r) == AsBit(On(r, 6) && !On(r, 5) && On(r, 4))
    && Extra1(r) == AsBit(On(r, 6) && On(r, 5))
  }

  lemma BitProduct(a: int, b: int)
    requires Bit(a) && Bit(b)
    ensures a * b == AsBit(a == 1 && b == 1)
  {
  }

  lemma OpBitMeaning(m: Row)
    requires OpBitConstraints(m)
    ensures OpBits(m)
  {
    forall k: nat | k < 7
      ensures BitAt(m, k)
    {
      ZeroIsBit(OpBit(m, k));
    }
    ExtraMeaning(m);
  }

  lemma ExtraMeaning(m: Row)
    requires OpBitConstraints(m) && BitAt(m, 4) && BitAt(m, 5) && BitAt(m, 6)
    ensures Extra0(m) == AsBit(On(m, 6) && !On(m, 5) && On(m, 4))
    ensures Extra1(m) == AsBit(On(m, 6) && On(m, 5))
  {
    var a, b, c := OpBit(m, 6), OpBit(m, 5), OpBit(m, 4);
    BitProduct(a, b);
    BitProduct(a, 1 - b);
    BitProduct(a * (1 - b), c);
    ZeroIsSmall(Extra0(m) - a * (1 - b) * c);
    ZeroIsSmall(Extra1(m) - a * b);
  }
}
