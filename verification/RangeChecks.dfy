/** Range checks across components: a cell that a row of either trace looks up in the range-check table
    of the core trace is a 16-bit value, which is what the other modules ask of it. */
module RangeChecks {
  import opened Goldilocks
  import ChipletSelectors
  import CoreTrace
  import opened RangeTable
  import U32Ops
  import MemoryChiplet
  import MerkleController

  /** The helper registers that a row of a u32 operation looks up. */
  ghost predicate HelpersLookedUp(t: seq<CoreTrace.Row>, r: CoreTrace.Row) {
    forall k: nat | k < 6 && (k < 4 || U32Ops.Executes(r, U32Ops.Div)) :: RangeChecked(t, CoreTrace.Helper(r, k))
  }

  /** On a trace that carries its own range-check table, every u32 operation leaves the exact integer result. */
  lemma U32SoundOnTrace(t: seq<CoreTrace.Row>, i: nat, op: U32Ops.Op)
    requires Table(t) && i + 1 < |t| && CoreTrace.OpBitConstraints(t[i]) && U32Ops.Executes(t[i], op)
    requires U32Ops.U32Constraints(t[i], t[i + 1]) && HelpersLookedUp(t, t[i])
    requires U32Ops.U32Operands(op, CoreTrace.Stack(t[i], 0), CoreTrace.Stack(t[i], 1), CoreTrace.Stack(t[i], 2))
    ensures if op == U32Ops.Assert2 then U32(CoreTrace.Stack(t[i + 1], 0)) && U32(CoreTrace.Stack(t[i + 1], 1))
            else U32Ops.Computes(t[i], t[i + 1], op)
  {
    forall k: nat | k < 6 && (k < 4 || U32Ops.Executes(t[i], U32Ops.Div))
      ensures U16(CoreTrace.Helper(t[i], k))
    {
      RangeCheckedIsU16(t, CoreTrace.Helper(t[i], k));
    }
    U32Ops.U32Sound(t[i], t[i + 1], op);
  }

  /** A memory row looks up its delta limbs, its address limbs and four times the upper one. */
  lemma MemoryLimbs(t: seq<CoreTrace.Row>, r: ChipletSelectors.Row)
    requires Table(t) && U32(MemoryChiplet.Ctx(r)) && U32(MemoryChiplet.Clk(r))
    requires RangeChecked(t, MemoryChiplet.Delta0(r)) && RangeChecked(t, MemoryChiplet.Delta1(r))
    requires RangeChecked(t, MemoryChiplet.AddrLo(r)) && RangeChecked(t, MemoryChiplet.AddrHi(r))
    requires RangeChecked(t, (4 * MemoryChiplet.AddrHi(r)) % P)
    ensures MemoryChiplet.Supplied(r)
  {
    RangeCheckedIsU16(t, MemoryChiplet.Delta0(r));
    RangeCheckedIsU16(t, MemoryChiplet.Delta1(r));
    RangeCheckedIsU16(t, MemoryChiplet.AddrLo(r));
    RangeCheckedIsU16(t, MemoryChiplet.AddrHi(r));
    RangeCheckedIsU16(t, (4 * MemoryChiplet.AddrHi(r)) % P);
  }

  /** The first row of a Merkle path looks up its slack limbs and twice the last one. */
  lemma MerkleSlack(t: seq<CoreTrace.Row>, r: ChipletSelectors.Row)
    requires Table(t) && (forall k: nat | 12 <= k < 16 :: RangeChecked(t, r[k])) && RangeChecked(t, (2 * r[15]) % P)
    ensures MerkleController.SlackChecked(r)
  {
    forall k: nat | 12 <= k < 16
      ensures U16(r[k])
    {
      RangeCheckedIsU16(t, r[k]);
    }
    RangeCheckedIsU16(t, (2 * r[15]) % P);
  }
}
