/** The operation classes of stack and decoder, by opcode number. */
module Opcodes {
  import opened CoreTrace
  import opened OpGroups
  import opened StackOverflow

  lemma Bits(r: Row)
    requires OpBits(r)
    ensures BitAt(r, 0) && BitAt(r, 1) && BitAt(r, 2) && BitAt(r, 3) && BitAt(r, 4) && BitAt(r, 5) && BitAt(r, 6)
  {
  }

  /** CALL, SYSCALL and DYNCALL open a context; JOIN, SPLIT, SPAN, LOOP, DYN and RESPAN open a block without one. */
  lemma OpeningNumbers(r: Row)
    requires OpBits(r)
    ensures var c := Opcode(r);
            && (IsCall(r) <==> 108 <= c < 112) && (IsSyscall(r) <==> 104 <= c < 108) && (IsDyncall(r) <==> c == 92)
            && (OpensSimple(r) <==> 84 <= c <= 88 || 120 <= c < 124) && (IsLoop(r) <==> c == 85)
  {
    Bits(r);
  }

  /** PAD to CLK, PUSH and U32SPLIT push; ASSERT to MSTOREW, U32ADD3, U32MADD, SPLIT, DYN, REPEAT and the END of a loop pop. */
  lemma ShiftingNumbers(r: Row)
    requires OpBits(r)
    ensures var c := Opcode(r);
            && (Pushes(r) <==> 48 <= c < 64 || c == 91 || c == 72 || c == 73)
            && (Pops(r) <==> 32 <= c < 48 || 76 <= c < 80 || c == 84 || c == 88 || 116 <= c < 120 || (112 <= c < 116 && HasherState(r, 5) == 1))
            && (Closes(r) <==> 112 <= c < 116 && HasherState(r, 6) + HasherState(r, 7) == 1)
  {
    Bits(r);
  }
}
