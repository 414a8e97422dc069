/** Where the standard and the handlers find the fields of an instruction, bit by bit. */
module InstrFields {
  import opened Options
  import opened Isa
  import opened InstrModel
  import opened InstrExpand
  import opened InstrSteps

  /** Bits lo and up of an immediate are copies of bit k of the instruction. */
  predicate Signed(v: bv64, lo: bv32, w: bv32, k: bv32)
    requires lo < 64 && k < 32
  {
    v >> lo == if w & (1 << k) != 0 then 0xFFFF_FFFF_FFFF_FFFF >> lo else 0
  }

  /** The n bits of v from lo on are those of w from k on. */
  predicate Copied(v: bv64, lo: bv32, w: bv32, k: bv32, n: bv32)
    requires lo < 64 && k < 32 && n < 32
  {
    (v >> lo) & ((1 << n) - 1) == ((w >> k) & ((1 << n) - 1)) as bv64
  }

  // ---- Base immediates ----------------------------------------------------------------------------

  lemma ImmIBits(w: bv32)
    ensures Copied(ImmI(w), 0, w, 20, 11)
  {}

  lemma ImmISign(w: bv32)
    ensures Signed(ImmI(w), 11, w, 31)
  {}

  lemma ImmSBits(w: bv32)
    ensures Copied(ImmS(w), 0, w, 7, 5) && Copied(ImmS(w), 5, w, 25, 6) && Signed(ImmS(w), 11, w, 31)
  {}

  lemma ImmBLow(w: bv32)
    ensures ImmB(w) & 1 == 0 && Copied(ImmB(w), 1, w, 8, 4)
  {}

  lemma ImmBMiddle(w: bv32)
    ensures Copied(ImmB(w), 5, w, 25, 6)
  {}

  lemma ImmBHigh(w: bv32)
    ensures Copied(ImmB(w), 11, w, 7, 1) && Signed(ImmB(w), 12, w, 31)
  {}

  lemma ImmJLow(w: bv32)
    ensures ImmJ(w) & 1 == 0 && Copied(ImmJ(w), 1, w, 21, 10)
  {}

  lemma ImmJMiddle(w: bv32)
    ensures Copied(ImmJ(w), 11, w, 20, 1) && Copied(ImmJ(w), 12, w, 12, 8)
  {}

  lemma ImmJHigh(w: bv32)
    ensures Signed(ImmJ(w), 20, w, 31)
  {}

  lemma UpperBitsOf(w: bv32)
    ensures var v := Widen(w & 0xFFFF_F000); v & 0xFFF == 0 && Copied(v, 12, w, 12, 19) && Signed(v, 31, w, 31)
  {}

  /** The shortened offset of jal: its sign is bit 19 of the word. */
  lemma ShortJumpLow(w: bv32)
    ensures J20(w) & 1 == 0 && Copied(J20(w), 1, w, 21, 10)
  {}

  lemma ShortJumpHigh(w: bv32)
    ensures Copied(J20(w), 11, w, 20, 1) && Copied(J20(w), 12, w, 12, 7) && Signed(J20(w), 19, w, 19)
  {}

  /** That of blt: its sign is bit 7. */
  lemma ShortBranchLow(w: bv32)
    ensures B12(w) & 1 == 0 && Copied(B12(w), 1, w, 8, 4)
  {}

  lemma ShortBranchHigh(w: bv32)
    ensures Copied(B12(w), 5, w, 25, 6) && Signed(B12(w), 11, w, 7)
  {}

  // ---- Compressed immediates ----------------------------------------------------------------------

  lemma SixBitsOf(c: bv32)
    ensures Copied(C6(c), 0, c, 2, 5) && Signed(C6(c), 5, c, 12)
  {}

  lemma ShiftAmountOf(c: bv32)
    ensures CShamt(c) & 0x1F == (c >> 2) & 0x1F && CShamt(c) >> 5 == (c >> 12) & 1
  {}

  lemma UpperSixBits(c: bv32)
    ensures CLui(c) & 0xFFF == 0 && Copied(CLui(c), 12, c, 2, 5) && Signed(CLui(c), 17, c, 12)
  {}

  lemma StackBitsOf(c: bv32)
    ensures C16sp(c) & 0xF == 0 && Copied(C16sp(c), 4, c, 6, 1) && Copied(C16sp(c), 5, c, 2, 1)
    ensures Copied(C16sp(c), 6, c, 5, 1) && Copied(C16sp(c), 7, c, 3, 2) && Signed(C16sp(c), 9, c, 12)
  {}

  lemma JumpLow(c: bv32)
    ensures CJump(c) & 1 == 0 && Copied(CJump(c), 1, c, 3, 3)
  {}

  lemma JumpNext(c: bv32)
    ensures Copied(CJump(c), 4, c, 11, 1) && Copied(CJump(c), 5, c, 2, 1) && Copied(CJump(c), 6, c, 7, 1)
  {}

  lemma JumpMiddle(c: bv32)
    ensures Copied(CJump(c), 7, c, 6, 1) && Copied(CJump(c), 8, c, 9, 2)
  {}

  lemma JumpHigh(c: bv32)
    ensures Copied(CJump(c), 10, c, 8, 1) && Signed(CJump(c), 11, c, 12)
  {}

  lemma BranchLow(c: bv32)
    ensures CBranch(c) & 1 == 0 && Copied(CBranch(c), 1, c, 3, 2) && Copied(CBranch(c), 3, c, 10, 2)
  {}

  lemma BranchHigh(c: bv32)
    ensures Copied(CBranch(c), 5, c, 2, 1) && Copied(CBranch(c), 6, c, 5, 2) && Signed(CBranch(c), 8, c, 12)
  {}

  lemma WordBits(c: bv32)
    ensures CWord(c) & 3 == 0 && Copied(CWord(c), 2, c, 6, 1) && Copied(CWord(c), 3, c, 10, 3)
    ensures Copied(CWord(c), 6, c, 5, 1) && CWord(c) >> 7 == 0
  {}

  lemma DoubleBits(c: bv32)
    ensures CDouble(c) & 7 == 0 && Copied(CDouble(c), 3, c, 10, 3) && Copied(CDouble(c), 6, c, 5, 2) && CDouble(c) >> 8 == 0
  {}

  lemma LoadStackBits(c: bv32)
    ensures CLdsp(c) & 7 == 0 && Copied(CLdsp(c), 3, c, 5, 2) && Copied(CLdsp(c), 5, c, 12, 1)
    ensures Copied(CLdsp(c), 6, c, 2, 3) && CLdsp(c) >> 9 == 0
  {}

  lemma WordStackBits(c: bv32)
    ensures CSwsp(c) & 3 == 0 && Copied(CSwsp(c), 2, c, 9, 4) && Copied(CSwsp(c), 6, c, 7, 2) && CSwsp(c) >> 8 == 0
  {}

  lemma DoubleStackBits(c: bv32)
    ensures CSdsp(c) & 7 == 0 && Copied(CSdsp(c), 3, c, 10, 3) && Copied(CSdsp(c), 6, c, 7, 3) && CSdsp(c) >> 9 == 0
  {}

  lemma FourBits(c: bv32)
    ensures var v := C4spn(c) as bv64; v & 3 == 0 && Copied(v, 2, c, 6, 1) && Copied(v, 3, c, 5, 1) && Copied(v, 4, c, 11, 2)
    ensures var v := C4spn(c) as bv64; Copied(v, 6, c, 7, 4) && v >> 10 == 0
  {}

  // ---- Together -----------------------------------------------------------------------------------

  /** The immediates of the base formats I, S, B and J. */
  lemma BaseImmediates(w: bv32)
    ensures Copied(ImmI(w), 0, w, 20, 11) && Signed(ImmI(w), 11, w, 31)
    ensures Copied(ImmS(w), 0, w, 7, 5) && Copied(ImmS(w), 5, w, 25, 6) && Signed(ImmS(w), 11, w, 31)
    ensures ImmB(w) & 1 == 0 && Copied(ImmB(w), 1, w, 8, 4) && Copied(ImmB(w), 5, w, 25, 6)
    ensures Copied(ImmB(w), 11, w, 7, 1) && Signed(ImmB(w), 12, w, 31)
    ensures ImmJ(w) & 1 == 0 && Copied(ImmJ(w), 1, w, 21, 10) && Copied(ImmJ(w), 11, w, 20, 1)
    ensures Copied(ImmJ(w), 12, w, 12, 8) && Signed(ImmJ(w), 20, w, 31)
  {
    ImmIBits(w);
    ImmISign(w);
    ImmSBits(w);
    ImmBLow(w);
    ImmBMiddle(w);
    ImmBHigh(w);
    ImmJLow(w);
    ImmJMiddle(w);
    ImmJHigh(w);
  }

  /** The shortened offsets of jal and blt. */
  lemma ShortOffsets(w: bv32)
    ensures J20(w) & 1 == 0 && Copied(J20(w), 1, w, 21, 10) && Copied(J20(w), 11, w, 20, 1)
    ensures Copied(J20(w), 12, w, 12, 7) && Signed(J20(w), 19, w, 19)
    ensures B12(w) & 1 == 0 && Copied(B12(w), 1, w, 8, 4) && Copied(B12(w), 5, w, 25, 6) && Signed(B12(w), 11, w, 7)
  {
    ShortJumpLow(w);
    ShortJumpHigh(w);
    ShortBranchLow(w);
    ShortBranchHigh(w);
  }

  /** The signed immediates of the compressed forms. */
  lemma CompressedSigned(c: bv32)
    ensures Copied(C6(c), 0, c, 2, 5) && Signed(C6(c), 5, c, 12)
    ensures CLui(c) & 0xFFF == 0 && Copied(CLui(c), 12, c, 2, 5) && Signed(CLui(c), 17, c, 12)
    ensures C16sp(c) & 0xF == 0 && Copied(C16sp(c), 4, c, 6, 1) && Copied(C16sp(c), 5, c, 2, 1)
    ensures Copied(C16sp(c), 6, c, 5, 1) && Copied(C16sp(c), 7, c, 3, 2) && Signed(C16sp(c), 9, c, 12)
    ensures CJump(c) & 1 == 0 && Copied(CJump(c), 1, c, 3, 3) && Copied(CJump(c), 4, c, 11, 1) && Copied(CJump(c), 5, c, 2, 1)
    ensures Copied(CJump(c), 6, c, 7, 1) && Copied(CJump(c), 7, c, 6, 1) && Copied(CJump(c), 8, c, 9, 2)
    ensures Copied(CJump(c), 10, c, 8, 1) && Signed(CJump(c), 11, c, 12)
    ensures CBranch(c) & 1 == 0 && Copied(CBranch(c), 1, c, 3, 2) && Copied(CBranch(c), 3, c, 10, 2)
    ensures Copied(CBranch(c), 5, c, 2, 1) && Copied(CBranch(c), 6, c, 5, 2) && Signed(CBranch(c), 8, c, 12)
  {
    SixBitsOf(c);
    UpperSixBits(c);
    StackBitsOf(c);
    JumpLow(c);
    JumpNext(c);
    JumpMiddle(c);
    JumpHigh(c);
    BranchLow(c);
    BranchHigh(c);
  }

  /** The unsigned ones: shift amounts and the offsets of loads, stores and c.addi4spn. */
  lemma CompressedUnsigned(c: bv32)
    ensures CShamt(c) & 0x1F == (c >> 2) & 0x1F && CShamt(c) >> 5 == (c >> 12) & 1
    ensures CWord(c) & 3 == 0 && Copied(CWord(c), 2, c, 6, 1) && Copied(CWord(c), 3, c, 10, 3)
    ensures Copied(CWord(c), 6, c, 5, 1) && CWord(c) >> 7 == 0
    ensures CDouble(c) & 7 == 0 && Copied(CDouble(c), 3, c, 10, 3) && Copied(CDouble(c), 6, c, 5, 2) && CDouble(c) >> 8 == 0
    ensures CLdsp(c) & 7 == 0 && Copied(CLdsp(c), 3, c, 5, 2) && Copied(CLdsp(c), 5, c, 12, 1)
    ensures Copied(CLdsp(c), 6, c, 2, 3) && CLdsp(c) >> 9 == 0
    ensures CSwsp(c) & 3 == 0 && Copied(CSwsp(c), 2, c, 9, 4) && Copied(CSwsp(c), 6, c, 7, 2) && CSwsp(c) >> 8 == 0
    ensures CSdsp(c) & 7 == 0 && Copied(CSdsp(c), 3, c, 10, 3) && Copied(CSdsp(c), 6, c, 7, 3) && CSdsp(c) >> 9 == 0
    ensures var v := C4spn(c) as bv64;
            && v & 3 == 0 && Copied(v, 2, c, 6, 1) && Copied(v, 3, c, 5, 1) && Copied(v, 4, c, 11, 2)
            && Copied(v, 6, c, 7, 4) && v >> 10 == 0
  {
    ShiftAmountOf(c);
    WordBits(c);
    DoubleBits(c);
    LoadStackBits(c);
    WordStackBits(c);
    DoubleStackBits(c);
    FourBits(c);
  }
}
