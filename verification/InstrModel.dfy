/** How `src/instructions.c` reads the fields of an instruction, and where that agrees with the
    standard's decoding and expansion. */
module InstrModel {
  import opened Isa

  // ---- Immediates, as the handlers assemble them ---------------------------------------------

  // Sxn(x) is (int64_t)(((int32_t)x << n) >> n), the arithmetic shift written out.

  function Sx12(x: bv32): bv32 { if (x << 12) & 0x8000_0000 != 0 then !(!(x << 12) >> 12) else (x << 12) >> 12 }

  function Sx14(x: bv32): bv32 { if (x << 14) & 0x8000_0000 != 0 then !(!(x << 14) >> 14) else (x << 14) >> 14 }

  function Sx19(x: bv32): bv32 { if (x << 19) & 0x8000_0000 != 0 then !(!(x << 19) >> 19) else (x << 19) >> 19 }

  function Sx20(x: bv32): bv32 { if (x << 20) & 0x8000_0000 != 0 then !(!(x << 20) >> 20) else (x << 20) >> 20 }

  function Sx22(x: bv32): bv32 { if (x << 22) & 0x8000_0000 != 0 then !(!(x << 22) >> 22) else (x << 22) >> 22 }

  function Sx23(x: bv32): bv32 { if (x << 23) & 0x8000_0000 != 0 then !(!(x << 23) >> 23) else (x << 23) >> 23 }

  function Sx26(x: bv32): bv32 { if (x << 26) & 0x8000_0000 != 0 then !(!(x << 26) >> 26) else (x << 26) >> 26 }

  function I12(w: bv32): bv64 { Widen(Sx20((w >> 20) & 0xFFF)) }

  /** andi shifts the whole word. */
  function A12(w: bv32): bv64 { Widen(if w & 0x8000_0000 != 0 then !(!w >> 20) else w >> 20) }

  function S12(w: bv32): bv64 { Widen(Sx20((((w >> 25) & 0x7F) << 5) | ((w >> 7) & 0x1F))) }

  function BranchBits(w: bv32): bv32 {
    (((w >> 31) & 1) << 12) | (((w >> 25) & 0x3F) << 5) | (((w >> 8) & 0xF) << 1) | (((w >> 7) & 1) << 11)
  }

  function JumpBits(w: bv32): bv32 {
    (((w >> 31) & 1) << 20) | (((w >> 12) & 0xFF) << 12) | (((w >> 20) & 1) << 11) | (((w >> 21) & 0x3FF) << 1)
  }

  /** beq, bne, bge, bltu, bgeu */
  function B13(w: bv32): bv64 { Widen(Sx19(BranchBits(w))) }

  /** blt */
  function B12(w: bv32): bv64 { Widen(Sx20(BranchBits(w))) }

  function J20(w: bv32): bv64 { Widen(Sx12(JumpBits(w))) }

  /** c.addi, c.addiw, c.li, c.andi */
  function C6(c: bv32): bv64 { Widen(Sx26(((c >> 2) & 0x1F) | (((c >> 12) & 1) << 5))) }

  function CShamt(c: bv32): bv32 { ((c >> 2) & 0x1F) | (((c >> 12) & 1) << 5) }

  function CLui(c: bv32): bv64 { Widen(Sx14((((c >> 2) & 0x1F) << 12) | (((c >> 12) & 1) << 17))) }

  function C16sp(c: bv32): bv64 {
    Widen(Sx22((((c >> 2) & 1) << 5) | (((c >> 3) & 3) << 7) | (((c >> 5) & 1) << 6) | (((c >> 6) & 1) << 4)
             | (((c >> 12) & 1) << 9)))
  }

  function C4spn(c: bv32): bv32 {
    (((c >> 5) & 1) << 3) | (((c >> 6) & 1) << 2) | (((c >> 7) & 0xF) << 6) | (((c >> 11) & 3) << 4)
  }

  function CJump(c: bv32): bv64 {
    Widen(Sx20((((c >> 2) & 1) << 5) | (((c >> 3) & 7) << 1) | (((c >> 6) & 1) << 7) | (((c >> 7) & 1) << 6)
             | (((c >> 8) & 1) << 10) | (((c >> 9) & 3) << 8) | (((c >> 11) & 1) << 4) | (((c >> 12) & 1) << 11)))
  }

  function CBranch(c: bv32): bv64 {
    Widen(Sx23((((c >> 3) & 3) << 1) | (((c >> 10) & 3) << 3) | (((c >> 2) & 1) << 5) | (((c >> 5) & 3) << 6)
             | (((c >> 12) & 1) << 8)))
  }

  function CWord(c: bv32): bv64 {
    ((((c >> 6) & 1) << 2) | (((c >> 10) & 7) << 3) | (((c >> 5) & 1) << 6)) as bv64
  }

  function CDouble(c: bv32): bv64 { ((((c >> 10) & 7) << 3) | (((c >> 5) & 3) << 6)) as bv64 }

  function CLdsp(c: bv32): bv64 {
    ((((c >> 2) & 7) << 6) | (((c >> 5) & 3) << 3) | (((c >> 12) & 1) << 5)) as bv64
  }

  function CSwsp(c: bv32): bv64 { ((((c >> 7) & 3) << 6) | (((c >> 9) & 0xF) << 2)) as bv64 }

  function CSdsp(c: bv32): bv64 { ((((c >> 7) & 7) << 6) | (((c >> 10) & 7) << 3)) as bv64 }

  // ---- Base immediates against the standard ---------------------------------------------------

  lemma ShiftsExtend(x: bv32)
    ensures Sx20(x) == Sext12(x) && Sx19(x) == Sext13(x)
  {}

  lemma ShortBranch(x: bv32)
    ensures Sx20(x) == Sext13(x) <==> (x >> 12) & 1 == (x >> 11) & 1
  {}

  function Sext20(x: bv32): bv32 { if x & 0x8_0000 != 0 then x | 0xFFF0_0000 else x & 0xF_FFFF }

  lemma JumpShift(x: bv32)
    ensures Sx12(x) == Sext20(x)
  {}

  lemma ShortAhead(x: bv32)
    requires x & 0x8_0000 == 0
    ensures Sext20(x) == Sext21(x) <==> x & 0x10_0000 == 0
  {}

  lemma ShortBack(x: bv32)
    requires x & 0x8_0000 != 0 && x & 0x10_0000 != 0
    ensures Sext20(x) == Sext21(x)
  {}

  lemma ShortBackDiffers(x: bv32)
    requires x & 0x8_0000 != 0 && x & 0x10_0000 == 0
    ensures Sext20(x) & 0x10_0000 != Sext21(x) & 0x10_0000
  {}

  lemma ShortJump(x: bv32)
    ensures Sx12(x) == Sext21(x) <==> (x & 0x10_0000 != 0 <==> x & 0x8_0000 != 0)
  {
    JumpShift(x);
    if x & 0x8_0000 == 0 { ShortAhead(x); } else if x & 0x10_0000 != 0 { ShortBack(x); } else { ShortBackDiffers(x); }
  }

  lemma FieldsAgree(w: bv32)
    ensures ((((w >> 25) & 0x7F) << 5) | ((w >> 7) & 0x1F)) == FieldS(w)
    ensures BranchBits(w) == FieldB(w) && JumpBits(w) == FieldJ(w)
    ensures (if w & 0x8000_0000 != 0 then !(!w >> 20) else w >> 20) == Sext12(w >> 20)
    ensures Sext12((w >> 20) & 0xFFF) == Sext12(w >> 20)
  {}

  lemma ImmediatesAgree(w: bv32)
    ensures I12(w) == ImmI(w) && S12(w) == ImmS(w) && B13(w) == ImmB(w)
    ensures A12(w) == ImmI(w)
  {
    FieldsAgree(w);
    ShiftsExtend((w >> 20) & 0xFFF);
    ShiftsExtend(FieldS(w));
    ShiftsExtend(FieldB(w));
  }

  lemma WidenInjective(x: bv32, y: bv32)
    ensures Widen(x) == Widen(y) <==> x == y
  {}

  lemma TopBits(w: bv32)
    ensures (FieldB(w) >> 12) & 1 == (w >> 31) & 1 && (FieldB(w) >> 11) & 1 == (w >> 7) & 1
    ensures FieldJ(w) & 0x10_0000 != 0 <==> (w >> 31) & 1 == 1
    ensures FieldJ(w) & 0x8_0000 != 0 <==> (w >> 19) & 1 == 1
  {}

  /** blt loses bit 12 of its offset, jal bit 20. */
  lemma LostBits(w: bv32)
    ensures B12(w) == ImmB(w) <==> (w >> 31) & 1 == (w >> 7) & 1
    ensures J20(w) == ImmJ(w) <==> (w >> 31) & 1 == (w >> 19) & 1
  {
    FieldsAgree(w);
    TopBits(w);
    ShortBranch(FieldB(w));
    ShortJump(FieldJ(w));
    WidenInjective(Sx20(FieldB(w)), Sext13(FieldB(w)));
    WidenInjective(Sx12(FieldJ(w)), Sext21(FieldJ(w)));
  }

  lemma BranchFields(offset: bv32, rs2: bv32, rs1: bv32, f3: bv32)
    requires rs2 < 32 && rs1 < 32 && f3 < 8
    ensures BranchBits(EncB(offset, rs2, rs1, f3)) == offset & 0x1FFE
  {}

  lemma JumpFields(offset: bv32, rd: bv32)
    requires rd < 32
    ensures JumpBits(EncJ(offset, rd)) == offset & 0x1F_FFFE
  {}

  lemma RangeOfBranch(x: bv32)
    ensures Sx19(x & 0x1FFE) == x <==> x & 1 == 0 && x + 0x1000 < 0x2000
  {}

  lemma RangeOfBlt(x: bv32)
    ensures Sx20(x & 0x1FFE) == x <==> x & 1 == 0 && x + 0x800 < 0x1000
  {}

  lemma JumpBack(x: bv32)
    requires x & 0x8_0000 != 0
    ensures Sext20(x & 0x1F_FFFE) == x <==> x & 1 == 0 && x >> 19 == 0x1FFF
  {}

  lemma JumpAhead(x: bv32)
    requires x & 0x8_0000 == 0
    ensures Sext20(x & 0x1F_FFFE) == x <==> x & 1 == 0 && x >> 19 == 0
  {}

  lemma RangeOfSigns(x: bv32)
    ensures x & 0x8_0000 != 0 ==> (x >> 19 == 0x1FFF <==> x + 0x8_0000 < 0x10_0000)
    ensures x & 0x8_0000 == 0 ==> (x >> 19 == 0 <==> x + 0x8_0000 < 0x10_0000)
  {}

  /** Encoding, then reading back as beq, bne, bge, bltu and bgeu do, recovers exactly the even offsets
      in [-4096, 4094]; as blt does, only those in [-2048, 2046]. */
  lemma BranchRoundTrip(offset: bv32, rs2: bv32, rs1: bv32, f3: bv32)
    requires rs2 < 32 && rs1 < 32 && f3 < 8
    ensures B13(EncB(offset, rs2, rs1, f3)) == Widen(offset) <==> offset & 1 == 0 && offset + 0x1000 < 0x2000
    ensures B12(EncB(offset, rs2, rs1, f3)) == Widen(offset) <==> offset & 1 == 0 && offset + 0x800 < 0x1000
  {
    BranchFields(offset, rs2, rs1, f3);
    WidenInjective(Sx19(offset & 0x1FFE), offset);
    WidenInjective(Sx20(offset & 0x1FFE), offset);
    RangeOfBranch(offset);
    RangeOfBlt(offset);
  }

  lemma RangeOfJump(x: bv32)
    ensures Sx12(x & 0x1F_FFFE) == x <==> x & 1 == 0 && x + 0x8_0000 < 0x10_0000
  {
    JumpShift(x & 0x1F_FFFE);
    RangeOfSigns(x);
    if x & 0x8_0000 != 0 { JumpBack(x); } else { JumpAhead(x); }
  }

  /** For jal the recovered offsets are the even ones in [-2^19, 2^19 - 2], half of the standard's. */
  lemma JumpRoundTrip(offset: bv32, rd: bv32)
    requires rd < 32
    ensures J20(EncJ(offset, rd)) == Widen(offset) <==> offset & 1 == 0 && offset + 0x8_0000 < 0x10_0000
  {
    JumpFields(offset, rd);
    WidenInjective(Sx12(offset & 0x1F_FFFE), offset);
    RangeOfJump(offset);
  }
}
