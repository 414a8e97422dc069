/** Which bit patterns are which instruction: the opcode map of chapter 24 of the RISC-V Unprivileged
    ISA 20191213, and that of the compressed quadrants, in numbers. */
module InstrMap {
  import opened Options
  import opened Isa
  import opened InstrModel
  import opened InstrExpand
  import opened InstrSteps
  import opened InstrWords

  // ---- Base instructions --------------------------------------------------------------------------

  lemma ImmediateForms(w: bv32)
    requires w & 0x7F == 0x13
    ensures var rd, rs1, f3, n := Ix((w >> 7) & 0x1F), Ix((w >> 15) & 0x1F), (w >> 12) & 7, (w >> 20) & 0x3F;
      && (f3 == 0 ==> Decode(w) == Addi(rd, rs1, ImmI(w))) && (f3 == 7 ==> Decode(w) == Andi(rd, rs1, ImmI(w)))
      && (f3 == 1 && w >> 26 == 0 ==> Decode(w) == Slli(rd, rs1, n))
      && (f3 == 5 && w >> 26 == 0 ==> Decode(w) == Srli(rd, rs1, n))
      && (f3 == 5 && w >> 26 == 0x10 ==> Decode(w) == Srai(rd, rs1, n))
  {}

  lemma RegisterForms(w: bv32)
    requires w & 0x7F == 0x33
    ensures var rd, rs1, rs2 := Ix((w >> 7) & 0x1F), Ix((w >> 15) & 0x1F), Ix((w >> 20) & 0x1F);
      var f3, f7 := (w >> 12) & 7, w >> 25;
      && (f3 == 0 && f7 == 0 ==> Decode(w) == Add(rd, rs1, rs2)) && (f3 == 0 && f7 == 0x20 ==> Decode(w) == Sub(rd, rs1, rs2))
      && (f3 == 4 && f7 == 0 ==> Decode(w) == Xor(rd, rs1, rs2)) && (f3 == 6 && f7 == 0 ==> Decode(w) == Or(rd, rs1, rs2))
      && (f3 == 7 && f7 == 0 ==> Decode(w) == And(rd, rs1, rs2))
  {}

  lemma WordForms(w: bv32)
    requires (w & 0x7F == 0x3B || w & 0x7F == 0x1B) && (w >> 12) & 7 == 0
    ensures var rd, rs1, rs2 := Ix((w >> 7) & 0x1F), Ix((w >> 15) & 0x1F), Ix((w >> 20) & 0x1F);
      && (w & 0x7F == 0x1B ==> Decode(w) == Addiw(rd, rs1, ImmI(w)))
      && (w & 0x7F == 0x3B && w >> 25 == 0 ==> Decode(w) == Addw(rd, rs1, rs2))
      && (w & 0x7F == 0x3B && w >> 25 == 0x20 ==> Decode(w) == Subw(rd, rs1, rs2))
  {}

  lemma UpperAndJumpForms(w: bv32)
    ensures var rd, rs1 := Ix((w >> 7) & 0x1F), Ix((w >> 15) & 0x1F);
      && (w & 0x7F == 0x37 ==> Decode(w) == Lui(rd, Widen(w & 0xFFFF_F000)))
      && (w & 0x7F == 0x6F ==> Decode(w) == Jal(rd, ImmJ(w)))
      && (w & 0x7F == 0x67 && (w >> 12) & 7 == 0 ==> Decode(w) == Jalr(rd, rs1, ImmI(w)))
  {}

  lemma BranchForms(w: bv32)
    requires w & 0x7F == 0x63
    ensures var rs1, rs2, f3 := Ix((w >> 15) & 0x1F), Ix((w >> 20) & 0x1F), (w >> 12) & 7;
      && (f3 == 0 ==> Decode(w) == Beq(rs1, rs2, ImmB(w))) && (f3 == 1 ==> Decode(w) == Bne(rs1, rs2, ImmB(w)))
      && (f3 == 4 ==> Decode(w) == Blt(rs1, rs2, ImmB(w))) && (f3 == 5 ==> Decode(w) == Bge(rs1, rs2, ImmB(w)))
      && (f3 == 6 ==> Decode(w) == Bltu(rs1, rs2, ImmB(w))) && (f3 == 7 ==> Decode(w) == Bgeu(rs1, rs2, ImmB(w)))
  {}

  lemma MemoryForms(w: bv32)
    requires w & 0x7F == 0x03 || w & 0x7F == 0x23
    ensures var rd, rs1, rs2, f3 := Ix((w >> 7) & 0x1F), Ix((w >> 15) & 0x1F), Ix((w >> 20) & 0x1F), (w >> 12) & 7;
      && (w & 0x7F == 0x03 && f3 == 2 ==> Decode(w) == Lw(rd, rs1, ImmI(w)))
      && (w & 0x7F == 0x03 && f3 == 3 ==> Decode(w) == Ld(rd, rs1, ImmI(w)))
      && (w & 0x7F == 0x03 && f3 == 6 ==> Decode(w) == Lwu(rd, rs1, ImmI(w)))
      && (w & 0x7F == 0x23 && f3 == 2 ==> Decode(w) == Sw(rs1, rs2, ImmS(w)))
      && (w & 0x7F == 0x23 && f3 == 3 ==> Decode(w) == Sd(rs1, rs2, ImmS(w)))
  {
    MemoryDecoded(w);
  }

  /** Where the code departs: the offsets of jal and blt, bge as bgeu, lw as lwu. */
  lemma JalPerformed(w: bv32)
    requires w & 0x7F == 0x6F
    ensures Performed(w) == Jal(Ix((w >> 7) & 0x1F), J20(w))
  {
    UpperAndJumpForms(w);
  }

  lemma BranchesPerformed(w: bv32)
    requires w & 0x7F == 0x63
    ensures var rs1, rs2, f3 := Ix((w >> 15) & 0x1F), Ix((w >> 20) & 0x1F), (w >> 12) & 7;
      && (f3 == 4 ==> Performed(w) == Blt(rs1, rs2, B12(w))) && (f3 == 5 ==> Performed(w) == Bgeu(rs1, rs2, ImmB(w)))
      && (f3 != 4 && f3 != 5 ==> Performed(w) == Decode(w))
  {
    BranchForms(w);
  }

  lemma LwPerformed(w: bv32)
    requires w & 0x7F == 0x03 && (w >> 12) & 7 == 2
    ensures Performed(w) == Lwu(Ix((w >> 7) & 0x1F), Ix((w >> 15) & 0x1F), ImmI(w))
  {
    MemoryForms(w);
  }

  // ---- Compressed instructions ----------------------------------------------------------------------

  /** Registers 8 to 15 have three bits. */
  lemma ShortNumber(r: bv32)
    ensures Ix((r & 7) + 8) == 8 + Ix(r & 7)
  {}

  lemma Quadrant0(c: bv32)
    requires c & 3 == 0
    ensures var a, b, f3 := Ix(((c >> 2) & 7) + 8), Ix(((c >> 7) & 7) + 8), (c >> 13) & 7;
      && (f3 == 0 ==> Handled(c) == Addi(a, 2, C4spn(c) as bv64)) && (f3 == 2 ==> Handled(c) == Lw(a, b, CWord(c)))
      && (f3 == 3 ==> Handled(c) == Ld(a, b, CDouble(c))) && (f3 == 6 ==> Handled(c) == Sw(b, a, CWord(c)))
      && (f3 == 7 ==> Handled(c) == Sd(b, a, CDouble(c)))
  {}

  lemma Quadrant1(c: bv32)
    requires c & 3 == 1
    ensures var rd, b, f3 := Ix((c >> 7) & 0x1F), Ix(((c >> 7) & 7) + 8), (c >> 13) & 7;
      && (f3 == 0 || f3 == 1 ==> Handled(c) == Addi(rd, rd, C6(c))) && (f3 == 2 ==> Handled(c) == Addi(rd, 0, C6(c)))
      && (f3 == 3 && (c >> 7) & 0x1F == 2 ==> Handled(c) == Addi(2, 2, C16sp(c)))
      && (f3 == 3 && (c >> 7) & 0x1F != 2 ==> Handled(c) == Lui(rd, CLui(c)))
      && (f3 == 5 ==> Handled(c) == Jal(0, CJump(c))) && (f3 == 6 ==> Handled(c) == Beq(b, 0, CBranch(c)))
      && (f3 == 7 ==> Handled(c) == Bne(b, 0, CBranch(c)))
  {}

  lemma ArithmeticForms(c: bv32)
    requires c & 3 == 1 && (c >> 13) & 7 == 4
    ensures var a, b, sel, sub := Ix(((c >> 2) & 7) + 8), Ix(((c >> 7) & 7) + 8), (c >> 10) & 3, (c >> 5) & 3;
      && (sel == 0 ==> Handled(c) == Srli(b, b, CShamt(c))) && (sel == 1 ==> Handled(c) == Srai(b, b, CShamt(c)))
      && (sel == 2 ==> Handled(c) == Andi(b, b, C6(c))) && (sel == 3 && sub == 0 ==> Handled(c) == Sub(b, b, a))
      && (sel == 3 && sub == 1 ==> Handled(c) == Addw(b, b, a)) && (sel == 3 && sub == 2 ==> Handled(c) == Or(b, b, a))
      && (sel == 3 && sub == 3 ==> Handled(c) == And(b, b, a))
  {}

  lemma Quadrant2(c: bv32)
    requires c & 3 == 2
    ensures var rd, rs2, f3, link := Ix((c >> 7) & 0x1F), Ix((c >> 2) & 0x1F), (c >> 13) & 7, (c >> 12) & 1 == 1;
      && (f3 == 0 ==> Handled(c) == Slli(rd, rd, CShamt(c))) && (f3 == 3 ==> Handled(c) == Ld(rd, 2, CLdsp(c)))
      && (f3 == 4 && (c >> 2) & 0x1F != 0 ==> Handled(c) == Add(rd, if link then rd else 0, rs2))
      && (f3 == 4 && (c >> 2) & 0x1F == 0 ==> Handled(c) == Jalr(if link then 1 else 0, rd, 0))
      && (f3 == 6 ==> Handled(c) == Sw(2, rs2, CSwsp(c))) && (f3 == 7 ==> Handled(c) == Sd(2, rs2, CSdsp(c)))
  {}

  /** c.jr takes its target as it is; c.jalr writes the link into ra first and clears bit 0. */
  lemma RegisterJumps(c: bv32, s: Core, loaded: bv64) returns (link: bv64, target: bv64)
    requires c & 3 == 2 && (c >> 13) & 7 == 4 && (c >> 2) & 0x1F == 0
    ensures (c >> 12) & 1 == 0 ==> Compressed(c, s, loaded) == s.(pc := s.gpr[Ix((c >> 7) & 0x1F)])
    ensures (c >> 12) & 1 == 1 ==> Compressed(c, s, loaded) == s.(pc := target, gpr := s.gpr[1 := link])
    ensures Sum(link, s.pc, 2) && IsEven(target, s.gpr[1 := link][Ix((c >> 7) & 0x1F)])
  {
    link := Plus(s.pc, 2);
    target := Even(s.gpr[1 := link][Ix((c >> 7) & 0x1F)]);
    SumIs(s.pc, 2);
    EvenIs(s.gpr[1 := link][Ix((c >> 7) & 0x1F)]);
  }
}
