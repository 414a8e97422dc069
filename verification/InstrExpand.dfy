/** The compressed forms: what the standard's expansion decodes to, in terms of the fields and
    immediates the handlers of `src/instructions.c` assemble. */
module InstrExpand {
  import opened Options
  import opened Isa
  import opened InstrModel

  // ---- Encoding, then decoding ----------------------------------------------------------------

  lemma FieldsOfI(imm: bv32, rs1: bv32, f3: bv32, rd: bv32, op: bv32) returns (w: bv32)
    requires imm < 0x1000 && rs1 < 32 && f3 < 8 && rd < 32 && op < 128
    ensures w == EncI(imm, rs1, f3, rd, op)
    ensures w & 0x7F == op && (w >> 12) & 7 == f3 && Rd(w) == rd && Rs1(w) == rs1
    ensures w >> 20 == imm && w >> 26 == imm >> 6
  {
    w := EncI(imm, rs1, f3, rd, op);
  }

  lemma FieldsOfR(f7: bv32, rs2: bv32, rs1: bv32, f3: bv32, rd: bv32, op: bv32) returns (w: bv32)
    requires f7 < 128 && rs2 < 32 && rs1 < 32 && f3 < 8 && rd < 32 && op < 128
    ensures w == EncR(f7, rs2, rs1, f3, rd, op)
    ensures w & 0x7F == op && (w >> 12) & 7 == f3 && w >> 25 == f7
    ensures Rd(w) == rd && Rs1(w) == rs1 && Rs2(w) == rs2
  {
    w := EncR(f7, rs2, rs1, f3, rd, op);
  }

  lemma FieldsOfS(imm: bv32, rs2: bv32, rs1: bv32, f3: bv32, op: bv32) returns (w: bv32)
    requires imm < 0x1000 && rs2 < 32 && rs1 < 32 && f3 < 8 && op < 128
    ensures w == EncS(imm, rs2, rs1, f3, op)
    ensures w & 0x7F == op && (w >> 12) & 7 == f3 && Rs1(w) == rs1 && Rs2(w) == rs2 && FieldS(w) == imm
  {
    w := EncS(imm, rs2, rs1, f3, op);
  }

  lemma FieldsOfB(offset: bv32, rs2: bv32, rs1: bv32, f3: bv32) returns (w: bv32)
    requires offset < 0x2000 && offset & 1 == 0 && rs2 < 32 && rs1 < 32 && f3 < 8
    ensures w == EncB(offset, rs2, rs1, f3)
    ensures w & 0x7F == 0x63 && (w >> 12) & 7 == f3 && Rs1(w) == rs1 && Rs2(w) == rs2 && FieldB(w) == offset
  {
    w := EncB(offset, rs2, rs1, f3);
  }

  lemma FieldsOfJ(offset: bv32, rd: bv32) returns (w: bv32)
    requires offset < 0x20_0000 && offset & 1 == 0 && rd < 32
    ensures w == EncJ(offset, rd)
    ensures w & 0x7F == 0x6F && Rd(w) == rd && FieldJ(w) == offset
  {
    w := EncJ(offset, rd);
  }

  // ---- Immediates of the compressed forms -------------------------------------------------------

  lemma SixBits(c: bv32)
    ensures Imm6(c) < 0x1000 && Uimm6(c) < 0x40
    ensures Widen(Sext12(Imm6(c))) == C6(c)
  {
    assert Sext12(Imm6(c)) == Sx26(((c >> 2) & 0x1F) | (((c >> 12) & 1) << 5));
  }

  lemma StackBits(c: bv32)
    ensures ImmAddi16sp(c) < 0x1000
    ensures Widen(Sext12(ImmAddi16sp(c))) == C16sp(c)
  {}

  lemma UpperBits(c: bv32) returns (w: bv32)
    ensures w == (if Uimm6(c) & 0x20 != 0 then 0xFFFC_0000 else 0) | (Uimm6(c) << 12) | (Rd(c) << 7) | 0x37
    ensures w & 0x7F == 0x37 && Rd(w) == Rd(c) && Widen(w & 0xFFFF_F000) == CLui(c)
  {
    w := (if Uimm6(c) & 0x20 != 0 then 0xFFFC_0000 else 0) | (Uimm6(c) << 12) | (Rd(c) << 7) | 0x37;
  }

  lemma JumpImm(c: bv32)
    ensures Widen(Sext21(OffJ(c))) == CJump(c)
  {}

  lemma JumpEven(c: bv32)
    ensures OffJ(c) < 0x20_0000 && OffJ(c) & 1 == 0
  {}

  lemma BranchImm(c: bv32)
    ensures OffB(c) < 0x2000 && OffB(c) & 1 == 0
    ensures Widen(Sext13(OffB(c))) == CBranch(c)
  {}

  lemma WidenSmall(x: bv32)
    requires x < 0x800
    ensures Widen(Sext12(x)) == x as bv64
  {}

  lemma BitsW(c: bv32)
    ensures ImmW(c) < 0x800 && Widen(Sext12(ImmW(c))) == CWord(c)
  {
    WidenSmall(ImmW(c));
    assert ImmW(c) as bv64 == CWord(c);
  }

  lemma BitsD(c: bv32)
    ensures ImmD(c) < 0x800 && Widen(Sext12(ImmD(c))) == CDouble(c)
  {
    WidenSmall(ImmD(c));
    assert ImmD(c) as bv64 == CDouble(c);
  }

  lemma BitsLdsp(c: bv32)
    ensures ImmLdsp(c) < 0x800 && Widen(Sext12(ImmLdsp(c))) == CLdsp(c)
  {
    WidenSmall(ImmLdsp(c));
    assert ImmLdsp(c) as bv64 == CLdsp(c);
  }

  lemma BitsSwsp(c: bv32)
    ensures ImmSwsp(c) < 0x800 && Widen(Sext12(ImmSwsp(c))) == CSwsp(c)
  {
    WidenSmall(ImmSwsp(c));
    assert ImmSwsp(c) as bv64 == CSwsp(c);
  }

  lemma BitsSdsp(c: bv32)
    ensures ImmSdsp(c) < 0x800 && Widen(Sext12(ImmSdsp(c))) == CSdsp(c)
  {
    WidenSmall(ImmSdsp(c));
    assert ImmSdsp(c) as bv64 == CSdsp(c);
  }

  lemma BitsSpn(c: bv32)
    ensures ImmAddi4spn(c) < 0x800 && Widen(Sext12(ImmAddi4spn(c))) == C4spn(c) as bv64
  {
    WidenSmall(ImmAddi4spn(c));
    assert ImmAddi4spn(c) == C4spn(c);
  }

  lemma ShiftBits(c: bv32)
    ensures Uimm6(c) < 0x40 && Uimm6(c) == CShamt(c)
    ensures Uimm6(c) >> 6 == 0 && (0x400 | Uimm6(c)) >> 6 == 0x10 && 0x400 | Uimm6(c) < 0x1000
    ensures Uimm6(c) & 0x3F == CShamt(c) && (0x400 | Uimm6(c)) & 0x3F == CShamt(c)
  {}

  lemma RegisterFields(c: bv32)
    ensures Rd(c) < 32 && RdP(c) < 32 && Rs1P(c) < 32 && Rs2C(c) < 32 && F3(c) < 8
    ensures 8 <= RdP(c) && 8 <= Rs1P(c) && (c >> 12) & 1 < 2
  {}

  // ---- What the handlers do -----------------------------------------------------------------------

  function HandledC0(c: bv32): Insn {
    if F3(c) == 0 then Addi(Ix(RdP(c)), 2, C4spn(c) as bv64)
    else if F3(c) == 2 then Lw(Ix(RdP(c)), Ix(Rs1P(c)), CWord(c))
    else if F3(c) == 3 then Ld(Ix(RdP(c)), Ix(Rs1P(c)), CDouble(c))
    else if F3(c) == 6 then Sw(Ix(Rs1P(c)), Ix(RdP(c)), CWord(c))
    else Sd(Ix(Rs1P(c)), Ix(RdP(c)), CDouble(c))
  }

  /** Bit 12 plays no part: c.subw runs as c.sub and c.xor as c.addw. */
  function HandledAlu(c: bv32): Insn {
    var sel, sub := (c >> 10) & 3, (c >> 5) & 3;
    if sel == 0 then Srli(Ix(Rs1P(c)), Ix(Rs1P(c)), CShamt(c))
    else if sel == 1 then Srai(Ix(Rs1P(c)), Ix(Rs1P(c)), CShamt(c))
    else if sel == 2 then Andi(Ix(Rs1P(c)), Ix(Rs1P(c)), C6(c))
    else if sub == 3 then And(Ix(Rs1P(c)), Ix(Rs1P(c)), Ix(RdP(c)))
    else if sub == 2 then Or(Ix(Rs1P(c)), Ix(Rs1P(c)), Ix(RdP(c)))
    else if sub == 0 then Sub(Ix(Rs1P(c)), Ix(Rs1P(c)), Ix(RdP(c)))
    else Addw(Ix(Rs1P(c)), Ix(Rs1P(c)), Ix(RdP(c)))
  }

  /** c.addiw runs as c.addi. */
  function HandledC1(c: bv32): Insn {
    if F3(c) == 0 || F3(c) == 1 then Addi(Ix(Rd(c)), Ix(Rd(c)), C6(c))
    else if F3(c) == 2 then Addi(Ix(Rd(c)), 0, C6(c))
    else if F3(c) == 3 then if Rd(c) == 2 then Addi(2, 2, C16sp(c)) else Lui(Ix(Rd(c)), CLui(c))
    else if F3(c) == 4 then HandledAlu(c)
    else if F3(c) == 5 then Jal(0, CJump(c))
    else if F3(c) == 6 then Beq(Ix(Rs1P(c)), 0, CBranch(c))
    else Bne(Ix(Rs1P(c)), 0, CBranch(c))
  }

  function HandledC2(c: bv32): Insn {
    var rs2, b12 := Rs2C(c), (c >> 12) & 1;
    if F3(c) == 0 then Slli(Ix(Rd(c)), Ix(Rd(c)), CShamt(c))
    else if F3(c) == 3 then Ld(Ix(Rd(c)), 2, CLdsp(c))
    else if F3(c) == 4 then
      if rs2 == 0 then Jalr(Ix(b12), Ix(Rd(c)), 0) else Add(Ix(Rd(c)), if b12 == 0 then 0 else Ix(Rd(c)), Ix(rs2))
    else if F3(c) == 6 then Sw(2, Ix(rs2), CSwsp(c))
    else Sd(2, Ix(rs2), CSdsp(c))
  }

  /** The instruction whose effect the handler of a compressed one has, jumps through a register
      aside. */
  function Handled(c: bv32): Insn {
    if c & 3 == 0 then HandledC0(c) else if c & 3 == 1 then HandledC1(c) else HandledC2(c)
  }

  /** The encodings two instructions share in the code: c.addiw, c.subw and c.xor. */
  predicate Merged(c: bv32) {
    && c & 3 == 1
    && (F3(c) == 1 || (F3(c) == 4 && (c >> 10) & 3 == 3 && (c >> 5) & 2 == 0 && (c >> 12) & 1 != (c >> 5) & 1))
  }

  // ---- One lemma a form -------------------------------------------------------------------------

  lemma FormAddi4spn(c: bv32)
    ensures Decode(EncI(ImmAddi4spn(c), 2, 0, RdP(c), 0x13)) == Addi(Ix(RdP(c)), 2, C4spn(c) as bv64)
  {
    RegisterFields(c);
    BitsSpn(c);
    var w := FieldsOfI(ImmAddi4spn(c), 2, 0, RdP(c), 0x13);
  }

  lemma FormLw(c: bv32)
    ensures Decode(EncI(ImmW(c), Rs1P(c), 2, RdP(c), 0x03)) == Lw(Ix(RdP(c)), Ix(Rs1P(c)), CWord(c))
  {
    RegisterFields(c);
    BitsW(c);
    var w := FieldsOfI(ImmW(c), Rs1P(c), 2, RdP(c), 0x03);
  }

  lemma FormLd(c: bv32)
    ensures Decode(EncI(ImmD(c), Rs1P(c), 3, RdP(c), 0x03)) == Ld(Ix(RdP(c)), Ix(Rs1P(c)), CDouble(c))
  {
    RegisterFields(c);
    BitsD(c);
    var w := FieldsOfI(ImmD(c), Rs1P(c), 3, RdP(c), 0x03);
  }

  lemma FormSw(c: bv32)
    ensures Decode(EncS(ImmW(c), RdP(c), Rs1P(c), 2, 0x23)) == Sw(Ix(Rs1P(c)), Ix(RdP(c)), CWord(c))
  {
    RegisterFields(c);
    BitsW(c);
    var w := FieldsOfS(ImmW(c), RdP(c), Rs1P(c), 2, 0x23);
  }

  lemma FormSd(c: bv32)
    ensures Decode(EncS(ImmD(c), RdP(c), Rs1P(c), 3, 0x23)) == Sd(Ix(Rs1P(c)), Ix(RdP(c)), CDouble(c))
  {
    RegisterFields(c);
    BitsD(c);
    var w := FieldsOfS(ImmD(c), RdP(c), Rs1P(c), 3, 0x23);
  }

  lemma FormAddi(c: bv32)
    ensures Decode(EncI(Imm6(c), Rd(c), 0, Rd(c), 0x13)) == Addi(Ix(Rd(c)), Ix(Rd(c)), C6(c))
  {
    RegisterFields(c);
    SixBits(c);
    var w := FieldsOfI(Imm6(c), Rd(c), 0, Rd(c), 0x13);
  }

  lemma FormAddiw(c: bv32)
    ensures Decode(EncI(Imm6(c), Rd(c), 0, Rd(c), 0x1B)) == Addiw(Ix(Rd(c)), Ix(Rd(c)), C6(c))
  {
    RegisterFields(c);
    SixBits(c);
    var w := FieldsOfI(Imm6(c), Rd(c), 0, Rd(c), 0x1B);
  }

  lemma FormLi(c: bv32)
    ensures Decode(EncI(Imm6(c), 0, 0, Rd(c), 0x13)) == Addi(Ix(Rd(c)), 0, C6(c))
  {
    RegisterFields(c);
    SixBits(c);
    var w := FieldsOfI(Imm6(c), 0, 0, Rd(c), 0x13);
  }

  lemma FormAddi16sp(c: bv32)
    ensures Decode(EncI(ImmAddi16sp(c), 2, 0, 2, 0x13)) == Addi(2, 2, C16sp(c))
  {
    RegisterFields(c);
    StackBits(c);
    var w := FieldsOfI(ImmAddi16sp(c), 2, 0, 2, 0x13);
  }

  lemma FormSrli(c: bv32)
    ensures Decode(EncI(Uimm6(c), Rs1P(c), 5, Rs1P(c), 0x13)) == Srli(Ix(Rs1P(c)), Ix(Rs1P(c)), CShamt(c))
  {
    RegisterFields(c);
    ShiftBits(c);
    var w := FieldsOfI(Uimm6(c), Rs1P(c), 5, Rs1P(c), 0x13);
  }

  lemma FormSrai(c: bv32)
    ensures Decode(EncI(0x400 | Uimm6(c), Rs1P(c), 5, Rs1P(c), 0x13)) == Srai(Ix(Rs1P(c)), Ix(Rs1P(c)), CShamt(c))
  {
    RegisterFields(c);
    ShiftBits(c);
    var w := FieldsOfI(0x400 | Uimm6(c), Rs1P(c), 5, Rs1P(c), 0x13);
  }

  lemma FormAndi(c: bv32)
    ensures Decode(EncI(Imm6(c), Rs1P(c), 7, Rs1P(c), 0x13)) == Andi(Ix(Rs1P(c)), Ix(Rs1P(c)), C6(c))
  {
    RegisterFields(c);
    SixBits(c);
    var w := FieldsOfI(Imm6(c), Rs1P(c), 7, Rs1P(c), 0x13);
  }

  lemma FormSub(c: bv32)
    ensures Decode(EncR(0x20, RdP(c), Rs1P(c), 0, Rs1P(c), 0x33)) == Sub(Ix(Rs1P(c)), Ix(Rs1P(c)), Ix(RdP(c)))
  {
    RegisterFields(c);
    var w := FieldsOfR(0x20, RdP(c), Rs1P(c), 0, Rs1P(c), 0x33);
  }

  lemma FormXor(c: bv32)
    ensures Decode(EncR(0, RdP(c), Rs1P(c), 4, Rs1P(c), 0x33)) == Xor(Ix(Rs1P(c)), Ix(Rs1P(c)), Ix(RdP(c)))
  {
    RegisterFields(c);
    var w := FieldsOfR(0, RdP(c), Rs1P(c), 4, Rs1P(c), 0x33);
  }

  lemma FormOr(c: bv32)
    ensures Decode(EncR(0, RdP(c), Rs1P(c), 6, Rs1P(c), 0x33)) == Or(Ix(Rs1P(c)), Ix(Rs1P(c)), Ix(RdP(c)))
  {
    RegisterFields(c);
    var w := FieldsOfR(0, RdP(c), Rs1P(c), 6, Rs1P(c), 0x33);
  }

  lemma FormAnd(c: bv32)
    ensures Decode(EncR(0, RdP(c), Rs1P(c), 7, Rs1P(c), 0x33)) == And(Ix(Rs1P(c)), Ix(Rs1P(c)), Ix(RdP(c)))
  {
    RegisterFields(c);
    var w := FieldsOfR(0, RdP(c), Rs1P(c), 7, Rs1P(c), 0x33);
  }

  lemma FormSubw(c: bv32)
    ensures Decode(EncR(0x20, RdP(c), Rs1P(c), 0, Rs1P(c), 0x3B)) == Subw(Ix(Rs1P(c)), Ix(Rs1P(c)), Ix(RdP(c)))
  {
    RegisterFields(c);
    var w := FieldsOfR(0x20, RdP(c), Rs1P(c), 0, Rs1P(c), 0x3B);
  }

  lemma FormAddw(c: bv32)
    ensures Decode(EncR(0, RdP(c), Rs1P(c), 0, Rs1P(c), 0x3B)) == Addw(Ix(Rs1P(c)), Ix(Rs1P(c)), Ix(RdP(c)))
  {
    RegisterFields(c);
    var w := FieldsOfR(0, RdP(c), Rs1P(c), 0, Rs1P(c), 0x3B);
  }

  lemma FormJ(c: bv32)
    ensures Decode(EncJ(OffJ(c), 0)) == Jal(0, CJump(c))
  {
    RegisterFields(c);
    JumpEven(c);
    JumpImm(c);
    var w := FieldsOfJ(OffJ(c), 0);
  }

  lemma FormBeqz(c: bv32)
    ensures Decode(EncB(OffB(c), 0, Rs1P(c), 0)) == Beq(Ix(Rs1P(c)), 0, CBranch(c))
  {
    RegisterFields(c);
    BranchImm(c);
    var w := FieldsOfB(OffB(c), 0, Rs1P(c), 0);
  }

  lemma FormBnez(c: bv32)
    ensures Decode(EncB(OffB(c), 0, Rs1P(c), 1)) == Bne(Ix(Rs1P(c)), 0, CBranch(c))
  {
    RegisterFields(c);
    BranchImm(c);
    var w := FieldsOfB(OffB(c), 0, Rs1P(c), 1);
  }

  lemma FormSlli(c: bv32)
    ensures Decode(EncI(Uimm6(c), Rd(c), 1, Rd(c), 0x13)) == Slli(Ix(Rd(c)), Ix(Rd(c)), CShamt(c))
  {
    RegisterFields(c);
    ShiftBits(c);
    var w := FieldsOfI(Uimm6(c), Rd(c), 1, Rd(c), 0x13);
  }

  lemma FormLdsp(c: bv32)
    ensures Decode(EncI(ImmLdsp(c), 2, 3, Rd(c), 0x03)) == Ld(Ix(Rd(c)), 2, CLdsp(c))
  {
    RegisterFields(c);
    BitsLdsp(c);
    var w := FieldsOfI(ImmLdsp(c), 2, 3, Rd(c), 0x03);
  }

  lemma FormSwsp(c: bv32)
    ensures Decode(EncS(ImmSwsp(c), Rs2C(c), 2, 2, 0x23)) == Sw(2, Ix(Rs2C(c)), CSwsp(c))
  {
    RegisterFields(c);
    BitsSwsp(c);
    var w := FieldsOfS(ImmSwsp(c), Rs2C(c), 2, 2, 0x23);
  }

  lemma FormSdsp(c: bv32)
    ensures Decode(EncS(ImmSdsp(c), Rs2C(c), 2, 3, 0x23)) == Sd(2, Ix(Rs2C(c)), CSdsp(c))
  {
    RegisterFields(c);
    BitsSdsp(c);
    var w := FieldsOfS(ImmSdsp(c), Rs2C(c), 2, 3, 0x23);
  }

  lemma FormJalr(c: bv32)
    ensures Decode(EncI(0, Rd(c), 0, (c >> 12) & 1, 0x67)) == Jalr(Ix((c >> 12) & 1), Ix(Rd(c)), 0)
  {
    RegisterFields(c);
    WidenSmall(0);
    var w := FieldsOfI(0, Rd(c), 0, (c >> 12) & 1, 0x67);
  }

  lemma FormMv(c: bv32)
    ensures Decode(EncR(0, Rs2C(c), 0, 0, Rd(c), 0x33)) == Add(Ix(Rd(c)), 0, Ix(Rs2C(c)))
  {
    RegisterFields(c);
    var w := FieldsOfR(0, Rs2C(c), 0, 0, Rd(c), 0x33);
  }

  lemma FormAddC(c: bv32)
    ensures Decode(EncR(0, Rs2C(c), Rd(c), 0, Rd(c), 0x33)) == Add(Ix(Rd(c)), Ix(Rd(c)), Ix(Rs2C(c)))
  {
    RegisterFields(c);
    var w := FieldsOfR(0, Rs2C(c), Rd(c), 0, Rd(c), 0x33);
  }


  // ---- The expansion and the handlers ---------------------------------------------------------------

  lemma C0Agrees(c: bv32)
    requires c & 3 == 0 && Expand(c).Some?
    ensures Decode(Expand(c).value) == HandledC0(c)
  {
    if F3(c) == 0 { FormAddi4spn(c); }
    else if F3(c) == 2 { FormLw(c); }
    else if F3(c) == 3 { FormLd(c); }
    else if F3(c) == 6 { FormSw(c); }
    else { FormSd(c); }
  }

  lemma AluAgrees(c: bv32)
    requires ExpandAlu(c).Some?
    ensures Decode(ExpandAlu(c).value) == HandledAlu(c)
            <==> !((c >> 10) & 3 == 3 && (c >> 5) & 2 == 0 && (c >> 12) & 1 != (c >> 5) & 1)
  {
    var sel, sub := (c >> 10) & 3, (c >> 5) & 3;
    if sel == 0 { FormSrli(c); }
    else if sel == 1 { FormSrai(c); }
    else if sel == 2 { FormAndi(c); }
    else { LogicAgrees(c); }
  }

  lemma LogicAgrees(c: bv32)
    requires ExpandAlu(c).Some? && (c >> 10) & 3 == 3
    ensures Decode(ExpandAlu(c).value) == HandledAlu(c)
            <==> !((c >> 5) & 2 == 0 && (c >> 12) & 1 != (c >> 5) & 1)
  {
    FormSub(c);
    FormXor(c);
    FormOr(c);
    FormAnd(c);
    FormSubw(c);
    FormAddw(c);
  }

  lemma UpperAgrees(c: bv32)
    requires ExpandUpper(c).Some?
    ensures Decode(ExpandUpper(c).value) == if Rd(c) == 2 then Addi(2, 2, C16sp(c)) else Lui(Ix(Rd(c)), CLui(c))
  {
    if Rd(c) == 2 { FormAddi16sp(c); } else { var w := UpperBits(c); }
  }

  lemma C1Agrees(c: bv32)
    requires c & 3 == 1 && Expand(c).Some?
    ensures Decode(Expand(c).value) == HandledC1(c) <==> !Merged(c)
  {
    RegisterFields(c);
    if F3(c) == 0 { FormAddi(c); }
    else if F3(c) == 1 { FormAddiw(c); }
    else if F3(c) == 2 { FormLi(c); }
    else if F3(c) == 3 { UpperAgrees(c); }
    else if F3(c) == 4 { AluAgrees(c); }
    else if F3(c) == 5 { FormJ(c); }
    else if F3(c) == 6 { FormBeqz(c); }
    else { FormBnez(c); }
  }

  lemma C2Agrees(c: bv32)
    requires c & 3 == 2 && Expand(c).Some?
    ensures Decode(Expand(c).value) == HandledC2(c)
  {
    RegisterFields(c);
    if F3(c) == 0 { FormSlli(c); }
    else if F3(c) == 3 { FormLdsp(c); }
    else if F3(c) == 4 && Rs2C(c) == 0 { FormJalr(c); }
    else if F3(c) == 4 { FormMv(c); FormAddC(c); }
    else if F3(c) == 6 { FormSwsp(c); }
    else { FormSdsp(c); }
  }

  /** The handlers carry out the standard's expansion, but for the three merged encodings. */
  lemma HandledIsExpansion(c: bv32)
    requires Expand(c).Some?
    ensures Handled(c) == Decode(Expand(c).value) <==> !Merged(c)
  {
    if c & 3 == 0 { C0Agrees(c); } else if c & 3 == 1 { C1Agrees(c); } else { C2Agrees(c); }
  }
}
