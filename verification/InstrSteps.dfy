/** The effects of the handlers of `src/instructions.c` on a hart, compressed and base, compared
    with the standard and with each other. */
module InstrSteps {
  import opened Options
  import opened Isa
  import opened InstrModel
  import opened InstrExpand

  // ---- Compressed handlers ---------------------------------------------------------------------

  /** c.jr and c.jalr */
  predicate RegisterJump(c: bv32) {
    c & 3 == 2 && F3(c) == 4 && Rs2C(c) == 0
  }

  predicate Links(c: bv32) { (c >> 12) & 1 == 1 }

  /** c.jr: bit 0 of the target stays. */
  function JumpTo(rs1: RegNo, s: Core): Core { s.(pc := Reg(s, rs1)) }

  /** c.jalr: the link is written before the target is read. */
  function LinkThenJump(rs1: RegNo, s: Core): Core {
    var t := SetReg(s, 1, Plus(s.pc, 2));
    t.(pc := Even(Reg(t, rs1)))
  }

  /** The effect of the handler of a compressed instruction. */
  function Compressed(c: bv32, s: Core, loaded: bv64): Core {
    if !RegisterJump(c) then Execute(Handled(c), s, 2, loaded)
    else if Links(c) then LinkThenJump(Ix(Rd(c)), s)
    else JumpTo(Ix(Rd(c)), s)
  }

  lemma ClearBit(x: bv64)
    ensures Even(x) == x <==> x & 1 == 0
  {}

  lemma Plain(x: bv64)
    ensures Plus(x, 0) == x
  {}

  lemma JumpEffect(rs1: RegNo, s: Core, loaded: bv64)
    ensures JumpTo(rs1, s) == Execute(Jalr(0, rs1, 0), s, 2, loaded) <==> Reg(s, rs1) & 1 == 0
  {
    Plain(Reg(s, rs1));
    ClearBit(Reg(s, rs1));
  }

  lemma OtherUntouched(rs1: RegNo, s: Core, v: bv64)
    requires rs1 != 1
    ensures Reg(SetReg(s, 1, v), rs1) == Reg(s, rs1)
  {}

  lemma LinkElsewhere(rs1: RegNo, s: Core, loaded: bv64)
    requires rs1 != 1
    ensures LinkThenJump(rs1, s) == Execute(Jalr(1, rs1, 0), s, 2, loaded)
  {
    Plain(Reg(s, rs1));
    OtherUntouched(rs1, s, Plus(s.pc, 2));
  }

  lemma RaTarget(s: Core)
    ensures LinkThenJump(1, s).pc == Even(Plus(s.pc, 2))
  {}

  lemma RaMeant(s: Core, loaded: bv64)
    ensures Execute(Jalr(1, 1, 0), s, 2, loaded).pc == Even(Reg(s, 1))
  {
    Plain(Reg(s, 1));
  }

  lemma RaRest(s: Core, loaded: bv64)
    ensures LinkThenJump(1, s) == Execute(Jalr(1, 1, 0), s, 2, loaded).(pc := LinkThenJump(1, s).pc)
  {}

  lemma LinkThroughRa(s: Core, loaded: bv64)
    ensures LinkThenJump(1, s) == Execute(Jalr(1, 1, 0), s, 2, loaded) <==> Even(Reg(s, 1)) == Even(Plus(s.pc, 2))
  {
    RaTarget(s);
    RaMeant(s, loaded);
    RaRest(s, loaded);
  }

  lemma JumpHandled(c: bv32)
    requires RegisterJump(c)
    ensures Handled(c) == Jalr(if Links(c) then 1 else 0, Ix(Rd(c)), 0)
  {}

  /** What a jump through a register must meet: an even target for c.jr; for c.jalr another register
      than ra, or an ra that already holds the link. */
  predicate TargetFits(c: bv32, s: Core) {
    RegisterJump(c) ==>
      if Links(c) then Ix(Rd(c)) != 1 || Even(Reg(s, 1)) == Even(Plus(s.pc, 2)) else Reg(s, Ix(Rd(c))) & 1 == 0
  }

  lemma RegisterJumpFits(c: bv32, s: Core, loaded: bv64)
    requires RegisterJump(c)
    ensures Compressed(c, s, loaded) == Execute(Handled(c), s, 2, loaded) <==> TargetFits(c, s)
  {
    JumpHandled(c);
    if !Links(c) { JumpEffect(Ix(Rd(c)), s, loaded); }
    else if Ix(Rd(c)) == 1 { LinkThroughRa(s, loaded); }
    else { LinkElsewhere(Ix(Rd(c)), s, loaded); }
  }

  /** Executing a compressed instruction is executing its expansion, exactly when its target fits. */
  lemma CompressedCommutes(c: bv32, s: Core, loaded: bv64)
    requires Expand(c).Some? && !Merged(c)
    ensures Compressed(c, s, loaded) == Execute(Decode(Expand(c).value), s, 2, loaded) <==> TargetFits(c, s)
  {
    HandledIsExpansion(c);
    if RegisterJump(c) { RegisterJumpFits(c, s, loaded); }
  }

  lemma BranchHandled(c: bv32)
    requires c & 3 == 1
    ensures F3(c) == 6 ==> Handled(c) == Beq(Ix(Rs1P(c)), 0, CBranch(c))
    ensures F3(c) == 7 ==> Handled(c) == Bne(Ix(Rs1P(c)), 0, CBranch(c))
  {}

  lemma MoveHandled(c: bv32)
    requires c & 3 == 2 && F3(c) == 4 && Rs2C(c) != 0
    ensures Handled(c) == Add(Ix(Rd(c)), if (c >> 12) & 1 == 0 then 0 else Ix(Rd(c)), Ix(Rs2C(c)))
  {}

  lemma LogicHandled(c: bv32)
    requires c & 3 == 1 && F3(c) == 4 && (c >> 10) & 3 == 3 && (c >> 5) & 2 != 0
    ensures var rd, rs2 := Ix(Rs1P(c)), Ix(RdP(c));
            Handled(c) == if (c >> 5) & 3 == 3 then And(rd, rd, rs2) else Or(rd, rd, rs2)
  {}

  lemma ArithHandled(c: bv32)
    requires c & 3 == 1 && F3(c) == 4 && (c >> 10) & 3 == 3 && (c >> 5) & 2 == 0
    ensures var rd, rs2 := Ix(Rs1P(c)), Ix(RdP(c));
            Handled(c) == if (c >> 5) & 3 == 0 then Sub(rd, rd, rs2) else Addw(rd, rd, rs2)
  {}

  // ---- Merged encodings ---------------------------------------------------------------------------

  function Probe(rd: RegNo, a: bv64, others: bv64): (s: Core)
    ensures s.gpr[0] == 0
  {
    var g: Regs := seq(32, i => if i == 0 then 0 else if i == rd then a else others);
    Core(0, g, NoRequest)
  }

  lemma BackAgain(imm: bv64)
    ensures Plus(0x1_0000_0000 - imm, imm) == 0x1_0000_0000 && AddWord(0x1_0000_0000 - imm, imm) == 0
  {}

  lemma AddiTotal(rd: RegNo, imm: bv64, s: Core)
    requires rd != 0
    ensures Execute(Addi(rd, rd, imm), s, 2, 0).gpr[rd] == Plus(Reg(s, rd), imm)
    ensures Execute(Addiw(rd, rd, imm), s, 2, 0).gpr[rd] == AddWord(Reg(s, rd), imm)
  {}

  lemma AddiwDiffers(rd: RegNo, imm: bv64) returns (s: Core)
    requires rd != 0
    ensures s.gpr[0] == 0 && Execute(Addi(rd, rd, imm), s, 2, 0) != Execute(Addiw(rd, rd, imm), s, 2, 0)
  {
    s := Probe(rd, 0x1_0000_0000 - imm, 0);
    BackAgain(imm);
    AddiTotal(rd, imm, s);
  }

  lemma SubwDiffers(rd: RegNo, rs2: RegNo) returns (s: Core)
    requires rd != 0 && rs2 != rd
    ensures s.gpr[0] == 0 && Execute(Sub(rd, rd, rs2), s, 2, 0) != Execute(Subw(rd, rd, rs2), s, 2, 0)
  {
    s := Probe(rd, 0x1_0000_0000, 0);
    assert Execute(Sub(rd, rd, rs2), s, 2, 0).gpr[rd] == 0x1_0000_0000;
    assert Execute(Subw(rd, rd, rs2), s, 2, 0).gpr[rd] == SubWord(0x1_0000_0000, 0);
  }

  lemma XorDiffers(rd: RegNo, rs2: RegNo) returns (s: Core)
    requires rd != 0 && rs2 != 0
    ensures s.gpr[0] == 0 && Execute(Addw(rd, rd, rs2), s, 2, 0) != Execute(Xor(rd, rd, rs2), s, 2, 0)
  {
    s := Probe(rd, 1, 1);
    assert Execute(Addw(rd, rd, rs2), s, 2, 0).gpr[rd] == AddWord(1, 1);
    assert Execute(Xor(rd, rd, rs2), s, 2, 0).gpr[rd] == 0;
  }

  lemma SubwSelf(rd: RegNo, s: Core, loaded: bv64)
    ensures Execute(Sub(rd, rd, rd), s, 2, loaded) == Execute(Subw(rd, rd, rd), s, 2, loaded)
  {
    Cancels(Reg(s, rd));
    ComputeEffect(Sub(rd, rd, rd), s, 2, loaded);
    ComputeEffect(Subw(rd, rd, rd), s, 2, loaded);
  }

  lemma Cancels(x: bv64)
    ensures Minus(x, x) == 0 && SubWord(x, x) == 0
  {}

  lemma RegisterNumbers(c: bv32)
    ensures Ix(Rs1P(c)) != 0 && Ix(RdP(c)) != 0
    ensures Ix(Rd(c)) == 0 <==> Rd(c) == 0
    ensures Ix(Rs1P(c)) == Ix(RdP(c)) <==> Rs1P(c) == RdP(c)
  {}

  lemma RegisterTwo(c: bv32)
    ensures Ix(Rd(c)) == 2 <==> Rd(c) == 2
  {}

  lemma FromZero(x: bv64)
    ensures Plus(0, x) == x
  {}

  /** What the three merged encodings stand for, and what runs instead. */
  lemma MergedMeaning(c: bv32)
    requires Expand(c).Some? && Merged(c)
    ensures F3(c) == 1 ==> && Rd(c) != 0
                           && Handled(c) == Addi(Ix(Rd(c)), Ix(Rd(c)), C6(c))
                           && Decode(Expand(c).value) == Addiw(Ix(Rd(c)), Ix(Rd(c)), C6(c))
    ensures F3(c) != 1 && (c >> 5) & 3 == 0 ==>
              && Handled(c) == Sub(Ix(Rs1P(c)), Ix(Rs1P(c)), Ix(RdP(c)))
              && Decode(Expand(c).value) == Subw(Ix(Rs1P(c)), Ix(Rs1P(c)), Ix(RdP(c)))
    ensures F3(c) != 1 && (c >> 5) & 3 != 0 ==>
              && Handled(c) == Addw(Ix(Rs1P(c)), Ix(Rs1P(c)), Ix(RdP(c)))
              && Decode(Expand(c).value) == Xor(Ix(Rs1P(c)), Ix(Rs1P(c)), Ix(RdP(c)))
  {
    FormAddiw(c);
    FormSubw(c);
    FormXor(c);
  }

  /** c.subw of a register with itself */
  predicate SubwOfItself(c: bv32) {
    F3(c) == 4 && (c >> 5) & 3 == 0 && Rs1P(c) == RdP(c)
  }

  /** A merged encoding goes wrong on some state, but for c.subw of a register with itself ... */
  lemma MergedDiffers(c: bv32) returns (s: Core)
    requires Expand(c).Some? && Merged(c) && !SubwOfItself(c)
    ensures s.gpr[0] == 0
    ensures Execute(Handled(c), s, 2, 0) != Execute(Decode(Expand(c).value), s, 2, 0)
  {
    MergedMeaning(c);
    RegisterNumbers(c);
    if F3(c) == 1 { s := AddiwDiffers(Ix(Rd(c)), C6(c)); }
    else if (c >> 5) & 3 == 0 { s := SubwDiffers(Ix(Rs1P(c)), Ix(RdP(c))); }
    else { s := XorDiffers(Ix(Rs1P(c)), Ix(RdP(c))); }
  }

  /** ... which gives 0 either way. */
  lemma SubwOfItselfAgrees(c: bv32, s: Core, loaded: bv64)
    requires Expand(c).Some? && Merged(c) && SubwOfItself(c)
    ensures Execute(Handled(c), s, 2, loaded) == Execute(Decode(Expand(c).value), s, 2, loaded)
  {
    MergedMeaning(c);
    SubwSelf(Ix(RdP(c)), s, loaded);
  }

  // ---- Base handlers ------------------------------------------------------------------------------

  /** What the base handler of w carries out: jal and blt read shortened offsets, bge compares
      unsigned, lw does not extend the sign. */
  function Performed(w: bv32): Insn {
    match Decode(w)
    case Jal(rd, _) => Jal(rd, J20(w))
    case Blt(rs1, rs2, _) => Blt(rs1, rs2, B12(w))
    case Bge(rs1, rs2, offset) => Bgeu(rs1, rs2, offset)
    case Lw(rd, rs1, imm) => Lwu(rd, rs1, imm)
    case i => i
  }

  /** The base handlers carry out the standard's instructions, but for lw and bge, for jal offsets from
      2^19 on and for blt offsets from 2^11 on. */
  lemma PerformedIsDecoded(w: bv32)
    ensures Performed(w) == Decode(w)
            <==> && !Decode(w).Lw? && !Decode(w).Bge?
                 && (Decode(w).Jal? ==> (w >> 31) & 1 == (w >> 19) & 1)
                 && (Decode(w).Blt? ==> (w >> 31) & 1 == (w >> 7) & 1)
  {
    if Decode(w).Jal? {
      JalShape(w);
      LostBits(w);
    } else if Decode(w).Blt? {
      BltShape(w);
      LostBits(w);
    }
  }

  lemma JalShape(w: bv32)
    ensures Decode(w).Jal? ==> Decode(w).offset == ImmJ(w)
  {}

  lemma BltShape(w: bv32)
    ensures Decode(w).Blt? ==> Decode(w).offset == ImmB(w)
  {}

  function LoadInsn(w: bv32): Insn {
    if (w >> 12) & 7 == 3 then Ld(Ix(Rd(w)), Ix(Rs1(w)), ImmI(w)) else Lwu(Ix(Rd(w)), Ix(Rs1(w)), ImmI(w))
  }

  function StoreInsn(w: bv32): Insn {
    if (w >> 12) & 7 == 3 then Sd(Ix(Rs1(w)), Ix(Rs2(w)), ImmS(w)) else Sw(Ix(Rs1(w)), Ix(Rs2(w)), ImmS(w))
  }

  lemma MemoryDecoded(w: bv32)
    requires w & 0x7F == 0x03 || w & 0x7F == 0x23
    ensures Decode(w) == DecodeMemory(w)
  {}

  lemma LoadPerformed(w: bv32)
    requires w & 0x7F == 0x03 && Decode(w) != Other
    ensures Performed(w) == LoadInsn(w) && ((w >> 12) & 7 == 2 || (w >> 12) & 7 == 3 || (w >> 12) & 7 == 6)
  {
    MemoryDecoded(w);
  }

  lemma StorePerformed(w: bv32)
    requires w & 0x7F == 0x23 && Decode(w) != Other
    ensures Performed(w) == StoreInsn(w) && ((w >> 12) & 7 == 2 || (w >> 12) & 7 == 3)
  {
    MemoryDecoded(w);
  }

  lemma WordPerformed(w: bv32)
    requires (w & 0x7F == 0x3B || w & 0x7F == 0x1B) && Decode(w) != Other
    ensures var rd, rs1, rs2 := Ix(Rd(w)), Ix(Rs1(w)), Ix(Rs2(w));
            Performed(w) == if w & 0x7F == 0x1B then Addiw(rd, rs1, ImmI(w))
                            else if w >> 25 == 0 then Addw(rd, rs1, rs2) else Subw(rd, rs1, rs2)
  {}

  lemma OtherPerformed(w: bv32)
    requires (w & 0x7F == 0x37 || w & 0x7F == 0x6F || w & 0x7F == 0x67) && Decode(w) != Other
    ensures Performed(w) == if w & 0x7F == 0x37 then Lui(Ix(Rd(w)), Widen(w & 0xFFFF_F000))
                            else if w & 0x7F == 0x6F then Jal(Ix(Rd(w)), J20(w))
                            else Jalr(Ix(Rd(w)), Ix(Rs1(w)), ImmI(w))
  {}

  lemma BranchDecoded(w: bv32)
    requires w & 0x7F == 0x63
    ensures Decode(w) == DecodeBranch(w)
  {}

  lemma BranchPerformed(w: bv32)
    requires w & 0x7F == 0x63 && Decode(w) != Other
    ensures var f3, rs1, rs2 := (w >> 12) & 7, Ix(Rs1(w)), Ix(Rs2(w));
            && (f3 == 0 || f3 == 1 || f3 == 4 || f3 == 5 || f3 == 6 || f3 == 7)
            && Performed(w) == if f3 == 0 then Beq(rs1, rs2, ImmB(w))
                               else if f3 == 1 then Bne(rs1, rs2, ImmB(w))
                               else if f3 == 4 then Blt(rs1, rs2, B12(w))
                               else if f3 == 6 then Bltu(rs1, rs2, ImmB(w))
                               else Bgeu(rs1, rs2, ImmB(w))
  {
    BranchDecoded(w);
  }

  lemma LwEffect(rd: RegNo, rs1: RegNo, imm: bv64, s: Core, len: bv64, loaded: bv64)
    ensures Execute(Lw(rd, rs1, imm), s, len, loaded)
         == Core(Plus(s.pc, len), Write(s.gpr, rd, SignedWord(loaded)), Load(Plus(Reg(s, rs1), imm), 4))
  {}

  lemma LwuEffect(rd: RegNo, rs1: RegNo, imm: bv64, s: Core, len: bv64, loaded: bv64)
    ensures Execute(Lwu(rd, rs1, imm), s, len, loaded)
         == Core(Plus(s.pc, len), Write(s.gpr, rd, UnsignedWord(loaded)), Load(Plus(Reg(s, rs1), imm), 4))
  {}

  lemma WrittenValue(g: Regs, rd: RegNo, v: bv64, v': bv64)
    requires rd != 0
    ensures Write(g, rd, v) == Write(g, rd, v') <==> v == v'
  {
    assert g[rd := v][rd] == v && g[rd := v'][rd] == v';
  }

  /** Two word loads that extend their word differently. */
  lemma LoadsMeet(rd: RegNo, rs1: RegNo, imm: bv64, s: Core, loaded: bv64) returns (w: Regs, w': Regs)
    requires rd != 0
    ensures Execute(Lwu(rd, rs1, imm), s, 4, loaded) == Execute(Lw(rd, rs1, imm), s, 4, loaded) <==> w == w'
    ensures w == w' <==> UnsignedWord(loaded) == SignedWord(loaded)
  {
    LwEffect(rd, rs1, imm, s, 4, loaded);
    LwuEffect(rd, rs1, imm, s, 4, loaded);
    w, w' := Write(s.gpr, rd, UnsignedWord(loaded)), Write(s.gpr, rd, SignedWord(loaded));
    WrittenValue(s.gpr, rd, UnsignedWord(loaded), SignedWord(loaded));
  }

  /** lw gives the standard's word exactly when bit 31 of the word read is clear. */
  lemma LwExact(rd: RegNo, rs1: RegNo, imm: bv64, s: Core, loaded: bv64)
    requires rd != 0
    ensures Execute(Lwu(rd, rs1, imm), s, 4, loaded) == Execute(Lw(rd, rs1, imm), s, 4, loaded)
            <==> loaded & 0x8000_0000 == 0
  {
    WordSign(loaded);
    var w, w' := LoadsMeet(rd, rs1, imm, s, loaded);
  }

  lemma WordSign(x: bv64)
    ensures UnsignedWord(x) == SignedWord(x) <==> x & 0x8000_0000 == 0
  {}

  // ---- The two implementations --------------------------------------------------------------------

  /** Same registers, same memory access and same pc, apart from the length of the instruction in
      a fall-through pc and in the link. */
  predicate SameButLength(a: Core, b: Core, s: Core) {
    && a.request == b.request
    && (a.pc == b.pc || (a.pc == Plus(s.pc, 2) && b.pc == Plus(s.pc, 4)))
    && (a.gpr == b.gpr || (a.gpr == s.gpr[1 := Plus(s.pc, 2)] && b.gpr == s.gpr[1 := Plus(s.pc, 4)]))
  }

  lemma LengthMatters(i: Insn, s: Core, loaded: bv64)
    requires i.Jal? ==> i.rd == 0
    requires i.Jalr? ==> i.rd <= 1
    ensures SameButLength(Execute(i, s, 2, loaded), Execute(i, s, 4, loaded), s)
  {}

  /** A compressed handler and the base handler of its expansion have the same effect. */
  lemma ImplementationsCommute(c: bv32, s: Core, loaded: bv64)
    requires Expand(c).Some? && !Merged(c) && TargetFits(c, s)
    requires !Handled(c).Lw?
    ensures SameButLength(Compressed(c, s, loaded), Execute(Performed(Expand(c).value), s, 4, loaded), s)
  {
    CompressedCommutes(c, s, loaded);
    HandledIsExpansion(c);
    PerformedIsDecoded(Expand(c).value);
    ExpandedShape(c);
    LengthMatters(Handled(c), s, loaded);
  }

  lemma ExpandedShape(c: bv32)
    requires Expand(c).Some?
    ensures !Handled(c).Blt? && !Handled(c).Bge?
    ensures Handled(c).Jal? ==> Handled(c).rd == 0
    ensures Handled(c).Jalr? ==> Handled(c).rd <= 1
    ensures Handled(c).Jal? ==> (Expand(c).value >> 31) & 1 == (Expand(c).value >> 19) & 1
  {}

  lemma ComputeEffect(i: Insn, s: Core, len: bv64, loaded: bv64)
    requires Computes(i)
    ensures Execute(i, s, len, loaded) == Core(Plus(s.pc, len), Write(s.gpr, i.rd, Computed(i, s)), s.request)
  {}

  lemma LdEffect(rd: RegNo, rs1: RegNo, imm: bv64, s: Core, len: bv64, loaded: bv64)
    ensures Execute(Ld(rd, rs1, imm), s, len, loaded)
         == Core(Plus(s.pc, len), Write(s.gpr, rd, loaded), Load(Plus(Reg(s, rs1), imm), 8))
  {}

  lemma JalEffect(rd: RegNo, offset: bv64, s: Core, len: bv64)
    ensures Execute(Jal(rd, offset), s, len, 0)
         == Core(Plus(s.pc, offset), Write(s.gpr, rd, Plus(s.pc, len)), s.request)
  {}

  lemma JalrEffect(rd: RegNo, rs1: RegNo, imm: bv64, s: Core, len: bv64)
    ensures Execute(Jalr(rd, rs1, imm), s, len, 0)
         == Core(Even(Plus(Reg(s, rs1), imm)), Write(s.gpr, rd, Plus(s.pc, len)), s.request)
  {}

  lemma BgeuTaken(rs1: RegNo, rs2: RegNo, offset: bv64, s: Core)
    ensures Taken(Bgeu(rs1, rs2, offset), s) == !Below(Reg(s, rs1), Reg(s, rs2))
  {}

  lemma BltuTaken(rs1: RegNo, rs2: RegNo, offset: bv64, s: Core)
    ensures Taken(Bltu(rs1, rs2, offset), s) == Below(Reg(s, rs1), Reg(s, rs2))
  {}

  lemma SwEffect(rs1: RegNo, rs2: RegNo, imm: bv64, s: Core, len: bv64)
    ensures Execute(Sw(rs1, rs2, imm), s, len, 0)
         == Core(Plus(s.pc, len), s.gpr, Store(Plus(Reg(s, rs1), imm), UnsignedWord(Reg(s, rs2)), 4))
  {}

  lemma SdEffect(rs1: RegNo, rs2: RegNo, imm: bv64, s: Core, len: bv64)
    ensures Execute(Sd(rs1, rs2, imm), s, len, 0) == Core(Plus(s.pc, len), s.gpr, Store(Plus(Reg(s, rs1), imm), Reg(s, rs2), 8))
  {}

  lemma BranchEffect(i: Insn, s: Core, len: bv64)
    requires Branches(i)
    ensures Execute(i, s, len, 0) == s.(pc := if Taken(i, s) then Plus(s.pc, i.offset) else Plus(s.pc, len))
  {}

  /** Only loads look at what the bus answers. */
  lemma LoadedUnused(i: Insn, s: Core, len: bv64, loaded: bv64)
    ensures i.Lw? || i.Lwu? || i.Ld? || Execute(i, s, len, loaded) == Execute(i, s, len, 0)
  {}
}
