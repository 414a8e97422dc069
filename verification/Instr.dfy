/** The instruction handlers of `src/instructions.c`: they read the fields of an instruction and
    update the program counter and the register file in place. */
module InstrUnit {
  import opened Options
  import opened Isa
  import opened InstrModel
  import opened InstrExpand
  import opened InstrSteps
  import opened InstrBits
  import opened InstrWords

  class Hart {
    var pc: bv64
    const gpr: array<bv64>
    /** The last access made through `get_pa` and the bus. */
    var request: Request

    ghost predicate Valid()
      reads this, gpr
    {
      gpr.Length == 32 && gpr[0] == 0
    }

    ghost function State(): Core
      reads this, gpr
      requires gpr.Length == 32
    {
      Core(pc, gpr[..], request)
    }

    constructor ()
      ensures Valid() && fresh(gpr)
      ensures pc == 0 && request == NoRequest && forall r :: 0 <= r < 32 ==> gpr[r] == 0
    {
      pc, request := 0, NoRequest;
      gpr := new bv64[32](_ => 0);
    }

    /** Writes a register, then moves past the instruction. */
    method WriteBack(rd: RegNo, v: bv64, len: bv64)
      requires Valid()
      modifies this, gpr
      ensures Valid() && State() == Core(Plus(old(pc), len), Write(old(State()).gpr, rd, v), old(request))
      ensures rd != 0 ==> gpr[rd] == v
    {
      if rd != 0 { gpr[rd] := v; }
      pc := Plus(pc, len);
    }

    method FinishInto(rd: RegNo, v: bv64, len: bv64, ghost i: Insn)
      requires Valid() && Computes(i) && i.rd == rd && v == Computed(i, State())
      modifies this, gpr
      ensures Valid() && State() == Execute(i, old(State()), len, 0)
      ensures rd != 0 ==> gpr[rd] == v
    {
      ComputeEffect(i, State(), len, 0);
      WriteBack(rd, v, len);
    }

    method Finish(rd: RegNo, v: bv64, len: bv64, ghost i: Insn)
      requires Valid() && Computes(i) && i.rd == rd && v == Computed(i, State())
      modifies this, gpr
      ensures Valid() && State() == Execute(i, old(State()), len, 0)
    {
      FinishInto(rd, v, len, i);
    }

    /** A load through `get_pa` and the bus, which leaves `word` in the register. */
    method FinishLoad(rd: RegNo, addr: bv64, size: nat, word: bv64, len: bv64)
      requires Valid()
      modifies this, gpr
      ensures Valid()
      ensures State() == Core(Plus(old(pc), len), Write(old(State()).gpr, rd, word), Load(addr, size))
    {
      request := Load(addr, size);
      if rd != 0 { gpr[rd] := word; }
      pc := Plus(pc, len);
    }

    // A load goes through `get_pa` and the bus, which answers `loaded`.

    /** ld */
    method LoadDouble(rd: RegNo, rs1: RegNo, imm: bv64, len: bv64, loaded: bv64)
      requires Valid()
      modifies this, gpr
      ensures Valid() && State() == Execute(Ld(rd, rs1, imm), old(State()), len, loaded)
    {
      LdEffect(rd, rs1, imm, State(), len, loaded);
      FinishLoad(rd, Plus(gpr[rs1], imm), 8, loaded, len);
    }

    /** c.lw */
    method LoadWord(rd: RegNo, rs1: RegNo, imm: bv64, len: bv64, loaded: bv64)
      requires Valid()
      modifies this, gpr
      ensures Valid() && State() == Execute(Lw(rd, rs1, imm), old(State()), len, loaded)
    {
      LwEffect(rd, rs1, imm, State(), len, loaded);
      FinishLoad(rd, Plus(gpr[rs1], imm), 4, SignedWord(loaded), len);
    }

    /** lwu, and lw as the code has it */
    method LoadUnsigned(rd: RegNo, rs1: RegNo, imm: bv64, len: bv64, loaded: bv64)
      requires Valid()
      modifies this, gpr
      ensures Valid() && State() == Execute(Lwu(rd, rs1, imm), old(State()), len, loaded)
    {
      LwuEffect(rd, rs1, imm, State(), len, loaded);
      FinishLoad(rd, Plus(gpr[rs1], imm), 4, UnsignedWord(loaded), len);
    }

    method FinishStore(addr: bv64, value: bv64, size: nat, len: bv64)
      requires Valid()
      modifies this
      ensures Valid()
      ensures State() == Core(Plus(old(pc), len), old(State()).gpr, Store(addr, value, size))
    {
      request := Store(addr, value, size);
      pc := Plus(pc, len);
    }

    method StoreDouble(rs1: RegNo, rs2: RegNo, imm: bv64, len: bv64)
      requires Valid()
      modifies this
      ensures Valid() && State() == Execute(Sd(rs1, rs2, imm), old(State()), len, 0)
    {
      SdEffect(rs1, rs2, imm, State(), len);
      FinishStore(Plus(gpr[rs1], imm), gpr[rs2], 8, len);
    }

    method StoreWord(rs1: RegNo, rs2: RegNo, imm: bv64, len: bv64)
      requires Valid()
      modifies this
      ensures Valid() && State() == Execute(Sw(rs1, rs2, imm), old(State()), len, 0)
    {
      SwEffect(rs1, rs2, imm, State(), len);
      FinishStore(Plus(gpr[rs1], imm), UnsignedWord(gpr[rs2]), 4, len);
    }

    /** Moves to a branch target or past the instruction. */
    method FinishBranch(taken: bool, offset: bv64, len: bv64, ghost i: Insn)
      requires Valid() && Branches(i)
      requires i.offset == offset && taken == Taken(i, State())
      modifies this
      ensures Valid() && State() == Execute(i, old(State()), len, 0)
    {
      BranchEffect(i, State(), len);
      if taken { pc := Plus(pc, offset); } else { pc := Plus(pc, len); }
    }

    // ---- Quadrant 0 -------------------------------------------------------------------------------

    method CAddi4spn(c: bv32)
      requires Valid() && c & 3 == 0 && F3(c) == 0
      modifies this, gpr
      ensures Valid()
      ensures Expand(c).Some? ==> State() == Execute(Handled(c), old(State()), 2, 0)
      ensures Expand(c).None? ==> State() == old(State()).(pc := Plus(old(pc), 2))
    {
      BitsSpn(c);
      if C4spn(c) != 0 {
        RegisterNumbers(c);
        Finish(Ix(RdP(c)), Plus(gpr[2], C4spn(c) as bv64), 2, Addi(Ix(RdP(c)), 2, C4spn(c) as bv64));
      } else {
        pc := Plus(pc, 2);
      }
    }

    method CLoad(c: bv32, loaded: bv64)
      requires Valid() && c & 3 == 0 && (F3(c) == 2 || F3(c) == 3)
      modifies this, gpr
      ensures Valid() && State() == Execute(Handled(c), old(State()), 2, loaded)
    {
      if F3(c) == 2 {
        LoadWord(Ix(RdP(c)), Ix(Rs1P(c)), CWord(c), 2, loaded);
      } else {
        LoadDouble(Ix(RdP(c)), Ix(Rs1P(c)), CDouble(c), 2, loaded);
      }
    }

    method CStore(c: bv32)
      requires Valid() && c & 3 == 0 && (F3(c) == 6 || F3(c) == 7)
      modifies this, gpr
      ensures Valid() && State() == Execute(Handled(c), old(State()), 2, 0)
    {
      if F3(c) == 6 {
        StoreWord(Ix(Rs1P(c)), Ix(RdP(c)), CWord(c), 2);
      } else {
        StoreDouble(Ix(Rs1P(c)), Ix(RdP(c)), CDouble(c), 2);
      }
    }

    // ---- Quadrant 1 -------------------------------------------------------------------------------

    /** c.addi and c.li */
    method CImmediate(c: bv32)
      requires Valid() && c & 3 == 1 && (F3(c) == 0 || F3(c) == 2)
      modifies this, gpr
      ensures Valid() && State() == Execute(Handled(c), old(State()), 2, 0)
    {
      var rd := Ix(Rd(c));
      if F3(c) == 0 {
        Finish(rd, Plus(gpr[rd], C6(c)), 2, Addi(rd, rd, C6(c)));
      } else {
        FromZero(C6(c));
        Finish(rd, C6(c), 2, Addi(rd, 0, C6(c)));
      }
    }

    /** c.addiw, which adds without truncating, and in place of it for rd = 0 the c.jal of RV32. */
    method CAddiw(c: bv32)
      requires Valid() && c & 3 == 1 && F3(c) == 1
      modifies this, gpr
      ensures Valid()
      ensures Rd(c) != 0 ==> State() == Execute(Handled(c), old(State()), 2, 0)
      ensures Rd(c) == 0 ==> State() == Execute(Jal(1, CJump(c)), old(State()), 2, 0)
    {
      RegisterNumbers(c);
      var rd := Ix(Rd(c));
      if rd != 0 {
        Finish(rd, Plus(gpr[rd], C6(c)), 2, Addi(rd, rd, C6(c)));
      } else {
        gpr[1] := Plus(pc, 2);
        pc := Plus(pc, CJump(c));
      }
    }

    /** c.lui and c.addi16sp */
    method CUpper(c: bv32)
      requires Valid() && c & 3 == 1 && F3(c) == 3
      modifies this, gpr
      ensures Valid() && State() == Execute(Handled(c), old(State()), 2, 0)
    {
      RegisterTwo(c);
      var rd := Ix(Rd(c));
      if rd != 2 {
        Finish(rd, CLui(c), 2, Lui(rd, CLui(c)));
      } else {
        Finish(rd, Plus(gpr[rd], C16sp(c)), 2, Addi(2, 2, C16sp(c)));
      }
    }

    method CShift(c: bv32)
      requires Valid() && c & 3 == 1 && F3(c) == 4 && (c >> 10) & 3 != 3
      modifies this, gpr
      ensures Valid() && State() == Execute(Handled(c), old(State()), 2, 0)
      ensures (c >> 10) & 3 == 0 ==> MovedDown(old(gpr[Ix(Rs1P(c))]), gpr[Ix(Rs1P(c))], Amount(CShamt(c)))
      ensures (c >> 10) & 3 == 1 ==> SignedDown(old(gpr[Ix(Rs1P(c))]), gpr[Ix(Rs1P(c))], Amount(CShamt(c)))
      ensures (c >> 10) & 3 == 2 ==> Both(old(gpr[Ix(Rs1P(c))]), C6(c), gpr[Ix(Rs1P(c))])
    {
      var rd, sel := Ix(Rs1P(c)), (c >> 10) & 3;
      RegisterNumbers(c);
      ShiftBits(c);
      if sel == 0 {
        DownBits(gpr[rd], CShamt(c));
        FinishInto(rd, Shr(gpr[rd], CShamt(c)), 2, Srli(rd, rd, CShamt(c)));
      } else if sel == 1 {
        SignedBits(gpr[rd], CShamt(c));
        FinishInto(rd, Asr(gpr[rd], CShamt(c)), 2, Srai(rd, rd, CShamt(c)));
      } else {
        LogicBits(gpr[rd], C6(c));
        FinishInto(rd, BitAnd(gpr[rd], C6(c)), 2, Andi(rd, rd, C6(c)));
      }
    }

    method CLogic(c: bv32)
      requires Valid() && c & 3 == 1 && F3(c) == 4 && (c >> 10) & 3 == 3 && (c >> 5) & 2 != 0
      modifies this, gpr
      ensures Valid() && State() == Execute(Handled(c), old(State()), 2, 0)
      ensures (c >> 5) & 3 == 3 ==> Both(old(gpr[Ix(Rs1P(c))]), old(gpr[Ix(RdP(c))]), gpr[Ix(Rs1P(c))])
      ensures (c >> 5) & 3 == 2 ==> Either(old(gpr[Ix(Rs1P(c))]), old(gpr[Ix(RdP(c))]), gpr[Ix(Rs1P(c))])
    {
      var rd, rs2 := Ix(Rs1P(c)), Ix(RdP(c));
      LogicHandled(c);
      RegisterNumbers(c);
      LogicBits(gpr[rd], gpr[rs2]);
      if (c >> 5) & 3 == 3 {
        FinishInto(rd, BitAnd(gpr[rd], gpr[rs2]), 2, And(rd, rd, rs2));
      } else {
        FinishInto(rd, BitOr(gpr[rd], gpr[rs2]), 2, Or(rd, rd, rs2));
      }
    }

    method CArith(c: bv32)
      requires Valid() && c & 3 == 1 && F3(c) == 4 && (c >> 10) & 3 == 3 && (c >> 5) & 2 == 0
      modifies this, gpr
      ensures Valid() && State() == Execute(Handled(c), old(State()), 2, 0)
    {
      var rd, rs2 := Ix(Rs1P(c)), Ix(RdP(c));
      ArithHandled(c);
      if (c >> 5) & 3 == 0 {
        Finish(rd, Minus(gpr[rd], gpr[rs2]), 2, Sub(rd, rd, rs2));
      } else {
        Finish(rd, AddWord(gpr[rd], gpr[rs2]), 2, Addw(rd, rd, rs2));
      }
    }

    method CJumpAhead(c: bv32)
      requires Valid() && c & 3 == 1 && F3(c) == 5
      modifies this
      ensures Valid() && State() == Execute(Handled(c), old(State()), 2, 0)
    {
      pc := Plus(pc, CJump(c));
    }

    method CBeqz(c: bv32)
      requires Valid() && c & 3 == 1 && F3(c) == 6
      modifies this
      ensures Valid() && State() == Execute(Handled(c), old(State()), 2, 0)
    {
      var rs1 := Ix(Rs1P(c));
      BranchHandled(c);
      FinishBranch(gpr[rs1] == 0, CBranch(c), 2, Beq(rs1, 0, CBranch(c)));
    }

    method CBnez(c: bv32)
      requires Valid() && c & 3 == 1 && F3(c) == 7
      modifies this
      ensures Valid() && State() == Execute(Handled(c), old(State()), 2, 0)
    {
      var rs1 := Ix(Rs1P(c));
      BranchHandled(c);
      FinishBranch(gpr[rs1] != 0, CBranch(c), 2, Bne(rs1, 0, CBranch(c)));
    }

    // ---- Quadrant 2 -------------------------------------------------------------------------------

    method CSlli(c: bv32)
      requires Valid() && c & 3 == 2 && F3(c) == 0
      modifies this, gpr
      ensures Valid() && State() == Execute(Handled(c), old(State()), 2, 0)
      ensures Rd(c) != 0 ==> MovedUp(old(gpr[Ix(Rd(c))]), gpr[Ix(Rd(c))], Amount(CShamt(c)))
    {
      var rd := Ix(Rd(c));
      RegisterNumbers(c);
      ShiftBits(c);
      UpBits(gpr[rd], CShamt(c));
      FinishInto(rd, Shl(gpr[rd], CShamt(c)), 2, Slli(rd, rd, CShamt(c)));
    }

    /** c.ldsp; rd = 0 is reserved and would overwrite register 0. */
    method CLdspInto(c: bv32, loaded: bv64)
      requires Valid() && c & 3 == 2 && F3(c) == 3
      modifies this, gpr
      ensures Rd(c) != 0 ==> Valid() && State() == Execute(Handled(c), old(State()), 2, loaded)
    {
      RegisterNumbers(c);
      var rd := Ix(Rd(c));
      if rd != 0 {
        LoadDouble(rd, 2, CLdsp(c), 2, loaded);
      } else {
        request := Load(Plus(gpr[2], CLdsp(c)), 8);
        gpr[0] := loaded;
        pc := Plus(pc, 2);
      }
    }

    method CStoreSp(c: bv32)
      requires Valid() && c & 3 == 2 && (F3(c) == 6 || F3(c) == 7)
      modifies this, gpr
      ensures Valid() && State() == Execute(Handled(c), old(State()), 2, 0)
    {
      if F3(c) == 6 {
        StoreWord(2, Ix(Rs2C(c)), CSwsp(c), 2);
      } else {
        StoreDouble(2, Ix(Rs2C(c)), CSdsp(c), 2);
      }
    }

    /** c.mv and c.add; with rs1 = 0 nothing happens at all. */
    method CMove(c: bv32)
      requires Valid() && c & 3 == 2 && F3(c) == 4 && Rs2C(c) != 0
      modifies this, gpr
      ensures Valid()
      ensures Rd(c) != 0 ==> State() == Execute(Handled(c), old(State()), 2, 0)
      ensures Rd(c) == 0 ==> State() == old(State())
    {
      RegisterNumbers(c);
      var rs1, rs2 := Ix(Rd(c)), Ix(Rs2C(c));
      MoveHandled(c);
      if rs1 != 0 {
        if (c >> 12) & 1 == 0 {
          FromZero(gpr[rs2]);
          Finish(rs1, gpr[rs2], 2, Add(rs1, 0, rs2));
        } else {
          Finish(rs1, Plus(gpr[rs1], gpr[rs2]), 2, Add(rs1, rs1, rs2));
        }
      }
    }

    /** c.jr and c.jalr; c.ebreak falls into the second. */
    method CRegisterJump(c: bv32)
      requires Valid() && RegisterJump(c)
      modifies this, gpr
      ensures Valid()
      ensures Rd(c) != 0 ==> State() == if Links(c) then LinkThenJump(Ix(Rd(c)), old(State()))
                                        else JumpTo(Ix(Rd(c)), old(State()))
      ensures Rd(c) == 0 ==> State() == if Links(c) then SetReg(old(State()), 1, Plus(old(pc), 2)) else old(State())
    {
      RegisterNumbers(c);
      var rs1 := Ix(Rd(c));
      if (c >> 12) & 1 == 0 {
        if rs1 != 0 { pc := gpr[rs1]; }
      } else {
        gpr[1] := Plus(pc, 2);
        if rs1 != 0 { pc := Even(gpr[rs1]); }
      }
    }

    // ---- Dispatch of the compressed forms ----------------------------------------------------------

    method ExecC0(c: bv32, loaded: bv64)
      requires Valid() && c & 3 == 0
      modifies this, gpr
      ensures Valid()
      ensures Expand(c).Some? ==> State() == Compressed(c, old(State()), loaded)
      ensures Expand(c).None? ==> State() == if F3(c) == 0 then old(State()).(pc := Plus(old(pc), 2)) else old(State())
    {
      var funct3 := (c >> 13) & 7;
      LoadedUnused(Handled(c), State(), 2, loaded);
      if funct3 == 0 {
        CAddi4spn(c);
      } else if funct3 == 2 || funct3 == 3 {
        CLoad(c, loaded);
      } else if funct3 == 6 || funct3 == 7 {
        CStore(c);
      }
    }

    method ExecCAlu(c: bv32)
      requires Valid() && c & 3 == 1 && F3(c) == 4
      modifies this, gpr
      ensures Valid() && State() == Execute(Handled(c), old(State()), 2, 0)
    {
      if (c >> 10) & 3 != 3 {
        CShift(c);
      } else if (c >> 5) & 2 != 0 {
        CLogic(c);
      } else {
        CArith(c);
      }
    }

    method ExecC1(c: bv32, loaded: bv64)
      requires Valid() && c & 3 == 1
      modifies this, gpr
      ensures Valid()
      ensures State() == if F3(c) == 1 && Rd(c) == 0 then Execute(Jal(1, CJump(c)), old(State()), 2, 0)
                         else Compressed(c, old(State()), loaded)
    {
      var funct3 := (c >> 13) & 7;
      LoadedUnused(Handled(c), State(), 2, loaded);
      if funct3 == 0 || funct3 == 2 {
        CImmediate(c);
      } else if funct3 == 1 {
        CAddiw(c);
      } else if funct3 == 3 {
        CUpper(c);
      } else if funct3 == 4 {
        ExecCAlu(c);
      } else if funct3 == 5 {
        CJumpAhead(c);
      } else if funct3 == 6 {
        CBeqz(c);
      } else {
        CBnez(c);
      }
    }

    method ExecC2(c: bv32, loaded: bv64)
      requires Valid() && c & 3 == 2
      modifies this, gpr
      ensures Expand(c).Some? ==> Valid() && State() == Compressed(c, old(State()), loaded)
    {
      var funct3 := (c >> 13) & 7;
      LoadedUnused(Handled(c), State(), 2, loaded);
      if funct3 == 0 {
        CSlli(c);
      } else if funct3 == 3 {
        CLdspInto(c, loaded);
      } else if funct3 == 4 && Rs2C(c) == 0 {
        CRegisterJump(c);
      } else if funct3 == 4 {
        CMove(c);
      } else if funct3 == 6 || funct3 == 7 {
        CStoreSp(c);
      }
    }

    // ---- Base handlers -----------------------------------------------------------------------------

    method ExecAddi(w: bv32)
      requires Valid()
      modifies this, gpr
      ensures Valid() && State() == Execute(Addi(Ix(Rd(w)), Ix(Rs1(w)), ImmI(w)), old(State()), 4, 0)
      ensures Ix(Rd(w)) != 0 ==> Sum(gpr[Ix(Rd(w))], old(gpr[Ix(Rs1(w))]), ImmI(w))
    {
      ImmediatesAgree(w);
      var rd, rs1 := Ix(Rd(w)), Ix(Rs1(w));
      SumIs(gpr[rs1], I12(w));
      FinishInto(rd, Plus(gpr[rs1], I12(w)), 4, Addi(rd, rs1, ImmI(w)));
    }

    method ExecAndi(w: bv32)
      requires Valid()
      modifies this, gpr
      ensures Valid() && State() == Execute(Andi(Ix(Rd(w)), Ix(Rs1(w)), ImmI(w)), old(State()), 4, 0)
      ensures Ix(Rd(w)) != 0 ==> Both(old(gpr[Ix(Rs1(w))]), ImmI(w), gpr[Ix(Rd(w))])
    {
      ImmediatesAgree(w);
      var rd, rs1 := Ix(Rd(w)), Ix(Rs1(w));
      LogicBits(gpr[rs1], A12(w));
      FinishInto(rd, BitAnd(gpr[rs1], A12(w)), 4, Andi(rd, rs1, ImmI(w)));
    }

    /** exec_iw, its addiw case */
    method ExecAddiw(w: bv32)
      requires Valid()
      modifies this, gpr
      ensures Valid() && State() == Execute(Addiw(Ix(Rd(w)), Ix(Rs1(w)), ImmI(w)), old(State()), 4, 0)
    {
      ImmediatesAgree(w);
      var rd, rs1 := Ix(Rd(w)), Ix(Rs1(w));
      Finish(rd, AddWord(gpr[rs1], I12(w)), 4, Addiw(rd, rs1, ImmI(w)));
    }

    method ExecSlli(w: bv32)
      requires Valid()
      modifies this, gpr
      ensures Valid() && State() == Execute(Slli(Ix(Rd(w)), Ix(Rs1(w)), (w >> 20) & 0x3F), old(State()), 4, 0)
      ensures Ix(Rd(w)) != 0 ==> MovedUp(old(gpr[Ix(Rs1(w))]), gpr[Ix(Rd(w))], Amount((w >> 20) & 0x3F))
    {
      var rd, rs1 := Ix(Rd(w)), Ix(Rs1(w));
      UpBits(gpr[rs1], (w >> 20) & 0x3F);
      FinishInto(rd, Shl(gpr[rs1], (w >> 20) & 0x3F), 4, Slli(rd, rs1, (w >> 20) & 0x3F));
    }

    /** exec_si: srli and srai; any other top bits only move the pc. */
    method ExecSi(w: bv32)
      requires Valid()
      modifies this, gpr
      ensures Valid()
      ensures w >> 26 == 0 ==> State() == Execute(Srli(Ix(Rd(w)), Ix(Rs1(w)), (w >> 20) & 0x3F), old(State()), 4, 0)
      ensures w >> 26 == 0x10 ==> State() == Execute(Srai(Ix(Rd(w)), Ix(Rs1(w)), (w >> 20) & 0x3F), old(State()), 4, 0)
      ensures w >> 26 != 0 && w >> 26 != 0x10 ==> State() == old(State()).(pc := Plus(old(pc), 4))
      ensures w >> 26 == 0 && Ix(Rd(w)) != 0 ==>
        MovedDown(old(gpr[Ix(Rs1(w))]), gpr[Ix(Rd(w))], Amount((w >> 20) & 0x3F))
      ensures w >> 26 == 0x10 && Ix(Rd(w)) != 0 ==>
        SignedDown(old(gpr[Ix(Rs1(w))]), gpr[Ix(Rd(w))], Amount((w >> 20) & 0x3F))
    {
      var rd, rs1, shamt := Ix(Rd(w)), Ix(Rs1(w)), (w >> 20) & 0x3F;
      var top := (w >> 26) & 0x3F;
      assert top == w >> 26;
      if top == 0 {
        DownBits(gpr[rs1], shamt);
        FinishInto(rd, Shr(gpr[rs1], shamt), 4, Srli(rd, rs1, shamt));
      } else if top == 0x10 {
        SignedBits(gpr[rs1], shamt);
        FinishInto(rd, Asr(gpr[rs1], shamt), 4, Srai(rd, rs1, shamt));
      } else {
        pc := Plus(pc, 4);
      }
    }

    method ExecLui(w: bv32)
      requires Valid()
      modifies this, gpr
      ensures Valid() && State() == Execute(Lui(Ix(Rd(w)), Widen(w & 0xFFFF_F000)), old(State()), 4, 0)
    {
      Finish(Ix(Rd(w)), Widen(w & 0xFFFF_F000), 4, Lui(Ix(Rd(w)), Widen(w & 0xFFFF_F000)));
    }

    method ExecAdd(w: bv32)
      requires Valid()
      modifies this, gpr
      ensures Valid() && State() == Execute(Add(Ix(Rd(w)), Ix(Rs1(w)), Ix(Rs2(w))), old(State()), 4, 0)
      ensures Ix(Rd(w)) != 0 ==> Sum(gpr[Ix(Rd(w))], old(gpr[Ix(Rs1(w))]), old(gpr[Ix(Rs2(w))]))
    {
      var rd, rs1, rs2 := Ix(Rd(w)), Ix(Rs1(w)), Ix(Rs2(w));
      SumIs(gpr[rs1], gpr[rs2]);
      FinishInto(rd, Plus(gpr[rs1], gpr[rs2]), 4, Add(rd, rs1, rs2));
    }

    method ExecSub(w: bv32)
      requires Valid()
      modifies this, gpr
      ensures Valid() && State() == Execute(Sub(Ix(Rd(w)), Ix(Rs1(w)), Ix(Rs2(w))), old(State()), 4, 0)
      ensures Ix(Rd(w)) != 0 ==> Difference(gpr[Ix(Rd(w))], old(gpr[Ix(Rs1(w))]), old(gpr[Ix(Rs2(w))]))
    {
      var rd, rs1, rs2 := Ix(Rd(w)), Ix(Rs1(w)), Ix(Rs2(w));
      DifferenceIs(gpr[rs1], gpr[rs2]);
      FinishInto(rd, Minus(gpr[rs1], gpr[rs2]), 4, Sub(rd, rs1, rs2));
    }

    method ExecXor(w: bv32)
      requires Valid()
      modifies this, gpr
      ensures Valid() && State() == Execute(Xor(Ix(Rd(w)), Ix(Rs1(w)), Ix(Rs2(w))), old(State()), 4, 0)
      ensures Ix(Rd(w)) != 0 ==> OneOf(old(gpr[Ix(Rs1(w))]), old(gpr[Ix(Rs2(w))]), gpr[Ix(Rd(w))])
    {
      var rd, rs1, rs2 := Ix(Rd(w)), Ix(Rs1(w)), Ix(Rs2(w));
      LogicBits(gpr[rs1], gpr[rs2]);
      FinishInto(rd, BitXor(gpr[rs1], gpr[rs2]), 4, Xor(rd, rs1, rs2));
    }

    method ExecAnd(w: bv32)
      requires Valid()
      modifies this, gpr
      ensures Valid() && State() == Execute(And(Ix(Rd(w)), Ix(Rs1(w)), Ix(Rs2(w))), old(State()), 4, 0)
      ensures Ix(Rd(w)) != 0 ==> Both(old(gpr[Ix(Rs1(w))]), old(gpr[Ix(Rs2(w))]), gpr[Ix(Rd(w))])
    {
      var rd, rs1, rs2 := Ix(Rd(w)), Ix(Rs1(w)), Ix(Rs2(w));
      LogicBits(gpr[rs1], gpr[rs2]);
      FinishInto(rd, BitAnd(gpr[rs1], gpr[rs2]), 4, And(rd, rs1, rs2));
      ZeroAgain();
    }

    method ExecOr(w: bv32)
      requires Valid()
      modifies this, gpr
      ensures Valid() && State() == Execute(Or(Ix(Rd(w)), Ix(Rs1(w)), Ix(Rs2(w))), old(State()), 4, 0)
      ensures Ix(Rd(w)) != 0 ==> Either(old(gpr[Ix(Rs1(w))]), old(gpr[Ix(Rs2(w))]), gpr[Ix(Rd(w))])
    {
      var rd, rs1, rs2 := Ix(Rd(w)), Ix(Rs1(w)), Ix(Rs2(w));
      LogicBits(gpr[rs1], gpr[rs2]);
      FinishInto(rd, BitOr(gpr[rs1], gpr[rs2]), 4, Or(rd, rs1, rs2));
      ZeroAgain();
    }

    /** exec_3b, its addw case */
    method ExecAddw(w: bv32)
      requires Valid()
      modifies this, gpr
      ensures Valid() && State() == Execute(Addw(Ix(Rd(w)), Ix(Rs1(w)), Ix(Rs2(w))), old(State()), 4, 0)
    {
      var rd, rs1, rs2 := Ix(Rd(w)), Ix(Rs1(w)), Ix(Rs2(w));
      Finish(rd, AddWord(gpr[rs1], gpr[rs2]), 4, Addw(rd, rs1, rs2));
    }

    /** exec_3b, its subw case */
    method ExecSubw(w: bv32)
      requires Valid()
      modifies this, gpr
      ensures Valid() && State() == Execute(Subw(Ix(Rd(w)), Ix(Rs1(w)), Ix(Rs2(w))), old(State()), 4, 0)
    {
      var rd, rs1, rs2 := Ix(Rd(w)), Ix(Rs1(w)), Ix(Rs2(w));
      Finish(rd, SubWord(gpr[rs1], gpr[rs2]), 4, Subw(rd, rs1, rs2));
    }

    /** Writes the link and jumps. */
    method Jump(rd: RegNo, target: bv64)
      requires Valid()
      modifies this, gpr
      ensures Valid() && State() == Core(target, Write(old(State()).gpr, rd, Plus(old(pc), 4)), old(request))
    {
      if rd != 0 { gpr[rd] := Plus(pc, 4); }
      pc := target;
    }

    method ExecJal(w: bv32)
      requires Valid()
      modifies this, gpr
      ensures Valid() && State() == Execute(Jal(Ix(Rd(w)), J20(w)), old(State()), 4, 0)
    {
      JalEffect(Ix(Rd(w)), J20(w), State(), 4);
      Jump(Ix(Rd(w)), Plus(pc, J20(w)));
    }

    method ExecJalr(w: bv32)
      requires Valid()
      modifies this, gpr
      ensures Valid() && State() == Execute(Jalr(Ix(Rd(w)), Ix(Rs1(w)), ImmI(w)), old(State()), 4, 0)
    {
      ImmediatesAgree(w);
      var rd, rs1 := Ix(Rd(w)), Ix(Rs1(w));
      JalrEffect(rd, rs1, ImmI(w), State(), 4);
      Jump(rd, Even(Plus(gpr[rs1], I12(w))));
    }

    method ExecBeq(w: bv32)
      requires Valid()
      modifies this
      ensures Valid() && State() == Execute(Beq(Ix(Rs1(w)), Ix(Rs2(w)), ImmB(w)), old(State()), 4, 0)
    {
      ImmediatesAgree(w);
      var rs1, rs2 := Ix(Rs1(w)), Ix(Rs2(w));
      FinishBranch(gpr[rs1] == gpr[rs2], B13(w), 4, Beq(rs1, rs2, ImmB(w)));
    }

    method ExecBne(w: bv32)
      requires Valid()
      modifies this
      ensures Valid() && State() == Execute(Bne(Ix(Rs1(w)), Ix(Rs2(w)), ImmB(w)), old(State()), 4, 0)
    {
      ImmediatesAgree(w);
      var rs1, rs2 := Ix(Rs1(w)), Ix(Rs2(w));
      FinishBranch(gpr[rs1] != gpr[rs2], B13(w), 4, Bne(rs1, rs2, ImmB(w)));
    }

    method ExecBltu(w: bv32)
      requires Valid()
      modifies this
      ensures Valid() && State() == Execute(Bltu(Ix(Rs1(w)), Ix(Rs2(w)), ImmB(w)), old(State()), 4, 0)
    {
      ImmediatesAgree(w);
      var rs1, rs2 := Ix(Rs1(w)), Ix(Rs2(w));
      BltuTaken(rs1, rs2, ImmB(w), State());
      FinishBranch(Below(gpr[rs1], gpr[rs2]), B13(w), 4, Bltu(rs1, rs2, ImmB(w)));
    }

    /** bge compares as bgeu does. */
    method ExecBge(w: bv32)
      requires Valid()
      modifies this
      ensures Valid() && State() == Execute(Bgeu(Ix(Rs1(w)), Ix(Rs2(w)), ImmB(w)), old(State()), 4, 0)
    {
      ImmediatesAgree(w);
      var rs1, rs2 := Ix(Rs1(w)), Ix(Rs2(w));
      BgeuTaken(rs1, rs2, ImmB(w), State());
      FinishBranch(!Below(gpr[rs1], gpr[rs2]), B13(w), 4, Bgeu(rs1, rs2, ImmB(w)));
    }

    method ExecBgeu(w: bv32)
      requires Valid()
      modifies this
      ensures Valid() && State() == Execute(Bgeu(Ix(Rs1(w)), Ix(Rs2(w)), ImmB(w)), old(State()), 4, 0)
    {
      ImmediatesAgree(w);
      var rs1, rs2 := Ix(Rs1(w)), Ix(Rs2(w));
      BgeuTaken(rs1, rs2, ImmB(w), State());
      FinishBranch(!Below(gpr[rs1], gpr[rs2]), B13(w), 4, Bgeu(rs1, rs2, ImmB(w)));
    }

    method ExecBlt(w: bv32)
      requires Valid()
      modifies this
      ensures Valid() && State() == Execute(Blt(Ix(Rs1(w)), Ix(Rs2(w)), B12(w)), old(State()), 4, 0)
    {
      var rs1, rs2 := Ix(Rs1(w)), Ix(Rs2(w));
      FinishBranch(SignedLess(gpr[rs1], gpr[rs2]), B12(w), 4, Blt(rs1, rs2, B12(w)));
    }

    /** and and or clear register 0 once more. */
    method ZeroAgain()
      requires Valid()
      modifies gpr
      ensures Valid() && State() == old(State()) && gpr[..] == old(gpr[..])
    {
      gpr[0] := 0;
      assert gpr[..] == old(gpr[..]);
    }

    method ExecLoad(w: bv32, loaded: bv64)
      requires Valid() && ((w >> 12) & 7 == 2 || (w >> 12) & 7 == 3 || (w >> 12) & 7 == 6)
      modifies this, gpr
      ensures Valid()
      ensures State() == Execute(LoadInsn(w), old(State()), 4, loaded)
    {
      ImmediatesAgree(w);
      if (w >> 12) & 7 == 3 {
        LoadDouble(Ix(Rd(w)), Ix(Rs1(w)), I12(w), 4, loaded);
      } else {
        LoadUnsigned(Ix(Rd(w)), Ix(Rs1(w)), I12(w), 4, loaded);
      }
    }

    method ExecStore(w: bv32)
      requires Valid() && ((w >> 12) & 7 == 2 || (w >> 12) & 7 == 3)
      modifies this
      ensures Valid()
      ensures State() == Execute(StoreInsn(w), old(State()), 4, 0)
    {
      ImmediatesAgree(w);
      if (w >> 12) & 7 == 3 {
        StoreDouble(Ix(Rs1(w)), Ix(Rs2(w)), S12(w), 4);
      } else {
        StoreWord(Ix(Rs1(w)), Ix(Rs2(w)), S12(w), 4);
      }
    }

    // ---- Dispatch of the base instructions (src/decode.c) ---------------------------------------------

    method HandleImm(w: bv32, loaded: bv64)
      requires Valid() && w & 0x7F == 0x13 && Decode(w) != Other
      modifies this, gpr
      ensures Valid() && State() == Execute(Performed(w), old(State()), 4, loaded)
    {
      LoadedUnused(Performed(w), State(), 4, loaded);
      if (w >> 12) & 7 == 0 {
        ExecAddi(w);
      } else if (w >> 12) & 7 == 1 {
        ExecSlli(w);
      } else if (w >> 12) & 7 == 5 {
        ExecSi(w);
      } else {
        ExecAndi(w);
      }
    }

    method HandleR(w: bv32, loaded: bv64)
      requires Valid() && w & 0x7F == 0x33 && Decode(w) != Other
      modifies this, gpr
      ensures Valid() && State() == Execute(Performed(w), old(State()), 4, loaded)
    {
      LoadedUnused(Performed(w), State(), 4, loaded);
      if (w >> 12) & 7 == 0 && w >> 25 == 0 {
        ExecAdd(w);
      } else if (w >> 12) & 7 == 0 {
        ExecSub(w);
      } else if (w >> 12) & 7 == 6 {
        ExecOr(w);
      } else if (w >> 12) & 7 == 7 {
        ExecAnd(w);
      } else {
        ExecXor(w);
      }
    }

    method HandleBranch(w: bv32, loaded: bv64)
      requires Valid() && w & 0x7F == 0x63 && Decode(w) != Other
      modifies this, gpr
      ensures Valid() && State() == Execute(Performed(w), old(State()), 4, loaded)
    {
      BranchPerformed(w);
      LoadedUnused(Performed(w), State(), 4, loaded);
      if (w >> 12) & 7 == 0 {
        ExecBeq(w);
      } else if (w >> 12) & 7 == 1 {
        ExecBne(w);
      } else if (w >> 12) & 7 == 4 {
        ExecBlt(w);
      } else if (w >> 12) & 7 == 5 {
        ExecBge(w);
      } else if (w >> 12) & 7 == 6 {
        ExecBltu(w);
      } else {
        ExecBgeu(w);
      }
    }

    method HandleWord(w: bv32, loaded: bv64)
      requires Valid() && (w & 0x7F == 0x3B || w & 0x7F == 0x1B) && Decode(w) != Other
      modifies this, gpr
      ensures Valid() && State() == Execute(Performed(w), old(State()), 4, loaded)
    {
      WordPerformed(w);
      LoadedUnused(Performed(w), State(), 4, loaded);
      if w & 0x7F == 0x1B {
        ExecAddiw(w);
      } else if w >> 25 == 0 {
        ExecAddw(w);
      } else {
        ExecSubw(w);
      }
    }

    method HandleLoad(w: bv32, loaded: bv64)
      requires Valid() && w & 0x7F == 0x03 && Decode(w) != Other
      modifies this, gpr
      ensures Valid() && State() == Execute(Performed(w), old(State()), 4, loaded)
    {
      LoadPerformed(w);
      ExecLoad(w, loaded);
    }

    method HandleStore(w: bv32, loaded: bv64)
      requires Valid() && w & 0x7F == 0x23 && Decode(w) != Other
      modifies this, gpr
      ensures Valid() && State() == Execute(Performed(w), old(State()), 4, loaded)
    {
      StorePerformed(w);
      LoadedUnused(Performed(w), State(), 4, loaded);
      ExecStore(w);
    }

    method HandleOther(w: bv32, loaded: bv64)
      requires Valid() && (w & 0x7F == 0x37 || w & 0x7F == 0x6F || w & 0x7F == 0x67) && Decode(w) != Other
      modifies this, gpr
      ensures Valid() && State() == Execute(Performed(w), old(State()), 4, loaded)
    {
      OtherPerformed(w);
      LoadedUnused(Performed(w), State(), 4, loaded);
      if w & 0x7F == 0x37 {
        ExecLui(w);
      } else if w & 0x7F == 0x6F {
        ExecJal(w);
      } else {
        ExecJalr(w);
      }
    }

    /** One instruction: a base one is carried out as `Performed` says, a compressed one as
        `Compressed` says. */
    method HandleOpcode(w: bv32, loaded: bv64)
      requires Valid()
      requires w & 3 == 3 ==> Decode(w) != Other
      modifies this, gpr
      ensures w & 3 == 3 ==> Valid() && State() == Execute(Performed(w), old(State()), 4, loaded)
      ensures w & 3 != 3 && Expand(w).Some? ==> Valid() && State() == Compressed(w, old(State()), loaded)
    {
      var half, opcode := w & 3, w & 0x7F;
      if half == 0 {
        ExecC0(w, loaded);
      } else if half == 1 {
        ExecC1(w, loaded);
      } else if half == 2 {
        ExecC2(w, loaded);
      } else if opcode == 0x13 {
        HandleImm(w, loaded);
      } else if opcode == 0x33 {
        HandleR(w, loaded);
      } else if opcode == 0x63 {
        HandleBranch(w, loaded);
      } else if opcode == 0x3B || opcode == 0x1B {
        HandleWord(w, loaded);
      } else if opcode == 0x03 {
        HandleLoad(w, loaded);
      } else if opcode == 0x23 {
        HandleStore(w, loaded);
      } else {
        HandleOther(w, loaded);
      }
    }
  }
}
