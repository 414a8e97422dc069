/** On which states the instructions that the code runs differently from the standard are right all
    the same. */
module InstrExact {
  import opened Options
  import opened Isa
  import opened InstrModel
  import opened InstrExpand
  import opened InstrSteps

  // ---- The merged encodings -----------------------------------------------------------------

  /** A value that is the sign extension of its low word. */
  predicate FitsWord(x: bv64) { SignedWord(x) == x }

  /** No carry arises in adding two words, but for one out of bit 31. */
  predicate NoCarry(x: bv32, y: bv32) { (x & y) & 0x7FFF_FFFF == 0 }

  /** When adding the low words is the exclusive or of the registers. */
  predicate XorFits(a: bv64, b: bv64) { FitsWord(BitXor(a, b)) && NoCarry(Low32(a), Low32(b)) }

  /** What c.addiw, c.subw and c.xor need of the registers: that the 64-bit sum or difference is a
      word; that the exclusive or is a word and adding gives it. */
  predicate MergedFits(c: bv32, s: Core) {
    if F3(c) == 1 then FitsWord(Plus(Reg(s, Ix(Rd(c))), C6(c)))
    else
      var a, b := Reg(s, Ix(Rs1P(c))), Reg(s, Ix(RdP(c)));
      if (c >> 5) & 3 == 0 then FitsWord(Minus(a, b)) else XorFits(a, b)
  }

  lemma AddsLikeXor(x: bv32, y: bv32)
    ensures NoCarry(x, y) ==> x + y == x ^ y
    ensures x + y == x ^ y ==> NoCarry(x, y)
  {}

  predicate Adds(sum: bv32, x: bv32, y: bv32) { sum == x + y }

  lemma LowOfSum(x: bv64, y: bv64)
    ensures Adds(((x + y) & 0xFFFF_FFFF) as bv32, (x & 0xFFFF_FFFF) as bv32, (y & 0xFFFF_FFFF) as bv32)
  {}

  lemma LowOfPlus(x: bv64, y: bv64)
    ensures Adds(Low32(Plus(x, y)), Low32(x), Low32(y))
  {
    LowOfSum(x, y);
  }

  lemma LowOfXor(x: bv64, y: bv64)
    ensures Low32(BitXor(x, y)) == Low32(x) ^ Low32(y)
  {}

  lemma LowsMeet(a: bv64, b: bv64)
    ensures Low32(Plus(a, b)) == Low32(BitXor(a, b)) <==> NoCarry(Low32(a), Low32(b))
  {
    LowOfPlus(a, b);
    LowOfXor(a, b);
    AddsLikeXor(Low32(a), Low32(b));
  }

  lemma LowOfWiden(x: bv32)
    ensures Low32(Widen(x)) == x
  {}

  lemma OnlyItself(p: bv32, z: bv64)
    ensures Widen(p) == z <==> SignedWord(z) == z && p == Low32(z)
  {
    LowOfWiden(p);
  }

  lemma AddIsXor(a: bv64, b: bv64)
    ensures AddWord(a, b) == BitXor(a, b) <==> XorFits(a, b)
  {
    LowsMeet(a, b);
    OnlyItself(Low32(Plus(a, b)), BitXor(a, b));
  }

  /** Two instructions that compute the same register differ only in the value. */
  lemma SameValue(i: Insn, j: Insn, s: Core, loaded: bv64)
    requires Computes(i) && Computes(j) && i.rd == j.rd && i.rd != 0
    ensures Execute(i, s, 2, loaded) == Execute(j, s, 2, loaded) <==> Computed(i, s) == Computed(j, s)
  {
    ComputeEffect(i, s, 2, loaded);
    ComputeEffect(j, s, 2, loaded);
    WrittenValue(s.gpr, i.rd, Computed(i, s), Computed(j, s));
  }

  lemma AddiwExact(rd: RegNo, imm: bv64, s: Core, loaded: bv64)
    requires rd != 0
    ensures Execute(Addi(rd, rd, imm), s, 2, loaded) == Execute(Addiw(rd, rd, imm), s, 2, loaded)
            <==> FitsWord(Plus(Reg(s, rd), imm))
  {
    SameValue(Addi(rd, rd, imm), Addiw(rd, rd, imm), s, loaded);
  }

  lemma SubwExact(rd: RegNo, rs2: RegNo, s: Core, loaded: bv64)
    requires rd != 0
    ensures Execute(Sub(rd, rd, rs2), s, 2, loaded) == Execute(Subw(rd, rd, rs2), s, 2, loaded)
            <==> FitsWord(Minus(Reg(s, rd), Reg(s, rs2)))
  {
    SameValue(Sub(rd, rd, rs2), Subw(rd, rd, rs2), s, loaded);
  }

  lemma XorMeets(rd: RegNo, rs2: RegNo, s: Core) returns (x: bv64, y: bv64)
    ensures x == Computed(Addw(rd, rd, rs2), s) && y == Computed(Xor(rd, rd, rs2), s)
    ensures x == y <==> XorFits(Reg(s, rd), Reg(s, rs2))
  {
    AddIsXor(Reg(s, rd), Reg(s, rs2));
    x, y := AddWord(Reg(s, rd), Reg(s, rs2)), BitXor(Reg(s, rd), Reg(s, rs2));
  }

  lemma XorExact(rd: RegNo, rs2: RegNo, s: Core, loaded: bv64)
    requires rd != 0
    ensures Execute(Addw(rd, rd, rs2), s, 2, loaded) == Execute(Xor(rd, rd, rs2), s, 2, loaded)
            <==> XorFits(Reg(s, rd), Reg(s, rs2))
  {
    var x, y := XorMeets(rd, rs2, s);
    SameValue(Addw(rd, rd, rs2), Xor(rd, rd, rs2), s, loaded);
  }

  /** A merged encoding gives the standard's result on exactly these states. */
  lemma MergedExact(c: bv32, s: Core, loaded: bv64)
    requires Expand(c).Some? && Merged(c)
    ensures Execute(Handled(c), s, 2, loaded) == Execute(Decode(Expand(c).value), s, 2, loaded) <==> MergedFits(c, s)
  {
    MergedMeaning(c);
    RegisterNumbers(c);
    if F3(c) == 1 {
      AddiwExact(Ix(Rd(c)), C6(c), s, loaded);
    } else if (c >> 5) & 3 == 0 {
      SubwExact(Ix(Rs1P(c)), Ix(RdP(c)), s, loaded);
    } else {
      XorExact(Ix(Rs1P(c)), Ix(RdP(c)), s, loaded);
    }
  }

  // ---- c.lw -----------------------------------------------------------------------------------

  lemma Lengths(x: bv64)
    ensures Plus(x, 2) != Plus(x, 4)
  {}

  lemma LinkedElsewhere(g: Regs, rd: RegNo, v: bv64, v': bv64, link: bv64, link': bv64)
    requires rd != 0 && link != link'
    ensures (g[rd := v] == g[rd := v'] || (g[rd := v] == g[1 := link] && g[rd := v'] == g[1 := link']))
            <==> v == v' || (rd == 1 && v == link && v' == link')
  {
    assert g[rd := v][rd] == v && g[rd := v'][rd] == v';
    if rd != 1 { assert g[rd := v][1] == g[rd := v'][1]; }
  }

  lemma LoadsDiffer(rd: RegNo, rs1: RegNo, imm: bv64, s: Core, loaded: bv64)
    requires rd > 1
    ensures SameButLength(Execute(Lw(rd, rs1, imm), s, 2, loaded), Execute(Lwu(rd, rs1, imm), s, 4, loaded), s)
            <==> SignedWord(loaded) == UnsignedWord(loaded)
  {
    Lengths(s.pc);
    LwEffect(rd, rs1, imm, s, 2, loaded);
    LwuEffect(rd, rs1, imm, s, 4, loaded);
    LinkedElsewhere(s.gpr, rd, SignedWord(loaded), UnsignedWord(loaded), Plus(s.pc, 2), Plus(s.pc, 4));
  }

  /** The two implementations of a word load agree exactly when bit 31 of the word is clear: the
      compressed one extends its sign, the base one does not. */
  lemma WordLoadsAgree(c: bv32, s: Core, loaded: bv64)
    requires Expand(c).Some? && Handled(c).Lw?
    ensures SameButLength(Compressed(c, s, loaded), Execute(Performed(Expand(c).value), s, 4, loaded), s)
            <==> loaded & 0x8000_0000 == 0
  {
    HandledIsExpansion(c);
    WordLoadShape(c);
    var i := Handled(c);
    LoadsDiffer(i.rd, i.rs1, i.imm, s, loaded);
    WordSign(loaded);
  }

  lemma WordLoadShape(c: bv32)
    requires Expand(c).Some? && Handled(c).Lw?
    ensures c & 3 == 0 && !Merged(c) && Handled(c).rd > 1
  {}

  // ---- bge ------------------------------------------------------------------------------------

  predicate SameSign(a: bv64, b: bv64) {
    a & 0x8000_0000_0000_0000 == b & 0x8000_0000_0000_0000
  }

  lemma OrdersAgree(a: bv64, b: bv64)
    ensures Below(a, b) == SignedLess(a, b) <==> SameSign(a, b)
  {}

  lemma StepsAgree(pc: bv64, offset: bv64)
    requires Plus(pc, offset) == Plus(pc, 4)
    ensures offset == 4
  {}

  lemma WhereTo(s: Core, taken: bool, taken': bool, offset: bv64)
    ensures s.(pc := if taken then Plus(s.pc, offset) else Plus(s.pc, 4))
            == s.(pc := if taken' then Plus(s.pc, offset) else Plus(s.pc, 4))
            <==> taken == taken' || offset == 4
  {
    if Plus(s.pc, offset) == Plus(s.pc, 4) { StepsAgree(s.pc, offset); }
  }

  lemma WhereBge(rs1: RegNo, rs2: RegNo, offset: bv64, s: Core)
    returns (taken: bool, taken': bool)
    ensures Execute(Bgeu(rs1, rs2, offset), s, 4, 0) == s.(pc := if taken then Plus(s.pc, offset) else Plus(s.pc, 4))
    ensures Execute(Bge(rs1, rs2, offset), s, 4, 0) == s.(pc := if taken' then Plus(s.pc, offset) else Plus(s.pc, 4))
    ensures taken == Taken(Bgeu(rs1, rs2, offset), s) && taken' == Taken(Bge(rs1, rs2, offset), s)
  {
    BranchEffect(Bge(rs1, rs2, offset), s, 4);
    BranchEffect(Bgeu(rs1, rs2, offset), s, 4);
    taken, taken' := Taken(Bgeu(rs1, rs2, offset), s), Taken(Bge(rs1, rs2, offset), s);
  }

  lemma BgeTaken(rs1: RegNo, rs2: RegNo, offset: bv64, s: Core)
    ensures Taken(Bge(rs1, rs2, offset), s) == !SignedLess(Reg(s, rs1), Reg(s, rs2))
  {}

  lemma BgeBranches(rs1: RegNo, rs2: RegNo, offset: bv64, s: Core)
    ensures Execute(Bgeu(rs1, rs2, offset), s, 4, 0) == Execute(Bge(rs1, rs2, offset), s, 4, 0)
            <==> SameSign(Reg(s, rs1), Reg(s, rs2)) || offset == 4
  {
    var taken, taken' := WhereBge(rs1, rs2, offset, s);
    BgeuTaken(rs1, rs2, offset, s);
    BgeTaken(rs1, rs2, offset, s);
    OrdersAgree(Reg(s, rs1), Reg(s, rs2));
    WhereTo(s, taken, taken', offset);
  }

  /** bge, which compares unsigned, goes where the standard says exactly when the sign bits of its
      operands agree, or when both ways lead to the next instruction. */
  lemma BgeExact(w: bv32, s: Core)
    requires Decode(w).Bge?
    ensures Execute(Performed(w), s, 4, 0) == Execute(Decode(w), s, 4, 0)
            <==> SameSign(Reg(s, Decode(w).rs1), Reg(s, Decode(w).rs2)) || Decode(w).offset == 4
  {
    BgeBranches(Decode(w).rs1, Decode(w).rs2, Decode(w).offset, s);
  }
}
