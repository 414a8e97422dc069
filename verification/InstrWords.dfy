/** Execution in plain machine arithmetic, without the helper functions of Isa. */
module InstrWords {
  import opened Isa
  import opened InstrBits

  /** The number in the low five bits of a field. */
  lemma NumberIs(r: bv32)
    ensures Ix(r) == Ix(r & 0x1F)
    ensures Ix(0) == 0 && Ix(1) == 1 && Ix(2) == 2 && Ix(3) == 3 && Ix(4) == 4 && Ix(5) == 5 && Ix(6) == 6 && Ix(7) == 7
    ensures Ix(8) == 8 && Ix(9) == 9 && Ix(10) == 10 && Ix(11) == 11 && Ix(12) == 12 && Ix(13) == 13 && Ix(14) == 14
    ensures Ix(15) == 15 && Ix(16) == 16 && Ix(17) == 17 && Ix(18) == 18 && Ix(19) == 19 && Ix(20) == 20 && Ix(21) == 21
    ensures Ix(22) == 22 && Ix(23) == 23 && Ix(24) == 24 && Ix(25) == 25 && Ix(26) == 26 && Ix(27) == 27 && Ix(28) == 28
    ensures Ix(29) == 29 && Ix(30) == 30 && Ix(31) == 31
  {}

  // ---- Values -----------------------------------------------------------------------------------

  predicate Sum(v: bv64, x: bv64, y: bv64) { v == x + y }

  predicate Difference(v: bv64, x: bv64, y: bv64) { v == x - y }

  /** v is the sign extension of the low 32 bits of x. */
  predicate IsWord(v: bv64, x: bv64) {
    v & 0xFFFF_FFFF == x & 0xFFFF_FFFF && v >> 32 == if x & 0x8000_0000 != 0 then 0xFFFF_FFFF else 0
  }

  predicate IsLowWord(v: bv64, x: bv64) { v == x & 0xFFFF_FFFF }

  predicate IsEven(v: bv64, x: bv64) { v == x & 0xFFFF_FFFF_FFFF_FFFE }

  /** Signed order: within a sign as unsigned, else the negative number first. */
  predicate Precedes(x: bv64, y: bv64) {
    if x >> 63 == y >> 63 then x < y else x >> 63 == 1
  }

  predicate Less(x: bv64, y: bv64) { x < y }

  lemma SumIs(x: bv64, y: bv64)
    ensures Sum(Plus(x, y), x, y)
  {}

  lemma DifferenceIs(x: bv64, y: bv64)
    ensures Difference(Minus(x, y), x, y)
  {}

  lemma WordLow(x: bv64)
    ensures SignedWord(x) & 0xFFFF_FFFF == x & 0xFFFF_FFFF
  {}

  lemma WordHigh(x: bv64)
    ensures SignedWord(x) >> 32 == if x & 0x8000_0000 != 0 then 0xFFFF_FFFF else 0
  {}

  lemma WordIs(x: bv64)
    ensures IsWord(SignedWord(x), x)
  {
    WordLow(x);
    WordHigh(x);
  }

  lemma LowWordIs(x: bv64)
    ensures IsLowWord(UnsignedWord(x), x)
  {}

  lemma EvenIs(x: bv64)
    ensures IsEven(Even(x), x)
  {}

  lemma SignedIs(x: bv64, y: bv64)
    ensures SignedLess(x, y) == Precedes(x, y)
  {}

  lemma LessIs(x: bv64, y: bv64)
    ensures Below(x, y) == Less(x, y)
  {}

  // ---- Instructions that compute a register ---------------------------------------------------------

  /** Register rd, unless it is register 0, gets v and the pc moves on by len; nothing else changes. */
  predicate Sets(s: Core, t: Core, rd: RegNo, v: bv64, len: bv64) {
    Sum(t.pc, s.pc, len) && t.request == s.request && t.gpr == if rd == 0 then s.gpr else s.gpr[rd := v]
  }

  lemma ComputesInto(i: Insn, s: Core, len: bv64, loaded: bv64)
    requires Computes(i)
    ensures Sets(s, Execute(i, s, len, loaded), i.rd, Computed(i, s), len)
  {
    SumIs(s.pc, len);
  }

  lemma SumsComputed(s: Core, rd: RegNo, rs1: RegNo, rs2: RegNo, imm: bv64)
    ensures Sum(Computed(Addi(rd, rs1, imm), s), s.gpr[rs1], imm)
    ensures Sum(Computed(Add(rd, rs1, rs2), s), s.gpr[rs1], s.gpr[rs2])
    ensures Computed(Lui(rd, imm), s) == imm
  {
    SumIs(s.gpr[rs1], imm);
    SumIs(s.gpr[rs1], s.gpr[rs2]);
  }

  lemma DifferenceComputed(s: Core, rd: RegNo, rs1: RegNo, rs2: RegNo)
    ensures Difference(Computed(Sub(rd, rs1, rs2), s), s.gpr[rs1], s.gpr[rs2])
  {
    DifferenceIs(s.gpr[rs1], s.gpr[rs2]);
  }

  /** The word forms: the low word of a sum or a difference, sign-extended. */
  lemma WordsComputed(s: Core, rd: RegNo, rs1: RegNo, rs2: RegNo, imm: bv64) returns (x: bv64, y: bv64, z: bv64)
    ensures Sum(x, s.gpr[rs1], imm) && IsWord(Computed(Addiw(rd, rs1, imm), s), x)
    ensures Sum(y, s.gpr[rs1], s.gpr[rs2]) && IsWord(Computed(Addw(rd, rs1, rs2), s), y)
    ensures Difference(z, s.gpr[rs1], s.gpr[rs2]) && IsWord(Computed(Subw(rd, rs1, rs2), s), z)
  {
    x, y, z := Plus(s.gpr[rs1], imm), Plus(s.gpr[rs1], s.gpr[rs2]), Minus(s.gpr[rs1], s.gpr[rs2]);
    SumIs(s.gpr[rs1], imm);
    SumIs(s.gpr[rs1], s.gpr[rs2]);
    DifferenceIs(s.gpr[rs1], s.gpr[rs2]);
    WordIs(x);
    WordIs(y);
    WordIs(z);
  }

  lemma LogicComputed(s: Core, rd: RegNo, rs1: RegNo, rs2: RegNo, imm: bv64)
    ensures Both(s.gpr[rs1], imm, Computed(Andi(rd, rs1, imm), s))
    ensures Both(s.gpr[rs1], s.gpr[rs2], Computed(And(rd, rs1, rs2), s))
    ensures Either(s.gpr[rs1], s.gpr[rs2], Computed(Or(rd, rs1, rs2), s))
    ensures OneOf(s.gpr[rs1], s.gpr[rs2], Computed(Xor(rd, rs1, rs2), s))
  {
    LogicBits(s.gpr[rs1], imm);
    LogicBits(s.gpr[rs1], s.gpr[rs2]);
  }

  lemma SlliComputed(s: Core, rd: RegNo, rs1: RegNo, n: bv32) returns (v: bv64)
    requires n < 64
    ensures v == Computed(Slli(rd, rs1, n), s) && MovedUp(s.gpr[rs1], v, Amount(n))
  {
    v := Shl(s.gpr[rs1], n);
    UpBits(s.gpr[rs1], n);
  }

  lemma SrliComputed(s: Core, rd: RegNo, rs1: RegNo, n: bv32) returns (v: bv64)
    requires n < 64
    ensures v == Computed(Srli(rd, rs1, n), s) && MovedDown(s.gpr[rs1], v, Amount(n))
  {
    v := Shr(s.gpr[rs1], n);
    DownBits(s.gpr[rs1], n);
  }

  lemma SraiComputed(s: Core, rd: RegNo, rs1: RegNo, n: bv32) returns (v: bv64)
    requires n < 64
    ensures v == Computed(Srai(rd, rs1, n), s) && SignedDown(s.gpr[rs1], v, Amount(n))
  {
    v := Asr(s.gpr[rs1], n);
    SignedBits(s.gpr[rs1], n);
  }

  // ---- Jumps, branches, loads and stores ----------------------------------------------------------

  lemma JalJumps(s: Core, rd: RegNo, offset: bv64, len: bv64, loaded: bv64) returns (target: bv64, link: bv64)
    ensures Execute(Jal(rd, offset), s, len, loaded)
         == s.(pc := target, gpr := if rd == 0 then s.gpr else s.gpr[rd := link])
    ensures Sum(target, s.pc, offset) && Sum(link, s.pc, len)
  {
    target, link := Plus(s.pc, offset), Plus(s.pc, len);
    SumIs(s.pc, offset);
    SumIs(s.pc, len);
  }

  lemma JalrJumps(s: Core, rd: RegNo, rs1: RegNo, imm: bv64, len: bv64, loaded: bv64)
    returns (sum: bv64, target: bv64, link: bv64)
    ensures Execute(Jalr(rd, rs1, imm), s, len, loaded)
         == s.(pc := target, gpr := if rd == 0 then s.gpr else s.gpr[rd := link])
    ensures Sum(sum, s.gpr[rs1], imm) && IsEven(target, sum) && Sum(link, s.pc, len)
  {
    sum, link := Plus(s.gpr[rs1], imm), Plus(s.pc, len);
    target := Even(sum);
    SumIs(s.gpr[rs1], imm);
    SumIs(s.pc, len);
    EvenIs(sum);
  }

  /** Only the pc moves: to the target or past the instruction. */
  predicate Branched(s: Core, t: Core, taken: bool, offset: bv64, len: bv64) {
    t == s.(pc := t.pc) && Sum(t.pc, s.pc, if taken then offset else len)
  }

  lemma BranchesGo(i: Insn, s: Core, len: bv64, loaded: bv64)
    requires Branches(i)
    ensures Branched(s, Execute(i, s, len, loaded), Taken(i, s), i.offset, len)
  {
    SumIs(s.pc, i.offset);
    SumIs(s.pc, len);
  }

  lemma EqualTaken(s: Core, rs1: RegNo, rs2: RegNo, offset: bv64)
    ensures Taken(Beq(rs1, rs2, offset), s) == (s.gpr[rs1] == s.gpr[rs2])
    ensures Taken(Bne(rs1, rs2, offset), s) == (s.gpr[rs1] != s.gpr[rs2])
  {}

  lemma UnsignedTaken(s: Core, rs1: RegNo, rs2: RegNo, offset: bv64)
    ensures Taken(Bltu(rs1, rs2, offset), s) == Less(s.gpr[rs1], s.gpr[rs2])
    ensures Taken(Bgeu(rs1, rs2, offset), s) == !Less(s.gpr[rs1], s.gpr[rs2])
  {
    LessIs(s.gpr[rs1], s.gpr[rs2]);
  }

  lemma SignedTaken(s: Core, rs1: RegNo, rs2: RegNo, offset: bv64)
    ensures Taken(Blt(rs1, rs2, offset), s) == Precedes(s.gpr[rs1], s.gpr[rs2])
    ensures Taken(Bge(rs1, rs2, offset), s) == !Precedes(s.gpr[rs1], s.gpr[rs2])
  {
    SignedIs(s.gpr[rs1], s.gpr[rs2]);
  }

  /** The request is for `size` bytes at the sum of base and offset; rd gets v. */
  predicate Fetches(s: Core, t: Core, rd: RegNo, v: bv64, base: bv64, offset: bv64, size: nat, len: bv64) {
    && Sum(t.pc, s.pc, len) && t.gpr == (if rd == 0 then s.gpr else s.gpr[rd := v])
    && t.request.Load? && Sum(t.request.addr, base, offset) && t.request.size == size
  }

  lemma LwFetches(s: Core, rd: RegNo, rs1: RegNo, imm: bv64, len: bv64, loaded: bv64) returns (v: bv64)
    ensures Fetches(s, Execute(Lw(rd, rs1, imm), s, len, loaded), rd, v, s.gpr[rs1], imm, 4, len) && IsWord(v, loaded)
  {
    v := SignedWord(loaded);
    WordIs(loaded);
    SumIs(s.gpr[rs1], imm);
    SumIs(s.pc, len);
  }

  lemma LwuFetches(s: Core, rd: RegNo, rs1: RegNo, imm: bv64, len: bv64, loaded: bv64) returns (v: bv64)
    ensures Fetches(s, Execute(Lwu(rd, rs1, imm), s, len, loaded), rd, v, s.gpr[rs1], imm, 4, len) && IsLowWord(v, loaded)
  {
    v := UnsignedWord(loaded);
    LowWordIs(loaded);
    SumIs(s.gpr[rs1], imm);
    SumIs(s.pc, len);
  }

  lemma LdFetches(s: Core, rd: RegNo, rs1: RegNo, imm: bv64, len: bv64, loaded: bv64)
    ensures Fetches(s, Execute(Ld(rd, rs1, imm), s, len, loaded), rd, loaded, s.gpr[rs1], imm, 8, len)
  {
    SumIs(s.gpr[rs1], imm);
    SumIs(s.pc, len);
  }

  predicate Deposits(s: Core, t: Core, v: bv64, base: bv64, offset: bv64, size: nat, len: bv64) {
    && Sum(t.pc, s.pc, len) && t.gpr == s.gpr
    && t.request.Store? && Sum(t.request.addr, base, offset) && t.request.size == size && t.request.value == v
  }

  lemma SwDeposits(s: Core, rs1: RegNo, rs2: RegNo, imm: bv64, len: bv64, loaded: bv64) returns (v: bv64)
    ensures Deposits(s, Execute(Sw(rs1, rs2, imm), s, len, loaded), v, s.gpr[rs1], imm, 4, len) && IsLowWord(v, s.gpr[rs2])
  {
    v := UnsignedWord(s.gpr[rs2]);
    LowWordIs(s.gpr[rs2]);
    SumIs(s.gpr[rs1], imm);
    SumIs(s.pc, len);
  }

  lemma SdDeposits(s: Core, rs1: RegNo, rs2: RegNo, imm: bv64, len: bv64, loaded: bv64)
    ensures Deposits(s, Execute(Sd(rs1, rs2, imm), s, len, loaded), s.gpr[rs2], s.gpr[rs1], imm, 8, len)
  {
    SumIs(s.gpr[rs1], imm);
    SumIs(s.pc, len);
  }
}
