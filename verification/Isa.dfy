/** The base integer instructions that compressed ones stand for, as the RISC-V Unprivileged ISA
    20191213 decodes and executes them (chapters 2 and 5), and its expansion of the compressed
    forms (chapter 16). This is the reference the handlers are compared with. */
module Isa {
  import opened Options

  // ---- Machine words ------------------------------------------------------------------------

  /** Sign extension of a 32-bit word to 64 bits. */
  function Widen(x: bv32): bv64 { (x as bv64 ^ 0x8000_0000) - 0x8000_0000 }

  /** Sign extension of the low 12, 13 or 21 bits. */
  function Sext12(x: bv32): bv32 { if x & 0x800 != 0 then x | 0xFFFF_F000 else x & 0xFFF }

  function Sext13(x: bv32): bv32 { if x & 0x1000 != 0 then x | 0xFFFF_E000 else x & 0x1FFF }

  function Sext21(x: bv32): bv32 { if x & 0x10_0000 != 0 then x | 0xFFE0_0000 else x & 0x1F_FFFF }

  // ---- Base instructions --------------------------------------------------------------------

  type RegNo = r: nat | r < 32

  /** The register a field's low five bits name. */
  function Ix(r: bv32): RegNo {
    (if r & 1 != 0 then 1 else 0) + (if r & 2 != 0 then 2 else 0) + (if r & 4 != 0 then 4 else 0)
    + (if r & 8 != 0 then 8 else 0) + (if r & 16 != 0 then 16 else 0)
  }

  datatype Insn =
    | Addi(rd: RegNo, rs1: RegNo, imm: bv64)
    | Andi(rd: RegNo, rs1: RegNo, imm: bv64)
    | Slli(rd: RegNo, rs1: RegNo, shamt: bv32)
    | Srli(rd: RegNo, rs1: RegNo, shamt: bv32)
    | Srai(rd: RegNo, rs1: RegNo, shamt: bv32)
    | Lui(rd: RegNo, imm: bv64)
    | Add(rd: RegNo, rs1: RegNo, rs2: RegNo)
    | Sub(rd: RegNo, rs1: RegNo, rs2: RegNo)
    | And(rd: RegNo, rs1: RegNo, rs2: RegNo)
    | Or(rd: RegNo, rs1: RegNo, rs2: RegNo)
    | Xor(rd: RegNo, rs1: RegNo, rs2: RegNo)
    | Addw(rd: RegNo, rs1: RegNo, rs2: RegNo)
    | Subw(rd: RegNo, rs1: RegNo, rs2: RegNo)
    | Addiw(rd: RegNo, rs1: RegNo, imm: bv64)
    | Jal(rd: RegNo, offset: bv64)
    | Jalr(rd: RegNo, rs1: RegNo, imm: bv64)
    | Beq(rs1: RegNo, rs2: RegNo, offset: bv64)
    | Bne(rs1: RegNo, rs2: RegNo, offset: bv64)
    | Blt(rs1: RegNo, rs2: RegNo, offset: bv64)
    | Bge(rs1: RegNo, rs2: RegNo, offset: bv64)
    | Bltu(rs1: RegNo, rs2: RegNo, offset: bv64)
    | Bgeu(rs1: RegNo, rs2: RegNo, offset: bv64)
    | Lw(rd: RegNo, rs1: RegNo, imm: bv64)
    | Lwu(rd: RegNo, rs1: RegNo, imm: bv64)
    | Ld(rd: RegNo, rs1: RegNo, imm: bv64)
    | Sw(rs1: RegNo, rs2: RegNo, imm: bv64)
    | Sd(rs1: RegNo, rs2: RegNo, imm: bv64)
    | Other

  function Rd(w: bv32): bv32 { (w >> 7) & 0x1F }

  function Rs1(w: bv32): bv32 { (w >> 15) & 0x1F }

  function Rs2(w: bv32): bv32 { (w >> 20) & 0x1F }

  function ImmI(w: bv32): bv64 { Widen(Sext12(w >> 20)) }

  function FieldS(w: bv32): bv32 { ((w >> 25) << 5) | ((w >> 7) & 0x1F) }

  function ImmS(w: bv32): bv64 { Widen(Sext12(FieldS(w))) }

  function FieldB(w: bv32): bv32 {
    ((w >> 31) << 12) | (((w >> 7) & 1) << 11) | (((w >> 25) & 0x3F) << 5) | (((w >> 8) & 0xF) << 1)
  }

  function ImmB(w: bv32): bv64 { Widen(Sext13(FieldB(w))) }

  function FieldJ(w: bv32): bv32 {
    ((w >> 31) << 20) | (((w >> 12) & 0xFF) << 12) | (((w >> 20) & 1) << 11) | (((w >> 21) & 0x3FF) << 1)
  }

  function ImmJ(w: bv32): bv64 { Widen(Sext21(FieldJ(w))) }

  function DecodeOpImm(w: bv32): Insn {
    var f3 := (w >> 12) & 7;
    if f3 == 0 then Addi(Ix(Rd(w)), Ix(Rs1(w)), ImmI(w))
    else if f3 == 7 then Andi(Ix(Rd(w)), Ix(Rs1(w)), ImmI(w))
    else if f3 == 1 && w >> 26 == 0 then Slli(Ix(Rd(w)), Ix(Rs1(w)), (w >> 20) & 0x3F)
    else if f3 == 5 && w >> 26 == 0 then Srli(Ix(Rd(w)), Ix(Rs1(w)), (w >> 20) & 0x3F)
    else if f3 == 5 && w >> 26 == 0x10 then Srai(Ix(Rd(w)), Ix(Rs1(w)), (w >> 20) & 0x3F)
    else Other
  }

  function DecodeOp(w: bv32): Insn {
    var f3, f7 := (w >> 12) & 7, w >> 25;
    if f3 == 0 && f7 == 0 then Add(Ix(Rd(w)), Ix(Rs1(w)), Ix(Rs2(w)))
    else if f3 == 0 && f7 == 0x20 then Sub(Ix(Rd(w)), Ix(Rs1(w)), Ix(Rs2(w)))
    else if f3 == 7 && f7 == 0 then And(Ix(Rd(w)), Ix(Rs1(w)), Ix(Rs2(w)))
    else if f3 == 6 && f7 == 0 then Or(Ix(Rd(w)), Ix(Rs1(w)), Ix(Rs2(w)))
    else if f3 == 4 && f7 == 0 then Xor(Ix(Rd(w)), Ix(Rs1(w)), Ix(Rs2(w)))
    else Other
  }

  function DecodeBranch(w: bv32): Insn {
    var f3 := (w >> 12) & 7;
    if f3 == 0 then Beq(Ix(Rs1(w)), Ix(Rs2(w)), ImmB(w))
    else if f3 == 1 then Bne(Ix(Rs1(w)), Ix(Rs2(w)), ImmB(w))
    else if f3 == 4 then Blt(Ix(Rs1(w)), Ix(Rs2(w)), ImmB(w))
    else if f3 == 5 then Bge(Ix(Rs1(w)), Ix(Rs2(w)), ImmB(w))
    else if f3 == 6 then Bltu(Ix(Rs1(w)), Ix(Rs2(w)), ImmB(w))
    else if f3 == 7 then Bgeu(Ix(Rs1(w)), Ix(Rs2(w)), ImmB(w))
    else Other
  }

  function DecodeMemory(w: bv32): Insn {
    var op, f3 := w & 0x7F, (w >> 12) & 7;
    if op == 0x03 && f3 == 2 then Lw(Ix(Rd(w)), Ix(Rs1(w)), ImmI(w))
    else if op == 0x03 && f3 == 6 then Lwu(Ix(Rd(w)), Ix(Rs1(w)), ImmI(w))
    else if op == 0x03 && f3 == 3 then Ld(Ix(Rd(w)), Ix(Rs1(w)), ImmI(w))
    else if op == 0x23 && f3 == 2 then Sw(Ix(Rs1(w)), Ix(Rs2(w)), ImmS(w))
    else if op == 0x23 && f3 == 3 then Sd(Ix(Rs1(w)), Ix(Rs2(w)), ImmS(w))
    else Other
  }

  function DecodeWord(w: bv32): Insn {
    var op, f3, f7 := w & 0x7F, (w >> 12) & 7, w >> 25;
    if op == 0x3B && f3 == 0 && f7 == 0 then Addw(Ix(Rd(w)), Ix(Rs1(w)), Ix(Rs2(w)))
    else if op == 0x3B && f3 == 0 && f7 == 0x20 then Subw(Ix(Rd(w)), Ix(Rs1(w)), Ix(Rs2(w)))
    else if op == 0x1B && f3 == 0 then Addiw(Ix(Rd(w)), Ix(Rs1(w)), ImmI(w))
    else Other
  }

  /** The base instruction a 32-bit word encodes, among those above. */
  function Decode(w: bv32): Insn {
    var op := w & 0x7F;
    if op == 0x13 then DecodeOpImm(w)
    else if op == 0x33 then DecodeOp(w)
    else if op == 0x37 then Lui(Ix(Rd(w)), Widen(w & 0xFFFF_F000))
    else if op == 0x3B || op == 0x1B then DecodeWord(w)
    else if op == 0x6F then Jal(Ix(Rd(w)), ImmJ(w))
    else if op == 0x67 && (w >> 12) & 7 == 0 then Jalr(Ix(Rd(w)), Ix(Rs1(w)), ImmI(w))
    else if op == 0x63 then DecodeBranch(w)
    else DecodeMemory(w)
  }

  // ---- Encoding -----------------------------------------------------------------------------

  function EncI(imm: bv32, rs1: bv32, f3: bv32, rd: bv32, op: bv32): bv32 {
    (imm << 20) | (rs1 << 15) | (f3 << 12) | (rd << 7) | op
  }

  function EncR(f7: bv32, rs2: bv32, rs1: bv32, f3: bv32, rd: bv32, op: bv32): bv32 {
    (f7 << 25) | (rs2 << 20) | (rs1 << 15) | (f3 << 12) | (rd << 7) | op
  }

  function EncS(imm: bv32, rs2: bv32, rs1: bv32, f3: bv32, op: bv32): bv32 {
    (((imm >> 5) & 0x7F) << 25) | (rs2 << 20) | (rs1 << 15) | (f3 << 12) | ((imm & 0x1F) << 7) | op
  }

  function EncB(offset: bv32, rs2: bv32, rs1: bv32, f3: bv32): bv32 {
    (((offset >> 12) & 1) << 31) | (((offset >> 5) & 0x3F) << 25) | (rs2 << 20) | (rs1 << 15) | (f3 << 12)
    | (((offset >> 1) & 0xF) << 8) | (((offset >> 11) & 1) << 7) | 0x63
  }

  function EncJ(offset: bv32, rd: bv32): bv32 {
    (((offset >> 20) & 1) << 31) | (((offset >> 1) & 0x3FF) << 21) | (((offset >> 11) & 1) << 20)
    | (((offset >> 12) & 0xFF) << 12) | (rd << 7) | 0x6F
  }

  // ---- Compressed forms ---------------------------------------------------------------------

  function Rs2C(c: bv32): bv32 { (c >> 2) & 0x1F }

  function RdP(c: bv32): bv32 { ((c >> 2) & 7) + 8 }

  function Rs1P(c: bv32): bv32 { ((c >> 7) & 7) + 8 }

  /** The six-bit immediate of the CI forms, sign-extended to 12 bits. */
  function Imm6(c: bv32): bv32 {
    var v := (((c >> 12) & 1) << 5) | ((c >> 2) & 0x1F);
    if v & 0x20 != 0 then v | 0xFC0 else v
  }

  function Uimm6(c: bv32): bv32 { (((c >> 12) & 1) << 5) | ((c >> 2) & 0x1F) }

  function ImmAddi4spn(c: bv32): bv32 {
    (((c >> 11) & 3) << 4) | (((c >> 7) & 0xF) << 6) | (((c >> 6) & 1) << 2) | (((c >> 5) & 1) << 3)
  }

  function ImmAddi16sp(c: bv32): bv32 {
    var v := (((c >> 12) & 1) << 9) | (((c >> 6) & 1) << 4) | (((c >> 5) & 1) << 6) | (((c >> 3) & 3) << 7) | (((c >> 2) & 1) << 5);
    if v & 0x200 != 0 then v | 0xC00 else v
  }

  function ImmW(c: bv32): bv32 { (((c >> 10) & 7) << 3) | (((c >> 6) & 1) << 2) | (((c >> 5) & 1) << 6) }

  function ImmD(c: bv32): bv32 { (((c >> 10) & 7) << 3) | (((c >> 5) & 3) << 6) }

  function ImmLdsp(c: bv32): bv32 { (((c >> 12) & 1) << 5) | (((c >> 5) & 3) << 3) | (((c >> 2) & 7) << 6) }

  function ImmSwsp(c: bv32): bv32 { (((c >> 9) & 0xF) << 2) | (((c >> 7) & 3) << 6) }

  function ImmSdsp(c: bv32): bv32 { (((c >> 10) & 7) << 3) | (((c >> 7) & 7) << 6) }

  /** The 12-bit jump offset, sign-extended to 21 bits. */
  function OffJ(c: bv32): bv32 {
    var v := (((c >> 12) & 1) << 11) | (((c >> 11) & 1) << 4) | (((c >> 9) & 3) << 8) | (((c >> 8) & 1) << 10) | (((c >> 7) & 1) << 6)
             | (((c >> 6) & 1) << 7) | (((c >> 3) & 7) << 1) | (((c >> 2) & 1) << 5);
    if v & 0x800 != 0 then v | 0x1F_F000 else v
  }

  /** The 9-bit branch offset, sign-extended to 13 bits. */
  function OffB(c: bv32): bv32 {
    var v := (((c >> 12) & 1) << 8) | (((c >> 10) & 3) << 3) | (((c >> 5) & 3) << 6) | (((c >> 3) & 3) << 1) | (((c >> 2) & 1) << 5);
    if v & 0x100 != 0 then v | 0x1E00 else v
  }

  function F3(c: bv32): bv32 { (c >> 13) & 7 }

  function ExpandC0(c: bv32): Option<bv32> {
    if F3(c) == 0 && ImmAddi4spn(c) != 0 then Some(EncI(ImmAddi4spn(c), 2, 0, RdP(c), 0x13))
    else if F3(c) == 2 then Some(EncI(ImmW(c), Rs1P(c), 2, RdP(c), 0x03))
    else if F3(c) == 3 then Some(EncI(ImmD(c), Rs1P(c), 3, RdP(c), 0x03))
    else if F3(c) == 6 then Some(EncS(ImmW(c), RdP(c), Rs1P(c), 2, 0x23))
    else if F3(c) == 7 then Some(EncS(ImmD(c), RdP(c), Rs1P(c), 3, 0x23))
    else None
  }

  function ExpandAlu(c: bv32): Option<bv32> {
    var sel, sub, b12 := (c >> 10) & 3, (c >> 5) & 3, (c >> 12) & 1;
    if sel == 0 then Some(EncI(Uimm6(c), Rs1P(c), 5, Rs1P(c), 0x13))
    else if sel == 1 then Some(EncI(0x400 | Uimm6(c), Rs1P(c), 5, Rs1P(c), 0x13))
    else if sel == 2 then Some(EncI(Imm6(c), Rs1P(c), 7, Rs1P(c), 0x13))
    else if b12 == 0 && sub == 0 then Some(EncR(0x20, RdP(c), Rs1P(c), 0, Rs1P(c), 0x33))
    else if b12 == 0 && sub == 1 then Some(EncR(0, RdP(c), Rs1P(c), 4, Rs1P(c), 0x33))
    else if b12 == 0 && sub == 2 then Some(EncR(0, RdP(c), Rs1P(c), 6, Rs1P(c), 0x33))
    else if b12 == 0 then Some(EncR(0, RdP(c), Rs1P(c), 7, Rs1P(c), 0x33))
    else if sub == 0 then Some(EncR(0x20, RdP(c), Rs1P(c), 0, Rs1P(c), 0x3B))
    else if sub == 1 then Some(EncR(0, RdP(c), Rs1P(c), 0, Rs1P(c), 0x3B))
    else None
  }

  function ExpandUpper(c: bv32): Option<bv32> {
    if Uimm6(c) == 0 then None
    else if Rd(c) == 2 then Some(EncI(ImmAddi16sp(c), 2, 0, 2, 0x13))
    else Some((if Uimm6(c) & 0x20 != 0 then 0xFFFC_0000 else 0) | (Uimm6(c) << 12) | (Rd(c) << 7) | 0x37)
  }

  function ExpandC1(c: bv32): Option<bv32> {
    if F3(c) == 0 then Some(EncI(Imm6(c), Rd(c), 0, Rd(c), 0x13))
    else if F3(c) == 1 then if Rd(c) == 0 then None else Some(EncI(Imm6(c), Rd(c), 0, Rd(c), 0x1B))
    else if F3(c) == 2 then Some(EncI(Imm6(c), 0, 0, Rd(c), 0x13))
    else if F3(c) == 3 then ExpandUpper(c)
    else if F3(c) == 4 then ExpandAlu(c)
    else if F3(c) == 5 then Some(EncJ(OffJ(c), 0))
    else if F3(c) == 6 then Some(EncB(OffB(c), 0, Rs1P(c), 0))
    else Some(EncB(OffB(c), 0, Rs1P(c), 1))
  }

  function ExpandC2(c: bv32): Option<bv32> {
    var rs2, b12 := Rs2C(c), (c >> 12) & 1;
    if F3(c) == 0 then Some(EncI(Uimm6(c), Rd(c), 1, Rd(c), 0x13))
    else if F3(c) == 3 && Rd(c) != 0 then Some(EncI(ImmLdsp(c), 2, 3, Rd(c), 0x03))
    else if F3(c) == 4 && Rd(c) != 0 && rs2 == 0 then Some(EncI(0, Rd(c), 0, b12, 0x67))
    else if F3(c) == 4 && Rd(c) != 0 then Some(EncR(0, rs2, if b12 == 0 then 0 else Rd(c), 0, Rd(c), 0x33))
    else if F3(c) == 6 then Some(EncS(ImmSwsp(c), rs2, 2, 2, 0x23))
    else if F3(c) == 7 then Some(EncS(ImmSdsp(c), rs2, 2, 3, 0x23))
    else None
  }

  /** The 32-bit instruction a compressed one stands for; None for reserved encodings, hints and
      the forms left out. */
  function Expand(c: bv32): Option<bv32> {
    if c & 3 == 0 then ExpandC0(c) else if c & 3 == 1 then ExpandC1(c) else if c & 3 == 2 then ExpandC2(c) else None
  }

  // ---- Execution ----------------------------------------------------------------------------

  /** The memory access an instruction asks for; address translation and the bus answer it. */
  datatype Request = NoRequest | Load(addr: bv64, size: nat) | Store(addr: bv64, value: bv64, size: nat)

  type Regs = r: seq<bv64> | |r| == 32 witness seq(32, i => 0)

  datatype Core = Core(pc: bv64, gpr: Regs, request: Request)

  function Reg(s: Core, r: RegNo): bv64 { s.gpr[r] }

  /** Register 0 is never written. */
  function Write(g: Regs, r: RegNo, v: bv64): Regs {
    if r == 0 then g else g[r := v]
  }

  function SetReg(s: Core, r: RegNo, v: bv64): Core { s.(gpr := Write(s.gpr, r, v)) }

  function Low32(x: bv64): bv32 { (x & 0xFFFF_FFFF) as bv32 }

  predicate Below(a: bv64, b: bv64) { a < b }

  predicate SignedLess(a: bv64, b: bv64) {
    a ^ 0x8000_0000_0000_0000 < b ^ 0x8000_0000_0000_0000
  }

  function Plus(x: bv64, y: bv64): bv64 { x + y }

  function Minus(x: bv64, y: bv64): bv64 { x - y }

  function BitAnd(x: bv64, y: bv64): bv64 { x & y }

  function BitOr(x: bv64, y: bv64): bv64 { x | y }

  function BitXor(x: bv64, y: bv64): bv64 { x ^ y }

  /** The low word of x, extended with its sign or with zeros. */
  function SignedWord(x: bv64): bv64 { Widen(Low32(x)) }

  function UnsignedWord(x: bv64): bv64 { Low32(x) as bv64 }

  function Shl(x: bv64, n: bv32): bv64 { x << (n & 0x3F) }

  function Shr(x: bv64, n: bv32): bv64 { x >> (n & 0x3F) }

  function Not(x: bv64): bv64 { !x }

  function Asr(x: bv64, n: bv32): bv64 {
    if x & 0x8000_0000_0000_0000 != 0 then Not(Shr(Not(x), n)) else Shr(x, n)
  }

  /** The low word of the sum or the difference, sign-extended. */
  function AddWord(x: bv64, y: bv64): bv64 { SignedWord(Plus(x, y)) }

  function SubWord(x: bv64, y: bv64): bv64 { SignedWord(Minus(x, y)) }

  /** Clears bit 0. */
  function Even(x: bv64): bv64 { x & !1 }

  /** The instructions that compute a register from registers. */
  predicate Computes(i: Insn) {
    || i.Addi? || i.Andi? || i.Slli? || i.Srli? || i.Srai? || i.Lui? || i.Add? || i.Sub? || i.And? || i.Or?
    || i.Xor? || i.Addw? || i.Subw? || i.Addiw?
  }

  function Computed(i: Insn, s: Core): bv64 {
    match i
    case Addi(_, rs1, imm) => Plus(Reg(s, rs1), imm)
    case Andi(_, rs1, imm) => BitAnd(Reg(s, rs1), imm)
    case Slli(_, rs1, sh) => Shl(Reg(s, rs1), sh)
    case Srli(_, rs1, sh) => Shr(Reg(s, rs1), sh)
    case Srai(_, rs1, sh) => Asr(Reg(s, rs1), sh)
    case Lui(_, imm) => imm
    case Add(_, rs1, rs2) => Plus(Reg(s, rs1), Reg(s, rs2))
    case Sub(_, rs1, rs2) => Minus(Reg(s, rs1), Reg(s, rs2))
    case And(_, rs1, rs2) => BitAnd(Reg(s, rs1), Reg(s, rs2))
    case Or(_, rs1, rs2) => BitOr(Reg(s, rs1), Reg(s, rs2))
    case Xor(_, rs1, rs2) => BitXor(Reg(s, rs1), Reg(s, rs2))
    case Addw(_, rs1, rs2) => AddWord(Reg(s, rs1), Reg(s, rs2))
    case Subw(_, rs1, rs2) => SubWord(Reg(s, rs1), Reg(s, rs2))
    case Addiw(_, rs1, imm) => AddWord(Reg(s, rs1), imm)
    case _ => 0
  }

  predicate Branches(i: Insn) {
    i.Beq? || i.Bne? || i.Blt? || i.Bge? || i.Bltu? || i.Bgeu?
  }

  predicate Taken(i: Insn, s: Core) {
    match i
    case Beq(rs1, rs2, _) => Reg(s, rs1) == Reg(s, rs2)
    case Bne(rs1, rs2, _) => Reg(s, rs1) != Reg(s, rs2)
    case Blt(rs1, rs2, _) => SignedLess(Reg(s, rs1), Reg(s, rs2))
    case Bge(rs1, rs2, _) => !SignedLess(Reg(s, rs1), Reg(s, rs2))
    case Bltu(rs1, rs2, _) => Below(Reg(s, rs1), Reg(s, rs2))
    case Bgeu(rs1, rs2, _) => !Below(Reg(s, rs1), Reg(s, rs2))
    case _ => false
  }

  /** The effect of a load or a store on registers and memory; `loaded` is what the bus answers. */
  function Accessed(i: Insn, s: Core, next: bv64, loaded: bv64): Core {
    match i
    case Lw(rd, rs1, imm) => Core(next, Write(s.gpr, rd, SignedWord(loaded)), Load(Plus(Reg(s, rs1), imm), 4))
    case Lwu(rd, rs1, imm) => Core(next, Write(s.gpr, rd, UnsignedWord(loaded)), Load(Plus(Reg(s, rs1), imm), 4))
    case Ld(rd, rs1, imm) => Core(next, Write(s.gpr, rd, loaded), Load(Plus(Reg(s, rs1), imm), 8))
    case Sw(rs1, rs2, imm) => Core(next, s.gpr, Store(Plus(Reg(s, rs1), imm), UnsignedWord(Reg(s, rs2)), 4))
    case Sd(rs1, rs2, imm) => Core(next, s.gpr, Store(Plus(Reg(s, rs1), imm), Reg(s, rs2), 8))
    case _ => s
  }

  /** The effect of an instruction that occupies `len` bytes. */
  function Execute(i: Insn, s: Core, len: bv64, loaded: bv64): Core {
    var next := Plus(s.pc, len);
    if Branches(i) then s.(pc := if Taken(i, s) then Plus(s.pc, i.offset) else next)
    else if Computes(i) then Core(next, Write(s.gpr, i.rd, Computed(i, s)), s.request)
    else if i.Jal? then Core(Plus(s.pc, i.offset), Write(s.gpr, i.rd, next), s.request)
    else if i.Jalr? then Core(Even(Plus(Reg(s, i.rs1), i.imm)), Write(s.gpr, i.rd, next), s.request)
    else if i.Other? then s
    else Accessed(i, s, next, loaded)
  }
}
