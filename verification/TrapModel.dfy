/** Trap entry, trap return and interrupt dispatch as functions of the hart state. */
module TrapModel {
  import opened Bits

  const CSR_SSTATUS: nat := 0x100
  const CSR_SIE: nat := 0x104
  const CSR_STVEC: nat := 0x105
  const CSR_SEPC: nat := 0x141
  const CSR_SCAUSE: nat := 0x142
  const CSR_STVAL: nat := 0x143
  const CSR_MSTATUS: nat := 0x300
  const CSR_MIDELEG: nat := 0x303
  const CSR_MIE: nat := 0x304
  const CSR_MTVEC: nat := 0x305
  const CSR_MEPC: nat := 0x341
  const CSR_MCAUSE: nat := 0x342
  const CSR_MTVAL: nat := 0x343
  const CSR_MIP: nat := 0x344
  const CSR_COUNT: nat := 4096

  // Bit numbers of sstatus, mstatus, mip/mie and sip/sie/mideleg.
  const SIE: nat := 1
  const SPIE: nat := 5
  const SPP: nat := 8
  const MIE: nat := 3
  const MPIE: nat := 7
  const MPP: nat := 11

  const MSI: nat := 3
  const MTI: nat := 7
  const MEI: nat := 11
  const SSI: nat := 1
  const STI: nat := 5
  const SEI: nat := 9

  /** Interrupt numbers; 0 stands for none. */
  const S_SOFT: nat := 1
  const M_SOFT: nat := 3
  const S_TIMER: nat := 5
  const M_TIMER: nat := 7
  const S_EXT: nat := 9
  const M_EXT: nat := 11

  const WORDS: nat := 0x1_0000_0000_0000_0000
  const TOP: nat := 0x8000_0000_0000_0000

  type Csrs = c: seq<nat> | |c| == CSR_COUNT witness seq(CSR_COUNT, i => 0)

  /** Privilege 0 = U, 1 = S, 3 = M. `mcauseFlag` is the value of the out-of-range shift that is
      meant to set the top bit of mcause. */
  datatype Hart = Hart(pc: nat, privilege: nat, csr: Csrs, mcauseFlag: nat)

  function Vector(tvec: nat, cause: nat, isInterrupt: bool): nat
  {
    var mode := Low(tvec, 2);
    var base := Shr(tvec, 2) * 4;
    if mode == 1 && isInterrupt then (base + cause * 4) % WORDS else base
  }

  function EnterS(sstatus: nat, privilege: nat): nat {
    WithBit(WithBit(WithBit(sstatus, SPIE, Bit(sstatus, SIE)), SIE, false), SPP, privilege == 1)
  }

  /** `take_smode_trap` */
  function TrapS(h: Hart, cause: nat, isInterrupt: bool): Hart {
    var code := Low(cause, 31);
    var scause := if isInterrupt then TOP + code else code;
    h.(csr := h.csr[CSR_SEPC := h.pc][CSR_SCAUSE := scause][CSR_STVAL := 0]
                   [CSR_SSTATUS := EnterS(h.csr[CSR_SSTATUS], h.privilege)],
       privilege := 1,
       pc := Vector(h.csr[CSR_STVEC], cause, isInterrupt))
  }

  function Mpp(mstatus: nat): nat {
    (if Bit(mstatus, MPP) then 1 else 0) + (if Bit(mstatus, MPP + 1) then 2 else 0)
  }

  function WithMpp(mstatus: nat, privilege: nat): nat {
    WithBit(WithBit(mstatus, MPP, Bit(privilege, 0)), MPP + 1, Bit(privilege, 1))
  }

  /** `w & ~(1u << k)`: the mask has 32 bits, so bits 32 to 63 are cleared along with bit k. */
  function Cleared(w: nat, k: nat): nat { Low(WithBit(w, k, false), 32) }

  function SetOrCleared(w: nat, k: nat, on: bool): nat {
    if on then WithBit(w, k, true) else Cleared(w, k)
  }

  /** `w & ~MSTATUS_MPP_MASK`, a 32-bit mask again */
  function ClearedMpp(w: nat): nat { Low(WithMpp(w, 0), 32) }

  function EnterM(mstatus: nat, privilege: nat): nat {
    WithMpp(ClearedMpp(Cleared(SetOrCleared(mstatus, MPIE, Bit(mstatus, MIE)), MIE)), privilege)
  }

  /** `take_mmode_trap`, which leaves the privilege as it is. */
  function TrapM(h: Hart, cause: nat, isInterrupt: bool): Hart {
    var code := Low(cause, 31);
    var mcause := if isInterrupt then h.mcauseFlag + code else code;
    h.(csr := h.csr[CSR_MEPC := h.pc][CSR_MCAUSE := mcause][CSR_MTVAL := 0]
                   [CSR_MSTATUS := EnterM(h.csr[CSR_MSTATUS], h.privilege)],
       pc := Vector(h.csr[CSR_MTVEC], cause, isInterrupt))
  }

  /** `take_trap` */
  function Trap(h: Hart, cause: nat, isInterrupt: bool): Hart {
    if h.privilege <= 1 then TrapS(h, cause, isInterrupt) else TrapM(h, cause, isInterrupt)
  }

  function LeaveS(sstatus: nat): nat {
    WithBit(WithBit(WithBit(sstatus, SPP, false), SIE, Bit(sstatus, SPIE)), SPIE, false)
  }

  /** `exec_sret`: nothing happens in U mode or when sepc is odd. */
  function Sret(h: Hart): Hart {
    var sepc, sstatus := h.csr[CSR_SEPC], h.csr[CSR_SSTATUS];
    if h.privilege < 1 || Bit(sepc, 0) then h
    else h.(pc := sepc, privilege := if Bit(sstatus, SPP) then 1 else 0, csr := h.csr[CSR_SSTATUS := LeaveS(sstatus)])
  }

  function LeaveM(mstatus: nat): nat {
    ClearedMpp(WithBit(SetOrCleared(mstatus, MIE, Bit(mstatus, MPIE)), MPIE, true))
  }

  /** `exec_mret`: a reserved MPP of 2 leaves the privilege as it is. */
  function Mret(h: Hart): Hart {
    var mstatus := h.csr[CSR_MSTATUS];
    h.(pc := h.csr[CSR_MEPC], privilege := if Mpp(mstatus) == 2 then h.privilege else Mpp(mstatus),
       csr := h.csr[CSR_MSTATUS := LeaveM(mstatus)])
  }

  /** `do_mret`, which takes MPP as it is. */
  function DoMret(h: Hart): Hart {
    Mret(h).(privilege := Mpp(h.csr[CSR_MSTATUS]))
  }

  // ---- Dispatch -----------------------------------------------------------------------------

  /** One link of the M-mode priority chain: delegated and enabled towards S, else enabled towards M. */
  function Choose(h: Hart, sBit: nat, mBit: nat, sCause: nat, mCause: nat): nat {
    if Bit(h.csr[CSR_MIDELEG], sBit) && Bit(h.csr[CSR_SSTATUS], SIE) && Bit(h.csr[CSR_SIE], sBit) then sCause
    else if Bit(h.csr[CSR_MIE], mBit) then mCause
    else 0
  }

  function CauseInM(h: Hart): nat {
    var mip := h.csr[CSR_MIP];
    if !Bit(h.csr[CSR_MSTATUS], MIE) then 0
    else if Bit(mip, MEI) then Choose(h, SEI, MEI, S_EXT, M_EXT)
    else if Bit(mip, MTI) then Choose(h, STI, MTI, S_TIMER, M_TIMER)
    else if Bit(mip, MSI) then Choose(h, SSI, MSI, S_SOFT, M_SOFT)
    else 0
  }

  function CauseInSU(h: Hart): nat {
    var mip, sie, mideleg := h.csr[CSR_MIP], h.csr[CSR_SIE], h.csr[CSR_MIDELEG];
    if h.privilege == 1 && !Bit(h.csr[CSR_SSTATUS], SIE) then 0
    else if Bit(mip, MEI) && Bit(mideleg, SEI) && Bit(sie, SEI) then S_EXT
    else if Bit(mip, STI) && Bit(sie, STI) then S_TIMER
    else if Bit(mip, MSI) && Bit(mideleg, SSI) && Bit(sie, SSI) then S_SOFT
    else 0
  }

  /** The interrupt to take, or 0. */
  function CauseOf(h: Hart): (cause: nat)
    ensures cause in {0, S_SOFT, S_TIMER, S_EXT} || (h.privilege == 3 && cause in {M_SOFT, M_TIMER, M_EXT})
  {
    if h.privilege == 3 then CauseInM(h) else if h.privilege <= 1 then CauseInSU(h) else 0
  }

  /** Taking a software interrupt acknowledges it. */
  function AckSoft(h: Hart, cause: nat): Hart {
    if cause == M_SOFT || cause == S_SOFT then h.(csr := h.csr[CSR_MIP := Cleared(h.csr[CSR_MIP], MSI)]) else h
  }

  predicate ToS(cause: nat) { cause == S_SOFT || cause == S_TIMER || cause == S_EXT }

  /** `check_and_handle_interrupts` */
  function Dispatch(h: Hart): Hart {
    var cause := CauseOf(h);
    if cause == 0 then h
    else if ToS(cause) then TrapS(AckSoft(h, cause), cause, true)
    else TrapM(AckSoft(h, cause), cause, true)
  }

  // ---- Properties ---------------------------------------------------------------------------

  /** What every bit of sstatus is after an entry and after a return. */
  lemma EnterSBits(w: nat, privilege: nat, k: nat)
    ensures Bit(EnterS(w, privilege), k) ==
      if k == SPP then privilege == 1 else if k == SIE then false else if k == SPIE then Bit(w, SIE) else Bit(w, k)
  {
    var w1 := WithBit(w, SPIE, Bit(w, SIE));
    var w2 := WithBit(w1, SIE, false);
    BitOfWithBit(w, SPIE, Bit(w, SIE), k);
    BitOfWithBit(w1, SIE, false, k);
    BitOfWithBit(w2, SPP, privilege == 1, k);
  }

  lemma LeaveSBits(w: nat, k: nat)
    ensures Bit(LeaveS(w), k) ==
      if k == SPP || k == SPIE then false else if k == SIE then Bit(w, SPIE) else Bit(w, k)
  {
    var w1 := WithBit(w, SPP, false);
    var w2 := WithBit(w1, SIE, Bit(w, SPIE));
    BitOfWithBit(w, SPP, false, k);
    BitOfWithBit(w1, SIE, Bit(w, SPIE), k);
    BitOfWithBit(w2, SPIE, false, k);
  }

  lemma WithMppBits(w: nat, privilege: nat, k: nat)
    ensures Bit(WithMpp(w, privilege), k) ==
      if k == MPP then Bit(privilege, 0) else if k == MPP + 1 then Bit(privilege, 1) else Bit(w, k)
  {
    BitOfWithBit(w, MPP, Bit(privilege, 0), k);
    BitOfWithBit(WithBit(w, MPP, Bit(privilege, 0)), MPP + 1, Bit(privilege, 1), k);
  }

  lemma ClearedBits(w: nat, k: nat, j: nat)
    ensures Bit(Cleared(w, k), j) == (j < 32 && j != k && Bit(w, j))
    ensures Bit(ClearedMpp(w), j) == (j < 32 && j != MPP && j != MPP + 1 && Bit(w, j))
  {
    BitOfWithBit(w, k, false, j);
    BitOfLow(WithBit(w, k, false), 32, j);
    WithMppBits(w, 0, j);
    BitOfLow(WithMpp(w, 0), 32, j);
  }

  lemma SetOrClearedBits(w: nat, k: nat, on: bool, j: nat)
    ensures Bit(SetOrCleared(w, k, on), j) == if j == k then on && (on || k < 32) else Bit(w, j) && (on || j < 32)
  {
    ClearedBits(w, k, j);
    BitOfWithBit(w, k, true, j);
  }

  /** Every bit of mstatus after an entry and after a return; bits 32 to 63 are cleared. */
  lemma EnterMBits(w: nat, privilege: nat, k: nat)
    ensures Bit(EnterM(w, privilege), k) ==
      (k < 32 &&
        if k == MPP then Bit(privilege, 0) else if k == MPP + 1 then Bit(privilege, 1)
        else if k == MIE then false else if k == MPIE then Bit(w, MIE) else Bit(w, k))
  {
    var w1 := SetOrCleared(w, MPIE, Bit(w, MIE));
    var w2 := Cleared(w1, MIE);
    SetOrClearedBits(w, MPIE, Bit(w, MIE), k);
    ClearedBits(w1, MIE, k);
    ClearedBits(w2, MIE, k);
    WithMppBits(ClearedMpp(w2), privilege, k);
  }

  lemma LeaveMBits(w: nat, k: nat)
    ensures Bit(LeaveM(w), k) ==
      (k < 32 &&
        if k == MPP || k == MPP + 1 then false else if k == MPIE then true
        else if k == MIE then Bit(w, MPIE) else Bit(w, k))
  {
    var w1 := SetOrCleared(w, MIE, Bit(w, MPIE));
    SetOrClearedBits(w, MIE, Bit(w, MPIE), k);
    BitOfWithBit(w1, MPIE, true, k);
    ClearedBits(WithBit(w1, MPIE, true), MIE, k);
  }

  // ---- What the 32-bit masks lose -------------------------------------------------------------

  /** The same updates with masks as wide as the register. */
  function WideEnterM(w: nat, privilege: nat): nat {
    WithMpp(WithBit(WithBit(w, MPIE, Bit(w, MIE)), MIE, false), privilege)
  }

  function WideLeaveM(w: nat): nat {
    WithMpp(WithBit(WithBit(w, MIE, Bit(w, MPIE)), MPIE, true), 0)
  }

  lemma Pow2Of32()
    ensures Pow2(32) == 0x1_0000_0000
  {
    assert Pow2(8) == 256;
    assert Pow2(16) == 0x1_0000;
    assert Pow2(24) == 0x100_0000;
  }

  /** Losing the bits above 31 does no harm exactly when there were none. */
  lemma LosesUpperBits(w: nat, narrow: nat, wide: nat)
    requires forall k: nat :: Bit(narrow, k) == (k < 32 && Bit(wide, k))
    requires forall k: nat :: k >= 32 ==> Bit(wide, k) == Bit(w, k)
    ensures narrow == wide <==> w < 0x1_0000_0000
  {
    Pow2Of32();
    LowSame(w, 32);
    forall k: nat ensures Bit(Low(w, 32), k) == (k < 32 && Bit(w, k)) { BitOfLow(w, 32, k); }
    if narrow == wide {
      forall k: nat ensures Bit(Low(w, 32), k) == Bit(w, k) { assert Bit(narrow, k) == Bit(wide, k); }
      SameBits(Low(w, 32), w);
    } else if w < 0x1_0000_0000 {
      forall k: nat ensures Bit(narrow, k) == Bit(wide, k) { assert Bit(Low(w, 32), k) == Bit(w, k); }
      SameBits(narrow, wide);
    }
  }

  lemma WideEnterMBits(w: nat, privilege: nat, k: nat)
    ensures Bit(WideEnterM(w, privilege), k) ==
      if k == MPP then Bit(privilege, 0) else if k == MPP + 1 then Bit(privilege, 1)
      else if k == MIE then false else if k == MPIE then Bit(w, MIE) else Bit(w, k)
  {
    var w1 := WithBit(w, MPIE, Bit(w, MIE));
    BitOfWithBit(w, MPIE, Bit(w, MIE), k);
    BitOfWithBit(w1, MIE, false, k);
    WithMppBits(WithBit(w1, MIE, false), privilege, k);
  }

  lemma WideLeaveMBits(w: nat, k: nat)
    ensures Bit(WideLeaveM(w), k) ==
      if k == MPP || k == MPP + 1 then false else if k == MPIE then true else if k == MIE then Bit(w, MPIE) else Bit(w, k)
  {
    var w1 := WithBit(w, MIE, Bit(w, MPIE));
    BitOfWithBit(w, MIE, Bit(w, MPIE), k);
    BitOfWithBit(w1, MPIE, true, k);
    WithMppBits(WithBit(w1, MPIE, true), 0, k);
  }

  /** Entry, return and acknowledgement do what masks of the register's width would do exactly when
      bits 32 to 63 of mstatus, or mip, are clear before. */
  lemma EnterMExact(w: nat, privilege: nat)
    ensures EnterM(w, privilege) == WideEnterM(w, privilege) <==> w < 0x1_0000_0000
  {
    forall k: nat ensures Bit(EnterM(w, privilege), k) == (k < 32 && Bit(WideEnterM(w, privilege), k))
                  ensures k >= 32 ==> Bit(WideEnterM(w, privilege), k) == Bit(w, k)
    {
      EnterMBits(w, privilege, k);
      WideEnterMBits(w, privilege, k);
    }
    LosesUpperBits(w, EnterM(w, privilege), WideEnterM(w, privilege));
  }

  lemma LeaveMExact(w: nat)
    ensures LeaveM(w) == WideLeaveM(w) <==> w < 0x1_0000_0000
  {
    forall k: nat ensures Bit(LeaveM(w), k) == (k < 32 && Bit(WideLeaveM(w), k))
                  ensures k >= 32 ==> Bit(WideLeaveM(w), k) == Bit(w, k)
    {
      LeaveMBits(w, k);
      WideLeaveMBits(w, k);
    }
    LosesUpperBits(w, LeaveM(w), WideLeaveM(w));
  }

  lemma AckSoftExact(h: Hart, cause: nat)
    requires cause == M_SOFT || cause == S_SOFT
    ensures AckSoft(h, cause) == h.(csr := h.csr[CSR_MIP := WithBit(h.csr[CSR_MIP], MSI, false)])
            <==> h.csr[CSR_MIP] < 0x1_0000_0000
  {
    var mip := h.csr[CSR_MIP];
    forall k: nat ensures Bit(Cleared(mip, MSI), k) == (k < 32 && Bit(WithBit(mip, MSI, false), k))
                  ensures k >= 32 ==> Bit(WithBit(mip, MSI, false), k) == Bit(mip, k)
    {
      ClearedBits(mip, MSI, k);
      BitOfWithBit(mip, MSI, false, k);
    }
    LosesUpperBits(mip, Cleared(mip, MSI), WithBit(mip, MSI, false));
    assert AckSoft(h, cause).csr[CSR_MIP] == Cleared(mip, MSI);
    assert h.csr[CSR_MIP := WithBit(mip, MSI, false)][CSR_MIP] == WithBit(mip, MSI, false);
  }

  /** After a dispatch no interrupt is takeable: each trap entry clears the enable that gates it. */
  lemma DispatchSettles(h: Hart)
    ensures CauseOf(Dispatch(h)) == 0
  {
    var h', cause := Dispatch(h), CauseOf(h);
    if ToS(cause) {
      EnterSBits(h.csr[CSR_SSTATUS], h.privilege, SIE);
      assert !Bit(h'.csr[CSR_SSTATUS], SIE);
    } else if cause != 0 {
      EnterMBits(h.csr[CSR_MSTATUS], h.privilege, MIE);
      assert !Bit(h'.csr[CSR_MSTATUS], MIE);
    }
  }

  /** Dispatch never re-enters: a second call right after the first changes nothing. */
  lemma DispatchIsIdempotent(h: Hart)
    ensures Dispatch(Dispatch(h)) == Dispatch(h)
  {
    DispatchSettles(h);
  }

  /** The two return routines for M mode agree exactly outside the reserved previous privilege. */
  lemma MretsAgree(h: Hart)
    ensures DoMret(h) == Mret(h) <==> (Mpp(h.csr[CSR_MSTATUS]) != 2 || h.privilege == 2)
  {}

  // ---- Nested traps -------------------------------------------------------------------------

  /** What a handler may do between entry and return: write any CSR, run to any pc, or take a
      nested trap into S or M mode whose handler again does such things. */
  datatype Activity =
    | WriteCsr(id: nat, value: nat)
    | RunTo(pc: nat)
    | Nested(toM: bool, cause: nat, isInterrupt: bool, handler: seq<Activity>)

  function Perform(h: Hart, a: Activity): Hart
    decreases a
  {
    match a
    case WriteCsr(id, value) => if id < CSR_COUNT then h.(csr := h.csr[id := value]) else h
    case RunTo(pc) => h.(pc := pc)
    case Nested(toM, cause, isInterrupt, handler) =>
      if toM then HandledTrapM(h, cause, isInterrupt, handler) else HandledTrap(h, cause, isInterrupt, handler)
  }

  function PerformAll(h: Hart, activities: seq<Activity>): Hart
    decreases activities, 0
  {
    if activities == [] then h
    else Perform(PerformAll(h, activities[..|activities| - 1]), activities[|activities| - 1])
  }

  /** The handler writes back the sepc and sstatus it saw on entry. */
  function WriteBack(h: Hart, entry: Hart): Hart {
    h.(csr := h.csr[CSR_SEPC := entry.csr[CSR_SEPC]][CSR_SSTATUS := entry.csr[CSR_SSTATUS]])
  }

  /** A trap into S mode, its handler, and the return. */
  function HandledTrap(h: Hart, cause: nat, isInterrupt: bool, handler: seq<Activity>): Hart
    decreases handler, 1
  {
    var entry := TrapS(h, cause, isInterrupt);
    Sret(WriteBack(PerformAll(entry, handler), entry))
  }

  /** The handler writes back the mepc and mstatus it saw on entry. */
  function WriteBackM(h: Hart, entry: Hart): Hart {
    h.(csr := h.csr[CSR_MEPC := entry.csr[CSR_MEPC]][CSR_MSTATUS := entry.csr[CSR_MSTATUS]])
  }

  /** A trap into M mode, its handler, and the return. */
  function HandledTrapM(h: Hart, cause: nat, isInterrupt: bool, handler: seq<Activity>): Hart
    decreases handler, 1
  {
    var entry := TrapM(h, cause, isInterrupt);
    Mret(WriteBackM(PerformAll(entry, handler), entry))
  }

  /** Every sstatus bit is as before, except that SPP and SPIE are clear. */
  ghost predicate StatusRestored(before: nat, after: nat) {
    forall k: nat :: Bit(after, k) == (k != SPP && k != SPIE && Bit(before, k))
  }

  lemma StatusRoundTrip(w: nat, privilege: nat)
    ensures Bit(EnterS(w, privilege), SPP) == (privilege == 1)
    ensures StatusRestored(w, LeaveS(EnterS(w, privilege)))
  {
    EnterSBits(w, privilege, SPP);
    forall k: nat ensures Bit(LeaveS(EnterS(w, privilege)), k) == (k != SPP && k != SPIE && Bit(w, k)) {
      LeaveSBits(EnterS(w, privilege), k);
      EnterSBits(w, privilege, k);
      EnterSBits(w, privilege, SPIE);
    }
  }

  /** Handlers stay in S mode whatever they do, nested traps included. */
  lemma {:induction false} HandlerStaysInS(h: Hart, activities: seq<Activity>)
    requires h.privilege == 1
    ensures PerformAll(h, activities).privilege == 1
    decreases activities, 0
  {
    if activities != [] {
      var before, last := activities[..|activities| - 1], activities[|activities| - 1];
      HandlerStaysInS(h, before);
      if last.Nested? {
        if last.toM {
          MTrapReturns(PerformAll(h, before), last.cause, last.isInterrupt, last.handler);
        } else {
          TrapReturns(PerformAll(h, before), last.cause, last.isInterrupt, last.handler);
        }
      }
    }
  }

  /** Well-nested traps restore the interrupted context, at any nesting depth: with an even pc, the
      pc and every sstatus bit other than SPP and SPIE, SIE among them, are as before, and so is
      the privilege exactly if the trap came from U or S mode. With an odd pc the return does nothing. */
  lemma {:induction false} TrapReturns(h: Hart, cause: nat, isInterrupt: bool, handler: seq<Activity>)
    ensures var h' := HandledTrap(h, cause, isInterrupt, handler);
      if Bit(h.pc, 0) then h'.privilege == 1 && h'.csr[CSR_SEPC] == h.pc
      else h'.pc == h.pc && StatusRestored(h.csr[CSR_SSTATUS], h'.csr[CSR_SSTATUS])
           && (h'.privilege == h.privilege <==> h.privilege <= 1)
           && (h.privilege == 1 ==> h'.privilege == 1)
    decreases handler, 1
  {
    var entry := TrapS(h, cause, isInterrupt);
    HandlerStaysInS(entry, handler);
    StatusRoundTrip(h.csr[CSR_SSTATUS], h.privilege);
  }

  /** Every mstatus bit below 32 is as before, except that MPP is clear and MPIE set; bits 32 to 63
      are clear. */
  ghost predicate MstatusRestored(before: nat, after: nat) {
    forall k: nat ::
      Bit(after, k) == (k < 32 && k != MPP && k != MPP + 1 && (k == MPIE || Bit(before, k)))
  }

  lemma MstatusRoundTrip(w: nat, privilege: nat)
    requires privilege < 4
    ensures Mpp(EnterM(w, privilege)) == privilege
    ensures MstatusRestored(w, LeaveM(EnterM(w, privilege)))
  {
    EnterMBits(w, privilege, MPP);
    EnterMBits(w, privilege, MPP + 1);
    forall k: nat
      ensures Bit(LeaveM(EnterM(w, privilege)), k)
           == (k < 32 && k != MPP && k != MPP + 1 && (k == MPIE || Bit(w, k)))
    {
      LeaveMBits(EnterM(w, privilege), k);
      EnterMBits(w, privilege, k);
      EnterMBits(w, privilege, MPIE);
    }
  }

  /** An M-mode trap followed by mret, with mepc and mstatus as the entry left them, restores pc,
      privilege and mstatus. */
  lemma MretUndoesTrapM(h: Hart, cause: nat, isInterrupt: bool, h1: Hart)
    requires h.privilege < 4
    requires var entry := TrapM(h, cause, isInterrupt);
             h1.csr[CSR_MEPC] == entry.csr[CSR_MEPC] && h1.csr[CSR_MSTATUS] == entry.csr[CSR_MSTATUS]
    ensures Mret(h1).pc == h.pc && Mret(h1).privilege == if h.privilege == 2 then h1.privilege else h.privilege
    ensures MstatusRestored(h.csr[CSR_MSTATUS], Mret(h1).csr[CSR_MSTATUS])
  {
    MstatusRoundTrip(h.csr[CSR_MSTATUS], h.privilege);
  }

  /** Only M-mode traps are nested, at any depth. */
  predicate OnlyM(activities: seq<Activity>)
    decreases activities
  {
    forall i :: 0 <= i < |activities| ==>
      activities[i].Nested? ==> activities[i].toM && OnlyM(activities[i].handler)
  }

  /** Handlers that nest only M-mode traps keep the privilege they run at. */
  lemma {:induction false} HandlerKeepsPrivilege(h: Hart, activities: seq<Activity>)
    requires h.privilege < 4 && OnlyM(activities)
    ensures PerformAll(h, activities).privilege == h.privilege
    decreases activities, 0
  {
    if activities != [] {
      var before, last := activities[..|activities| - 1], activities[|activities| - 1];
      HandlerKeepsPrivilege(h, before);
      if last.Nested? { MTrapReturns(PerformAll(h, before), last.cause, last.isInterrupt, last.handler); }
    }
  }

  /** Well-nested M-mode traps restore the interrupted context at any nesting depth and whatever
      traps, into S or M mode, their handlers take: the pc, every mstatus bit below 32 but MPP and
      MPIE, and the privilege; the reserved privilege 2, which mret does not restore, if only M-mode
      traps are nested. */
  lemma {:induction false} MTrapReturns(h: Hart, cause: nat, isInterrupt: bool, handler: seq<Activity>)
    requires h.privilege < 4
    ensures var h' := HandledTrapM(h, cause, isInterrupt, handler);
      h'.pc == h.pc && (h.privilege != 2 || OnlyM(handler) ==> h'.privilege == h.privilege)
      && MstatusRestored(h.csr[CSR_MSTATUS], h'.csr[CSR_MSTATUS])
    decreases handler, 1
  {
    var entry := TrapM(h, cause, isInterrupt);
    if OnlyM(handler) { HandlerKeepsPrivilege(entry, handler); }
    MretUndoesTrapM(h, cause, isInterrupt, WriteBackM(PerformAll(entry, handler), entry));
  }
}
