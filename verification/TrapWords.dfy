/** Interrupt dispatch, trap entry and trap return said in CSR numbers and bit positions, without the
    definitions of TrapModel. */
module TrapWords {
  import opened Bits
  import opened TrapModel

  // ---- Which interrupt is taken ---------------------------------------------------------------

  /** U and S mode: external (mip 11, delegated by mideleg 9, enabled by sie 9), else timer (mip 5,
      sie 5), else software (mip 3, mideleg 1, sie 1). */
  function WantedInS(mip: nat, mideleg: nat, sie: nat): nat {
    if Bit(mip, 11) && Bit(mideleg, 9) && Bit(sie, 9) then 9
    else if Bit(mip, 5) && Bit(sie, 5) then 5
    else if Bit(mip, 3) && Bit(mideleg, 1) && Bit(sie, 1) then 1
    else 0
  }

  /** M mode: only the first pending source counts, of 11, 7 and 3. It goes to S mode when it is
      delegated and sstatus.SIE and its sie bit are set, else to M mode when its mie bit is set. A
      source that is pending and masked hides the later ones. */
  function WantedInM(mip: nat, mideleg: nat, sie: nat, mie: nat, sstatus: nat): nat {
    if Bit(mip, 11) then
      if Bit(mideleg, 9) && Bit(sstatus, 1) && Bit(sie, 9) then 9 else if Bit(mie, 11) then 11 else 0
    else if Bit(mip, 7) then
      if Bit(mideleg, 5) && Bit(sstatus, 1) && Bit(sie, 5) then 5 else if Bit(mie, 7) then 7 else 0
    else if Bit(mip, 3) then
      if Bit(mideleg, 1) && Bit(sstatus, 1) && Bit(sie, 1) then 1 else if Bit(mie, 3) then 3 else 0
    else 0
  }

  function Wanted(privilege: nat, csr: Csrs): nat {
    if privilege == 3 && Bit(csr[0x300], 3) then
      WantedInM(csr[0x344], csr[0x303], csr[0x104], csr[0x304], csr[0x100])
    else if privilege == 0 || (privilege == 1 && Bit(csr[0x100], 1)) then
      WantedInS(csr[0x344], csr[0x303], csr[0x104])
    else 0
  }

  lemma CauseIsWanted(h: Hart)
    ensures CauseOf(h) == Wanted(h.privilege, h.csr)
  {}

  /** The hart traps exactly when an interrupt is wanted, and otherwise stays as it is. */
  lemma TakenIffWanted(h: Hart)
    ensures Dispatch(h) == h <==> Wanted(h.privilege, h.csr) == 0
  {
    CauseIsWanted(h);
    DispatchSettles(h);
  }

  /** For U mode, and S mode with interrupts enabled, in so many words. */
  lemma TakenInS(h: Hart)
    requires h.privilege == 0 || (h.privilege == 1 && Bit(h.csr[0x100], 1))
    ensures Dispatch(h) != h
            <==> || (Bit(h.csr[0x344], 11) && Bit(h.csr[0x303], 9) && Bit(h.csr[0x104], 9))
                 || (Bit(h.csr[0x344], 5) && Bit(h.csr[0x104], 5))
                 || (Bit(h.csr[0x344], 3) && Bit(h.csr[0x303], 1) && Bit(h.csr[0x104], 1))
  {
    TakenIffWanted(h);
  }

  // ---- Trap entry -----------------------------------------------------------------------------

  /** Where a vector register sends a trap: its base, and four bytes per cause further when its mode
      is 1 and the trap is an interrupt. */
  function VectorTo(tvec: nat, cause: nat, isInterrupt: bool): nat {
    if tvec % 4 == 1 && isInterrupt then (tvec / 4 * 4 + 4 * cause) % 0x1_0000_0000_0000_0000 else tvec / 4 * 4
  }

  lemma VectorIs(tvec: nat, cause: nat, isInterrupt: bool)
    ensures Vector(tvec, cause, isInterrupt) == VectorTo(tvec, cause, isInterrupt)
  {
    Pow2Values();
    LowIsMod(tvec, 2);
    ShrIsDiv(tvec, 2);
  }

  predicate SameBut(csr: Csrs, csr': Csrs, ids: set<nat>) {
    forall i :: 0 <= i < 4096 && i !in ids ==> csr'[i] == csr[i]
  }

  /** A trap into S mode from h to h': sepc, scause, stval, the bits of sstatus, the privilege and the
      pc; no other CSR changes. */
  ghost predicate EnteredS(h: Hart, h': Hart, cause: nat, isInterrupt: bool) {
    && h'.csr[0x141] == h.pc && h'.csr[0x143] == 0
    && h'.csr[0x142] == cause % 0x8000_0000 + (if isInterrupt then 0x8000_0000_0000_0000 else 0)
    && h'.privilege == 1 && h'.pc == VectorTo(h.csr[0x105], cause, isInterrupt)
    && SameBut(h.csr, h'.csr, {0x100, 0x141, 0x142, 0x143})
    && forall k: nat :: Bit(h'.csr[0x100], k)
         == if k == 8 then h.privilege == 1 else if k == 1 then false
            else if k == 5 then Bit(h.csr[0x100], 1) else Bit(h.csr[0x100], k)
  }

  lemma CodeIs(cause: nat)
    ensures Low(cause, 31) == cause % 0x8000_0000
  {
    Pow2Values();
    LowIsMod(cause, 31);
  }

  lemma TrapSInWords(h: Hart, cause: nat, isInterrupt: bool)
    ensures EnteredS(h, TrapS(h, cause, isInterrupt), cause, isInterrupt)
  {
    VectorIs(h.csr[0x105], cause, isInterrupt);
    CodeIs(cause);
    var h' := TrapS(h, cause, isInterrupt);
    forall k: nat
      ensures Bit(h'.csr[0x100], k)
           == if k == 8 then h.privilege == 1 else if k == 1 then false
              else if k == 5 then Bit(h.csr[0x100], 1) else Bit(h.csr[0x100], k)
    {
      EnterSBits(h.csr[0x100], h.privilege, k);
    }
  }

  /** A trap into M mode; bits 32 to 63 of mstatus are cleared. */
  ghost predicate EnteredM(h: Hart, h': Hart, cause: nat, isInterrupt: bool) {
    && h'.csr[0x341] == h.pc && h'.csr[0x343] == 0
    && h'.csr[0x342] == cause % 0x8000_0000 + (if isInterrupt then h.mcauseFlag else 0)
    && h'.privilege == h.privilege && h'.pc == VectorTo(h.csr[0x305], cause, isInterrupt)
    && SameBut(h.csr, h'.csr, {0x300, 0x341, 0x342, 0x343})
    && forall k: nat :: Bit(h'.csr[0x300], k)
         == (k < 32 &&
              if k == 11 then h.privilege % 2 == 1 else if k == 12 then h.privilege / 2 % 2 == 1
              else if k == 3 then false else if k == 7 then Bit(h.csr[0x300], 3) else Bit(h.csr[0x300], k))
  }

  lemma TrapMInWords(h: Hart, cause: nat, isInterrupt: bool)
    ensures EnteredM(h, TrapM(h, cause, isInterrupt), cause, isInterrupt)
  {
    VectorIs(h.csr[0x305], cause, isInterrupt);
    CodeIs(cause);
    var h' := TrapM(h, cause, isInterrupt);
    forall k: nat
      ensures Bit(h'.csr[0x300], k)
           == (k < 32 &&
                if k == 11 then h.privilege % 2 == 1 else if k == 12 then h.privilege / 2 % 2 == 1
                else if k == 3 then false else if k == 7 then Bit(h.csr[0x300], 3) else Bit(h.csr[0x300], k))
    {
      EnterMBits(h.csr[0x300], h.privilege, k);
    }
  }

  /** Outside of interrupts the privilege decides where a trap goes. */
  lemma TrapGoesTo(h: Hart, cause: nat, isInterrupt: bool)
    ensures Trap(h, cause, isInterrupt)
         == if h.privilege == 0 || h.privilege == 1 then TrapS(h, cause, isInterrupt) else TrapM(h, cause, isInterrupt)
  {}

  // ---- What the guest sees of a dispatch ------------------------------------------------------

  /** A software interrupt is acknowledged when it is taken: mip bit 3 is cleared, and bits 32 to 63
      with it. */
  ghost predicate Acknowledged(h: Hart, h1: Hart, cause: nat) {
    && h1.pc == h.pc && h1.privilege == h.privilege && h1.mcauseFlag == h.mcauseFlag
    && SameBut(h.csr, h1.csr, {0x344})
    && forall k: nat :: Bit(h1.csr[0x344], k) == (Bit(h.csr[0x344], k) && (cause == 1 || cause == 3 ==> k != 3 && k < 32))
  }

  lemma AckInWords(h: Hart, cause: nat)
    ensures Acknowledged(h, AckSoft(h, cause), cause)
  {
    var h1 := AckSoft(h, cause);
    forall k: nat
      ensures Bit(h1.csr[0x344], k) == (Bit(h.csr[0x344], k) && (cause == 1 || cause == 3 ==> k != 3 && k < 32))
    {
      ClearedBits(h.csr[0x344], 3, k);
    }
  }

  /** A dispatch takes the wanted interrupt, if any: it is acknowledged, and then entered. */
  lemma DispatchInWords(h: Hart) returns (h1: Hart)
    ensures var h', cause := Dispatch(h), Wanted(h.privilege, h.csr);
            && (cause == 0 ==> h' == h)
            && (cause != 0 ==> Acknowledged(h, h1, cause))
            && (cause in {1, 5, 9} ==> EnteredS(h1, h', cause, true))
            && (cause in {3, 7, 11} ==> EnteredM(h1, h', cause, true))
            && cause in {0, 1, 3, 5, 7, 9, 11}
  {
    CauseIsWanted(h);
    var cause := Wanted(h.privilege, h.csr);
    h1 := AckSoft(h, cause);
    AckInWords(h, cause);
    if cause in {1, 5, 9} { TrapSInWords(h1, cause, true); } else if cause != 0 { TrapMInWords(h1, cause, true); }
  }

  /** What the handler reads: scause, sepc, stval and its own pc. */
  lemma HandlerSees(h: Hart)
    requires Wanted(h.privilege, h.csr) in {1, 5, 9}
    ensures var h', cause, stvec := Dispatch(h), Wanted(h.privilege, h.csr), h.csr[0x105];
            && h'.csr[0x142] == 0x8000_0000_0000_0000 + cause && h'.csr[0x141] == h.pc && h'.csr[0x143] == 0
            && h'.privilege == 1
            && h'.pc == if stvec % 4 == 1 then (stvec / 4 * 4 + 4 * cause) % 0x1_0000_0000_0000_0000 else stvec / 4 * 4
  {
    var h1 := DispatchInWords(h);
    SeenAfter(h, h1, Dispatch(h), Wanted(h.privilege, h.csr));
  }

  lemma SeenAfter(h: Hart, h1: Hart, h': Hart, cause: nat)
    requires Acknowledged(h, h1, cause) && EnteredS(h1, h', cause, true) && cause < 16
    ensures h'.csr[0x142] == 0x8000_0000_0000_0000 + cause && h'.csr[0x141] == h.pc && h'.csr[0x143] == 0
    ensures h'.privilege == 1 && h'.pc == VectorTo(h.csr[0x105], cause, true)
  {
    assert h1.csr[0x105] == h.csr[0x105];
  }

  /** In short: nothing happens when no interrupt is wanted; else its number is in scause or mcause,
      the pc it interrupted in sepc or mepc, and the hart in the mode it went to. */
  predicate Seen(h: Hart, h': Hart, cause: nat) {
    && (cause == 0 <==> h' == h)
    && (cause in {1, 5, 9} ==>
          h'.csr[0x142] == 0x8000_0000_0000_0000 + cause && h'.csr[0x141] == h.pc && h'.privilege == 1)
    && (cause in {3, 7, 11} ==> h'.csr[0x342] == h.mcauseFlag + cause && h'.csr[0x341] == h.pc && h'.privilege == 3)
  }

  lemma SeenInM(h: Hart, h1: Hart, h': Hart, cause: nat)
    requires Acknowledged(h, h1, cause) && EnteredM(h1, h', cause, true) && cause < 16
    ensures h'.csr[0x342] == h.mcauseFlag + cause && h'.csr[0x341] == h.pc && h'.privilege == h.privilege
  {}

  lemma SeenByTarget(h: Hart, cause: nat)
    requires cause == CauseOf(h)
    ensures cause in {1, 5, 9} ==>
      Dispatch(h).csr[0x142] == 0x8000_0000_0000_0000 + cause && Dispatch(h).csr[0x141] == h.pc && Dispatch(h).privilege == 1
    ensures cause in {3, 7, 11} ==>
      Dispatch(h).csr[0x342] == h.mcauseFlag + cause && Dispatch(h).csr[0x341] == h.pc && Dispatch(h).privilege == h.privilege
  {
    var h1 := AckSoft(h, cause);
    if cause in {1, 5, 9} {
      AckInWords(h, cause);
      TrapSInWords(h1, cause, true);
      SeenAfter(h, h1, TrapS(h1, cause, true), cause);
    } else if cause in {3, 7, 11} {
      AckInWords(h, cause);
      TrapMInWords(h1, cause, true);
      SeenInM(h, h1, TrapM(h1, cause, true), cause);
    }
  }

  lemma DispatchSeen(h: Hart)
    ensures Seen(h, Dispatch(h), Wanted(h.privilege, h.csr))
  {
    CauseIsWanted(h);
    TakenIffWanted(h);
    SeenByTarget(h, CauseOf(h));
  }

  // ---- Trap return ----------------------------------------------------------------------------

  /** sret: refused in U mode and for an odd sepc; else pc from sepc, the privilege from SPP, and the
      bits of sstatus. */
  lemma SretInWords(h: Hart)
    ensures h.privilege == 0 || Bit(h.csr[0x141], 0) ==> Sret(h) == h
    ensures h.privilege > 0 && !Bit(h.csr[0x141], 0) ==>
      var h' := Sret(h);
      && h'.pc == h.csr[0x141] && h'.privilege == (if Bit(h.csr[0x100], 8) then 1 else 0)
      && SameBut(h.csr, h'.csr, {0x100})
      && forall k: nat :: Bit(h'.csr[0x100], k)
           == if k == 8 || k == 5 then false else if k == 1 then Bit(h.csr[0x100], 5) else Bit(h.csr[0x100], k)
  {
    forall k: nat
      ensures Bit(LeaveS(h.csr[0x100]), k)
           == if k == 8 || k == 5 then false else if k == 1 then Bit(h.csr[0x100], 5) else Bit(h.csr[0x100], k)
    {
      LeaveSBits(h.csr[0x100], k);
    }
  }

  /** mret: pc from mepc, the privilege from MPP unless that is 2, and the bits of mstatus. */
  lemma MretInWords(h: Hart)
    ensures var h', mpp := Mret(h), h.csr[0x300] / 2048 % 4;
            && h'.pc == h.csr[0x341] && h'.privilege == (if mpp == 2 then h.privilege else mpp)
            && DoMret(h) == h'.(privilege := mpp)
            && SameBut(h.csr, h'.csr, {0x300})
            && forall k: nat :: Bit(h'.csr[0x300], k)
                 == (k < 32 && k != 11 && k != 12 &&
                      (k == 7 || if k == 3 then Bit(h.csr[0x300], 7) else Bit(h.csr[0x300], k)))
  {
    MppIs(h.csr[0x300]);
    forall k: nat
      ensures Bit(LeaveM(h.csr[0x300]), k)
           == (k < 32 && k != 11 && k != 12 &&
                (k == 7 || if k == 3 then Bit(h.csr[0x300], 7) else Bit(h.csr[0x300], k)))
    {
      LeaveMBits(h.csr[0x300], k);
    }
  }

  lemma MppIs(w: nat)
    ensures Mpp(w) == w / 2048 % 4
  {
    Pow2Values();
    BitIsDigit(w, 11);
    BitIsDigit(w, 12);
    var q := w / 2048;
    assert w / 4096 == q / 2;
    assert q % 4 == q % 2 + 2 * (q / 2 % 2);
  }
}
