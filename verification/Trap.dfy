/** The hart's trap routines over its CSR array, updated step by step; each is proved against
    TrapModel. */
module TrapUnit {
  import opened Bits
  import opened TrapModel
  import opened TrapWords

  class TrapHart {
    var pc: nat
    var privilege: nat
    const csr: array<nat>
    /** What the compiler makes of the out-of-range shift in `take_mmode_trap`. */
    const mcauseFlag: nat

    ghost predicate Valid()
      reads this
    {
      csr.Length == CSR_COUNT
    }

    ghost function State(): Hart
      reads this, csr
      requires Valid()
    {
      Hart(pc, privilege, csr[..], mcauseFlag)
    }

    constructor (entry: nat, mcauseFlag: nat)
      ensures Valid() && fresh(csr) && pc == entry && privilege == 3
    {
      this.pc, this.privilege, this.mcauseFlag := entry, 3, mcauseFlag;
      csr := new nat[CSR_COUNT](_ => 0);
    }

    method TakeSmodeTrap(cause: nat, isInterrupt: bool)
      requires Valid()
      modifies this`pc, this`privilege, csr
      ensures State() == TrapS(old(State()), cause, isInterrupt)
    {
      csr[CSR_SEPC] := pc;
      csr[CSR_SCAUSE] := if isInterrupt then TOP + Low(cause, 31) else Low(cause, 31);
      csr[CSR_STVAL] := 0;
      var sstatus := csr[CSR_SSTATUS];
      sstatus := WithBit(sstatus, SPIE, Bit(sstatus, SIE));
      sstatus := WithBit(sstatus, SIE, false);
      sstatus := WithBit(sstatus, SPP, privilege == 1);
      csr[CSR_SSTATUS] := sstatus;
      if privilege != 1 { privilege := 1; }
      pc := Vector(csr[CSR_STVEC], cause, isInterrupt);
    }

    /** MPIE := MIE, MIE := 0, MPP := the privilege */
    method SavedStatus(before: nat) returns (mstatus: nat)
      ensures mstatus == EnterM(before, privilege)
    {
      mstatus := before;
      if Bit(mstatus, MIE) { mstatus := WithBit(mstatus, MPIE, true); } else { mstatus := Cleared(mstatus, MPIE); }
      mstatus := Cleared(mstatus, MIE);
      mstatus := WithMpp(ClearedMpp(mstatus), privilege);
    }

    /** The writes of `take_mmode_trap`, given the new mstatus, which none of the others affects. */
    method WriteMtrap(cause: nat, isInterrupt: bool, mstatus: nat)
      requires Valid()
      modifies this`pc, csr
      ensures var h, code := old(State()), Low(cause, 31);
              State() == h.(csr := h.csr[CSR_MEPC := h.pc][CSR_MCAUSE := if isInterrupt then mcauseFlag + code else code]
                                        [CSR_MTVAL := 0][CSR_MSTATUS := mstatus],
                            pc := Vector(h.csr[CSR_MTVEC], cause, isInterrupt))
    {
      csr[CSR_MEPC] := pc;
      csr[CSR_MCAUSE] := if isInterrupt then mcauseFlag + Low(cause, 31) else Low(cause, 31);
      csr[CSR_MTVAL] := 0;
      csr[CSR_MSTATUS] := mstatus;
      pc := Vector(csr[CSR_MTVEC], cause, isInterrupt);
    }

    method TakeMmodeTrap(cause: nat, isInterrupt: bool)
      requires Valid()
      modifies this`pc, csr
      ensures State() == TrapM(old(State()), cause, isInterrupt)
    {
      var mstatus := SavedStatus(csr[CSR_MSTATUS]);
      WriteMtrap(cause, isInterrupt, mstatus);
    }

    method TakeTrap(cause: nat, isInterrupt: bool)
      requires Valid()
      modifies this`pc, this`privilege, csr
      ensures State() == Trap(old(State()), cause, isInterrupt)
    {
      if privilege <= 1 { TakeSmodeTrap(cause, isInterrupt); } else { TakeMmodeTrap(cause, isInterrupt); }
    }

    method ExecSret()
      requires Valid()
      modifies this`pc, this`privilege, csr
      ensures State() == Sret(old(State()))
    {
      if privilege < 1 { return; }
      var sepc := csr[CSR_SEPC];
      if Bit(sepc, 0) { return; }
      pc := sepc;
      var sstatus := csr[CSR_SSTATUS];
      ghost var before := sstatus;
      privilege := if Bit(sstatus, SPP) then 1 else 0;
      sstatus := WithBit(sstatus, SPP, false);
      var spie := Bit(sstatus, SPIE);
      BitOfWithBit(before, SPP, false, SPIE);
      sstatus := WithBit(sstatus, SIE, false);
      sstatus := WithBit(sstatus, SIE, spie);
      WithBitTwice(WithBit(before, SPP, false), SIE, false, spie);
      sstatus := WithBit(sstatus, SPIE, false);
      csr[CSR_SSTATUS] := sstatus;
    }

    method ExecMret()
      requires Valid()
      modifies this`pc, this`privilege, csr
      ensures State() == Mret(old(State()))
    {
      var mstatus := csr[CSR_MSTATUS];
      var mpp := Mpp(mstatus);
      if Bit(mstatus, MPIE) { mstatus := WithBit(mstatus, MIE, true); } else { mstatus := Cleared(mstatus, MIE); }
      mstatus := WithBit(mstatus, MPIE, true);
      if mpp != 2 { privilege := mpp; }
      mstatus := ClearedMpp(mstatus);
      csr[CSR_MSTATUS] := mstatus;
      pc := csr[CSR_MEPC];
    }

    method DoMretRoutine()
      requires Valid()
      modifies this`pc, this`privilege, csr
      ensures State() == DoMret(old(State()))
    {
      var mstatus := csr[CSR_MSTATUS];
      var mpp := Mpp(mstatus);
      if Bit(mstatus, MPIE) { mstatus := WithBit(mstatus, MIE, true); } else { mstatus := Cleared(mstatus, MIE); }
      mstatus := WithBit(mstatus, MPIE, true);
      mstatus := ClearedMpp(mstatus);
      csr[CSR_MSTATUS] := mstatus;
      privilege := mpp;
      pc := csr[CSR_MEPC];
    }

    /** The selection part of `check_and_handle_interrupts`. */
    method SelectCause() returns (cause: nat)
      requires Valid()
      ensures cause == CauseOf(State())
    {
      cause := 0;
      var mip, mie, sie := csr[CSR_MIP], csr[CSR_MIE], csr[CSR_SIE];
      var mideleg, sstatus := csr[CSR_MIDELEG], csr[CSR_SSTATUS];
      if privilege == 3 {
        if Bit(csr[CSR_MSTATUS], MIE) {
          if Bit(mip, MEI) {
            if !Bit(mideleg, SEI) {
              if Bit(mie, MEI) { cause := M_EXT; }
            } else {
              if Bit(sstatus, SIE) && Bit(sie, SEI) { cause := S_EXT; }
              else if Bit(mie, MEI) { cause := M_EXT; }
            }
          } else if Bit(mip, MTI) {
            if !Bit(mideleg, STI) {
              if Bit(mie, MTI) { cause := M_TIMER; }
            } else {
              if Bit(sstatus, SIE) && Bit(sie, STI) { cause := S_TIMER; }
              else if Bit(mie, MTI) { cause := M_TIMER; }
            }
          } else if Bit(mip, MSI) {
            if !Bit(mideleg, SSI) {
              if Bit(mie, MSI) { cause := M_SOFT; }
            } else {
              if Bit(sstatus, SIE) && Bit(sie, SSI) { cause := S_SOFT; }
              else if Bit(mie, MSI) { cause := M_SOFT; }
            }
          }
        }
      } else if privilege <= 1 {
        var seip := Bit(mip, MEI) && Bit(mideleg, SEI);
        var stip := Bit(mip, STI);
        var ssip := Bit(mip, MSI) && Bit(mideleg, SSI);
        if privilege == 1 {
          if !Bit(csr[CSR_SSTATUS], SIE) { return; }
        }
        if seip && Bit(sie, SEI) {
          cause := S_EXT;
        } else if stip && Bit(sie, STI) {
          cause := S_TIMER;
        } else if ssip && Bit(sie, SSI) {
          cause := S_SOFT;
        }
      }
    }

    /** The body of `check_and_handle_interrupts`. */
    method HandlePending()
      requires Valid()
      modifies this`pc, this`privilege, csr
      ensures State() == Dispatch(old(State()))
    {
      var cause := SelectCause();
      if cause == M_SOFT || cause == S_SOFT {
        csr[CSR_MIP] := Cleared(csr[CSR_MIP], MSI);
      }
      if cause == S_SOFT || cause == S_TIMER || cause == S_EXT {
        TakeSmodeTrap(cause, true);
      } else if cause == M_TIMER || cause == M_EXT || cause == M_SOFT {
        TakeMmodeTrap(cause, true);
      }
    }

    /** Exactly the wanted interrupt is taken, and a second call right away takes none. */
    method CheckAndHandleInterrupts()
      requires Valid()
      modifies this`pc, this`privilege, csr
      ensures State() == Dispatch(old(State()))
      ensures CauseOf(State()) == 0
      ensures Seen(old(State()), State(), Wanted(old(privilege), old(csr[..])))
    {
      DispatchSettles(State());
      DispatchSeen(State());
      HandlePending();
    }
  }
}
