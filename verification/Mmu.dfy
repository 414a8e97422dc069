/** The MMU of the hart: `tlb_lookup`, `tlb_check`, `tlb_insert`, `tlb_flush`, the iterative
    `sv39_translate` and `get_pa`, over TLB slots updated in place. Each method is proved against
    the recency list of TlbModel and the recursive walk of Sv39. */
module MmuUnit {
  import opened Options
  import opened Bits
  import opened Memory
  import opened Sv39
  import opened TlbModel
  import opened TlbSlots
  import opened WalkWords
  import opened PageWords
  import Runs = MmuRuns

  datatype TlbResult = TlbOk | TlbMiss | TlbFault

  /** What `handle_fault` records in `cpu->mem_fault`. */
  datatype Cause = InstPage | LoadPage | StorePage

  datatype Fault = Fault(va: nat, acc: Access, cause: Cause)

  function FaultFor(va: nat, acc: Access): Fault {
    Fault(va, acc, match acc case Fetch => InstPage case Load => LoadPage case Store => StorePage)
  }

  class Mmu {
    const ram: Ram
    const asid: nat
    const mxr: bool
    const sum: bool
    var satp: Word64
    var privilege: nat
    const entries: array<TlbEntry>
    var tlbCnt: nat
    var memFault: Option<Fault>
    /** The valid slots, newest first. */
    ghost var order: seq<nat>

    ghost predicate Valid()
      reads this, entries
    {
      entries.Length > 0 && Ranked(entries[..], order, tlbCnt, asid)
    }

    ghost function Lines(): seq<Line>
      reads this, entries
      requires Valid()
    {
      RankedParts(entries[..], order, tlbCnt, asid);
      LinesOf(entries[..], order)
    }

    function CurrentMode(): Mode
      reads this`privilege
    {
      Mode(privilege, mxr, sum)
    }

    ghost function State(): MmuState
      reads this, entries, ram, ram.data
      requires Valid()
    {
      MmuState(ram.data[..], satp, CurrentMode(), Lines(), entries.Length)
    }

    /** Every state the methods leave is one the results over runs start from. */
    lemma ReachesRuns()
      requires Valid()
      ensures Runs.WellFormed(State()) && Runs.WriteNeedsRead(Lines())
    {
      RankedParts(entries[..], order, tlbCnt, asid);
      FullIffAllValid(entries[..], order);
      forall i, j | 0 <= i < j < |order| ensures Lines()[i].vpn != Lines()[j].vpn {
        VpnsDiffer(entries[..], order, asid, i, j);
      }
    }

    /** All-zero hart state, as `cpu_init` leaves it. */
    constructor (ram: Ram, size: nat, asid: nat, mxr: bool, sum: bool)
      requires size > 0
      ensures Valid() && this.ram == ram && fresh(entries) && entries.Length == size
      ensures Lines() == [] && satp == 0 && privilege == 3 && memFault == None
    {
      this.ram, this.asid, this.mxr, this.sum := ram, asid, mxr, sum;
      satp, privilege, tlbCnt, memFault, order := 0, 3, 0, None, [];
      var zero := TlbEntry(0, 0, Flags(false, false, false, false, false, false, false), false, false, 0, 0);
      entries := new TlbEntry[size](_ => zero);
    }

    /** The permission part of `tlb_check`. */
    method Permits(f: Flags, acc: Access) returns (ok: bool)
      ensures ok == TlbAllows(f, CurrentMode(), acc)
    {
      if !f.v { return false; }
      if privilege == 0 {
        if !f.u { return false; }
      } else if privilege == 1 {
        if !sum && f.u { return false; }
      }
      if acc == Fetch {
        if !f.x { return false; }
        if privilege == 0 && !f.u { return false; }
      }
      if acc == Load {
        if !f.r {
          if !mxr || !f.x { return false; }
        }
      }
      if acc == Store && !f.w { return false; }
      return true;
    }

    method TlbCheck(i: nat, acc: Access) returns (ok: bool)
      requires i < entries.Length
      modifies entries
      ensures ok == TlbAllows(old(entries[i]).flags, CurrentMode(), acc)
      ensures entries[..] == old(entries[..])[i := old(entries[i]).(
                flags := AfterCheck(EntryLine(old(entries[i])), CurrentMode(), acc).flags)]
      ensures entries[i].flags == if ok then old(entries[i].flags).(a := true, d := old(entries[i].flags.d) || acc == Store)
                                  else old(entries[i].flags)
    {
      ok := Permits(entries[i].flags, acc);
      if !ok { return; }
      if !entries[i].flags.a {
        entries[i] := entries[i].(flags := entries[i].flags.(a := true));
      }
      if acc == Store && !entries[i].flags.d {
        entries[i] := entries[i].(flags := entries[i].flags.(d := true));
      }
    }

    method TlbLookup(va: Word64, acc: Access) returns (r: TlbResult, pa: nat)
      requires Valid()
      modifies this`tlbCnt, this`order, entries
      ensures Valid()
      ensures Lines() == Lookup(old(Lines()), CurrentMode(), va, acc).0
      ensures ResultOf(r, pa) == Lookup(old(Lines()), CurrentMode(), va, acc).1
    {
      var vpn := TagVpn(va);
      pa := 0;
      RankedParts(entries[..], order, tlbCnt, asid);
      for i := 0 to entries.Length
        invariant forall j :: 0 <= j < i ==> !Matches(entries[j], vpn, asid)
        invariant Valid() && unchanged(entries) && unchanged(this)
      {
        if Matches(entries[i], vpn, asid) {
          ghost var k := MatchPosition(entries[..], order, asid, i, vpn);
          r, pa := Hit(i, va, acc, k, Lines()[k]);
          return;
        }
      }
      r := TlbMiss;
      NoMatchNoLine(entries[..], order, asid, vpn);
    }

    /** The answer of a matched slot: its new timestamp, the permission check, the address. */
    method AnswerFrom(i: nat, va: Word64, acc: Access) returns (r: TlbResult, pa: nat)
      requires i < entries.Length
      modifies this`tlbCnt, entries
      ensures ResultOf(r, pa) == Some(HitResult(EntryLine(old(entries[i])), CurrentMode(), va, acc))
      ensures entries[..] == old(entries[..])[i := old(entries[i]).(lastUsed := old(tlbCnt),
                flags := AfterCheck(EntryLine(old(entries[i])), CurrentMode(), acc).flags)]
      ensures tlbCnt == old(tlbCnt) + 1
    {
      entries[i] := entries[i].(lastUsed := tlbCnt);
      tlbCnt := tlbCnt + 1;
      pa := 0;
      var ok := TlbCheck(i, acc);
      if ok {
        r, pa := TlbOk, entries[i].ppn * PAGE + PageOffset(va);
      } else {
        r := TlbFault;
      }
    }

    /** The part of `tlb_lookup` after slot `i` has matched: the slot lists `line`. */
    method Hit(i: nat, va: Word64, acc: Access, ghost k: nat, ghost line: Line) returns (r: TlbResult, pa: nat)
      requires Valid() && i < entries.Length && k < |order| && order[k] == i && line == EntryLine(entries[i])
      modifies this`tlbCnt, this`order, entries
      ensures Valid()
      ensures Lines() == Promote(old(Lines()), k, AfterCheck(line, CurrentMode(), acc))
      ensures ResultOf(r, pa) == Some(HitResult(line, CurrentMode(), va, acc))
    {
      ghost var order' := HitPromotes(entries[..], order, tlbCnt, asid, k, line, CurrentMode(), acc);
      r, pa := AnswerFrom(i, va, acc);
      order := order';
    }

    /** The replacement scan: the first free slot from slot 1 on, else the slot with the smallest
        timestamp, where slot 0 takes part without being tested for free. */
    method ChooseVictim() returns (idx: nat)
      requires Valid()
      ensures Victim(entries[..], order, idx)
    {
      idx := 0;
      RankedParts(entries[..], order, tlbCnt, asid);
      var minUsed := entries[0].lastUsed;
      for i := 1 to entries.Length
        invariant idx < i && minUsed == entries[idx].lastUsed
        invariant forall j :: 1 <= j < i ==> entries[j].valid
        invariant forall j :: 0 <= j < i ==> minUsed <= entries[j].lastUsed
        invariant !entries[0].valid ==> idx == 0
      {
        if !entries[i].valid {
          idx := i;
          FreeIsVictim(entries[..], order, idx);
          return;
        }
        if entries[i].lastUsed < minUsed {
          minUsed := entries[i].lastUsed;
          idx := i;
        }
      }
      if entries[0].valid {
        OldestIsLast(entries[..], order, idx);
      } else {
        FreeIsVictim(entries[..], order, idx);
      }
    }

    /** No valid entry leaves while a slot is free; otherwise exactly the oldest one does. */
    method TlbInsert(va: Word64, pte: nat)
      requires Valid() && !Cached(Lines(), TagVpn(va))
      requires PteFlags(pte).v && (PteFlags(pte).w ==> PteFlags(pte).r)
      modifies this`tlbCnt, this`order, entries
      ensures Valid()
      ensures Lines() == Insert(old(Lines()), LineOf(TagVpn(va), pte), entries.Length)
    {
      var vpn := TagVpn(va);
      var idx := ChooseVictim();
      var e := NewEntry(vpn, pte, asid, tlbCnt);
      RankedParts(entries[..], order, tlbCnt, asid);
      ghost var es := entries[..];
      entries[idx] := e;
      tlbCnt := tlbCnt + 1;
      assert entries[..] == es[idx := e];
      NewEntryOk(vpn, pte, asid, tlbCnt - 1);
      NotCachedNoSlot(es, order, vpn);
      InsertSlot(es, order, tlbCnt - 1, asid, idx, e);
      order := PushFront(order, idx, entries.Length);
    }

    /** `tlb_flush` and `sfence.vma`, which ignores its operands: every slot becomes free. */
    method TlbFlush()
      requires Valid()
      modifies this`order, entries
      ensures Valid() && Lines() == []
    {
      RankedParts(entries[..], order, tlbCnt, asid);
      for i := 0 to entries.Length
        invariant forall j :: 0 <= j < i ==> !entries[j].valid
        invariant forall j :: 0 <= j < entries.Length ==> entries[j].lastUsed <= tlbCnt
      {
        entries[i] := entries[i].(valid := false);
      }
      order := [];
      EmptyRanked(entries[..], tlbCnt, asid);
    }

    method PhysRead64(addr: nat) returns (pte: nat)
      ensures pte == ReadPte(ram.data[..], addr)
    {
      pte := ram.BusRead(addr, 8);
    }

    /** The loop of `sv39_translate` over levels finds the leaf of the recursive walk. */
    method WalkLoop(va: Word64) returns (leaf: Option<Leaf>)
      ensures leaf == MapOf(ram.data[..], satp, Vpn(va))
    {
      leaf := None;
      var tableAddr: nat := Low(satp, 44) * PAGE;
      ghost var mem, vpn := ram.data[..], Vpn(va);
      var i := LEVELS - 1;
      while true
        invariant 0 <= i <= 2
        invariant FindLeaf(mem, tableAddr, vpn, i) == MapOf(mem, satp, vpn)
        decreases i
      {
        var pte := PhysRead64(tableAddr + IndexFromVa(va, i) * 8);
        assert FindLeaf(mem, tableAddr, vpn, i) == FromPte(mem, pte, vpn, i);
        var f := PteFlags(pte);
        if !f.v { return None; }
        if f.w && !f.r { return None; }
        var isLeaf := f.r || f.x || f.w;
        if isLeaf { return Some(Leaf(i, pte)); }
        if i == 0 { return None; }
        i := i - 1;
        tableAddr := PtePpn(pte) * PAGE;
      }
    }

    /** The part of `sv39_translate` after a leaf PTE has been found at level `i`. */
    method TakeLeaf(va: Word64, acc: Access, i: nat, pte: nat) returns (ok: bool, pa: nat)
      requires Valid() && !Cached(Lines(), TagVpn(va)) && i < LEVELS
      requires PteFlags(pte).v && (PteFlags(pte).w ==> PteFlags(pte).r)
      modifies this`tlbCnt, this`order, entries
      ensures Valid()
      ensures ok == (WalkAllows(PteFlags(pte), CurrentMode(), acc) && Usable(ram.data.Length, Leaf(i, pte), PageOffset(va)))
      ensures ok ==> pa == LeafPa(Leaf(i, pte), PageOffset(va))
      ensures Lines() == if ok then Insert(old(Lines()), LineOf(TagVpn(va), pte), entries.Length) else old(Lines())
    {
      var f := PteFlags(pte);
      ok, pa := false, 0;
      if privilege == 0 {
        if !f.u { return; }
      } else if privilege == 1 {
        if f.u {
          if !sum { return; }
          if acc == Fetch { return; }
        }
      }
      if acc == Load && !f.r {
        if !(mxr && f.x) { return; }
      }
      if acc == Fetch && !f.x { return; }
      if acc == Store && !f.w { return; }
      var ppn := PtePpn(pte);
      if i == 2 {
        if Low(ppn, 18) != 0 { return; }
      } else if i == 1 {
        if Low(ppn, 9) != 0 { return; }
      }
      if i == 0 { pa := ppn * PAGE + PageOffset(va); }
      if !(pa + 1 <= MEMORY_BASE + ram.data.Length) { return; }
      TlbInsert(va, pte);
      ok := true;
    }

    /** The walk equals the recursive one of Sv39 and fills the TLB exactly on success. */
    method Sv39Translate(va: Word64, acc: Access) returns (ok: bool, pa: nat)
      requires Valid() && !Cached(Lines(), TagVpn(va))
      modifies this`tlbCnt, this`order, entries
      ensures Valid()
      ensures Lines() == Fill(old(State()), va, acc).0
      ensures Fill(old(State()), va, acc).1 == if ok then Pa(pa) else PageFault
    {
      if SatpMode(satp) != 8 { return true, va; }
      var leaf := WalkLoop(va);
      if leaf == None { return false, 0; }
      LeafIsSound(ram.data[..], RootTable(satp), Vpn(va), 2);
      FillOfLeaf(State(), va, acc, leaf.value);
      ok, pa := TakeLeaf(va, acc, leaf.value.level, leaf.value.pte);
    }

    /** `get_pa` in a translating mode, up to the reporting of a fault. */
    method Resolve(va: Word64, acc: Access) returns (ok: bool, pa: nat)
      requires Valid() && SatpMode(satp) != 0
      modifies this`tlbCnt, this`order, entries
      ensures Valid()
      ensures Lines() == Translate(old(State()), va, acc).0.lines
      ensures Translate(old(State()), va, acc).1 == if ok then Pa(pa) else PageFault
    {
      var r;
      r, pa := TlbLookup(va, acc);
      if r == TlbMiss {
        assert State() == old(State());
        ok, pa := Sv39Translate(va, acc);
      } else {
        ok := r == TlbOk;
      }
    }

    /** Address translation: hit, walk and fill, or fault; the whole new state is that of
        TlbModel.Translate, and a fault is recorded and answered with 0. */
    method GetPa(va: Word64, acc: Access) returns (pa: nat)
      requires Valid()
      modifies this`tlbCnt, this`order, this`memFault, entries
      ensures Valid()
      ensures State() == Translate(old(State()), va, acc).0
      ensures Answers(Translate(old(State()), va, acc).1, va, acc, pa, old(memFault), memFault)
      ensures old(Lines()) == [] ==>
        match WordWalk(ram.data[..], satp, privilege, mxr, sum, va, acc)
        case Pa(p) => pa == p && memFault == old(memFault)
        case PageFault => pa == 0 && memFault == Some(Fault(va, acc,
               if acc == Fetch then InstPage else if acc == Load then LoadPage else StorePage))
    {
      if Lines() == [] {
        EmptyTlb(State(), va, acc);
        WalkOnWords(ram.data[..], satp, CurrentMode(), va, acc);
      }
      if SatpMode(satp) == 0 { return va; }
      var ok;
      OnlyLines(State(), va, acc);
      ok, pa := Resolve(va, acc);
      assert State() == old(State()).(lines := Lines());
      if !ok {
        memFault := Some(FaultFor(va, acc));
        pa := 0;
      }
    }

    /** SD, `exec_store` with width 8. A faulting store still reaches the bus, at address 0, where
        nothing in DRAM changes. */
    method Sd(va: Word64, value: Word64)
      requires Valid()
      modifies this`tlbCnt, this`order, this`memFault, entries, ram.data
      ensures Valid()
      ensures State() == Store64(old(State()), va, value).0
    {
      var pa := GetPa(va, Store);
      ghost var mid := State();
      ram.BusWrite(pa, value, 8);
      assert State() == mid.(mem := ram.data[..]);
    }

    /** LD, `exec_load` with width 8. */
    method Ld(va: Word64) returns (val: nat)
      requires Valid()
      modifies this`tlbCnt, this`order, this`memFault, entries
      ensures Valid()
      ensures State() == Load64(old(State()), va).0
      ensures val == Load64(old(State()), va).2
    {
      var pa := GetPa(va, Load);
      val := ram.BusRead(pa, 8);
    }
  }

  /** The table index the loop takes from the address at a level. */
  function IndexFromVa(va: nat, level: nat): (i: nat)
    requires level < LEVELS
    ensures i == Index(Vpn(va), level)
  {
    IndexOfVa(va, level);
    match level
    case 2 => Field(va, 30, 9)
    case 1 => Field(va, 21, 9)
    case _ => Field(va, 12, 9)
  }

  /** The answer a TLB result stands for; a miss is no answer. */
  function ResultOf(r: TlbResult, pa: nat): Option<Translation> {
    match r
    case TlbOk => Some(Pa(pa))
    case TlbFault => Some(PageFault)
    case TlbMiss => None
  }

  /** How `get_pa` reports a translation: the address, or 0 and a recorded fault. */
  predicate Answers(t: Translation, va: nat, acc: Access, pa: nat, before: Option<Fault>, after: Option<Fault>) {
    match t
    case Pa(p) => pa == p && after == before
    case PageFault => pa == 0 && after == Some(FaultFor(va, acc))
  }
}
