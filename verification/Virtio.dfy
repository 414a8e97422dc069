/** The virtio block device over guest DRAM, the disk image and the cache block, updated in place;
    each method is proved against VirtioModel. */
module VirtioUnit {
  import opened Bytes
  import opened Memory
  import opened DiskModel
  import opened Sv39
  import opened TlbModel
  import opened VirtioModel
  import MmuUnit

  class BlockDevice {
    const ram: Ram
    /** Hart 0's address translation, which descriptor addresses go through. */
    const mmu: MmuUnit.Mmu
    const diskData: array<Byte>
    const bcData: array<Byte>
    var bcBlockno: nat
    var bcValid: bool
    const cfg: Config
    var queueReady: bool
    var prevAvail: nat
    /** The linked list `pending_ops`, first element first. */
    var pendingOps: seq<Op>
    /** `cpu[0].cycle_count` */
    var cycle: nat
    var interrupt: bool
    ghost var consumed: seq<nat>
    ghost var completed: seq<nat>

    ghost predicate Valid()
      reads this`prevAvail, mmu, mmu.entries
    {
      && mmu.ram == ram && mmu.Valid()
      && bcData.Length == BSIZE && cfg.queueNum > 0 && prevAvail < IDX
      && ram.data != diskData && ram.data != bcData && diskData != bcData
    }

    ghost function DiskState(): (d: Disk)
      reads this`bcValid, this`bcBlockno, diskData, bcData
      requires bcData.Length == BSIZE
      ensures WellFormed(d)
    {
      Disk(diskData[..], bcValid, bcBlockno, bcData[..])
    }

    ghost function MappingNow(): Mapping
      reads mmu, mmu.entries
      requires mmu.Valid()
    {
      Mapping(mmu.satp, mmu.CurrentMode(), mmu.Lines(), mmu.entries.Length)
    }

    ghost function State(): (d: Dev)
      reads this, mmu, mmu.entries, ram.data, diskData, bcData
      requires Valid()
      ensures WellFormedDev(d)
    {
      Dev(ram.data[..], cfg, queueReady, prevAvail, pendingOps, cycle, DiskState(), interrupt, MappingNow(),
          consumed, completed)
    }

    /** A device whose driver has set up the queue. */
    constructor (ram: Ram, mmu: MmuUnit.Mmu, diskData: array<Byte>, cfg: Config)
      requires cfg.queueNum > 0 && ram.data != diskData && mmu.ram == ram && mmu.Valid()
      ensures Valid() && this.ram == ram && this.mmu == mmu && this.diskData == diskData && this.cfg == cfg && fresh(bcData)
      ensures pendingOps == [] && consumed == [] && completed == [] && prevAvail == 0 && cycle == 0 && queueReady
      ensures !bcValid
    {
      this.ram, this.mmu, this.diskData, this.cfg := ram, mmu, diskData, cfg;
      bcData := new Byte[BSIZE](_ => 0);
      bcBlockno, bcValid, queueReady, prevAvail, pendingOps, cycle, interrupt := 0, false, true, 0, [], 0, false;
      consumed, completed := [], [];
    }

    method ReadPhys(addr: nat, n: nat) returns (v: nat)
      requires n <= 8
      modifies ram`halted
      ensures v == PhysRead(ram.data[..], addr, n)
    {
      v := ram.MemoryRead(addr, n);
    }

    method WritePhys(addr: nat, v: nat, n: nat)
      requires n <= 8
      modifies ram.data
      ensures ram.data[..] == PhysWrite(old(ram.data[..]), addr, v, n)
    {
      ram.MemoryWrite(addr, v, n);
    }

    /** Fills the cache block unless it already holds the wanted one. */
    method LoadCache(blockno: nat)
      requires Valid() && blockno * BSIZE + BSIZE <= diskData.Length
      modifies bcData, this`bcBlockno, this`bcValid
      ensures DiskState() == LoadBlock(old(DiskState()), blockno)
    {
      if bcValid && bcBlockno == blockno { return; }
      var offset := blockno * BSIZE;
      for i := 0 to BSIZE
        invariant bcData[..i] == diskData[offset..offset + i]
      {
        bcData[i] := diskData[offset + i];
      }
      assert bcData[..] == bcData[..BSIZE];
      bcBlockno := blockno;
      bcValid := true;
    }

    // ---- Available ring -------------------------------------------------------------------

    /** The request header is read, which may halt the hart, but what it says is never used. */
    method StartAsync(head: nat)
      requires Valid()
      modifies this`pendingOps, ram`halted
      ensures pendingOps == [Op(head, cycle, cycle + LATENCY)] + old(pendingOps)
    {
      var reqAddr := ReadPhys(cfg.descAddr + head * 16, 8);
      var kind := ReadPhys(reqAddr, 4);
      var sector := ReadPhys(reqAddr + 8, 8);
      pendingOps := [Op(head, cycle, cycle + LATENCY)] + pendingOps;
    }

    /** One round of the loop of `process_queue`. */
    method StartNext()
      requires Valid()
      modifies this`pendingOps, this`prevAvail, this`consumed, ram`halted
      ensures Valid() && State() == Start(old(State()))
    {
      ghost var before := State();
      var slot := prevAvail % cfg.queueNum;
      var head := ram.BusRead(AvailEntry(cfg, slot), 2);
      assert State() == before;
      StartAsync(head);
      assert MappingNow() == before.mapping && DiskState() == before.disk;
      prevAvail := (prevAvail + 1) % IDX;
      consumed := consumed + [head];
    }

    /** The loop of `process_queue`. */
    method ConsumeUntil(lastAvail: nat)
      requires Valid() && lastAvail < IDX
      modifies this`pendingOps, this`prevAvail, this`consumed, ram`halted
      ensures Valid() && State() == Consume(old(State()), lastAvail)
    {
      ghost var all := Consume(State(), lastAvail);
      while prevAvail != lastAvail
        invariant Valid() && Consume(State(), lastAvail) == all
        decreases Behind(prevAvail, lastAvail)
      {
        ConsumeStep(State(), lastAvail);
        StartNext();
      }
    }

    method ProcessQueue()
      requires Valid()
      modifies this`pendingOps, this`prevAvail, this`consumed, ram`halted
      ensures Valid() && State() == VirtioModel.ProcessQueue(old(State()))
    {
      if !queueReady { return; }
      ghost var before := State();
      var lastAvail := ReadPhys(cfg.availRing + 2, 2);
      IdxBound(ram.data[..], cfg.availRing + 2);
      assert State() == before;
      ConsumeUntil(lastAvail);
    }

    // ---- Completion -----------------------------------------------------------------------

    method ReadDescriptor(idx: nat) returns (d: Desc)
      modifies ram`halted
      ensures d == DescAt(ram.data[..], cfg, idx)
    {
      ghost var mem := ram.data[..];
      var base := cfg.descAddr + idx * 16;
      var addr := ReadPhys(base, 8);
      assert addr == PhysRead(mem, base, 8);
      var len := ReadPhys(base + 8, 4);
      var flags := ReadPhys(base + 12, 2);
      assert flags == PhysRead(mem, base + 12, 2);
      var next := ReadPhys(base + 14, 2);
      assert next == PhysRead(mem, base + 14, 2);
      d := Desc(addr, flags % 2 == 1, next);
    }

    /** One round of the walk: a descriptor, whose address goes through `get_pa` for a load. */
    method FollowOne(head: nat, idx: nat, req: nat, data: nat, ghost fuel: nat, ghost to: Followed)
      returns (more: bool, addr: nat, req': nat, data': nat, next: nat)
      requires Valid() && Leads(mmu.State(), cfg, head, idx, fuel, req, data, to)
      modifies ram`halted, mmu`tlbCnt, mmu`order, mmu`memFault, mmu.entries
      ensures Valid() && fuel > 0
      ensures more ==> Leads(mmu.State(), cfg, head, next, fuel - 1, req', data', to)
      ensures !more ==> to == Ended(Chain(req', data', addr), mmu.Lines())
    {
      ghost var s := mmu.State();
      var d := ReadDescriptor(idx);
      WordBound(s.mem, cfg.descAddr + idx * 16);
      assert mmu.State() == s;
      addr := mmu.GetPa(d.addr, Load);
      assert Translates(s, d.addr, mmu.State(), addr);
      more, next, req', data' := d.more, d.next, req, data;
      if idx == head { req' := addr; } else if d.more { data' := addr; }
    }

    /** The walk over an ending descriptor chain. */
    method FollowChain(head: nat) returns (chain: Chain)
      requires Valid() && Walked(State(), head).Ended?
      modifies ram`halted, mmu`tlbCnt, mmu`order, mmu`memFault, mmu.entries
      ensures Valid() && Walked(old(State()), head) == Ended(chain, mmu.Lines())
    {
      ghost var fuel, to := IDX, Walked(State(), head);
      assert mmu.State() == MmuOf(ram.data[..], MappingNow());
      var more, addr, idx, req, data := true, 0, head, 0, 0;
      while more
        invariant Valid()
        invariant more ==> Leads(mmu.State(), cfg, head, idx, fuel, req, data, to)
        invariant !more ==> to == Ended(Chain(req, data, addr), mmu.Lines())
        decreases more, fuel
      {
        more, addr, req, data, idx := FollowOne(head, idx, req, data, fuel, to);
        fuel := fuel - 1;
      }
      chain := Chain(req, data, addr);
    }

    method GuestByte(addr: nat) returns (b: Byte)
      ensures b == ByteAt(ram.data[..], addr)
    {
      OneByte(ram.data[..], addr);
      b := ram.BusRead(addr, 1);
    }

    method CacheToGuest(addr: nat)
      requires Valid()
      modifies ram.data
      ensures ram.data[..] == WriteBytes(old(ram.data[..]), addr, bcData[..])
    {
      for i := 0 to BSIZE
        invariant ram.data[..] == WriteBytes(old(ram.data[..]), addr, bcData[..i])
      {
        assert bcData[..i + 1][..i] == bcData[..i];
        ram.BusWrite(addr + i, bcData[i], 1);
      }
      assert bcData[..BSIZE] == bcData[..];
    }

    method GuestToCache(addr: nat)
      requires Valid()
      modifies bcData
      ensures bcData[..] == ReadBytes(ram.data[..], addr, BSIZE)
    {
      for i := 0 to BSIZE
        invariant bcData[..i] == ReadBytes(ram.data[..], addr, i)
      {
        bcData[i] := GuestByte(addr + i);
        assert bcData[..i + 1] == bcData[..i] + [bcData[i]];
      }
      assert bcData[..BSIZE] == bcData[..];
    }

    method CacheToDisk(blockno: nat)
      requires Valid() && blockno * BSIZE + BSIZE <= diskData.Length
      modifies diskData
      ensures diskData[..] == Splice(old(diskData[..]), blockno * BSIZE, bcData[..])
    {
      var offset := blockno * BSIZE;
      for i := 0 to BSIZE
        invariant diskData[..] == Splice(old(diskData[..]), offset, bcData[..i])
      {
        diskData[offset + i] := bcData[i];
      }
      assert bcData[..BSIZE] == bcData[..];
    }

    /** The disk transfer of a request whose chain has been walked. */
    method Transfer(chain: Chain)
      requires Valid()
      requires chain.req != 0 && chain.data != 0 && RequestType(ram.data[..], chain) in {T_IN, T_OUT}
               ==> Serves(DiskState(), RequestSector(ram.data[..], chain))
      modifies ram`halted, ram.data, diskData, bcData, this`bcBlockno, this`bcValid
      ensures ram.data[..] == TransferMem(old(ram.data[..]), old(DiskState()), chain)
      ensures DiskState() == TransferDisk(old(ram.data[..]), old(DiskState()), chain)
    {
      if chain.req != 0 && chain.data != 0 {
        var kind := ReadPhys(chain.req, 4);
        var sector := ReadPhys(chain.req + 8, 8);
        if kind == T_IN {
          LoadCache(sector / 2);
          CacheToGuest(chain.data);
        } else if kind == T_OUT {
          LoadCache(sector / 2);
          GuestToCache(chain.data);
          CacheToDisk(sector / 2);
        }
      }
    }

    method PushElement(elem: nat, head: nat, at: nat, idx: nat)
      modifies ram.data
      ensures ram.data[..] == PushAt(old(ram.data[..]), elem, head, at, idx)
    {
      WritePhys(elem, head, 2);
      WritePhys(elem + 4, 512, 4);
      WritePhys(at, idx, 2);
    }

    method ReturnHead(head: nat)
      requires Valid()
      modifies ram`halted, ram.data
      ensures ram.data[..] == PushUsed(old(ram.data[..]), cfg, head)
    {
      ghost var mem0 := ram.data[..];
      ghost var e, n := PushUsedIs(mem0, cfg, head);
      var idx := ReadPhys(cfg.usedRing + 2, 2);
      var elem, next := UsedElem(cfg, idx % cfg.queueNum), (idx + 1) % IDX;
      assert ram.data[..] == mem0 && elem == e && next == n;
      PushElement(elem, head, cfg.usedRing + 2, next);
    }

    method StatusAndTransfer(chain: Chain)
      requires Valid() && Fits(ram.data[..], DiskState(), chain)
      modifies ram`halted, ram.data, diskData, bcData, this`bcBlockno, this`bcValid
      ensures var mem1 := PhysWrite(old(ram.data[..]), chain.status, 0, 1);
              && ram.data[..] == TransferMem(mem1, old(DiskState()), chain)
              && DiskState() == TransferDisk(mem1, old(DiskState()), chain)
    {
      ghost var disk := DiskState();
      WritePhys(chain.status, 0, 1);
      assert DiskState() == disk;
      Transfer(chain);
    }

    method FinishOperation(op: Op, chain: Chain)
      requires Valid() && Fits(ram.data[..], DiskState(), chain)
      modifies ram`halted, ram.data, diskData, bcData, this`bcBlockno, this`bcValid, this`interrupt, this`completed
      ensures Valid() && State() == Finish(old(State()), op, chain, old(mmu.Lines()))
    {
      ghost var before := State();
      StatusAndTransfer(chain);
      ghost var disk := DiskState();
      ReturnHead(op.head);
      assert DiskState() == disk;
      interrupt := true;
      completed := completed + [op.head];
      assert MappingNow() == before.mapping;
    }

    method CompleteDiskOperation(op: Op)
      requires Valid() && Serviceable(State(), op)
      modifies ram`halted, ram.data, diskData, bcData, this`bcBlockno, this`bcValid, this`interrupt, this`completed
      modifies mmu`tlbCnt, mmu`order, mmu`memFault, mmu.entries
      ensures Valid() && State() == Complete(old(State()), op)
    {
      ghost var before := State();
      var chain := FollowChain(op.head);
      assert ram.data[..] == before.mem && DiskState() == before.disk;
      FinishOperation(op, chain);
    }

    /** A due operation completes and leaves the list. */
    method Retire(i: nat)
      requires Valid() && i < |pendingOps| && Serviceable(State(), pendingOps[i])
      modifies ram`halted, ram.data, diskData, bcData
      modifies this`bcBlockno, this`bcValid, this`interrupt, this`completed, this`pendingOps
      modifies mmu`tlbCnt, mmu`order, mmu`memFault, mmu.entries
      ensures Valid() && State() == Complete(old(State()), old(pendingOps[i])).(pending := Remove(old(pendingOps), i))
    {
      CompleteDiskOperation(pendingOps[i]);
      ghost var mapping, disk := MappingNow(), DiskState();
      pendingOps := Remove(pendingOps, i);
      assert MappingNow() == mapping && DiskState() == disk;
    }

    method VirtioDiskUpdate()
      requires Valid() && AllServiceable(State(), 0)
      modifies ram`halted, ram.data, diskData, bcData
      modifies this`bcBlockno, this`bcValid, this`interrupt, this`completed, this`pendingOps
      modifies mmu`tlbCnt, mmu`order, mmu`memFault, mmu.entries
      ensures Valid() && State() == UpdateFrom(old(State()), 0)
    {
      var i := 0;
      while i < |pendingOps|
        invariant i <= |pendingOps| && Valid() && AllServiceable(State(), i)
        invariant UpdateFrom(State(), i) == UpdateFrom(old(State()), 0)
        decreases |pendingOps| - i
      {
        ghost var d' := UpdateStep(State(), i);
        if cycle >= pendingOps[i].completion {
          Retire(i);
        } else {
          i := i + 1;
        }
      }
    }
  }

  lemma OneByte(mem: seq<Byte>, addr: nat)
    ensures DramRead(mem, addr, 1) == ByteAt(mem, addr)
  {
    if InDram(|mem|, addr, 1) {
      var one := mem[addr - MEMORY_BASE..addr - MEMORY_BASE + 1];
      LeAtIsValue(mem, addr - MEMORY_BASE, 1);
      assert one == [mem[addr - MEMORY_BASE]];
      assert LeValue(one) == one[0];
    }
  }
}
