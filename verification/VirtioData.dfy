/** What a completed request does to the disk and to the guest's buffer. */
module VirtioData {
  import opened Options
  import opened Bytes
  import opened Memory
  import opened DiskModel
  import opened VirtioModel
  import opened VirtioRings
  import opened VirtioRuns

  function BufferAt(mem: seq<Byte>, a: nat): seq<Byte>
    requires InDram(|mem|, a, BSIZE)
  {
    mem[a - MEMORY_BASE..a - MEMORY_BASE + BSIZE]
  }

  lemma {:induction false} WriteBytesIs(mem: seq<Byte>, addr: nat, bs: seq<Byte>)
    requires InDram(|mem|, addr, |bs|)
    ensures WriteBytes(mem, addr, bs) == Splice(mem, addr - MEMORY_BASE, bs)
  {
    if bs != [] {
      var init, b, mem1 := LastByte(mem, addr, bs);
      WriteBytesIs(mem, addr, init);
      AppendByte(mem, mem1, addr, init, b);
    }
  }

  lemma LastByte(mem: seq<Byte>, addr: nat, bs: seq<Byte>) returns (init: seq<Byte>, b: Byte, mem1: seq<Byte>)
    requires bs != []
    ensures bs == init + [b] && mem1 == WriteBytes(mem, addr, init) && |mem1| == |mem|
    ensures WriteBytes(mem, addr, bs) == DramWrite(mem1, addr + |init|, b, 1)
  {
    init, b := bs[..|bs| - 1], bs[|bs| - 1];
    mem1 := WriteBytes(mem, addr, init);
  }

  lemma {:induction false} ReadBytesIs(mem: seq<Byte>, addr: nat, n: nat)
    requires InDram(|mem|, addr, n)
    ensures ReadBytes(mem, addr, n) == mem[addr - MEMORY_BASE..addr - MEMORY_BASE + n]
  {
    if n > 0 { ReadBytesIs(mem, addr, n - 1); }
  }

  /** A request about to complete: the buffers its descriptors translate to, and what it asks for. */
  predicate Transfers(d: Dev, op: Op, chain: Chain, kind: nat, sector: nat) {
    && CompletesCleanly(d, op) && ChainOf(d, op.head) == Some(chain)
    && var mem1 := PhysWrite(d.mem, chain.status, 0, 1);
       HasTransfer(mem1, d.disk, chain) && RequestType(mem1, chain) == kind && RequestSector(mem1, chain) == sector
  }

  lemma PushUsedKeepsBuffer(mem: seq<Byte>, cfg: Config, head: nat, a: nat)
    requires Layout(|mem|, cfg) && InDram(|mem|, a, BSIZE) && ApartFromRings(cfg, a, BSIZE)
    ensures BufferAt(PushUsed(mem, cfg, head), a) == BufferAt(mem, a)
  {
    var idx := UsedIdx(mem, cfg);
    var slot := idx % cfg.queueNum;
    ThreeWritesApart(mem, UsedElem(cfg, slot), head, cfg.usedRing + 2, (idx + 1) % IDX, a, BSIZE);
  }

  lemma TransferIn(mem: seq<Byte>, disk: Disk, chain: Chain) returns (mem': seq<Byte>)
    requires CacheOk(disk) && HasTransfer(mem, disk, chain) && RequestType(mem, chain) == T_IN
    requires InDram(|mem|, chain.data, BSIZE)
    ensures mem' == TransferMem(mem, disk, chain) && |mem'| == |mem|
    ensures BufferAt(mem', chain.data) == PlainRead(disk.data, RequestSector(mem, chain))
    ensures TransferDisk(mem, disk, chain).data == disk.data
  {
    var bytes := ReadBlock(disk, RequestSector(mem, chain)).1;
    ReadIsPlain(disk, RequestSector(mem, chain));
    WriteBytesIs(mem, chain.data, bytes);
    mem' := Splice(mem, chain.data - MEMORY_BASE, bytes);
    SpliceSame(mem, chain.data - MEMORY_BASE, bytes);
  }

  /** A completed read puts into the guest's buffer the block of the plain disk array, whatever
      the cache held, and leaves the disk array alone. */
  lemma ReadDelivers(d: Dev, op: Op, chain: Chain, sector: nat)
    requires WellFormedDev(d) && Layout(|d.mem|, d.cfg) && CacheOk(d.disk)
    requires Transfers(d, op, chain, T_IN, sector)
    ensures BufferAt(Complete(d, op).mem, chain.data) == PlainRead(d.disk.data, sector)
    ensures Complete(d, op).disk.data == d.disk.data
  {
    var mem1 := PhysWrite(d.mem, chain.status, 0, 1);
    var mem2 := TransferIn(mem1, d.disk, chain);
    PushUsedKeepsBuffer(mem2, d.cfg, op.head, chain.data);
  }

  lemma BufferRead(mem: seq<Byte>, a: nat) returns (bytes: seq<Byte>)
    requires InDram(|mem|, a, BSIZE)
    ensures |bytes| == BSIZE && bytes == ReadBytes(mem, a, BSIZE) && bytes == BufferAt(mem, a)
  {
    bytes := ReadBytes(mem, a, BSIZE);
    ReadBytesIs(mem, a, BSIZE);
  }

  lemma TransferOut(mem: seq<Byte>, disk: Disk, chain: Chain)
    requires CacheOk(disk) && HasTransfer(mem, disk, chain) && RequestType(mem, chain) == T_OUT
    requires InDram(|mem|, chain.data, BSIZE)
    ensures TransferDisk(mem, disk, chain).data
         == PlainWrite(disk.data, RequestSector(mem, chain), BufferAt(mem, chain.data))
  {
    var bytes := BufferRead(mem, chain.data);
    assert TransferDisk(mem, disk, chain) == WriteBlock(disk, RequestSector(mem, chain), bytes);
    WriteIsPlain(disk, RequestSector(mem, chain), bytes);
  }

  /** A completed write stores the guest's buffer, as it is at completion, into the plain disk
      array and changes no other block. */
  lemma WriteStores(d: Dev, op: Op, chain: Chain, sector: nat)
    requires WellFormedDev(d) && CacheOk(d.disk) && Transfers(d, op, chain, T_OUT, sector)
    ensures Complete(d, op).disk.data
         == PlainWrite(d.disk.data, sector, BufferAt(PhysWrite(d.mem, chain.status, 0, 1), chain.data))
  {
    TransferOut(PhysWrite(d.mem, chain.status, 0, 1), d.disk, chain);
  }

  lemma CompleteKeepsCache(d: Dev, op: Op)
    requires WellFormedDev(d) && CacheOk(d.disk)
    ensures CacheOk(Complete(d, op).disk)
  {
    var chain := ChainOf(d, op.head);
    if chain.Some? {
      var mem1 := PhysWrite(d.mem, chain.value.status, 0, 1);
      if HasTransfer(mem1, d.disk, chain.value) {
        ReadIsPlain(d.disk, RequestSector(mem1, chain.value));
        WriteIsPlain(d.disk, RequestSector(mem1, chain.value), ReadBytes(mem1, chain.value.data, BSIZE));
      }
    }
  }

  lemma {:induction false} ConsumeKeepsDisk(d: Dev, last: nat)
    requires WellFormedDev(d) && last < IDX
    ensures Consume(d, last).disk == d.disk
    decreases Behind(d.prevAvail, last)
  {
    if d.prevAvail != last { ConsumeKeepsDisk(Start(d), last); }
  }

  lemma {:induction false} UpdateKeepsCache(d: Dev, i: nat)
    requires WellFormedDev(d) && i <= |d.pending| && CacheOk(d.disk)
    ensures CacheOk(UpdateFrom(d, i).disk)
    decreases |d.pending| - i
  {
    if i < |d.pending| {
      if d.cycle >= d.pending[i].completion {
        CompleteKeepsCache(d, d.pending[i]);
        UpdateKeepsCache(CompleteAt(d, i), i);
      } else {
        UpdateKeepsCache(d, i + 1);
      }
    }
  }

  /** Along every run a valid cache equals its disk block. */
  lemma {:induction false} CacheAlongRuns(states: seq<Sys>, steps: seq<Step>, n: nat)
    requires IsRun(states, steps) && CacheOk(states[0].dev.disk) && n <= |steps|
    ensures CacheOk(states[n].dev.disk)
  {
    if n > 0 {
      CacheAlongRuns(states, steps, n - 1);
      var d := states[n - 1].dev;
      assert StepAt(states, steps, n - 1);
      match steps[n - 1]
      case Notify =>
        IdxBound(d.mem, d.cfg.availRing + 2);
        if d.ready { ConsumeKeepsDisk(d, AvailIdx(d.mem, d.cfg)); }
      case Tick => UpdateKeepsCache(d.(cycle := d.cycle + 1), 0);
      case _ =>
    }
  }
}
