/** The virtio block device: split-queue indices and rings in guest memory, the list of operations
    in flight, and what completing one of them does. */
module VirtioModel {
  import opened Options
  import opened Bytes
  import opened Memory
  import opened DiskModel
  import opened Sv39
  import opened TlbModel

  const IDX: nat := 0x1_0000
  const LATENCY: nat := 1000
  const T_IN: nat := 0
  const T_OUT: nat := 1

  /** What the driver programs: queue size and ring addresses. */
  datatype Config = Config(queueNum: nat, descAddr: nat, availRing: nat, usedRing: nat)

  datatype Op = Op(head: nat, start: nat, completion: nat)

  /** What decides the translation of descriptor addresses: hart 0's satp, mode and TLB. */
  datatype Mapping = Mapping(satp: nat, mode: Mode, lines: seq<Line>, capacity: nat)

  /** `consumed` and `completed` record, in order, the heads taken from the available ring and the
      heads put into the used ring since the queue was set up. */
  datatype Dev = Dev(
    mem: seq<Byte>, cfg: Config, ready: bool, prevAvail: nat, pending: seq<Op>, cycle: nat,
    disk: Disk, interrupt: bool, mapping: Mapping, consumed: seq<nat>, completed: seq<nat>)

  predicate WellFormedDev(d: Dev) {
    d.cfg.queueNum > 0 && d.prevAvail < IDX && WellFormed(d.disk)
  }

  function PhysRead(mem: seq<Byte>, addr: nat, n: nat): nat {
    ReadAt(mem, ReadOffset(addr), n)
  }

  function PhysWrite(mem: seq<Byte>, addr: nat, v: nat, n: nat): (mem': seq<Byte>)
    ensures |mem'| == |mem|
  {
    WriteAt(mem, WriteOffset(addr), v, n)
  }

  /** Where the entry of a slot stands in either ring. */
  function AvailEntry(cfg: Config, slot: nat): nat { cfg.availRing + 4 + slot * 2 }

  function UsedElem(cfg: Config, slot: nat): nat { cfg.usedRing + 4 + slot * 8 }

  // ---- Taking requests from the available ring ----------------------------------------------

  function AvailIdx(mem: seq<Byte>, cfg: Config): nat { PhysRead(mem, cfg.availRing + 2, 2) }

  /** `start_async_disk_operation` for the next available entry; newest operations come first. */
  function Start(d: Dev): (d': Dev)
    requires WellFormedDev(d)
    ensures WellFormedDev(d')
  {
    var head := DramRead(d.mem, AvailEntry(d.cfg, d.prevAvail % d.cfg.queueNum), 2);
    d.(pending := [Op(head, d.cycle, d.cycle + LATENCY)] + d.pending,
       prevAvail := (d.prevAvail + 1) % IDX,
       consumed := d.consumed + [head])
  }

  /** How far a 16-bit index is behind another. */
  function Behind(prev: nat, last: nat): nat
    requires prev < IDX && last < IDX
  {
    if prev <= last then last - prev else last + IDX - prev
  }

  function Consume(d: Dev, last: nat): (d': Dev)
    requires WellFormedDev(d) && last < IDX
    ensures WellFormedDev(d')
    decreases Behind(d.prevAvail, last)
  {
    if d.prevAvail == last then d else Consume(Start(d), last)
  }

  lemma BehindStep(prev: nat, last: nat)
    requires prev < IDX && last < IDX && prev != last
    ensures Behind((prev + 1) % IDX, last) < Behind(prev, last)
  {}

  lemma ConsumeStep(d: Dev, last: nat)
    requires WellFormedDev(d) && last < IDX && d.prevAvail != last
    ensures Consume(d, last) == Consume(Start(d), last)
    ensures Behind(Start(d).prevAvail, last) < Behind(d.prevAvail, last)
  {
    BehindStep(d.prevAvail, last);
  }

  lemma IdxBound(mem: seq<Byte>, addr: nat)
    ensures PhysRead(mem, addr, 2) < IDX
  {
    var off := ReadOffset(addr);
    if off + 2 <= |mem| {
      LeAtIsValue(mem, off, 2);
      LeValueBound(mem[off..off + 2]);
    }
    assert Pow256(2) == IDX;
  }

  lemma WordBound(mem: seq<Byte>, addr: nat)
    ensures PhysRead(mem, addr, 8) < 0x1_0000_0000_0000_0000
  {
    var off := ReadOffset(addr);
    if off + 8 <= |mem| {
      LeAtIsValue(mem, off, 8);
      LeValueBound(mem[off..off + 8]);
    }
    assert Pow256(8) == 0x1_0000_0000_0000_0000;
  }

  /** `process_queue`: everything the driver has published is taken. */
  function ProcessQueue(d: Dev): (d': Dev)
    requires WellFormedDev(d)
    ensures WellFormedDev(d')
  {
    IdxBound(d.mem, d.cfg.availRing + 2);
    if d.ready then Consume(d, AvailIdx(d.mem, d.cfg)) else d
  }

  // ---- Completing a request -----------------------------------------------------------------

  datatype Desc = Desc(addr: nat, more: bool, next: nat)

  function DescAt(mem: seq<Byte>, cfg: Config, idx: nat): Desc {
    var base := cfg.descAddr + idx * 16;
    Desc(PhysRead(mem, base, 8), PhysRead(mem, base + 12, 2) % 2 == 1, PhysRead(mem, base + 14, 2))
  }

  datatype Chain = Chain(req: nat, data: nat, status: nat)

  function MmuOf(mem: seq<Byte>, m: Mapping): MmuState {
    MmuState(mem, m.satp, m.mode, m.lines, m.capacity)
  }

  /** What `get_pa` returns: the address, or 0 on a fault. */
  function AnswerOf(t: Translation): nat {
    if t.Pa? then t.pa else 0
  }

  /** A descriptor of a chain: its address, and whether it is the head. */
  datatype Item = Item(addr: nat, first: bool)

  /** The descriptors of a chain from `idx` on, in order. A chain that does not end within 65536
      descriptors visits one twice and never ends. */
  function Trail(mem: seq<Byte>, cfg: Config, head: nat, idx: nat, fuel: nat): (items: Option<seq<Item>>)
    ensures items.Some? ==> items.value != [] && items.value[0] == Item(DescAt(mem, cfg, idx).addr, idx == head)
    decreases head, fuel
  {
    if fuel == 0 then None
    else
      var d := DescAt(mem, cfg, idx);
      if !d.more then Some([Item(d.addr, idx == head)])
      else
        match Trail(mem, cfg, head, d.next, fuel - 1)
        case None => None
        case Some(rest) => Some([Item(d.addr, idx == head)] + rest)
  }

  function TrailOf(d: Dev, head: nat): Option<seq<Item>> {
    Trail(d.mem, d.cfg, head, head, IDX)
  }

  /** Of what belongs to the descriptors of a chain: that of the head is the request's, that of the
      last one the status, that of the last one in between the data's. */
  datatype Picked<T> = Picked(req: T, data: T, status: T)

  function Pick<T>(items: seq<Item>, xs: seq<T>, req: T, data: T): Picked<T>
    requires |items| == |xs| > 0
  {
    var req' := if items[0].first then xs[0] else req;
    var data' := if !items[0].first && |items| > 1 then xs[0] else data;
    if |items| == 1 then Picked(req', data', xs[0]) else Pick(items[1..], xs[1..], req', data')
  }

  function Addrs(items: seq<Item>): (addrs: seq<nat>)
    ensures |addrs| == |items|
    ensures forall k :: 0 <= k < |items| ==> addrs[k] == items[k].addr
  {
    if items == [] then [] else [items[0].addr] + Addrs(items[1..])
  }

  /** What `get_pa` answers to a list of addresses, in order, and the TLB it leaves. */
  function Answers(s: MmuState, addrs: seq<nat>): (got: seq<nat>)
    ensures |got| == |addrs|
    decreases |addrs|
  {
    if addrs == [] then []
    else [AnswerOf(Translate(s, addrs[0], Load).1)] + Answers(Translate(s, addrs[0], Load).0, addrs[1..])
  }

  function LinesAfter(s: MmuState, addrs: seq<nat>): seq<Line>
    decreases |addrs|
  {
    if addrs == [] then s.lines else LinesAfter(Translate(s, addrs[0], Load).0, addrs[1..])
  }

  function ToChain(p: Picked<nat>): Chain { Chain(p.req, p.data, p.status) }

  /** A walk over a descriptor chain: its buffers, as `get_pa` translates their addresses, and the
      TLB it leaves. */
  datatype Followed = Endless | Ended(chain: Chain, lines: seq<Line>)

  function Outcome(s: MmuState, trail: Option<seq<Item>>, req: nat, data: nat): Followed
    requires trail.Some? ==> trail.value != []
  {
    match trail
    case None => Endless
    case Some(items) =>
      Ended(ToChain(Pick(items, Answers(s, Addrs(items)), req, data)), LinesAfter(s, Addrs(items)))
  }

  lemma OutcomeStep(s: MmuState, item: Item, tail: seq<Item>, req: nat, data: nat, s': MmuState, got: nat)
    requires tail != [] && Translates(s, item.addr, s', got)
    ensures Outcome(s, Some([item] + tail), req, data)
         == Outcome(s', Some(tail), if item.first then got else req, if !item.first then got else data)
  {
    assert Addrs([item] + tail) == [item.addr] + Addrs(tail);
    AnswersStep(s, item.addr, Addrs(tail), s', got);
    PickStep(item, tail, got, Answers(s', Addrs(tail)), req, data);
  }

  lemma OutcomeLast(s: MmuState, item: Item, req: nat, data: nat, s': MmuState, got: nat)
    requires Translates(s, item.addr, s', got)
    ensures Outcome(s, Some([item]), req, data) == Ended(Chain(if item.first then got else req, data, got), s'.lines)
  {
    assert Addrs([item]) == [item.addr] + [];
    AnswersStep(s, item.addr, [], s', got);
  }

  lemma PickStep<T>(item: Item, rest: seq<Item>, x: T, xs: seq<T>, req: T, data: T)
    requires |rest| == |xs| > 0
    ensures Pick([item] + rest, [x] + xs, req, data)
         == Pick(rest, xs, if item.first then x else req, if !item.first then x else data)
  {
    assert ([item] + rest)[1..] == rest && ([x] + xs)[1..] == xs;
  }

  lemma TrailStep(mem: seq<Byte>, cfg: Config, head: nat, idx: nat, fuel: nat) returns (tail: Option<seq<Item>>)
    requires fuel > 0
    ensures var d := DescAt(mem, cfg, idx);
            var item := Item(d.addr, idx == head);
            if !d.more then Trail(mem, cfg, head, idx, fuel) == Some([item])
            else && tail == Trail(mem, cfg, head, d.next, fuel - 1)
                 && Trail(mem, cfg, head, idx, fuel) == if tail.Some? then Some([item] + tail.value) else None
    ensures tail.Some? ==> tail.value != []
  {
    tail := Trail(mem, cfg, head, DescAt(mem, cfg, idx).next, fuel - 1);
  }

  lemma AnswersStep(s: MmuState, va: nat, rest: seq<nat>, s': MmuState, got: nat)
    requires Translates(s, va, s', got)
    ensures Answers(s, [va] + rest) == [got] + Answers(s', rest)
    ensures LinesAfter(s, [va] + rest) == LinesAfter(s', rest)
  {
    assert ([va] + rest)[1..] == rest;
  }

  /** One address goes through `get_pa`. */
  predicate Translates(s: MmuState, va: nat, s': MmuState, got: nat) {
    s' == Translate(s, va, Load).0 && got == AnswerOf(Translate(s, va, Load).1)
  }

  /** One round of the walk. */
  lemma WalkRound(s: MmuState, cfg: Config, head: nat, idx: nat, fuel: nat, s': MmuState, got: nat, req: nat, data: nat)
    requires fuel > 0 && s'.mem == s.mem && Translates(s, DescAt(s.mem, cfg, idx).addr, s', got)
    ensures var d := DescAt(s.mem, cfg, idx);
            var req' := if idx == head then got else req;
            var data' := if idx != head && d.more then got else data;
            Outcome(s, Trail(s.mem, cfg, head, idx, fuel), req, data)
            == if d.more then Outcome(s', Trail(s.mem, cfg, head, d.next, fuel - 1), req', data')
               else Ended(Chain(req', data', got), s'.lines)
  {
    var d := DescAt(s.mem, cfg, idx);
    var item := Item(d.addr, idx == head);
    var tail := TrailStep(s.mem, cfg, head, idx, fuel);
    if !d.more {
      OutcomeLast(s, item, req, data, s', got);
    } else if tail.Some? {
      OutcomeStep(s, item, tail.value, req, data, s', got);
    }
  }

  /** The loop of `complete_disk_operation` from a descriptor on. */
  function Follow(s: MmuState, cfg: Config, head: nat, idx: nat, fuel: nat, req: nat, data: nat): Followed
    decreases head, fuel
  {
    if fuel == 0 then Endless
    else
      var d := DescAt(s.mem, cfg, idx);
      var t := Translate(s, d.addr, Load);
      var got := AnswerOf(t.1);
      var req' := if idx == head then got else req;
      var data' := if idx != head && d.more then got else data;
      if !d.more then Ended(Chain(req', data', got), t.0.lines)
      else Follow(t.0, cfg, head, d.next, fuel - 1, req', data')
  }

  predicate Leads(s: MmuState, cfg: Config, head: nat, idx: nat, fuel: nat, req: nat, data: nat, to: Followed) {
    Follow(s, cfg, head, idx, fuel, req, data) == to && to.Ended?
  }

  lemma FollowRound(s: MmuState, cfg: Config, head: nat, idx: nat, fuel: nat, req: nat, data: nat)
    returns (s': MmuState, got: nat, req': nat, data': nat)
    requires fuel > 0
    ensures s'.mem == s.mem && Translates(s, DescAt(s.mem, cfg, idx).addr, s', got)
    ensures var d := DescAt(s.mem, cfg, idx);
            && req' == (if idx == head then got else req)
            && data' == (if idx != head && d.more then got else data)
            && Follow(s, cfg, head, idx, fuel, req, data)
               == if d.more then Follow(s', cfg, head, d.next, fuel - 1, req', data')
                  else Ended(Chain(req', data', got), s'.lines)
  {
    var d := DescAt(s.mem, cfg, idx);
    var t := Translate(s, d.addr, Load);
    OnlyLines(s, d.addr, Load);
    s', got := t.0, AnswerOf(t.1);
    req', data' := if idx == head then got else req, if idx != head && d.more then got else data;
  }

  lemma RoundsAgree(s: MmuState, cfg: Config, head: nat, idx: nat, fuel: nat, req: nat, data: nat)
    returns (more: bool, next: nat, s': MmuState, req': nat, data': nat)
    requires fuel > 0
    ensures !more ==>
      Follow(s, cfg, head, idx, fuel, req, data) == Outcome(s, Trail(s.mem, cfg, head, idx, fuel), req, data)
    ensures more ==>
      && Follow(s, cfg, head, idx, fuel, req, data) == Follow(s', cfg, head, next, fuel - 1, req', data')
      && Outcome(s, Trail(s.mem, cfg, head, idx, fuel), req, data)
         == Outcome(s', Trail(s'.mem, cfg, head, next, fuel - 1), req', data')
  {
    var got;
    s', got, req', data' := FollowRound(s, cfg, head, idx, fuel, req, data);
    WalkRound(s, cfg, head, idx, fuel, s', got, req, data);
    more, next := DescAt(s.mem, cfg, idx).more, DescAt(s.mem, cfg, idx).next;
  }

  /** The loop picks the buffers of a chain from the answers to the addresses of its descriptors. */
  lemma {:induction false} FollowIsOutcome(s: MmuState, cfg: Config, head: nat, idx: nat, fuel: nat, req: nat, data: nat)
    ensures Follow(s, cfg, head, idx, fuel, req, data) == Outcome(s, Trail(s.mem, cfg, head, idx, fuel), req, data)
    decreases fuel
  {
    if fuel > 0 {
      var more, next, s', req', data' := RoundsAgree(s, cfg, head, idx, fuel, req, data);
      if more { FollowIsOutcome(s', cfg, head, next, fuel - 1, req', data'); }
    }
  }

  function Walked(d: Dev, head: nat): Followed {
    Follow(MmuOf(d.mem, d.mapping), d.cfg, head, head, IDX, 0, 0)
  }

  lemma WalkedIs(d: Dev, head: nat)
    ensures Walked(d, head) == Outcome(MmuOf(d.mem, d.mapping), TrailOf(d, head), 0, 0)
  {
    FollowIsOutcome(MmuOf(d.mem, d.mapping), d.cfg, head, head, IDX, 0, 0);
  }

  function ChainOf(d: Dev, head: nat): Option<Chain> {
    match Walked(d, head)
    case Endless => None
    case Ended(chain, _) => Some(chain)
  }

  /** Byte-by-byte bus writes of a buffer. */
  function WriteBytes(mem: seq<Byte>, addr: nat, bs: seq<Byte>): (mem': seq<Byte>)
    ensures |mem'| == |mem|
  {
    if bs == [] then mem
    else DramWrite(WriteBytes(mem, addr, bs[..|bs| - 1]), addr + |bs| - 1, bs[|bs| - 1], 1)
  }

  function ByteAt(mem: seq<Byte>, addr: nat): Byte {
    if InDram(|mem|, addr, 1) then mem[addr - MEMORY_BASE] else 0
  }

  /** Byte-by-byte bus reads of a buffer. */
  function ReadBytes(mem: seq<Byte>, addr: nat, n: nat): (bs: seq<Byte>)
    ensures |bs| == n
    decreases mem, n
  {
    if n == 0 then [] else ReadBytes(mem, addr, n - 1) + [ByteAt(mem, addr + n - 1)]
  }

  function RequestType(mem: seq<Byte>, chain: Chain): nat { PhysRead(mem, chain.req, 4) }

  function RequestSector(mem: seq<Byte>, chain: Chain): nat { PhysRead(mem, chain.req + 8, 8) }

  predicate HasTransfer(mem: seq<Byte>, disk: Disk, chain: Chain) {
    chain.req != 0 && chain.data != 0 && Serves(disk, RequestSector(mem, chain))
  }

  function TransferMem(mem: seq<Byte>, disk: Disk, chain: Chain): (mem': seq<Byte>)
    requires WellFormed(disk)
    ensures |mem'| == |mem|
  {
    if HasTransfer(mem, disk, chain) && RequestType(mem, chain) == T_IN
    then WriteBytes(mem, chain.data, ReadBlock(disk, RequestSector(mem, chain)).1) else mem
  }

  function TransferDisk(mem: seq<Byte>, disk: Disk, chain: Chain): (disk': Disk)
    requires WellFormed(disk)
    ensures WellFormed(disk') && |disk'.data| == |disk.data|
  {
    if !HasTransfer(mem, disk, chain) then disk
    else if RequestType(mem, chain) == T_IN then ReadBlock(disk, RequestSector(mem, chain)).0
    else if RequestType(mem, chain) == T_OUT then
      WriteBlock(disk, RequestSector(mem, chain), ReadBytes(mem, chain.data, BSIZE))
    else disk
  }

  function UsedIdx(mem: seq<Byte>, cfg: Config): nat { PhysRead(mem, cfg.usedRing + 2, 2) }

  /** A used element at `elem`, its id and its length, then the index at `at`. */
  function PushAt(mem: seq<Byte>, elem: nat, head: nat, at: nat, idx: nat): (mem': seq<Byte>)
    ensures |mem'| == |mem|
  {
    PhysWrite(PhysWrite(PhysWrite(mem, elem, head, 2), elem + 4, 512, 4), at, idx, 2)
  }

  function PushUsedAt(mem: seq<Byte>, cfg: Config, slot: nat, head: nat, idx: nat): (mem': seq<Byte>)
    ensures |mem'| == |mem|
  {
    PushAt(mem, UsedElem(cfg, slot), head, cfg.usedRing + 2, idx)
  }

  function PushUsed(mem: seq<Byte>, cfg: Config, head: nat): (mem': seq<Byte>)
    requires cfg.queueNum > 0
    ensures |mem'| == |mem|
  {
    var idx := UsedIdx(mem, cfg);
    PushUsedAt(mem, cfg, idx % cfg.queueNum, head, (idx + 1) % IDX)
  }

  lemma PushUsedIs(mem: seq<Byte>, cfg: Config, head: nat) returns (elem: nat, idx: nat)
    requires cfg.queueNum > 0
    ensures elem == UsedElem(cfg, UsedIdx(mem, cfg) % cfg.queueNum) && idx == (UsedIdx(mem, cfg) + 1) % IDX
    ensures PushUsed(mem, cfg, head) == PushAt(mem, elem, head, cfg.usedRing + 2, idx)
  {
    elem, idx := UsedElem(cfg, UsedIdx(mem, cfg) % cfg.queueNum), (UsedIdx(mem, cfg) + 1) % IDX;
  }

  /** The part of `complete_disk_operation` after its descriptor walk. */
  function Finish(d: Dev, op: Op, chain: Chain, lines: seq<Line>): (d': Dev)
    requires WellFormedDev(d)
    ensures WellFormedDev(d') && |d'.mem| == |d.mem| && d'.pending == d.pending
    ensures d'.cfg == d.cfg && d'.cycle == d.cycle && d'.prevAvail == d.prevAvail && d'.consumed == d.consumed
  {
    var mem1 := PhysWrite(d.mem, chain.status, 0, 1);
    var mem2 := TransferMem(mem1, d.disk, chain);
    d.(mem := PushUsed(mem2, d.cfg, op.head), disk := TransferDisk(mem1, d.disk, chain),
       mapping := d.mapping.(lines := lines), interrupt := true, completed := d.completed + [op.head])
  }

  /** `complete_disk_operation`, which never returns on an endless chain. */
  function Complete(d: Dev, op: Op): (d': Dev)
    requires WellFormedDev(d)
    ensures WellFormedDev(d') && |d'.mem| == |d.mem| && d'.pending == d.pending
    ensures d'.cfg == d.cfg && d'.cycle == d.cycle && d'.prevAvail == d.prevAvail && d'.consumed == d.consumed
  {
    match Walked(d, op.head)
    case Endless => d
    case Ended(chain, lines) => Finish(d, op, chain, lines)
  }

  function Remove(ops: seq<Op>, i: nat): seq<Op>
    requires i < |ops|
  {
    ops[..i] + ops[i + 1..]
  }

  /** `virtio_disk_update` from list position i on: every due operation completes and leaves. */
  function UpdateFrom(d: Dev, i: nat): (d': Dev)
    requires WellFormedDev(d) && i <= |d.pending|
    ensures WellFormedDev(d') && |d'.mem| == |d.mem| && d'.cfg == d.cfg && d'.cycle == d.cycle
    decreases |d.pending| - i
  {
    if i == |d.pending| then d
    else if d.cycle >= d.pending[i].completion then
      UpdateFrom(Complete(d, d.pending[i]).(pending := Remove(d.pending, i)), i)
    else UpdateFrom(d, i + 1)
  }

  /** The requests for which `complete_disk_operation` stays inside its buffers: the chain ends,
      and a transfer names a whole block of the image. */
  predicate Serviceable(d: Dev, op: Op) {
    var chain := ChainOf(d, op.head);
    chain.Some? && Fits(d.mem, d.disk, chain.value)
  }

  predicate Fits(mem: seq<Byte>, disk: Disk, chain: Chain) {
    var mem1 := PhysWrite(mem, chain.status, 0, 1);
    chain.req != 0 && chain.data != 0 && RequestType(mem1, chain) in {T_IN, T_OUT}
    ==> Serves(disk, RequestSector(mem1, chain))
  }

  predicate AllServiceable(d: Dev, i: nat)
    requires WellFormedDev(d) && i <= |d.pending|
    decreases |d.pending| - i
  {
    if i == |d.pending| then true
    else if d.cycle >= d.pending[i].completion then
      Serviceable(d, d.pending[i])
      && AllServiceable(Complete(d, d.pending[i]).(pending := Remove(d.pending, i)), i)
    else AllServiceable(d, i + 1)
  }

  /** One round of the loop over the operations in flight. */
  lemma UpdateStep(d: Dev, i: nat) returns (d': Dev)
    requires WellFormedDev(d) && i < |d.pending| && AllServiceable(d, i)
    ensures WellFormedDev(d') && |d'.pending| + 1 >= |d.pending|
    ensures d.cycle >= d.pending[i].completion ==>
      && Serviceable(d, d.pending[i]) && d' == Complete(d, d.pending[i]).(pending := Remove(d.pending, i))
      && |d'.pending| == |d.pending| - 1 && AllServiceable(d', i) && UpdateFrom(d', i) == UpdateFrom(d, i)
    ensures d.cycle < d.pending[i].completion ==>
      d' == d && AllServiceable(d, i + 1) && UpdateFrom(d, i + 1) == UpdateFrom(d, i)
  {
    d' := d;
    if d.cycle >= d.pending[i].completion {
      d' := Complete(d, d.pending[i]).(pending := Remove(d.pending, i));
    }
  }
}
