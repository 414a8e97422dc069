/** The driver, the device and the clock together: what every run keeps. */
module VirtioRuns {
  import opened Bytes
  import opened Division
  import opened Memory
  import opened DiskModel
  import opened VirtioModel
  import opened VirtioRings

  /** `posted` lists every head the driver has published. */
  datatype Sys = Sys(dev: Dev, posted: seq<nat>)

  datatype Step =
    | Post(head: nat)
    | Guest(off: nat, bytes: seq<Byte>)
    | Hart(mapping: Mapping)
    | Notify
    | Tick

  /** `Hart` stands for whatever hart 0 does to its satp, mode and TLB between completions. A Tick is
      one `cpu_step` of a running hart, which counts a cycle, and the update after it. */
  function Apply(s: Sys, step: Step): Sys
    requires WellFormedDev(s.dev)
  {
    match step
    case Post(head) =>
      Sys(s.dev.(mem := Publish(s.dev.mem, s.dev.cfg, head)), s.posted + [head])
    case Guest(off, bytes) =>
      if off + |bytes| <= |s.dev.mem| then s.(dev := s.dev.(mem := Splice(s.dev.mem, off, bytes))) else s
    case Hart(mapping) => s.(dev := s.dev.(mapping := mapping))
    case Notify => s.(dev := ProcessQueue(s.dev))
    case Tick => s.(dev := UpdateFrom(s.dev.(cycle := s.dev.cycle + 1), 0))
  }

  predicate ApartFromRings(cfg: Config, a: nat, n: nat) {
    Apart(a, n, cfg.availRing, AvailLen(cfg)) && Apart(a, n, cfg.usedRing, UsedLen(cfg))
  }

  /** The request is serviceable, and what the device writes for it stays off the rings: the byte of
      DRAM its status goes to, wherever the address translated to, and for a transfer the buffer. */
  predicate CompletesCleanly(d: Dev, op: Op) {
    && Serviceable(d, op)
    && var chain := ChainOf(d, op.head).value;
       && ApartFromRings(d.cfg, StatusByte(chain), 1)
       && (HasTransfer(PhysWrite(d.mem, chain.status, 0, 1), d.disk, chain) ==>
             InDram(|d.mem|, chain.data, BSIZE) && ApartFromRings(d.cfg, chain.data, BSIZE))
  }

  function StatusByte(chain: Chain): nat { MEMORY_BASE + WriteOffset(chain.status) }

  /** Every operation that an update completes does so cleanly. */
  predicate UpdatesCleanly(d: Dev, i: nat)
    requires WellFormedDev(d) && i <= |d.pending|
    decreases |d.pending| - i
  {
    if i == |d.pending| then true
    else if d.cycle >= d.pending[i].completion then
      CompletesCleanly(d, d.pending[i])
      && UpdatesCleanly(Complete(d, d.pending[i]).(pending := Remove(d.pending, i)), i)
    else UpdatesCleanly(d, i + 1)
  }

  /** What is asked of the driver: heads are 16-bit, at most queueNum requests are outstanding, other
      guest writes keep off the rings, and requests are well built when they complete. */
  predicate StepOk(s: Sys, step: Step)
    requires WellFormedDev(s.dev)
  {
    match step
    case Post(head) => head < IDX && |s.posted| < |s.dev.completed| + s.dev.cfg.queueNum
    case Guest(off, bytes) => ApartFromRings(s.dev.cfg, MEMORY_BASE + off, |bytes|)
    case Hart(mapping) => true
    case Notify => true
    case Tick => UpdatesCleanly(s.dev.(cycle := s.dev.cycle + 1), 0)
  }

  // ---- 16-bit indices and slots -------------------------------------------------------------

  lemma SlotOfIndex(k: nat, qn: nat)
    requires qn > 0 && IDX % qn == 0
    ensures k % IDX % qn == k % qn
  {
    var m, q, r := IDX / qn, k / IDX, k % IDX;
    var a, b := r / qn, r % qn;
    assert IDX * q == (qn * m) * q == qn * (m * q);
    assert k == qn * (m * q + a) + b;
    DivisionIsUnique(k, qn, m * q + a, b);
  }

  /** Slots follow positions across the wrap of the 16-bit index exactly when the queue size
      divides 65536. */
  lemma WrapNeedsDivisor(qn: nat)
    requires qn > 0
    ensures (forall k: nat :: k % IDX % qn == k % qn) <==> IDX % qn == 0
  {
    if IDX % qn == 0 {
      forall k: nat ensures k % IDX % qn == k % qn { SlotOfIndex(k, qn); }
    } else {
      assert IDX % IDX % qn == 0;
    }
  }

  lemma SlotsDistinct(j: nat, k: nat, qn: nat)
    requires qn > 0 && j < k < j + qn
    ensures j % qn != k % qn
  {
    var a, b := j / qn, k / qn;
    if a < b { MulAtLeast(qn, a, b); } else if b < a { MulAtLeast(qn, b, a); }
  }

  lemma NextIndex(n: nat)
    ensures (n % IDX + 1) % IDX == (n + 1) % IDX
  {}

  lemma CloseIndices(a: nat, b: nat)
    requires a <= b < a + IDX && a % IDX == b % IDX
    ensures a == b
  {}

  // ---- The invariant ------------------------------------------------------------------------

  /** The slots named by the last queueNum positions hold the listed heads. */
  ghost predicate AvailHolds(mem: seq<Byte>, cfg: Config, heads: seq<nat>) {
    && cfg.queueNum > 0
    && forall k :: 0 <= k < |heads| && |heads| <= k + cfg.queueNum ==> AvailSlot(mem, cfg, k % cfg.queueNum) == heads[k]
  }

  ghost predicate UsedHolds(mem: seq<Byte>, cfg: Config, heads: seq<nat>) {
    && cfg.queueNum > 0
    && forall k :: 0 <= k < |heads| && |heads| <= k + cfg.queueNum ==> UsedSlot(mem, cfg, k % cfg.queueNum) == heads[k]
  }

  /** A ring in memory: its index and its recent slots. */
  ghost predicate AvailOk(mem: seq<Byte>, cfg: Config, heads: seq<nat>) {
    AvailIdx(mem, cfg) == |heads| % IDX && AvailHolds(mem, cfg, heads)
  }

  ghost predicate UsedOk(mem: seq<Byte>, cfg: Config, heads: seq<nat>) {
    UsedIdx(mem, cfg) == |heads| % IDX && UsedHolds(mem, cfg, heads)
  }

  function Heads(ops: seq<Op>): seq<nat> {
    if ops == [] then [] else [ops[0].head] + Heads(ops[1..])
  }

  /** Memory agrees with the history of both rings. */
  ghost predicate RingsOk(s: Sys) {
    var d := s.dev;
    && WellFormedDev(d) && Layout(|d.mem|, d.cfg)
    && AvailOk(d.mem, d.cfg, s.posted) && UsedOk(d.mem, d.cfg, d.completed)
  }

  /** Exactly-once accounting. */
  ghost predicate Accounts(s: Sys) {
    var d := s.dev;
    && d.cfg.queueNum < IDX && d.cfg.queueNum > 0 && IDX % d.cfg.queueNum == 0 && d.ready
    && |d.consumed| == |d.completed| + |d.pending|
    && |d.consumed| <= |s.posted| <= |d.completed| + d.cfg.queueNum
    && d.consumed == s.posted[..|d.consumed|]
    && (forall k :: 0 <= k < |s.posted| ==> s.posted[k] < IDX)
    && d.prevAvail == |d.consumed| % IDX
    && multiset(d.consumed) == multiset(d.completed) + multiset(Heads(d.pending))
  }

  /** In flight: newest first, each due 1000 cycles after its start and not yet due. */
  ghost predicate Timed(d: Dev) {
    && (forall i :: 0 <= i < |d.pending| ==>
          d.pending[i].completion == d.pending[i].start + LATENCY && d.pending[i].start <= d.cycle
          && d.cycle < d.pending[i].completion)
    && (forall i, j :: 0 <= i < j < |d.pending| ==> d.pending[i].completion >= d.pending[j].completion)
  }

  ghost predicate Inv(s: Sys) {
    RingsOk(s) && Accounts(s) && Timed(s.dev)
  }

  // ---- Driver and guest steps ---------------------------------------------------------------

  lemma PostHolds(mem: seq<Byte>, cfg: Config, heads: seq<nat>, h: nat, idx: nat)
    requires Layout(|mem|, cfg) && AvailHolds(mem, cfg, heads) && h < IDX
    ensures AvailHolds(PublishAt(mem, cfg, |heads| % cfg.queueNum, h, idx), cfg, heads + [h])
  {
    var n, qn := |heads|, cfg.queueNum;
    var mem' := PublishAt(mem, cfg, n % qn, h, idx);
    forall k | 0 <= k <= n && n + 1 <= k + qn ensures AvailSlot(mem', cfg, k % qn) == (heads + [h])[k] {
      PublishSlot(mem, cfg, n % qn, h, idx, k % qn);
      if k < n { SlotsDistinct(k, n, qn); }
    }
  }

  lemma PublishGoesTo(mem: seq<Byte>, cfg: Config, n: nat, h: nat) returns (mem': seq<Byte>)
    requires cfg.queueNum > 0 && IDX % cfg.queueNum == 0 && AvailIdx(mem, cfg) == n % IDX
    ensures mem' == Publish(mem, cfg, h) && mem' == PublishAt(mem, cfg, n % cfg.queueNum, h, (n + 1) % IDX)
  {
    SlotOfIndex(n, cfg.queueNum);
    NextIndex(n);
    mem' := Publish(mem, cfg, h);
  }

  lemma PublishExtendsAvail(mem: seq<Byte>, cfg: Config, heads: seq<nat>, h: nat)
    requires Layout(|mem|, cfg) && AvailOk(mem, cfg, heads) && h < IDX && IDX % cfg.queueNum == 0
    ensures AvailOk(Publish(mem, cfg, h), cfg, heads + [h])
  {
    var mem' := PublishGoesTo(mem, cfg, |heads|, h);
    PublishAtExtends(mem, cfg, heads, h, mem');
  }

  lemma PublishAtExtends(mem: seq<Byte>, cfg: Config, heads: seq<nat>, h: nat, mem': seq<Byte>)
    requires Layout(|mem|, cfg) && AvailOk(mem, cfg, heads) && h < IDX
    requires mem' == PublishAt(mem, cfg, |heads| % cfg.queueNum, h, (|heads| + 1) % IDX)
    ensures AvailOk(mem', cfg, heads + [h])
  {
    PostHolds(mem, cfg, heads, h, (|heads| + 1) % IDX);
    PublishIndex(mem, cfg, |heads| % cfg.queueNum, h, (|heads| + 1) % IDX);
  }

  lemma PublishMissesUsed(mem: seq<Byte>, cfg: Config, h: nat) returns (mem': seq<Byte>)
    requires Layout(|mem|, cfg)
    ensures mem' == Publish(mem, cfg, h) && SameAt(mem, mem', cfg.usedRing, UsedLen(cfg))
  {
    var idx := AvailIdx(mem, cfg);
    PublishApart(mem, cfg, idx % cfg.queueNum, h, (idx + 1) % IDX);
    mem' := Publish(mem, cfg, h);
  }

  lemma PublishKeepsUsed(mem: seq<Byte>, cfg: Config, heads: seq<nat>, h: nat)
    requires Layout(|mem|, cfg) && UsedOk(mem, cfg, heads)
    ensures UsedOk(Publish(mem, cfg, h), cfg, heads)
  {
    var mem' := PublishMissesUsed(mem, cfg, h);
    SameUsed(mem, mem', cfg);
  }

  lemma PostKeepsRings(s: Sys, head: nat)
    requires RingsOk(s) && head < IDX && IDX % s.dev.cfg.queueNum == 0
    ensures RingsOk(Apply(s, Post(head)))
  {
    PublishExtendsAvail(s.dev.mem, s.dev.cfg, s.posted, head);
    PublishKeepsUsed(s.dev.mem, s.dev.cfg, s.dev.completed, head);
  }

  lemma PostKeeps(s: Sys, head: nat)
    requires Inv(s) && StepOk(s, Post(head))
    ensures Inv(Apply(s, Post(head)))
  {
    PostKeepsRings(s, head);
    PostAccounts(s, Apply(s, Post(head)), head);
  }

  lemma PostAccounts(s: Sys, s': Sys, head: nat)
    requires Accounts(s) && Timed(s.dev) && head < IDX && |s.posted| < |s.dev.completed| + s.dev.cfg.queueNum
    requires s'.posted == s.posted + [head] && s'.dev == s.dev.(mem := s'.dev.mem)
    ensures Accounts(s') && Timed(s'.dev)
  {
    assert s'.posted[..|s.dev.consumed|] == s.posted[..|s.dev.consumed|];
  }

  lemma RingsFollow(s: Sys, mem: seq<Byte>)
    requires RingsOk(s) && SameRings(s.dev.mem, mem, s.dev.cfg)
    ensures RingsOk(s.(dev := s.dev.(mem := mem)))
  {
    SameAvail(s.dev.mem, mem, s.dev.cfg);
    SameUsed(s.dev.mem, mem, s.dev.cfg);
  }

  lemma SpliceKeepsRings(mem: seq<Byte>, cfg: Config, off: nat, bytes: seq<Byte>)
    requires Layout(|mem|, cfg) && off + |bytes| <= |mem| && ApartFromRings(cfg, MEMORY_BASE + off, |bytes|)
    ensures SameRings(mem, Splice(mem, off, bytes), cfg)
  {
    SpliceApart(mem, off, bytes, cfg.availRing - MEMORY_BASE, AvailLen(cfg));
    SpliceApart(mem, off, bytes, cfg.usedRing - MEMORY_BASE, UsedLen(cfg));
  }

  lemma GuestKeeps(s: Sys, off: nat, bytes: seq<Byte>)
    requires Inv(s) && StepOk(s, Guest(off, bytes))
    ensures Inv(Apply(s, Guest(off, bytes)))
  {
    var d := s.dev;
    if off + |bytes| <= |d.mem| {
      SpliceKeepsRings(d.mem, d.cfg, off, bytes);
      RingsFollow(s, Splice(d.mem, off, bytes));
    }
  }

  // ---- Notification: every posted request is taken, once, in order --------------------------

  /** The head read from the available ring is the next one posted. */
  lemma StartTakes(s: Sys) returns (h: nat)
    requires Inv(s) && |s.dev.consumed| < |s.posted|
    ensures h == s.posted[|s.dev.consumed|] && Started(s.dev, Start(s.dev), h)
  {
    var d, c, qn := s.dev, |s.dev.consumed|, s.dev.cfg.queueNum;
    SlotOfIndex(c, qn);
    NextIndex(c);
    h := AvailSlot(d.mem, d.cfg, c % qn);
  }

  lemma TakenCounts(consumed: seq<nat>, completed: seq<nat>, pending: seq<Op>, op: Op)
    requires multiset(consumed) == multiset(completed) + multiset(Heads(pending))
    ensures multiset(consumed + [op.head]) == multiset(completed) + multiset(Heads([op] + pending))
  {
    HeadsOfCons(op, pending);
  }

  lemma StartKeeps(s: Sys)
    requires Inv(s) && |s.dev.consumed| < |s.posted|
    ensures Inv(s.(dev := Start(s.dev)))
    ensures Start(s.dev).consumed == s.posted[..|s.dev.consumed| + 1]
  {
    var h := StartTakes(s);
    StartAccounts(s, h, Start(s.dev));
    StartTimed(s, h, Start(s.dev));
  }

  ghost predicate Started(d: Dev, d': Dev, h: nat) {
    d' == d.(pending := [Op(h, d.cycle, d.cycle + LATENCY)] + d.pending, prevAvail := (|d.consumed| + 1) % IDX,
             consumed := d.consumed + [h])
  }

  lemma StartAccounts(s: Sys, h: nat, d': Dev)
    requires Accounts(s) && |s.dev.consumed| < |s.posted| && h == s.posted[|s.dev.consumed|] && Started(s.dev, d', h)
    ensures Accounts(s.(dev := d')) && d'.consumed == s.posted[..|s.dev.consumed| + 1]
  {
    var d := s.dev;
    TakenCounts(d.consumed, d.completed, d.pending, Op(h, d.cycle, d.cycle + LATENCY));
    assert d.consumed + [h] == s.posted[..|d.consumed| + 1];
  }

  lemma StartTimed(s: Sys, h: nat, d': Dev)
    requires Timed(s.dev) && Started(s.dev, d', h)
    ensures Timed(d')
  {}

  lemma {:induction false} ConsumeKeeps(s: Sys)
    requires Inv(s)
    ensures Inv(s.(dev := Consume(s.dev, |s.posted| % IDX)))
    ensures Consume(s.dev, |s.posted| % IDX).consumed == s.posted
    decreases |s.posted| - |s.dev.consumed|
  {
    var d := s.dev;
    if d.prevAvail == |s.posted| % IDX {
      CloseIndices(|d.consumed|, |s.posted|);
    } else {
      StartKeeps(s);
      ConsumeKeeps(s.(dev := Start(d)));
    }
  }

  lemma NotifyIs(s: Sys) returns (s': Sys)
    requires Inv(s)
    ensures s' == Apply(s, Notify) && s' == s.(dev := Consume(s.dev, |s.posted| % IDX))
  {
    s' := Apply(s, Notify);
  }

  /** After a notification the device has taken exactly what the driver posted. */
  lemma NotifyTakesAll(s: Sys)
    requires Inv(s)
    ensures Inv(Apply(s, Notify))
    ensures Apply(s, Notify).dev.consumed == s.posted
  {
    var s' := NotifyIs(s);
    ConsumeKeeps(s);
  }

  // ---- Completion ---------------------------------------------------------------------------

  lemma StatusKeepsRings(mem: seq<Byte>, cfg: Config, chain: Chain) returns (mem1: seq<Byte>)
    requires Layout(|mem|, cfg) && ApartFromRings(cfg, StatusByte(chain), 1)
    ensures mem1 == PhysWrite(mem, chain.status, 0, 1) && SameRings(mem, mem1, cfg)
  {
    mem1 := PhysWrite(mem, chain.status, 0, 1);
    var a := StatusByte(chain);
    if InDram(|mem|, a, 1) {
      PhysApart(mem, a, 0, 1, cfg.availRing, AvailLen(cfg));
      PhysApart(mem, a, 0, 1, cfg.usedRing, UsedLen(cfg));
    }
  }

  lemma TransferKeepsRings(mem: seq<Byte>, cfg: Config, disk: Disk, chain: Chain)
    requires WellFormed(disk) && Layout(|mem|, cfg)
    requires HasTransfer(mem, disk, chain) ==>
      InDram(|mem|, chain.data, BSIZE) && ApartFromRings(cfg, chain.data, BSIZE)
    ensures SameRings(mem, TransferMem(mem, disk, chain), cfg)
  {
    if HasTransfer(mem, disk, chain) && RequestType(mem, chain) == T_IN {
      var bytes := ReadBlock(disk, RequestSector(mem, chain)).1;
      WriteBytesApart(mem, chain.data, bytes, cfg.availRing, AvailLen(cfg));
      WriteBytesApart(mem, chain.data, bytes, cfg.usedRing, UsedLen(cfg));
    }
  }

  lemma PushHolds(mem: seq<Byte>, cfg: Config, heads: seq<nat>, h: nat, idx: nat)
    requires Layout(|mem|, cfg) && UsedHolds(mem, cfg, heads) && h < IDX
    ensures UsedHolds(PushUsedAt(mem, cfg, |heads| % cfg.queueNum, h, idx), cfg, heads + [h])
  {
    var n, qn := |heads|, cfg.queueNum;
    var mem' := PushUsedAt(mem, cfg, n % qn, h, idx);
    forall k | 0 <= k <= n && n + 1 <= k + qn ensures UsedSlot(mem', cfg, k % qn) == (heads + [h])[k] {
      PushUsedSlot(mem, cfg, n % qn, h, idx, k % qn);
      if k < n { SlotsDistinct(k, n, qn); }
    }
  }

  lemma PushGoesTo(mem: seq<Byte>, cfg: Config, n: nat, h: nat) returns (mem': seq<Byte>)
    requires cfg.queueNum > 0 && IDX % cfg.queueNum == 0 && UsedIdx(mem, cfg) == n % IDX
    ensures mem' == PushUsed(mem, cfg, h) && mem' == PushUsedAt(mem, cfg, n % cfg.queueNum, h, (n + 1) % IDX)
  {
    SlotOfIndex(n, cfg.queueNum);
    NextIndex(n);
    mem' := PushUsed(mem, cfg, h);
  }

  lemma PushExtendsUsed(mem: seq<Byte>, cfg: Config, heads: seq<nat>, h: nat)
    requires Layout(|mem|, cfg) && UsedOk(mem, cfg, heads) && h < IDX && IDX % cfg.queueNum == 0
    ensures UsedOk(PushUsed(mem, cfg, h), cfg, heads + [h])
  {
    var mem' := PushGoesTo(mem, cfg, |heads|, h);
    PushAtExtends(mem, cfg, heads, h, mem');
  }

  lemma PushAtExtends(mem: seq<Byte>, cfg: Config, heads: seq<nat>, h: nat, mem': seq<Byte>)
    requires Layout(|mem|, cfg) && UsedOk(mem, cfg, heads) && h < IDX
    requires mem' == PushUsedAt(mem, cfg, |heads| % cfg.queueNum, h, (|heads| + 1) % IDX)
    ensures UsedOk(mem', cfg, heads + [h])
  {
    PushHolds(mem, cfg, heads, h, (|heads| + 1) % IDX);
    PushUsedIndex(mem, cfg, |heads| % cfg.queueNum, h, (|heads| + 1) % IDX);
  }

  lemma PushMissesAvail(mem: seq<Byte>, cfg: Config, h: nat) returns (mem': seq<Byte>)
    requires Layout(|mem|, cfg)
    ensures mem' == PushUsed(mem, cfg, h) && SameAt(mem, mem', cfg.availRing, AvailLen(cfg))
  {
    var idx := UsedIdx(mem, cfg);
    PushUsedApart(mem, cfg, idx % cfg.queueNum, h, (idx + 1) % IDX);
    mem' := PushUsed(mem, cfg, h);
  }

  lemma PushKeepsAvail(mem: seq<Byte>, cfg: Config, heads: seq<nat>, h: nat)
    requires Layout(|mem|, cfg) && AvailOk(mem, cfg, heads)
    ensures AvailOk(PushUsed(mem, cfg, h), cfg, heads)
  {
    var mem' := PushMissesAvail(mem, cfg, h);
    SameAvail(mem, mem', cfg);
  }

  /** A returned head extends the used ring by one element and leaves the available ring alone. */
  lemma PushKeepsRings(s: Sys, h: nat)
    requires RingsOk(s) && h < IDX && IDX % s.dev.cfg.queueNum == 0
    ensures RingsOk(s.(dev := s.dev.(mem := PushUsed(s.dev.mem, s.dev.cfg, h), completed := s.dev.completed + [h])))
  {
    PushExtendsUsed(s.dev.mem, s.dev.cfg, s.dev.completed, h);
    PushKeepsAvail(s.dev.mem, s.dev.cfg, s.posted, h);
  }

  lemma HeadsOfCons(op: Op, ops: seq<Op>)
    ensures multiset(Heads([op] + ops)) == multiset{op.head} + multiset(Heads(ops))
  {
    assert ([op] + ops)[1..] == ops;
    assert Heads([op] + ops) == [op.head] + Heads(ops);
  }

  lemma RemoveFromTail(ops: seq<Op>, i: nat)
    requires 0 < i < |ops|
    ensures Remove(ops, i) == [ops[0]] + Remove(ops[1..], i - 1)
  {}

  lemma Regroup(whole: multiset<nat>, tail: multiset<nat>, a: multiset<nat>, rest: multiset<nat>, h: multiset<nat>)
    requires whole == a + tail && tail == rest + h
    ensures whole == (a + rest) + h
  {}

  lemma HeadsOfStep(op: Op, tail: seq<Op>, less: seq<Op>, h: nat)
    requires multiset(Heads(tail)) == multiset(Heads(less)) + multiset{h}
    ensures multiset(Heads([op] + tail)) == multiset(Heads([op] + less)) + multiset{h}
  {
    HeadsOfCons(op, tail);
    HeadsOfCons(op, less);
    Regroup(multiset(Heads([op] + tail)), multiset(Heads(tail)), multiset{op.head}, multiset(Heads(less)), multiset{h});
  }

  lemma {:induction false} HeadsOfRemove(ops: seq<Op>, i: nat)
    requires i < |ops|
    ensures multiset(Heads(ops)) == multiset(Heads(Remove(ops, i))) + multiset{ops[i].head}
  {
    var op, tail := ops[0], ops[1..];
    assert ops == [op] + tail;
    if i == 0 {
      HeadsOfCons(op, tail);
      assert Remove(ops, 0) == tail;
    } else {
      HeadsOfRemove(tail, i - 1);
      RemoveFromTail(ops, i);
      HeadsOfStep(op, tail, Remove(tail, i - 1), ops[i].head);
    }
  }

  /** The heads in flight were posted, so they are 16-bit. */
  lemma PendingHeadBound(s: Sys, i: nat)
    requires Accounts(s) && i < |s.dev.pending|
    ensures s.dev.pending[i].head < IDX
  {
    var d, h := s.dev, s.dev.pending[i].head;
    HeadsOfRemove(d.pending, i);
    assert h in multiset(Heads(d.pending));
    assert h in multiset(d.consumed);
    var k :| 0 <= k < |d.consumed| && d.consumed[k] == h;
    assert s.posted[k] == h;
  }

  function CompleteAt(d: Dev, i: nat): Dev
    requires WellFormedDev(d) && i < |d.pending|
  {
    Complete(d, d.pending[i]).(pending := Remove(d.pending, i))
  }

  lemma CompleteKeepsRings(s: Sys, i: nat)
    requires RingsOk(s) && Accounts(s) && i < |s.dev.pending| && CompletesCleanly(s.dev, s.dev.pending[i])
    ensures RingsOk(s.(dev := CompleteAt(s.dev, i)))
    ensures CompleteAt(s.dev, i).completed == s.dev.completed + [s.dev.pending[i].head]
  {
    var d, op := s.dev, s.dev.pending[i];
    PendingHeadBound(s, i);
    var chain := ChainOf(d, op.head).value;
    var mem1 := StatusKeepsRings(d.mem, d.cfg, chain);
    TransferKeepsRings(mem1, d.cfg, d.disk, chain);
    var mem2 := TransferMem(mem1, d.disk, chain);
    RingsFollow(s, mem1);
    RingsFollow(s.(dev := d.(mem := mem1)), mem2);
    PushKeepsRings(s.(dev := d.(mem := mem2)), op.head);
  }

  lemma CompleteKeepsAccounts(s: Sys, i: nat)
    requires RingsOk(s) && Accounts(s) && i < |s.dev.pending| && CompletesCleanly(s.dev, s.dev.pending[i])
    ensures Accounts(s.(dev := CompleteAt(s.dev, i)))
  {
    var d, d' := s.dev, CompleteAt(s.dev, i);
    HeadsOfRemove(d.pending, i);
    assert d'.completed == d.completed + [d.pending[i].head];
  }

  // ---- Updates ------------------------------------------------------------------------------

  lemma DueKeeps(s: Sys, i: nat) returns (s': Sys)
    requires WellFormedDev(s.dev) && RingsOk(s) && Accounts(s) && i < |s.dev.pending| && UpdatesCleanly(s.dev, i)
    requires s.dev.cycle >= s.dev.pending[i].completion
    ensures RingsOk(s') && Accounts(s') && |s'.dev.pending| == |s.dev.pending| - 1
    ensures WellFormedDev(s'.dev) && UpdatesCleanly(s'.dev, i)
    ensures s.(dev := UpdateFrom(s.dev, i)) == s'.(dev := UpdateFrom(s'.dev, i))
  {
    CompleteKeepsRings(s, i);
    CompleteKeepsAccounts(s, i);
    s' := s.(dev := CompleteAt(s.dev, i));
  }

  lemma {:induction false} UpdateKeeps(s: Sys, i: nat)
    requires RingsOk(s) && Accounts(s) && i <= |s.dev.pending| && UpdatesCleanly(s.dev, i)
    ensures RingsOk(s.(dev := UpdateFrom(s.dev, i))) && Accounts(s.(dev := UpdateFrom(s.dev, i)))
    decreases |s.dev.pending| - i
  {
    var d := s.dev;
    if i < |d.pending| {
      if d.cycle >= d.pending[i].completion {
        var s' := DueKeeps(s, i);
        UpdateKeeps(s', i);
      } else {
        UpdateKeeps(s, i + 1);
      }
    }
  }

  /** The operations an update keeps, and the heads it completes, as functions of the list. */
  function Kept(ops: seq<Op>, cycle: nat, i: nat): seq<Op>
    requires i <= |ops|
    decreases |ops| - i
  {
    if i == |ops| then ops
    else if cycle >= ops[i].completion then Kept(Remove(ops, i), cycle, i)
    else Kept(ops, cycle, i + 1)
  }

  function Done(ops: seq<Op>, cycle: nat, i: nat): seq<nat>
    requires i <= |ops|
    decreases |ops| - i
  {
    if i == |ops| then []
    else if cycle >= ops[i].completion then [ops[i].head] + Done(Remove(ops, i), cycle, i)
    else Done(ops, cycle, i + 1)
  }

  /** The first due operation is completed and removed, and the update goes on from the same place. */
  lemma FirstDue(d: Dev, i: nat) returns (d': Dev)
    requires WellFormedDev(d) && i < |d.pending| && UpdatesCleanly(d, i) && d.cycle >= d.pending[i].completion
    ensures WellFormedDev(d') && d'.pending == Remove(d.pending, i) && d'.cycle == d.cycle
    ensures d'.completed == d.completed + [d.pending[i].head]
    ensures UpdatesCleanly(d', i) && UpdateFrom(d, i) == UpdateFrom(d', i)
  {
    d' := CompleteAt(d, i);
  }

  lemma NotDue(d: Dev, i: nat)
    requires WellFormedDev(d) && i < |d.pending| && UpdatesCleanly(d, i) && d.cycle < d.pending[i].completion
    ensures UpdatesCleanly(d, i + 1) && UpdateFrom(d, i) == UpdateFrom(d, i + 1)
  {}

  lemma ListStep(ops: seq<Op>, cycle: nat, i: nat)
    requires i < |ops|
    ensures Kept(ops, cycle, i) == if cycle >= ops[i].completion then Kept(Remove(ops, i), cycle, i) else Kept(ops, cycle, i + 1)
    ensures Done(ops, cycle, i) == if cycle >= ops[i].completion then [ops[i].head] + Done(Remove(ops, i), cycle, i)
                                   else Done(ops, cycle, i + 1)
  {}

  lemma {:induction false} UpdateOutcome(d: Dev, i: nat)
    requires WellFormedDev(d) && i <= |d.pending| && UpdatesCleanly(d, i)
    ensures UpdateFrom(d, i).pending == Kept(d.pending, d.cycle, i)
    ensures UpdateFrom(d, i).completed == d.completed + Done(d.pending, d.cycle, i)
    decreases |d.pending| - i
  {
    if i < |d.pending| {
      ListStep(d.pending, d.cycle, i);
      if d.cycle >= d.pending[i].completion {
        var d' := FirstDue(d, i);
        UpdateOutcome(d', i);
      } else {
        NotDue(d, i);
        UpdateOutcome(d, i + 1);
      }
    }
  }

  lemma {:induction false} SkipPrefix(ops: seq<Op>, cycle: nat, i: nat, m: nat)
    requires i <= m <= |ops| && forall j :: i <= j < m ==> cycle < ops[j].completion
    ensures Kept(ops, cycle, i) == Kept(ops, cycle, m) && Done(ops, cycle, i) == Done(ops, cycle, m)
    decreases m - i
  {
    if i < m { SkipPrefix(ops, cycle, i + 1, m); }
  }

  /** From position m on everything is due: all of it goes, in list order. */
  lemma {:induction false} TakeSuffix(ops: seq<Op>, cycle: nat, m: nat)
    requires m <= |ops| && forall j :: m <= j < |ops| ==> cycle >= ops[j].completion
    ensures Kept(ops, cycle, m) == ops[..m] && Done(ops, cycle, m) == Heads(ops[m..])
    decreases |ops| - m
  {
    if m < |ops| {
      var rest := Remove(ops, m);
      assert rest[m..] == ops[m + 1..] == ops[m..][1..] && rest[..m] == ops[..m];
      forall j | m <= j < |rest| ensures cycle >= rest[j].completion { assert rest[j] == ops[j + 1]; }
      TakeSuffix(rest, cycle, m);
    }
  }

  /** In a list sorted newest first, the operations due at a cycle form a suffix. */
  lemma {:induction false} DueIsSuffix(ops: seq<Op>, cycle: nat) returns (m: nat)
    requires forall i, j :: 0 <= i < j < |ops| ==> ops[i].completion >= ops[j].completion
    ensures m <= |ops|
    ensures forall i :: 0 <= i < m ==> cycle < ops[i].completion
    ensures forall i :: m <= i < |ops| ==> cycle >= ops[i].completion
  {
    if ops == [] || cycle < ops[|ops| - 1].completion {
      m := |ops|;
    } else {
      var init := ops[..|ops| - 1];
      m := DueIsSuffix(init, cycle);
      forall i | 0 <= i < m ensures cycle < ops[i].completion { assert ops[i] == init[i]; }
      forall i | m <= i < |init| ensures cycle >= ops[i].completion { assert ops[i] == init[i]; }
    }
  }

  /** One cycle and its update: the list splits where operations become due; exactly the suffix
      is completed and removed, and each of its operations started exactly 1000 cycles ago. */
  lemma TickIsExact(s: Sys) returns (m: nat)
    requires Inv(s) && StepOk(s, Tick)
    ensures m <= |s.dev.pending|
    ensures Apply(s, Tick).dev.pending == s.dev.pending[..m]
    ensures Apply(s, Tick).dev.completed == s.dev.completed + Heads(s.dev.pending[m..])
    ensures forall i :: 0 <= i < m ==> s.dev.cycle + 1 < s.dev.pending[i].completion
    ensures forall i :: m <= i < |s.dev.pending| ==>
      s.dev.cycle + 1 == s.dev.pending[i].completion == s.dev.pending[i].start + LATENCY
  {
    m := DueIsSuffix(s.dev.pending, s.dev.cycle + 1);
    SplitUpdate(s.dev.(cycle := s.dev.cycle + 1), m);
  }

  lemma SplitUpdate(d: Dev, m: nat)
    requires WellFormedDev(d) && m <= |d.pending| && UpdatesCleanly(d, 0)
    requires forall i :: 0 <= i < m ==> d.cycle < d.pending[i].completion
    requires forall i :: m <= i < |d.pending| ==> d.cycle >= d.pending[i].completion
    ensures UpdateFrom(d, 0).pending == d.pending[..m]
    ensures UpdateFrom(d, 0).completed == d.completed + Heads(d.pending[m..])
  {
    UpdateOutcome(d, 0);
    SkipPrefix(d.pending, d.cycle, 0, m);
    TakeSuffix(d.pending, d.cycle, m);
  }

  lemma UpdateKeepsClock(d: Dev)
    requires WellFormedDev(d)
    ensures UpdateFrom(d, 0).cycle == d.cycle
  {}

  lemma TickKeepsTimes(s: Sys)
    requires Inv(s) && StepOk(s, Tick)
    ensures Timed(Apply(s, Tick).dev)
  {
    var m := TickIsExact(s);
    UpdateKeepsClock(s.dev.(cycle := s.dev.cycle + 1));
    var after := Apply(s, Tick).dev;
    assert forall i :: 0 <= i < m ==> after.pending[i] == s.dev.pending[i];
  }

  lemma CycleKeeps(s: Sys) returns (s1: Sys)
    requires Inv(s) && StepOk(s, Tick)
    ensures RingsOk(s1) && Accounts(s1) && WellFormedDev(s1.dev) && UpdatesCleanly(s1.dev, 0)
    ensures Apply(s, Tick) == s1.(dev := UpdateFrom(s1.dev, 0))
  {
    s1 := s.(dev := s.dev.(cycle := s.dev.cycle + 1));
  }

  lemma TickKeepsRings(s: Sys)
    requires Inv(s) && StepOk(s, Tick)
    ensures RingsOk(Apply(s, Tick)) && Accounts(Apply(s, Tick))
  {
    var s1 := CycleKeeps(s);
    UpdateKeeps(s1, 0);
  }

  lemma TickKeeps(s: Sys)
    requires Inv(s) && StepOk(s, Tick)
    ensures Inv(Apply(s, Tick))
  {
    TickKeepsTimes(s);
    TickKeepsRings(s);
  }

  // ---- Runs ---------------------------------------------------------------------------------

  lemma StepKeeps(s: Sys, step: Step)
    requires Inv(s) && StepOk(s, step)
    ensures Inv(Apply(s, step))
  {
    match step
    case Post(head) => PostKeeps(s, head);
    case Guest(off, bytes) => GuestKeeps(s, off, bytes);
    case Hart(mapping) =>
    case Notify => NotifyTakesAll(s);
    case Tick => TickKeeps(s);
  }

  /** A run: every state follows from the one before by an acceptable step. */
  ghost predicate IsRun(states: seq<Sys>, steps: seq<Step>) {
    |states| == |steps| + 1 && forall i :: 0 <= i < |steps| ==> StepAt(states, steps, i)
  }

  ghost predicate StepAt(states: seq<Sys>, steps: seq<Step>, i: nat)
    requires i < |steps| < |states|
  {
    WellFormedDev(states[i].dev) && StepOk(states[i], steps[i]) && states[i + 1] == Apply(states[i], steps[i])
  }

  /** A device just set up: empty rings, nothing in flight. */
  ghost predicate Initial(s: Sys) {
    var d := s.dev;
    && WellFormedDev(d) && Layout(|d.mem|, d.cfg) && d.cfg.queueNum < IDX && IDX % d.cfg.queueNum == 0 && d.ready
    && AvailIdx(d.mem, d.cfg) == 0 && UsedIdx(d.mem, d.cfg) == 0 && d.prevAvail == 0
    && d.pending == [] && d.consumed == [] && d.completed == [] && s.posted == []
  }

  lemma {:induction false} InvAlongRuns(states: seq<Sys>, steps: seq<Step>, n: nat)
    requires IsRun(states, steps) && Initial(states[0]) && n <= |steps|
    ensures Inv(states[n])
  {
    if n > 0 {
      InvAlongRuns(states, steps, n - 1);
      assert StepAt(states, steps, n - 1);
      StepKeeps(states[n - 1], steps[n - 1]);
    }
  }

  /** Latency along runs: a cycle of a run completes and removes a suffix of the operations in
      flight, namely those that started exactly 1000 cycles before, and no other. */
  lemma CompletesOnTime(states: seq<Sys>, steps: seq<Step>, n: nat) returns (m: nat)
    requires IsRun(states, steps) && Initial(states[0]) && n < |steps| && steps[n].Tick?
    ensures m <= |states[n].dev.pending| && states[n + 1].dev.pending == states[n].dev.pending[..m]
    ensures states[n + 1].dev.completed == states[n].dev.completed + Heads(states[n].dev.pending[m..])
    ensures states[n + 1].dev.cycle == states[n].dev.cycle + 1
    ensures forall i :: 0 <= i < |states[n].dev.pending| ==>
      (i >= m <==> states[n + 1].dev.cycle == states[n].dev.pending[i].start + LATENCY)
  {
    InvAlongRuns(states, steps, n);
    assert StepAt(states, steps, n);
    m := TickIsExact(states[n]);
  }

  lemma IndexSum(a: nat, b: nat)
    ensures (a % IDX + b) % IDX == (a + b) % IDX
  {}

  lemma AccountingOf(s: Sys)
    requires Inv(s)
    ensures var d := s.dev;
      && (UsedIdx(d.mem, d.cfg) + |d.pending|) % IDX == d.prevAvail
      && d.consumed <= s.posted
      && multiset(d.consumed) == multiset(d.completed) + multiset(Heads(d.pending))
  {
    IndexSum(|s.dev.completed|, |s.dev.pending|);
  }

  /** Exactly-once accounting over runs, across any number of index wraps: the used index plus the
      operations in flight is the consumed index modulo 65536; what was taken from the available
      ring is, in order, what the driver posted first; and as multisets it is what went into the
      used ring plus what is in flight. */
  lemma ExactlyOnce(states: seq<Sys>, steps: seq<Step>, n: nat)
    requires IsRun(states, steps) && Initial(states[0]) && n <= |steps|
    ensures var d := states[n].dev;
      && (UsedIdx(d.mem, d.cfg) + |d.pending|) % IDX == d.prevAvail
      && d.consumed <= states[n].posted
      && multiset(d.consumed) == multiset(d.completed) + multiset(Heads(d.pending))
  {
    InvAlongRuns(states, steps, n);
    AccountingOf(states[n]);
  }

  /** What the driver finds in the used ring: the last queueNum completed heads, in their slots. */
  lemma UsedRingIsHistory(states: seq<Sys>, steps: seq<Step>, n: nat, k: nat)
    requires IsRun(states, steps) && Initial(states[0]) && n <= |steps|
    requires k < |states[n].dev.completed| <= k + states[n].dev.cfg.queueNum
    ensures var d := states[n].dev; UsedSlot(d.mem, d.cfg, k % d.cfg.queueNum) == d.completed[k]
  {
    InvAlongRuns(states, steps, n);
  }
}
