/** Descriptor addresses pass through `get_pa` when an operation completes: what that does to a
    request, and exactly when it does nothing. */
module VirtioChain {
  import opened Options
  import opened Bytes
  import opened Memory
  import opened DiskModel
  import opened Sv39
  import opened TlbModel
  import opened MmuRuns
  import opened VirtioModel

  /** The chain with its addresses taken as physical, as the VIRTIO standard has it. */
  function RawChain(d: Dev, head: nat): Option<Chain> {
    match TrailOf(d, head)
    case None => None
    case Some(items) => Some(ToChain(Pick(items, Addrs(items), 0, 0)))
  }

  // ---- When translation does nothing -------------------------------------------------------------

  /** A descriptor's address and what `get_pa` made of it. */
  datatype Buffer = Buffer(raw: nat, got: nat)

  function Zip(raw: seq<nat>, got: seq<nat>): (bs: seq<Buffer>)
    requires |raw| == |got|
    ensures |bs| == |raw| && forall k :: 0 <= k < |raw| ==> bs[k] == Buffer(raw[k], got[k])
  {
    if raw == [] then [] else [Buffer(raw[0], got[0])] + Zip(raw[1..], got[1..])
  }

  lemma {:induction false} PickBoth(items: seq<Item>, raw: seq<nat>, got: seq<nat>, req: Buffer, data: Buffer)
    requires |items| == |raw| == |got| > 0
    ensures var p := Pick(items, Zip(raw, got), req, data);
            && Pick(items, raw, req.raw, data.raw) == Picked(p.req.raw, p.data.raw, p.status.raw)
            && Pick(items, got, req.got, data.got) == Picked(p.req.got, p.data.got, p.status.got)
    decreases |items|
  {
    if |items| > 1 {
      var b := Buffer(raw[0], got[0]);
      PickBoth(items[1..], raw[1..], got[1..], if items[0].first then b else req, if !items[0].first then b else data);
    }
  }

  lemma {:induction false} PickAll<T>(items: seq<Item>, xs: seq<T>, req: T, data: T, good: T -> bool)
    requires |items| == |xs| > 0 && forall k :: 0 <= k < |xs| ==> good(xs[k])
    requires items[0].first || good(req)
    ensures var p := Pick(items, xs, req, data);
            good(p.req) && good(p.status) && (good(p.data) || p.data == data)
    decreases |items|
  {
    if |items| > 1 {
      PickAll(items[1..], xs[1..], if items[0].first then xs[0] else req, if !items[0].first then xs[0] else data, good);
    }
  }

  /** The buffers of a request, each with both addresses; (0, 0) for a missing data buffer. */
  function BuffersOf(d: Dev, items: seq<Item>): Picked<Buffer>
    requires items != []
  {
    Pick(items, Zip(Addrs(items), Answers(MmuOf(d.mem, d.mapping), Addrs(items))), Buffer(0, 0), Buffer(0, 0))
  }

  /** The completion works on the buffers the descriptors name if and only if the request, data and
      status addresses translate to themselves. */
  lemma IdentityIff(d: Dev, head: nat) returns (b: Picked<Buffer>)
    requires ChainOf(d, head).Some?
    ensures TrailOf(d, head).Some? && b == BuffersOf(d, TrailOf(d, head).value)
    ensures RawChain(d, head) == Some(Chain(b.req.raw, b.data.raw, b.status.raw))
    ensures ChainOf(d, head) == Some(Chain(b.req.got, b.data.got, b.status.got))
    ensures ChainOf(d, head) == RawChain(d, head)
            <==> b.req.got == b.req.raw && b.data.got == b.data.raw && b.status.got == b.status.raw
  {
    WalkedIs(d, head);
    var items := TrailOf(d, head).value;
    PickBoth(items, Addrs(items), Answers(MmuOf(d.mem, d.mapping), Addrs(items)), Buffer(0, 0), Buffer(0, 0));
    b := BuffersOf(d, items);
  }

  // ---- What the page tables make of the addresses ------------------------------------------------

  function ByTables(mem: seq<Byte>, satp: nat, m: Mode, va: nat): nat {
    AnswerOf(Walk(mem, satp, m, va, Load))
  }

  /** The address lies in the lower half of the address space and is mapped, if at all, by a 4 KiB page. */
  predicate OnPage(mem: seq<Byte>, satp: nat, va: nat) {
    && !UpperHalf(va)
    && var leaf := MapOf(mem, satp, Vpn(va)); (leaf.Some? ==> leaf.value.level == 0)
  }

  /** A TLB filled from the lower half that agrees with the page tables. */
  predicate Settled(s: MmuState) {
    Coherent(s, {}) && |s.mem| % PAGE == 0 && !s.mode.sum
  }

  lemma SettledAnswer(s: MmuState, va: nat) returns (s': MmuState)
    requires Settled(s) && OnPage(s.mem, s.satp, va)
    ensures s' == Translate(s, va, Load).0 && s' == s.(lines := s'.lines) && Settled(s')
    ensures AnswerOf(Translate(s, va, Load).1) == ByTables(s.mem, s.satp, s.mode, va)
  {
    AgreesIff(s, {}, va, Load);
    if Cached(s.lines, TagVpn(va)) { HomeIsOwn(s, {}, va); }
    TranslateKeeps(s, {}, va, Load);
    OnlyLines(s, va, Load);
    assert NextUpper(s, {}, Step.Access(va, Load)) == {};
    s' := Translate(s, va, Load).0;
  }

  function AllByTables(mem: seq<Byte>, satp: nat, m: Mode, addrs: seq<nat>): (got: seq<nat>)
    ensures |got| == |addrs| && forall k :: 0 <= k < |addrs| ==> got[k] == ByTables(mem, satp, m, addrs[k])
  {
    if addrs == [] then [] else [ByTables(mem, satp, m, addrs[0])] + AllByTables(mem, satp, m, addrs[1..])
  }

  lemma {:induction false} AnswersByTables(s: MmuState, addrs: seq<nat>)
    requires Settled(s) && forall k :: 0 <= k < |addrs| ==> OnPage(s.mem, s.satp, addrs[k])
    ensures Answers(s, addrs) == AllByTables(s.mem, s.satp, s.mode, addrs)
    decreases |addrs|
  {
    if addrs != [] {
      var s' := SettledAnswer(s, addrs[0]);
      AnswersByTables(s', addrs[1..]);
    }
  }

  /** With a settled TLB and the descriptors on 4 KiB pages, the completion works on the buffers the
      descriptors name if and only if the page tables map the request, the status and the data
      address, where there is one, to themselves. */
  lemma IdentityIffMapped(d: Dev, head: nat) returns (b: Picked<Buffer>)
    requires ChainOf(d, head).Some? && Settled(MmuOf(d.mem, d.mapping))
    requires TrailOf(d, head).Some? ==>
      forall item :: item in TrailOf(d, head).value ==> OnPage(d.mem, d.mapping.satp, item.addr)
    ensures RawChain(d, head) == Some(Chain(b.req.raw, b.data.raw, b.status.raw))
    ensures var satp, m := d.mapping.satp, d.mapping.mode;
            ChainOf(d, head) == RawChain(d, head)
            <==> && ByTables(d.mem, satp, m, b.req.raw) == b.req.raw
                 && ByTables(d.mem, satp, m, b.status.raw) == b.status.raw
                 && (b.data == Buffer(0, 0) || ByTables(d.mem, satp, m, b.data.raw) == b.data.raw)
  {
    b := IdentityIff(d, head);
    BuffersByTables(d, TrailOf(d, head).value);
  }

  lemma BuffersByTables(d: Dev, items: seq<Item>)
    requires items != [] && items[0].first && Settled(MmuOf(d.mem, d.mapping))
    requires forall item :: item in items ==> OnPage(d.mem, d.mapping.satp, item.addr)
    ensures var b, satp, m := BuffersOf(d, items), d.mapping.satp, d.mapping.mode;
            && b.req.got == ByTables(d.mem, satp, m, b.req.raw)
            && b.status.got == ByTables(d.mem, satp, m, b.status.raw)
            && (b.data.got == ByTables(d.mem, satp, m, b.data.raw) || b.data == Buffer(0, 0))
  {
    var s, addrs := MmuOf(d.mem, d.mapping), Addrs(items);
    forall k | 0 <= k < |addrs| ensures OnPage(s.mem, s.satp, addrs[k]) { assert items[k] in items; }
    AnswersByTables(s, addrs);
    PickAll(items, Zip(addrs, Answers(s, addrs)), Buffer(0, 0), Buffer(0, 0),
            (b: Buffer) => b.got == ByTables(s.mem, s.satp, s.mode, b.raw));
  }

  /** With translation off the addresses are taken as they are and the TLB is left alone. */
  lemma {:induction false} OffAnswers(s: MmuState, addrs: seq<nat>)
    requires SatpMode(s.satp) == 0
    ensures Answers(s, addrs) == addrs && LinesAfter(s, addrs) == s.lines
    decreases |addrs|
  {
    if addrs != [] { OffAnswers(s, addrs[1..]); }
  }

  lemma OffIsIdentity(d: Dev, head: nat)
    requires SatpMode(d.mapping.satp) == 0
    ensures ChainOf(d, head) == RawChain(d, head)
    ensures Walked(d, head).Ended? ==> Walked(d, head).lines == d.mapping.lines
  {
    WalkedIs(d, head);
    if TrailOf(d, head).Some? { OffAnswers(MmuOf(d.mem, d.mapping), Addrs(TrailOf(d, head).value)); }
  }

  // ---- When the addresses fault ----------------------------------------------------------------

  /** Every address faults, in turn. */
  predicate AllFault(s: MmuState, addrs: seq<nat>)
    decreases |addrs|
  {
    addrs != [] ==>
      Translate(s, addrs[0], Load).1 == PageFault && AllFault(Translate(s, addrs[0], Load).0, addrs[1..])
  }

  lemma {:induction false} FaultsAnswerZero(s: MmuState, addrs: seq<nat>)
    requires AllFault(s, addrs)
    ensures forall k :: 0 <= k < |addrs| ==> Answers(s, addrs)[k] == 0
    decreases |addrs|
  {
    if addrs != [] { FaultsAnswerZero(Translate(s, addrs[0], Load).0, addrs[1..]); }
  }

  lemma FaultedChain(d: Dev, head: nat)
    requires TrailOf(d, head).Some? && AllFault(MmuOf(d.mem, d.mapping), Addrs(TrailOf(d, head).value))
    ensures ChainOf(d, head) == Some(Chain(0, 0, 0))
  {
    WalkedIs(d, head);
    var s, items := MmuOf(d.mem, d.mapping), TrailOf(d, head).value;
    FaultsAnswerZero(s, Addrs(items));
    PickAll(items, Answers(s, Addrs(items)), 0, 0, (got: nat) => got == 0);
  }

  lemma ZeroCompletion(d: Dev, op: Op)
    requires WellFormedDev(d) && |d.mem| > 0 && ChainOf(d, op.head) == Some(Chain(0, 0, 0))
    ensures Complete(d, op).mem == PushUsed(d.mem[0 := 0], d.cfg, op.head)
    ensures Complete(d, op).disk == d.disk
    ensures Complete(d, op).completed == d.completed + [op.head] && Complete(d, op).interrupt
  {
    assert LeBytes(0, 1) == [0];
    assert PhysWrite(d.mem, 0, 0, 1) == d.mem[0 := 0];
  }

  /** A request whose addresses all fault: the first byte of DRAM is cleared, no block moves, and yet
      the request counts as done. */
  lemma FaultedCompletion(d: Dev, op: Op)
    requires WellFormedDev(d) && |d.mem| > 0
    requires TrailOf(d, op.head).Some? && AllFault(MmuOf(d.mem, d.mapping), Addrs(TrailOf(d, op.head).value))
    ensures Complete(d, op).mem == PushUsed(d.mem[0 := 0], d.cfg, op.head)
    ensures Complete(d, op).disk == d.disk
    ensures Complete(d, op).completed == d.completed + [op.head] && Complete(d, op).interrupt
  {
    FaultedChain(d, op.head);
    ZeroCompletion(d, op);
  }

  predicate Unmapped(s: MmuState, va: nat) {
    !UpperHalf(va) && MapOf(s.mem, s.satp, Vpn(va)) == None
  }

  lemma UnmappedFault(s: MmuState, va: nat) returns (s': MmuState)
    requires Settled(s) && SatpMode(s.satp) == 8 && Unmapped(s, va)
    ensures s' == Translate(s, va, Load).0 && Translate(s, va, Load).1 == PageFault
    ensures s' == s.(lines := s'.lines) && Settled(s')
  {
    AgreesIff(s, {}, va, Load);
    if Cached(s.lines, TagVpn(va)) { HomeIsOwn(s, {}, va); }
    s' := SettledAnswer(s, va);
  }

  /** They all fault when a settled TLB runs under page tables that map none of them. */
  lemma {:induction false} UnmappedAllFault(s: MmuState, addrs: seq<nat>)
    requires Settled(s) && SatpMode(s.satp) == 8 && forall k :: 0 <= k < |addrs| ==> Unmapped(s, addrs[k])
    ensures AllFault(s, addrs)
    decreases |addrs|
  {
    if addrs != [] {
      var s' := UnmappedFault(s, addrs[0]);
      forall k | 0 <= k < |addrs[1..]| ensures Unmapped(s', addrs[1..][k]) { assert Unmapped(s, addrs[k + 1]); }
      UnmappedAllFault(s', addrs[1..]);
    }
  }
}
