/** The two rings as the driver and the device see them in DRAM, and what the device's writes do
    to them. */
module VirtioRings {
  import opened Bytes
  import opened Memory
  import opened VirtioModel

  /** Both rings lie in DRAM, apart from each other. */
  predicate Layout(size: nat, cfg: Config) {
    && cfg.queueNum > 0
    && MEMORY_BASE <= cfg.availRing && MEMORY_BASE <= cfg.usedRing
    && cfg.availRing + AvailLen(cfg) <= MEMORY_BASE + size
    && cfg.usedRing + UsedLen(cfg) <= MEMORY_BASE + size
    && Apart(cfg.availRing, AvailLen(cfg), cfg.usedRing, UsedLen(cfg))
  }

  function AvailLen(cfg: Config): nat { 4 + 2 * cfg.queueNum }

  function UsedLen(cfg: Config): nat { 4 + 8 * cfg.queueNum }

  function AvailSlot(mem: seq<Byte>, cfg: Config, i: nat): nat {
    DramRead(mem, AvailEntry(cfg, i), 2)
  }

  function UsedSlot(mem: seq<Byte>, cfg: Config, i: nat): nat {
    DramRead(mem, UsedElem(cfg, i), 2)
  }

  /** In DRAM the direct helpers and the bus agree. */
  lemma PhysIsDram(mem: seq<Byte>, addr: nat, v: nat, n: nat)
    requires InDram(|mem|, addr, n) && n > 0
    ensures PhysRead(mem, addr, n) == DramRead(mem, addr, n) == LeValue(mem[addr - MEMORY_BASE..addr - MEMORY_BASE + n])
    ensures PhysWrite(mem, addr, v, n) == DramWrite(mem, addr, v, n) == Splice(mem, addr - MEMORY_BASE, LeBytes(v, n))
  {
    LeAtIsValue(mem, addr - MEMORY_BASE, n);
  }

  lemma WriteThenRead(mem: seq<Byte>, addr: nat, v: nat, n: nat)
    requires InDram(|mem|, addr, n) && n > 0
    ensures DramRead(DramWrite(mem, addr, v, n), addr, n) == v % Pow256(n)
  {
    SpliceSame(mem, addr - MEMORY_BASE, LeBytes(v, n));
    LeAtIsValue(DramWrite(mem, addr, v, n), addr - MEMORY_BASE, n);
    LeRoundTrip(v, n);
  }

  /** The two memories hold the same bytes at a..a + n. */
  predicate SameAt(mem: seq<Byte>, mem': seq<Byte>, a: nat, n: nat) {
    && |mem| == |mem'| && InDram(|mem|, a, n)
    && mem[a - MEMORY_BASE..a - MEMORY_BASE + n] == mem'[a - MEMORY_BASE..a - MEMORY_BASE + n]
  }

  lemma SubSlice(m: seq<Byte>, o: nat, n: nat, i: nat, k: nat)
    requires o + n <= |m| && i + k <= n
    ensures m[o..o + n][i..i + k] == m[o + i..o + i + k]
  {
    var whole := m[o..o + n];
    var part, direct := whole[i..i + k], m[o + i..o + i + k];
    forall j | 0 <= j < |part| ensures part[j] == direct[j] {
      assert whole[i + j] == m[o + i + j];
    }
  }

  lemma SameRead(mem: seq<Byte>, mem': seq<Byte>, a: nat, n: nat, b: nat, k: nat)
    requires SameAt(mem, mem', a, n) && a <= b && b + k <= a + n && k > 0
    ensures DramRead(mem, b, k) == DramRead(mem', b, k)
  {
    SubSlice(mem, a - MEMORY_BASE, n, b - a, k);
    SubSlice(mem', a - MEMORY_BASE, n, b - a, k);
    LeAtIsValue(mem, b - MEMORY_BASE, k);
    LeAtIsValue(mem', b - MEMORY_BASE, k);
  }

  lemma WriteApart(mem: seq<Byte>, addr: nat, v: nat, n: nat, a: nat, k: nat)
    requires InDram(|mem|, addr, n) && n > 0 && InDram(|mem|, a, k) && Apart(addr, n, a, k)
    ensures SameAt(mem, DramWrite(mem, addr, v, n), a, k)
  {
    SpliceApart(mem, addr - MEMORY_BASE, LeBytes(v, n), a - MEMORY_BASE, k);
  }

  /** Writing a buffer byte by byte leaves everything apart from it alone. */
  lemma {:induction false} WriteBytesApart(mem: seq<Byte>, addr: nat, bs: seq<Byte>, a: nat, k: nat)
    requires InDram(|mem|, addr, |bs|) && InDram(|mem|, a, k) && Apart(addr, |bs|, a, k)
    ensures SameAt(mem, WriteBytes(mem, addr, bs), a, k)
  {
    if bs != [] {
      var init := bs[..|bs| - 1];
      WriteBytesApart(mem, addr, init, a, k);
      WriteApart(WriteBytes(mem, addr, init), addr + |bs| - 1, bs[|bs| - 1], 1, a, k);
    }
  }

  /** Both rings are as they were. */
  predicate SameRings(mem: seq<Byte>, mem': seq<Byte>, cfg: Config) {
    && SameAt(mem, mem', cfg.availRing, AvailLen(cfg))
    && SameAt(mem, mem', cfg.usedRing, UsedLen(cfg))
  }

  /** A read goes through a write elsewhere. */
  lemma ReadThrough(mem: seq<Byte>, addr: nat, v: nat, n: nat, b: nat, k: nat)
    requires InDram(|mem|, addr, n) && InDram(|mem|, b, k) && n > 0 && k > 0 && Apart(addr, n, b, k)
    ensures DramRead(DramWrite(mem, addr, v, n), b, k) == DramRead(mem, b, k)
  {
    WriteApart(mem, addr, v, n, b, k);
    SameRead(mem, DramWrite(mem, addr, v, n), b, k, b, k);
  }

  lemma SamePhys(mem: seq<Byte>, mem': seq<Byte>, a: nat, n: nat, b: nat, k: nat)
    requires SameAt(mem, mem', a, n) && a <= b && b + k <= a + n && k > 0
    ensures PhysRead(mem, b, k) == PhysRead(mem', b, k)
  {
    SameRead(mem, mem', a, n, b, k);
    PhysIsDram(mem, b, 0, k);
    PhysIsDram(mem', b, 0, k);
  }

  lemma SameAvail(mem: seq<Byte>, mem': seq<Byte>, cfg: Config)
    requires Layout(|mem|, cfg) && SameAt(mem, mem', cfg.availRing, AvailLen(cfg))
    ensures AvailIdx(mem, cfg) == AvailIdx(mem', cfg)
    ensures forall i :: 0 <= i < cfg.queueNum ==> AvailSlot(mem, cfg, i) == AvailSlot(mem', cfg, i)
  {
    SamePhys(mem, mem', cfg.availRing, AvailLen(cfg), cfg.availRing + 2, 2);
    forall i | 0 <= i < cfg.queueNum ensures AvailSlot(mem, cfg, i) == AvailSlot(mem', cfg, i) {
      SameRead(mem, mem', cfg.availRing, AvailLen(cfg), AvailEntry(cfg, i), 2);
    }
  }

  lemma SameUsed(mem: seq<Byte>, mem': seq<Byte>, cfg: Config)
    requires Layout(|mem|, cfg) && SameAt(mem, mem', cfg.usedRing, UsedLen(cfg))
    ensures UsedIdx(mem, cfg) == UsedIdx(mem', cfg)
    ensures forall i :: 0 <= i < cfg.queueNum ==> UsedSlot(mem, cfg, i) == UsedSlot(mem', cfg, i)
  {
    SamePhys(mem, mem', cfg.usedRing, UsedLen(cfg), cfg.usedRing + 2, 2);
    forall i | 0 <= i < cfg.queueNum ensures UsedSlot(mem, cfg, i) == UsedSlot(mem', cfg, i) {
      SameRead(mem, mem', cfg.usedRing, UsedLen(cfg), UsedElem(cfg, i), 2);
    }
  }

  // ---- The driver's publication and the device's return of a head ---------------------------

  /** An entry at `entry`, then the index at `at`. */
  function PostAt(mem: seq<Byte>, entry: nat, head: nat, at: nat, idx: nat): (mem': seq<Byte>)
    ensures |mem'| == |mem|
  {
    DramWrite(DramWrite(mem, entry, head, 2), at, idx, 2)
  }

  function PublishAt(mem: seq<Byte>, cfg: Config, slot: nat, head: nat, idx: nat): (mem': seq<Byte>)
    ensures |mem'| == |mem|
  {
    PostAt(mem, AvailEntry(cfg, slot), head, cfg.availRing + 2, idx)
  }

  /** The driver puts a head into the slot its index selects and advances the index. */
  function Publish(mem: seq<Byte>, cfg: Config, head: nat): (mem': seq<Byte>)
    requires cfg.queueNum > 0
    ensures |mem'| == |mem|
  {
    var idx := AvailIdx(mem, cfg);
    PublishAt(mem, cfg, idx % cfg.queueNum, head, (idx + 1) % IDX)
  }

  lemma TwoBytes(v: nat)
    requires v < IDX
    ensures v % Pow256(2) == v
  {
    assert Pow256(2) == IDX;
  }

  /** A 16-bit value written at `a` and an index written at `b`, read back at slot `c`. */
  lemma TwoWrites(mem: seq<Byte>, a: nat, v: nat, b: nat, idx: nat, c: nat)
    requires InDram(|mem|, a, 2) && InDram(|mem|, b, 2) && InDram(|mem|, c, 2) && v < IDX
    requires Apart(b, 2, c, 2) && (c == a || Apart(a, 2, c, 2))
    ensures DramRead(PostAt(mem, a, v, b, idx), c, 2) == if c == a then v else DramRead(mem, c, 2)
  {
    var mem1 := DramWrite(mem, a, v, 2);
    ReadThrough(mem1, b, idx, 2, c, 2);
    assert DramRead(mem1, c, 2) == if c == a then v else DramRead(mem, c, 2) by {
      if c == a {
        WriteThenRead(mem, a, v, 2);
        TwoBytes(v);
      } else {
        ReadThrough(mem, a, v, 2, c, 2);
      }
    }
  }

  /** The direct helper inside DRAM: it changes nothing apart from its target, which it sets. */
  lemma PhysApart(mem: seq<Byte>, addr: nat, v: nat, n: nat, a: nat, k: nat)
    requires InDram(|mem|, addr, n) && n > 0 && InDram(|mem|, a, k) && Apart(addr, n, a, k)
    ensures SameAt(mem, PhysWrite(mem, addr, v, n), a, k)
  {
    PhysIsDram(mem, addr, v, n);
    WriteApart(mem, addr, v, n, a, k);
  }

  lemma PhysThrough(mem: seq<Byte>, addr: nat, v: nat, n: nat, b: nat, k: nat)
    requires InDram(|mem|, addr, n) && InDram(|mem|, b, k) && n > 0 && k > 0 && Apart(addr, n, b, k)
    ensures DramRead(PhysWrite(mem, addr, v, n), b, k) == DramRead(mem, b, k)
  {
    PhysIsDram(mem, addr, v, n);
    ReadThrough(mem, addr, v, n, b, k);
  }

  lemma PhysSets(mem: seq<Byte>, addr: nat, v: nat)
    requires InDram(|mem|, addr, 2) && v < IDX
    ensures DramRead(PhysWrite(mem, addr, v, 2), addr, 2) == v
    ensures PhysRead(PhysWrite(mem, addr, v, 2), addr, 2) == v
  {
    PhysIsDram(mem, addr, v, 2);
    WriteThenRead(mem, addr, v, 2);
    TwoBytes(v);
    PhysIsDram(PhysWrite(mem, addr, v, 2), addr, 0, 2);
  }

  /** A used element's id at `a`, its length behind it and the index at `b`, read at slot `c`. */
  lemma ThreeWrites(mem: seq<Byte>, a: nat, v: nat, b: nat, idx: nat, c: nat)
    requires InDram(|mem|, a, 8) && InDram(|mem|, b, 2) && InDram(|mem|, c, 2) && v < IDX
    requires Apart(b, 2, c, 2) && (c == a || Apart(a, 8, c, 2))
    ensures DramRead(PushAt(mem, a, v, b, idx), c, 2) == if c == a then v else DramRead(mem, c, 2)
  {
    ElemParts(|mem|, a, c);
    var mem1 := FirstWrite(mem, a, v, c);
    var mem2 := Beside(mem1, a + 4, 512, 4, c);
    var mem3 := Beside(mem2, b, idx, 2, c);
  }

  lemma ElemParts(size: nat, a: nat, c: nat)
    requires InDram(size, a, 8) && (c == a || Apart(a, 8, c, 2))
    ensures InDram(size, a, 2) && InDram(size, a + 4, 4)
    ensures Apart(a + 4, 4, c, 2) && (c == a || Apart(a, 2, c, 2))
  {}

  lemma FirstWrite(mem: seq<Byte>, a: nat, v: nat, c: nat) returns (mem': seq<Byte>)
    requires InDram(|mem|, a, 2) && InDram(|mem|, c, 2) && v < IDX && (c == a || Apart(a, 2, c, 2))
    ensures mem' == PhysWrite(mem, a, v, 2) && |mem'| == |mem|
    ensures DramRead(mem', c, 2) == if c == a then v else DramRead(mem, c, 2)
  {
    mem' := PhysWrite(mem, a, v, 2);
    if c == a { PhysSets(mem, a, v); } else { PhysThrough(mem, a, v, 2, c, 2); }
  }

  lemma Beside(mem: seq<Byte>, addr: nat, v: nat, n: nat, c: nat) returns (mem': seq<Byte>)
    requires InDram(|mem|, addr, n) && InDram(|mem|, c, 2) && n > 0 && Apart(addr, n, c, 2)
    ensures mem' == PhysWrite(mem, addr, v, n) && |mem'| == |mem| && DramRead(mem', c, 2) == DramRead(mem, c, 2)
  {
    mem' := PhysWrite(mem, addr, v, n);
    PhysThrough(mem, addr, v, n, c, 2);
  }

  lemma IndexWrite(mem: seq<Byte>, addr: nat, idx: nat)
    requires InDram(|mem|, addr, 2) && idx < IDX
    ensures PhysRead(DramWrite(mem, addr, idx, 2), addr, 2) == idx
  {
    WriteThenRead(mem, addr, idx, 2);
    TwoBytes(idx);
    PhysIsDram(DramWrite(mem, addr, idx, 2), addr, 0, 2);
  }

  lemma SameTrans(mem: seq<Byte>, mem': seq<Byte>, mem'': seq<Byte>, a: nat, n: nat)
    requires SameAt(mem, mem', a, n) && SameAt(mem', mem'', a, n)
    ensures SameAt(mem, mem'', a, n)
  {}

  lemma TwoWritesApart(mem: seq<Byte>, a: nat, v: nat, b: nat, idx: nat, r: nat, k: nat)
    requires InDram(|mem|, a, 2) && InDram(|mem|, b, 2) && InDram(|mem|, r, k)
    requires Apart(a, 2, r, k) && Apart(b, 2, r, k)
    ensures SameAt(mem, PostAt(mem, a, v, b, idx), r, k)
  {
    var mem1 := DramWrite(mem, a, v, 2);
    WriteApart(mem, a, v, 2, r, k);
    WriteApart(mem1, b, idx, 2, r, k);
    SameTrans(mem, mem1, DramWrite(mem1, b, idx, 2), r, k);
  }

  lemma ThreeWritesApart(mem: seq<Byte>, a: nat, v: nat, b: nat, idx: nat, r: nat, k: nat)
    requires InDram(|mem|, a, 8) && InDram(|mem|, b, 2) && InDram(|mem|, r, k)
    requires Apart(a, 8, r, k) && Apart(b, 2, r, k)
    ensures SameAt(mem, PushAt(mem, a, v, b, idx), r, k)
  {
    var mem1 := PhysWrite(mem, a, v, 2);
    var mem2 := PhysWrite(mem1, a + 4, 512, 4);
    PhysApart(mem, a, v, 2, r, k);
    PhysApart(mem1, a + 4, 512, 4, r, k);
    PhysApart(mem2, b, idx, 2, r, k);
    SameTrans(mem, mem1, mem2, r, k);
    SameTrans(mem, mem2, PhysWrite(mem2, b, idx, 2), r, k);
  }

  // ---- The same at the slots of the rings ---------------------------------------------------

  /** Where things stand in the available ring. */
  lemma AvailPlaces(size: nat, cfg: Config, slot: nat, i: nat) returns (a: nat, b: nat, c: nat)
    requires Layout(size, cfg) && slot < cfg.queueNum && i < cfg.queueNum
    ensures a == AvailEntry(cfg, slot) && b == cfg.availRing + 2 && c == AvailEntry(cfg, i)
    ensures InDram(size, a, 2) && InDram(size, b, 2) && InDram(size, c, 2)
    ensures Apart(b, 2, c, 2) && (c == a || Apart(a, 2, c, 2)) && (c == a <==> i == slot)
    ensures Apart(a, 2, cfg.usedRing, UsedLen(cfg)) && Apart(b, 2, cfg.usedRing, UsedLen(cfg))
    ensures InDram(size, cfg.usedRing, UsedLen(cfg))
  {
    a, b, c := AvailEntry(cfg, slot), cfg.availRing + 2, AvailEntry(cfg, i);
  }

  lemma UsedPlaces(size: nat, cfg: Config, slot: nat, i: nat) returns (a: nat, b: nat, c: nat)
    requires Layout(size, cfg) && slot < cfg.queueNum && i < cfg.queueNum
    ensures a == UsedElem(cfg, slot) && b == cfg.usedRing + 2 && c == UsedElem(cfg, i)
    ensures InDram(size, a, 8) && InDram(size, b, 2) && InDram(size, c, 2)
    ensures Apart(b, 2, c, 2) && (c == a || Apart(a, 8, c, 2)) && (c == a <==> i == slot)
    ensures Apart(a, 8, cfg.availRing, AvailLen(cfg)) && Apart(b, 2, cfg.availRing, AvailLen(cfg))
    ensures InDram(size, cfg.availRing, AvailLen(cfg))
  {
    a, b, c := UsedElem(cfg, slot), cfg.usedRing + 2, UsedElem(cfg, i);
  }

  lemma PublishIndex(mem: seq<Byte>, cfg: Config, slot: nat, head: nat, idx: nat)
    requires Layout(|mem|, cfg) && slot < cfg.queueNum && idx < IDX
    ensures AvailIdx(PublishAt(mem, cfg, slot, head, idx), cfg) == idx
  {
    IndexWrite(DramWrite(mem, AvailEntry(cfg, slot), head, 2), cfg.availRing + 2, idx);
  }

  lemma PublishApart(mem: seq<Byte>, cfg: Config, slot: nat, head: nat, idx: nat)
    requires Layout(|mem|, cfg) && slot < cfg.queueNum
    ensures SameAt(mem, PublishAt(mem, cfg, slot, head, idx), cfg.usedRing, UsedLen(cfg))
  {
    var a, b, c := AvailPlaces(|mem|, cfg, slot, slot);
    TwoWritesApart(mem, a, head, b, idx, cfg.usedRing, UsedLen(cfg));
  }

  lemma PublishSlot(mem: seq<Byte>, cfg: Config, slot: nat, head: nat, idx: nat, i: nat)
    requires Layout(|mem|, cfg) && slot < cfg.queueNum && head < IDX && i < cfg.queueNum
    ensures AvailSlot(PublishAt(mem, cfg, slot, head, idx), cfg, i) == if i == slot then head else AvailSlot(mem, cfg, i)
  {
    var a, b, c := AvailPlaces(|mem|, cfg, slot, i);
    TwoWrites(mem, a, head, b, idx, c);
  }

  lemma PushUsedIndex(mem: seq<Byte>, cfg: Config, slot: nat, head: nat, idx: nat)
    requires Layout(|mem|, cfg) && slot < cfg.queueNum && idx < IDX
    ensures UsedIdx(PushUsedAt(mem, cfg, slot, head, idx), cfg) == idx
  {
    var a, b, c := UsedPlaces(|mem|, cfg, slot, slot);
    PhysSets(PhysWrite(PhysWrite(mem, a, head, 2), a + 4, 512, 4), b, idx);
  }

  lemma PushUsedApart(mem: seq<Byte>, cfg: Config, slot: nat, head: nat, idx: nat)
    requires Layout(|mem|, cfg) && slot < cfg.queueNum
    ensures SameAt(mem, PushUsedAt(mem, cfg, slot, head, idx), cfg.availRing, AvailLen(cfg))
  {
    var a, b, c := UsedPlaces(|mem|, cfg, slot, slot);
    ThreeWritesApart(mem, a, head, b, idx, cfg.availRing, AvailLen(cfg));
  }

  lemma PushUsedSlot(mem: seq<Byte>, cfg: Config, slot: nat, head: nat, idx: nat, i: nat)
    requires Layout(|mem|, cfg) && slot < cfg.queueNum && head < IDX && i < cfg.queueNum
    ensures UsedSlot(PushUsedAt(mem, cfg, slot, head, idx), cfg, i) == if i == slot then head else UsedSlot(mem, cfg, i)
  {
    var a, b, c := UsedPlaces(|mem|, cfg, slot, i);
    ThreeWrites(mem, a, head, b, idx, c);
  }
}
