/** The Sv39 page-table walk as a function of memory: section 4.4 of the RISC-V Privileged
    Architecture v1.12, with the deviations of `sv39_translate` kept. Disjoint bit fields
    are joined by addition. */
module Sv39 {
  import opened Options
  import opened Bits
  import opened Bytes
  import opened Memory

  const PAGE: nat := 4096
  const LEVELS: nat := 3

  datatype Access = Fetch | Load | Store

  datatype Translation = Pa(pa: nat) | PageFault

  /** The part of the hart that permission checks look at; privilege 0 = U, 1 = S, 3 = M. */
  datatype Mode = Mode(privilege: nat, mxr: bool, sum: bool)

  /** The low PTE byte as the TLB keeps it (the G bit is kept apart). */
  datatype Flags = Flags(v: bool, r: bool, w: bool, x: bool, u: bool, a: bool, d: bool)

  function PteFlags(pte: nat): Flags {
    Flags(Bit(pte, 0), Bit(pte, 1), Bit(pte, 2), Bit(pte, 3), Bit(pte, 4), Bit(pte, 6), Bit(pte, 7))
  }

  predicate PteGlobal(pte: nat) { Bit(pte, 5) }

  function PtePpn(pte: nat): nat { Field(pte, 10, 44) }

  predicate IsLeaf(f: Flags) { f.r || f.x || f.w }

  /** The 27-bit virtual page number the walk uses, and the 26 bits the TLB tag keeps. */
  function Vpn(va: nat): nat { Field(va, 12, 27) }

  function TagVpn(va: nat): (vpn: nat)
    ensures vpn < 0x400_0000
  {
    LowBound(Shr(va, 12), 26);
    Pow2Of26();
    Field(va, 12, 26)
  }

  function PageOffset(va: nat): nat { Low(va, 12) }

  /** Bit 38 of an address: the one the walk looks at and the tag drops. */
  predicate UpperHalf(va: nat) { Bit(va, 38) }

  function FullVpn(tagVpn: nat, upper: bool): nat {
    tagVpn + if upper then Pow2(26) else 0
  }

  lemma VpnSplit(va: nat)
    ensures Vpn(va) == FullVpn(TagVpn(va), UpperHalf(va))
  {
    LowStep(Shr(va, 12), 26);
    BitOfShr(va, 12, 26);
  }

  function SatpMode(satp: nat): nat { Field(satp, 60, 4) }

  function RootTable(satp: nat): nat { Low(satp, 44) * PAGE }

  function Index(vpn: nat, level: nat): nat { Field(vpn, 9 * level, 9) }

  /** The index the loop takes from the address is the one the page number determines. */
  lemma IndexOfVa(va: nat, level: nat)
    requires level < LEVELS
    ensures Index(Vpn(va), level) == Field(va, 12 + 9 * level, 9)
  {
    FieldField(va, 12, 27, 9 * level, 9);
  }

  /** The 64-bit PTE at a physical address. Page tables live in DRAM. */
  function ReadPte(mem: seq<Byte>, addr: nat): nat { DramRead(mem, addr, 8) }

  datatype Leaf = Leaf(level: nat, pte: nat)

  /** The leaf PTE that maps a page, searched from the table of a given level down. */
  function FindLeaf(mem: seq<Byte>, table: nat, vpn: nat, level: nat): (leaf: Option<Leaf>)
    ensures leaf.Some? ==> leaf.value.level <= level
    decreases vpn, level, 1
  {
    FromPte(mem, ReadPte(mem, table + Index(vpn, level) * 8), vpn, level)
  }

  function FromPte(mem: seq<Byte>, pte: nat, vpn: nat, level: nat): (leaf: Option<Leaf>)
    ensures leaf.Some? ==> leaf.value.level <= level
    decreases vpn, level, 0
  {
    var f := PteFlags(pte);
    if !f.v || (f.w && !f.r) then None
    else if IsLeaf(f) then Some(Leaf(level, pte))
    else if level == 0 then None
    else FindLeaf(mem, PtePpn(pte) * PAGE, vpn, level - 1)
  }

  /** The addresses of the PTEs that FindLeaf reads, in order. */
  function PteAddrs(mem: seq<Byte>, table: nat, vpn: nat, level: nat): (addrs: seq<nat>)
    ensures 1 <= |addrs| <= level + 1
    decreases vpn, level
  {
    var addr := table + Index(vpn, level) * 8;
    var pte := ReadPte(mem, addr);
    var f := PteFlags(pte);
    if !f.v || (f.w && !f.r) || IsLeaf(f) || level == 0 then [addr]
    else [addr] + PteAddrs(mem, PtePpn(pte) * PAGE, vpn, level - 1)
  }

  function MapOf(mem: seq<Byte>, satp: nat, vpn: nat): Option<Leaf> {
    FindLeaf(mem, RootTable(satp), vpn, LEVELS - 1)
  }

  function MapAddrs(mem: seq<Byte>, satp: nat, vpn: nat): seq<nat> {
    PteAddrs(mem, RootTable(satp), vpn, LEVELS - 1)
  }

  predicate Misaligned(leaf: Leaf) {
    var ppn := PtePpn(leaf.pte);
    (leaf.level == 2 && Low(ppn, 18) != 0) || (leaf.level == 1 && Low(ppn, 9) != 0)
  }

  /** The physical address the walk forms; for superpages the source leaves it 0. */
  function LeafPa(leaf: Leaf, offset: nat): nat {
    if leaf.level == 0 then PtePpn(leaf.pte) * PAGE + offset else 0
  }

  predicate PhysOk(size: nat, pa: nat, len: nat) { pa + len <= MEMORY_BASE + size }

  predicate Usable(size: nat, leaf: Leaf, offset: nat) {
    !Misaligned(leaf) && PhysOk(size, LeafPa(leaf, offset), 1)
  }

  /** The permission check of the walk. */
  predicate WalkAllows(f: Flags, m: Mode, acc: Access) {
    && (m.privilege == 0 ==> f.u)
    && (m.privilege == 1 && f.u ==> m.sum && acc != Fetch)
    && (acc == Load && !f.r ==> m.mxr && f.x)
    && (acc == Fetch ==> f.x)
    && (acc == Store ==> f.w)
  }

  /** The permission check of a TLB hit, written separately in the source. */
  predicate TlbAllows(f: Flags, m: Mode, acc: Access) {
    && f.v
    && (m.privilege == 0 ==> f.u)
    && (m.privilege == 1 && f.u ==> m.sum)
    && (acc == Fetch ==> f.x && (m.privilege == 0 ==> f.u))
    && (acc == Load && !f.r ==> m.mxr && f.x)
    && (acc == Store ==> f.w)
  }

  /** The supervisor fetch from a user page that only the TLB lets through, when SUM is set. */
  predicate SumFetch(f: Flags, m: Mode, acc: Access) {
    m.privilege == 1 && m.sum && f.u && f.x && acc == Fetch
  }

  /** The two permission checks differ in exactly one case. */
  lemma PermissionsAgree(f: Flags, m: Mode, acc: Access)
    requires f.v
    ensures TlbAllows(f, m, acc) == WalkAllows(f, m, acc) <==> !SumFetch(f, m, acc)
  {}

  /** What the walk answers once it knows the leaf. */
  function LeafResult(leaf: Option<Leaf>, size: nat, m: Mode, va: nat, acc: Access): Translation {
    match leaf
    case None => PageFault
    case Some(leaf) =>
      if WalkAllows(PteFlags(leaf.pte), m, acc) && Usable(size, leaf, PageOffset(va))
      then Pa(LeafPa(leaf, PageOffset(va))) else PageFault
  }

  /** The page-table walk: the address or fault that memory alone determines. */
  function Walk(mem: seq<Byte>, satp: nat, m: Mode, va: nat, acc: Access): Translation {
    if SatpMode(satp) != 8 then Pa(va)
    else LeafResult(MapOf(mem, satp, Vpn(va)), |mem|, m, va, acc)
  }

  /** Every leaf found is valid and never writable without being readable. */
  lemma {:induction false} LeafIsSound(mem: seq<Byte>, table: nat, vpn: nat, level: nat)
    requires FindLeaf(mem, table, vpn, level).Some?
    decreases vpn, level
    ensures var f := PteFlags(FindLeaf(mem, table, vpn, level).value.pte);
            f.v && (f.w ==> f.r) && IsLeaf(f)
  {
    var pte := ReadPte(mem, table + Index(vpn, level) * 8);
    if !IsLeaf(PteFlags(pte)) {
      LeafIsSound(mem, PtePpn(pte) * PAGE, vpn, level - 1);
    }
  }

  predicate SamePtes(mem: seq<Byte>, mem': seq<Byte>, addrs: seq<nat>) {
    |mem| == |mem'| && forall i :: 0 <= i < |addrs| ==> ReadPte(mem, addrs[i]) == ReadPte(mem', addrs[i])
  }

  /** Whether the walk ends at an entry. */
  predicate Ends(f: Flags, level: nat) {
    !f.v || (f.w && !f.r) || IsLeaf(f) || level == 0
  }

  lemma PathEnds(mem: seq<Byte>, table: nat, vpn: nat, level: nat, pte: nat)
    requires pte == ReadPte(mem, table + Index(vpn, level) * 8) && Ends(PteFlags(pte), level)
    ensures PteAddrs(mem, table, vpn, level) == [table + Index(vpn, level) * 8]
    ensures FindLeaf(mem, table, vpn, level)
         == if PteFlags(pte).v && !(PteFlags(pte).w && !PteFlags(pte).r) && IsLeaf(PteFlags(pte))
            then Some(Leaf(level, pte)) else None
  {}

  lemma PathGoesOn(mem: seq<Byte>, table: nat, vpn: nat, level: nat, pte: nat)
    requires pte == ReadPte(mem, table + Index(vpn, level) * 8) && !Ends(PteFlags(pte), level)
    ensures PteAddrs(mem, table, vpn, level)
         == [table + Index(vpn, level) * 8] + PteAddrs(mem, PtePpn(pte) * PAGE, vpn, level - 1)
    ensures FindLeaf(mem, table, vpn, level) == FindLeaf(mem, PtePpn(pte) * PAGE, vpn, level - 1)
  {}

  lemma SameRest(mem: seq<Byte>, mem': seq<Byte>, addr: nat, rest: seq<nat>)
    requires SamePtes(mem, mem', [addr] + rest)
    ensures ReadPte(mem', addr) == ReadPte(mem, addr) && SamePtes(mem, mem', rest)
  {
    assert ([addr] + rest)[0] == addr;
    forall i | 0 <= i < |rest| ensures ReadPte(mem, rest[i]) == ReadPte(mem', rest[i]) {
      assert rest[i] == ([addr] + rest)[i + 1];
    }
  }

  /** A walk depends on at most three PTEs: memories that agree on them give the same leaf
      through the same PTEs. */
  lemma {:induction false} WalkDependsOnPath(mem: seq<Byte>, mem': seq<Byte>, table: nat, vpn: nat, level: nat)
    requires SamePtes(mem, mem', PteAddrs(mem, table, vpn, level))
    decreases vpn, level
    ensures FindLeaf(mem', table, vpn, level) == FindLeaf(mem, table, vpn, level)
    ensures PteAddrs(mem', table, vpn, level) == PteAddrs(mem, table, vpn, level)
  {
    var addr := table + Index(vpn, level) * 8;
    var pte := ReadPte(mem, addr);
    if Ends(PteFlags(pte), level) {
      PathEnds(mem, table, vpn, level, pte);
      SameRest(mem, mem', addr, []);
      PathEnds(mem', table, vpn, level, pte);
    } else {
      var next := PtePpn(pte) * PAGE;
      PathGoesOn(mem, table, vpn, level, pte);
      SameRest(mem, mem', addr, PteAddrs(mem, next, vpn, level - 1));
      PathGoesOn(mem', table, vpn, level, pte);
      WalkDependsOnPath(mem, mem', next, vpn, level - 1);
    }
  }

  /** A write that misses every PTE of a path leaves those PTEs alone. */
  predicate MissesPtes(addrs: seq<nat>, off: nat, n: nat) {
    forall i :: 0 <= i < |addrs| ==> Apart(MEMORY_BASE + off, n, addrs[i], 8)
  }

  lemma MissedPteStays(mem: seq<Byte>, addr: nat, off: nat, bs: seq<Byte>)
    requires off + |bs| <= |mem| && Apart(MEMORY_BASE + off, |bs|, addr, 8)
    ensures ReadPte(mem, addr) == ReadPte(Splice(mem, off, bs), addr)
  {
    if MEMORY_BASE <= addr && addr - MEMORY_BASE + 8 <= |mem| {
      SpliceApart(mem, off, bs, addr - MEMORY_BASE, 8);
      LeAtIsValue(mem, addr - MEMORY_BASE, 8);
      LeAtIsValue(Splice(mem, off, bs), addr - MEMORY_BASE, 8);
    }
  }

  lemma MissedPtesStay(mem: seq<Byte>, addrs: seq<nat>, off: nat, bs: seq<Byte>)
    requires off + |bs| <= |mem| && MissesPtes(addrs, off, |bs|)
    ensures SamePtes(mem, Splice(mem, off, bs), addrs)
  {
    var mem' := Splice(mem, off, bs);
    forall i | 0 <= i < |addrs| ensures ReadPte(mem, addrs[i]) == ReadPte(mem', addrs[i]) {
      MissedPteStays(mem, addrs[i], off, bs);
    }
  }
}
