/** The virtual address translation process of section 4.3.2 of the RISC-V Privileged Architecture
    v1.12 for Sv39, and exactly when `sv39_translate` carries it out. */
module Sv39Standard {
  import opened Options
  import opened Bits
  import opened Bytes
  import opened Sv39

  const MEGAPAGE: nat := 0x20_0000
  const GIGAPAGE: nat := 0x4000_0000

  /** Bits 63 to 39 all equal bit 38. */
  predicate Canonical(va: nat) {
    Field(va, 39, 25) == if Bit(va, 38) then 0x1FF_FFFF else 0
  }

  /** Bits 63 to 54 of every PTE, and A, D and U of a pointer to the next level, must be clear. */
  predicate ReservedClear(pte: nat) {
    var f := PteFlags(pte);
    Field(pte, 54, 10) == 0 && (!IsLeaf(f) ==> !f.a && !f.d && !f.u)
  }

  /** Steps 2 to 4: the leaf PTE, or None for a page fault. */
  function StandardLeaf(mem: seq<Byte>, table: nat, vpn: nat, level: nat): Option<Leaf>
    decreases vpn, level
  {
    var pte := ReadPte(mem, table + Index(vpn, level) * 8);
    var f := PteFlags(pte);
    if !f.v || (!f.r && f.w) || !ReservedClear(pte) then None
    else if f.r || f.x then Some(Leaf(level, pte))
    else if level == 0 then None
    else StandardLeaf(mem, PtePpn(pte) * PAGE, vpn, level - 1)
  }

  /** Step 5: the permission bits, given the privilege and SUM and MXR. */
  predicate StandardAllows(f: Flags, m: Mode, acc: Access) {
    && (match acc case Fetch => f.x case Load => f.r || (m.mxr && f.x) case Store => f.w)
    && (if m.privilege == 0 then f.u else f.u ==> m.sum && acc != Fetch)
  }

  /** Step 8: the page number above the page's size, the address below it. */
  function StandardPa(leaf: Leaf, va: nat): nat {
    var ppn := PtePpn(leaf.pte);
    if leaf.level == 0 then ppn * PAGE + PageOffset(va)
    else if leaf.level == 1 then Shr(ppn, 9) * MEGAPAGE + Low(va, 21)
    else Shr(ppn, 18) * GIGAPAGE + Low(va, 30)
  }

  /** Step 7, in the scheme that leaves A and D to software: their absence is a page fault. */
  predicate MarksSet(f: Flags, acc: Access) {
    f.a && (acc == Store ==> f.d)
  }

  /** M mode does not translate; elsewhere, a page fault or the address. */
  function StandardWalk(mem: seq<Byte>, satp: nat, m: Mode, va: nat, acc: Access): Translation {
    if m.privilege == 3 || SatpMode(satp) == 0 then Pa(va)
    else if !Canonical(va) then PageFault
    else
      match StandardLeaf(mem, RootTable(satp), Vpn(va), LEVELS - 1)
      case None => PageFault
      case Some(leaf) =>
        var f := PteFlags(leaf.pte);
        if !StandardAllows(f, m, acc) || Misaligned(leaf) || !MarksSet(f, acc) then PageFault
        else Pa(StandardPa(leaf, va))
  }

  // ---- The walk of the code ------------------------------------------------------------------

  /** No PTE that the code's walk follows or takes as a leaf has a reserved bit set. */
  predicate PathClear(mem: seq<Byte>, table: nat, vpn: nat, level: nat)
    decreases vpn, level
  {
    var pte := ReadPte(mem, table + Index(vpn, level) * 8);
    var f := PteFlags(pte);
    f.v && !(f.w && !f.r) ==>
      ReservedClear(pte) && (IsLeaf(f) || level == 0 || PathClear(mem, PtePpn(pte) * PAGE, vpn, level - 1))
  }

  /** The code finds the standard's leaf, except that it looks through reserved bits. */
  lemma {:induction false} LeafMeetsStandard(mem: seq<Byte>, table: nat, vpn: nat, level: nat)
    ensures StandardLeaf(mem, table, vpn, level)
         == if PathClear(mem, table, vpn, level) then FindLeaf(mem, table, vpn, level) else None
    decreases vpn, level
  {
    var pte := ReadPte(mem, table + Index(vpn, level) * 8);
    if level > 0 { LeafMeetsStandard(mem, PtePpn(pte) * PAGE, vpn, level - 1); }
  }

  lemma AllowsMeetsStandard(f: Flags, m: Mode, acc: Access)
    requires m.privilege <= 1
    ensures WalkAllows(f, m, acc) == StandardAllows(f, m, acc)
  {}

  /** What the standard asks for beyond what the code looks at. */
  predicate Ready(mem: seq<Byte>, satp: nat, va: nat, leaf: Leaf, acc: Access) {
    Canonical(va) && PathClear(mem, RootTable(satp), Vpn(va), LEVELS - 1) && MarksSet(PteFlags(leaf.pte), acc)
  }

  /** The walk meets the standard on this access: it finds no leaf that it permits; or it finds one,
      the address is canonical, no reserved bit is set on the path, A is set, and D for a store, and
      the leaf is a 4 KiB page in memory, or a superpage that maps the access to address 0; or one
      of these fails and the leaf is a 4 KiB page outside memory, so that both fault. */
  predicate MeetsStandard(mem: seq<Byte>, satp: nat, m: Mode, va: nat, acc: Access) {
    match MapOf(mem, satp, Vpn(va))
    case None => true
    case Some(leaf) =>
      var inMemory := PhysOk(|mem|, LeafPa(leaf, PageOffset(va)), 1);
      || !WalkAllows(PteFlags(leaf.pte), m, acc) || Misaligned(leaf)
      || (if Ready(mem, satp, va, leaf, acc) then inMemory && (leaf.level == 0 || StandardPa(leaf, va) == 0)
          else !inMemory)
  }

  /** In U and S mode the code's walk gives the standard's answer if and only if the access meets
      that condition. */
  lemma WalkMeetsStandard(mem: seq<Byte>, satp: nat, m: Mode, va: nat, acc: Access)
    requires SatpMode(satp) == 8 && m.privilege <= 1
    ensures Walk(mem, satp, m, va, acc) == StandardWalk(mem, satp, m, va, acc)
            <==> MeetsStandard(mem, satp, m, va, acc)
  {
    LeafMeetsStandard(mem, RootTable(satp), Vpn(va), LEVELS - 1);
    var leaf := MapOf(mem, satp, Vpn(va));
    if leaf.Some? { AllowsMeetsStandard(PteFlags(leaf.value.pte), m, acc); }
  }

  /** For a canonical address of a 4 KiB page in memory, over clear PTEs, that is: A is set, and D
      for a store, unless the access is refused anyway. */
  lemma OrdinaryPages(mem: seq<Byte>, satp: nat, m: Mode, va: nat, acc: Access, leaf: Leaf)
    requires SatpMode(satp) == 8 && m.privilege <= 1 && MapOf(mem, satp, Vpn(va)) == Some(leaf)
    requires Canonical(va) && PathClear(mem, RootTable(satp), Vpn(va), LEVELS - 1)
    requires leaf.level == 0 && PhysOk(|mem|, LeafPa(leaf, PageOffset(va)), 1)
    ensures Walk(mem, satp, m, va, acc) == StandardWalk(mem, satp, m, va, acc)
            <==> WalkAllows(PteFlags(leaf.pte), m, acc) ==> MarksSet(PteFlags(leaf.pte), acc)
  {
    WalkMeetsStandard(mem, satp, m, va, acc);
  }

  /** M mode, which the standard does not translate and the code does: they meet if and only if a
      usable and permitted leaf maps the address to itself. */
  lemma MachineMode(mem: seq<Byte>, satp: nat, m: Mode, va: nat, acc: Access)
    requires SatpMode(satp) == 8 && m.privilege == 3
    ensures Walk(mem, satp, m, va, acc) == StandardWalk(mem, satp, m, va, acc) <==>
            var leaf := MapOf(mem, satp, Vpn(va));
            && leaf.Some? && WalkAllows(PteFlags(leaf.value.pte), m, acc)
            && Usable(|mem|, leaf.value, PageOffset(va)) && LeafPa(leaf.value, PageOffset(va)) == va
  {}
}
