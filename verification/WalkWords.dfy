/** The page-table walk in plain arithmetic on the words of memory: a second definition, which shares
    nothing with that of Sv39 but its result. */
module WalkWords {
  import opened Options
  import opened Bits
  import opened Bytes
  import opened Memory
  import opened Words
  import opened Sv39

  /** The words at the end of the walk: the level and the PTE of the leaf. */
  datatype Found = Found(level: nat, w: nat)

  function Reach(level: nat): nat {
    if level == 2 then 0x4000_0000 else if level == 1 then 0x20_0000 else 0x1000
  }

  /** The 64-bit word at an address, or 0 outside DRAM. */
  function WordAt(m: seq<Byte>, a: nat): nat { if Inside(m, a, 8) then Double(m, a) else 0 }

  /** Bits 0 to 3 of a PTE are V, R, W and X. */
  function Descend(m: seq<Byte>, table: nat, va: nat, level: nat): Option<Found>
    requires level <= 2
    decreases va, level
  {
    var w := WordAt(m, table + va / Reach(level) % 512 * 8);
    if w % 2 == 0 || (w / 4 % 2 == 1 && w / 2 % 2 == 0) then None
    else if w / 2 % 2 == 1 || w / 4 % 2 == 1 || w / 8 % 2 == 1 then Some(Found(level, w))
    else if level == 0 then None
    else Descend(m, w / 1024 % 0x1000_0000_0000 * 4096, va, level - 1)
  }

  /** Bit 4 is U. */
  predicate Grants(w: nat, privilege: nat, mxr: bool, sum: bool, acc: Access) {
    && (privilege == 0 ==> w / 16 % 2 == 1)
    && (privilege == 1 && w / 16 % 2 == 1 ==> sum && acc != Fetch)
    && match acc
       case Fetch => w / 8 % 2 == 1
       case Load => w / 2 % 2 == 1 || (mxr && w / 8 % 2 == 1)
       case Store => w / 4 % 2 == 1
  }

  function Verdict(found: Option<Found>, size: nat, privilege: nat, mxr: bool, sum: bool, va: nat, acc: Access): Translation {
    match found
    case None => PageFault
    case Some(Found(level, w)) =>
      var ppn := w / 1024 % 0x1000_0000_0000;
      var pa := if level == 0 then ppn * 4096 + va % 4096 else 0;
      if !Grants(w, privilege, mxr, sum, acc) then PageFault
      else if (level == 2 && ppn % 0x4_0000 != 0) || (level == 1 && ppn % 512 != 0) then PageFault
      else if pa >= 0x8000_0000 + size then PageFault
      else Pa(pa)
  }

  function WordWalk(m: seq<Byte>, satp: nat, privilege: nat, mxr: bool, sum: bool, va: nat, acc: Access): Translation {
    if satp / 0x1000_0000_0000_0000 % 16 != 8 then Pa(va)
    else Verdict(Descend(m, satp % 0x1000_0000_0000 * 4096, va, 2), |m|, privilege, mxr, sum, va, acc)
  }

  // ---- It is the walk -------------------------------------------------------------------------

  lemma PteIsWord(m: seq<Byte>, a: nat)
    ensures ReadPte(m, a) == WordAt(m, a)
  {
    if Inside(m, a, 8) { DoubleIs(m, a); }
  }

  lemma FlagsAreDigits(w: nat)
    ensures PteFlags(w) == Flags(w % 2 == 1, w / 2 % 2 == 1, w / 4 % 2 == 1, w / 8 % 2 == 1, w / 16 % 2 == 1,
                                 w / 64 % 2 == 1, w / 128 % 2 == 1)
  {
    Pow2Values();
    BitIsDigit(w, 0);
    BitIsDigit(w, 1);
    BitIsDigit(w, 2);
    BitIsDigit(w, 3);
    BitIsDigit(w, 4);
    BitIsDigit(w, 6);
    BitIsDigit(w, 7);
  }

  lemma FieldsAreQuotients(w: nat, va: nat)
    ensures PtePpn(w) == w / 1024 % 0x1000_0000_0000 && PageOffset(va) == va % 4096
    ensures SatpMode(w) == w / 0x1000_0000_0000_0000 % 16 && RootTable(w) == w % 0x1000_0000_0000 * 4096
    ensures Low(w, 18) == w % 0x4_0000 && Low(w, 9) == w % 512
  {
    Pow2Values();
    FieldIsDivMod(w, 10, 44);
    FieldIsDivMod(w, 60, 4);
    LowIsMod(w, 44);
    LowIsMod(w, 18);
    LowIsMod(w, 9);
    LowIsMod(va, 12);
  }

  lemma IndexIsQuotient(va: nat, level: nat)
    requires level <= 2
    ensures Index(Vpn(va), level) == va / Reach(level) % 512
  {
    IndexOfVa(va, level);
    Pow2Values();
    FieldIsDivMod(va, 12 + 9 * level, 9);
  }

  lemma FindStep(m: seq<Byte>, table: nat, vpn: nat, level: nat, w: nat)
    requires level <= 2 && w == ReadPte(m, table + Index(vpn, level) * 8)
    ensures FindLeaf(m, table, vpn, level)
         == if w % 2 == 0 || (w / 4 % 2 == 1 && w / 2 % 2 == 0) then None
            else if w / 2 % 2 == 1 || w / 4 % 2 == 1 || w / 8 % 2 == 1 then Some(Leaf(level, w))
            else if level == 0 then None
            else FindLeaf(m, w / 1024 % 0x1000_0000_0000 * 4096, vpn, level - 1)
  {
    FlagsAreDigits(w);
    FieldsAreQuotients(w, 0);
  }

  function AsLeaf(found: Option<Found>): Option<Leaf> {
    match found case None => None case Some(Found(level, w)) => Some(Leaf(level, w))
  }

  lemma DescendStep(m: seq<Byte>, table: nat, va: nat, level: nat) returns (w: nat)
    requires level <= 2
    ensures w == ReadPte(m, table + Index(Vpn(va), level) * 8)
    ensures AsLeaf(Descend(m, table, va, level))
         == if w % 2 == 0 || (w / 4 % 2 == 1 && w / 2 % 2 == 0) then None
            else if w / 2 % 2 == 1 || w / 4 % 2 == 1 || w / 8 % 2 == 1 then Some(Leaf(level, w))
            else if level == 0 then None
            else AsLeaf(Descend(m, w / 1024 % 0x1000_0000_0000 * 4096, va, level - 1))
  {
    IndexIsQuotient(va, level);
    w := WordAt(m, table + va / Reach(level) % 512 * 8);
    PteIsWord(m, table + va / Reach(level) % 512 * 8);
  }

  /** The leaf of the walk, as the words say it. */
  lemma {:induction false} DescendIsFindLeaf(m: seq<Byte>, table: nat, va: nat, level: nat)
    requires level <= 2
    ensures FindLeaf(m, table, Vpn(va), level) == AsLeaf(Descend(m, table, va, level))
    decreases level
  {
    var w := DescendStep(m, table, va, level);
    FindStep(m, table, Vpn(va), level, w);
    if level > 0 { DescendIsFindLeaf(m, w / 1024 % 0x1000_0000_0000 * 4096, va, level - 1); }
  }

  lemma LeafOnWords(found: Option<Found>, size: nat, mode: Mode, va: nat, acc: Access)
    ensures LeafResult(AsLeaf(found), size, mode, va, acc)
         == Verdict(found, size, mode.privilege, mode.mxr, mode.sum, va, acc)
  {
    if found.Some? {
      var w := found.value.w;
      FlagsAreDigits(w);
      FieldsAreQuotients(w, va);
      FieldsAreQuotients(PtePpn(w), va);
    }
  }

  /** The walk, whatever the memory, the access and the hart: the two definitions agree. */
  lemma WalkOnWords(m: seq<Byte>, satp: nat, mode: Mode, va: nat, acc: Access)
    ensures Walk(m, satp, mode, va, acc) == WordWalk(m, satp, mode.privilege, mode.mxr, mode.sum, va, acc)
  {
    FieldsAreQuotients(satp, va);
    DescendIsFindLeaf(m, satp % 0x1000_0000_0000 * 4096, va, 2);
    LeafOnWords(Descend(m, satp % 0x1000_0000_0000 * 4096, va, 2), |m|, mode, va, acc);
  }
}
