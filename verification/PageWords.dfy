/** Translations of a 4 KiB page in plain arithmetic: the first access through the tables, later ones
    from the TLB. */
module PageWords {
  import opened Options
  import opened Division
  import opened Bytes
  import opened Memory
  import opened Words
  import opened Sv39
  import opened TlbModel
  import opened WalkWords
  import MmuRuns
  import Bits

  /** Three levels of tables in memory lead from `satp` to the PTE w for the page of `va`. */
  predicate LeadTo(m: seq<Byte>, satp: nat, va: nat, t1: nat, t0: nat, w: nat) {
    && satp / 0x1000_0000_0000_0000 % 16 == 8 && t1 < 0x1000_0000_0000 && t0 < 0x1000_0000_0000
    && WordAt(m, satp % 0x1000_0000_0000 * 4096 + va / 0x4000_0000 % 512 * 8) == t1 * 1024 + 1
    && WordAt(m, t1 * 4096 + va / 0x20_0000 % 512 * 8) == t0 * 1024 + 1
    && WordAt(m, t0 * 4096 + va / 0x1000 % 512 * 8) == w
    && w / 1024 % 0x1000_0000_0000 * 4096 + 4096 <= 0x8000_0000 + |m|
  }

  /** The PTE lets the access through: V; R or, under MXR, X for a load; X for a fetch; W, which is
      void without R, for a store; U set in U mode, and in S mode clear or under SUM, never for a
      fetch. */
  predicate Lets(w: nat, privilege: nat, mxr: bool, sum: bool, acc: Access) {
    && w % 2 == 1 && (w / 4 % 2 == 1 ==> w / 2 % 2 == 1)
    && (acc == Load ==> w / 2 % 2 == 1 || (mxr && w / 8 % 2 == 1))
    && (acc == Fetch ==> w / 8 % 2 == 1)
    && (acc == Store ==> w / 4 % 2 == 1 && w / 2 % 2 == 1)
    && (privilege == 0 ==> w / 16 % 2 == 1)
    && (privilege == 1 && w / 16 % 2 == 1 ==> sum && acc != Fetch)
  }

  lemma TableDigits(t: nat)
    requires t < 0x1000_0000_0000
    ensures var w := t * 1024 + 1;
            w % 2 == 1 && w / 2 % 2 == 0 && w / 4 % 2 == 0 && w / 8 % 2 == 0 && w / 1024 % 0x1000_0000_0000 == t
  {
    var w := t * 1024 + 1;
    DivisionIsUnique(w, 2, 512 * t, 1);
    DivisionIsUnique(w, 4, 256 * t, 1);
    DivisionIsUnique(w, 8, 128 * t, 1);
    DivisionIsUnique(w, 1024, t, 1);
    DivisionIsUnique(512 * t, 2, 256 * t, 0);
    DivisionIsUnique(256 * t, 2, 128 * t, 0);
    DivisionIsUnique(128 * t, 2, 64 * t, 0);
    DivisionIsUnique(t, 0x1000_0000_0000, 0, t);
  }

  lemma DescendTo(m: seq<Byte>, satp: nat, va: nat, t1: nat, t0: nat, w: nat)
    requires LeadTo(m, satp, va, t1, t0, w)
    ensures Descend(m, satp % 0x1000_0000_0000 * 4096, va, 2) == PageFound(w)
  {
    UpperTable(m, satp % 0x1000_0000_0000 * 4096, va, t1);
    MiddleTable(m, t1 * 4096, va, t0);
    LastTable(m, t0 * 4096, va, w);
  }

  lemma UpperTable(m: seq<Byte>, table: nat, va: nat, t: nat)
    requires t < 0x1000_0000_0000 && WordAt(m, table + va / 0x4000_0000 % 512 * 8) == t * 1024 + 1
    ensures Descend(m, table, va, 2) == Descend(m, t * 4096, va, 1)
  {
    NextTable(m, table, va, 2, t);
  }

  lemma MiddleTable(m: seq<Byte>, table: nat, va: nat, t: nat)
    requires t < 0x1000_0000_0000 && WordAt(m, table + va / 0x20_0000 % 512 * 8) == t * 1024 + 1
    ensures Descend(m, table, va, 1) == Descend(m, t * 4096, va, 0)
  {
    NextTable(m, table, va, 1, t);
  }

  lemma NextTable(m: seq<Byte>, table: nat, va: nat, level: nat, t: nat)
    requires 0 < level <= 2 && t < 0x1000_0000_0000
    requires WordAt(m, table + va / Reach(level) % 512 * 8) == t * 1024 + 1
    ensures Descend(m, table, va, level) == Descend(m, t * 4096, va, level - 1)
  {
    TableDigits(t);
  }

  function PageFound(w: nat): Option<Found> {
    if w % 2 == 1 && (w / 4 % 2 == 1 ==> w / 2 % 2 == 1) && (w / 2 % 2 == 1 || w / 8 % 2 == 1) then Some(Found(0, w)) else None
  }

  lemma LastTable(m: seq<Byte>, table: nat, va: nat, w: nat)
    requires WordAt(m, table + va / 0x1000 % 512 * 8) == w
    ensures Descend(m, table, va, 0) == PageFound(w)
  {}

  lemma PageVerdict(w: nat, size: nat, privilege: nat, mxr: bool, sum: bool, va: nat, acc: Access)
    requires w / 1024 % 0x1000_0000_0000 * 4096 + 4096 <= 0x8000_0000 + size
    ensures Verdict(PageFound(w), size, privilege, mxr, sum, va, acc)
         == if Lets(w, privilege, mxr, sum, acc) then Pa(w / 1024 % 0x1000_0000_0000 * 4096 + va % 4096) else PageFault
  {}

  /** The walk of a page that the tables lead to. */
  lemma PageWalk(m: seq<Byte>, satp: nat, mode: Mode, va: nat, acc: Access, t1: nat, t0: nat, w: nat)
    requires LeadTo(m, satp, va, t1, t0, w)
    ensures Walk(m, satp, mode, va, acc)
         == if Lets(w, mode.privilege, mode.mxr, mode.sum, acc)
            then Pa(w / 1024 % 0x1000_0000_0000 * 4096 + va % 4096) else PageFault
  {
    WalkOnWords(m, satp, mode, va, acc);
    DescendTo(m, satp, va, t1, t0, w);
    PageVerdict(w, |m|, mode.privilege, mode.mxr, mode.sum, va, acc);
  }

  /** From an empty TLB the access gets the page's address exactly if the PTE lets it through, and an
      access of the same kind after it gets the same answer, now from the TLB. */
  lemma PageAccess(s: MmuState, va: nat, acc: Access, t1: nat, t0: nat, w: nat)
    requires s.lines == [] && LeadTo(s.mem, s.satp, va, t1, t0, w)
    ensures var answer := if Lets(w, s.mode.privilege, s.mode.mxr, s.mode.sum, acc)
                          then Pa(w / 1024 % 0x1000_0000_0000 * 4096 + va % 4096) else PageFault;
            && Translate(s, va, acc).1 == answer
            && Translate(Translate(s, va, acc).0, va, acc).1 == answer
            && (answer.Pa? ==> Cached(Translate(s, va, acc).0.lines, TagVpn(va)))
  {
    PageWalk(s.mem, s.satp, s.mode, va, acc, t1, t0, w);
    EmptyTlb(s, va, acc);
    FieldsAreQuotients(s.satp, va);
    if Translate(s, va, acc).1.Pa? {
      LeafOfPage(s.mem, s.satp, va, t1, t0, w);
      var e := MmuRuns.FirstFill(s, va, acc);
      IndexIs(e.lines, TagVpn(va), 0);
      HitOnWords(w, TagVpn(va), s.mode, va, acc);
    }
  }

  lemma EmptyTlb(s: MmuState, va: nat, acc: Access)
    requires s.lines == []
    ensures Translate(s, va, acc).1 == Walk(s.mem, s.satp, s.mode, va, acc)
    ensures Translate(s, va, acc).1 == PageFault ==> Translate(s, va, acc).0 == s
  {
    FieldsAreQuotients(s.satp, va);
  }

  lemma LeafOfPage(m: seq<Byte>, satp: nat, va: nat, t1: nat, t0: nat, w: nat)
    requires LeadTo(m, satp, va, t1, t0, w) && w % 2 == 1 && (w / 4 % 2 == 1 ==> w / 2 % 2 == 1)
    requires w / 2 % 2 == 1 || w / 8 % 2 == 1
    ensures MapOf(m, satp, Vpn(va)) == Some(Leaf(0, w))
  {
    FieldsAreQuotients(satp, va);
    DescendTo(m, satp, va, t1, t0, w);
    DescendIsFindLeaf(m, satp % 0x1000_0000_0000 * 4096, va, 2);
  }

  /** A hit on the line of PTE w, for any kind of access: as the walk, but that a fetch from a user
      page is let through under SUM. */
  lemma HitOnWords(w: nat, vpn: nat, mode: Mode, va: nat, acc: Access)
    ensures HitResult(LineOf(vpn, w), mode, va, acc)
         == if && w % 2 == 1
               && (acc == Load ==> w / 2 % 2 == 1 || (mode.mxr && w / 8 % 2 == 1))
               && (acc == Fetch ==> w / 8 % 2 == 1)
               && (acc == Store ==> w / 4 % 2 == 1)
               && (mode.privilege == 0 ==> w / 16 % 2 == 1)
               && (mode.privilege == 1 && w / 16 % 2 == 1 ==> mode.sum)
            then Pa(w / 1024 % 0x1000_0000_0000 * 4096 + va % 4096) else PageFault
  {
    FlagsAreDigits(w);
    FieldsAreQuotients(w, va);
  }

  /** The A and D bits of the TLB copy after an access that was let through, and the rest. */
  lemma MarksOnWords(w: nat, vpn: nat, mode: Mode, acc: Access)
    ensures var f := AfterCheck(LineOf(vpn, w), mode, acc).flags;
            && f.v == (w % 2 == 1) && f.r == (w / 2 % 2 == 1) && f.w == (w / 4 % 2 == 1) && f.x == (w / 8 % 2 == 1)
            && f.u == (w / 16 % 2 == 1)
            && f.a == (TlbAllows(PteFlags(w), mode, acc) || w / 64 % 2 == 1)
            && f.d == ((TlbAllows(PteFlags(w), mode, acc) && acc == Store) || w / 128 % 2 == 1)
  {
    FlagsAreDigits(w);
  }

  /** The 26 bits of an address that a TLB line is found by. */
  lemma TagOnWords(va: nat)
    ensures TagVpn(va) == va / 4096 % 0x400_0000
  {
    Bits.Pow2Of26();
    Bits.Pow2Of12();
    Bits.FieldIsDivMod(va, 12, 26);
  }

  /** SD and LD: translated for a store or a load, then eight bytes, lowest first, at the address;
      nothing moves on a fault. */
  lemma StoreOnBytes(s: MmuState, va: nat, value: nat, b: nat)
    ensures Store64(s, va, value).1 == Translate(s, va, Store).1
    ensures Store64(s, va, value).1 == PageFault ==> Store64(s, va, value).0.mem == s.mem
    ensures var t := Store64(s, va, value).1;
            t.Pa? && Inside(s.mem, t.pa, 8) ==>
              At(Store64(s, va, value).0.mem, b)
              == if t.pa <= b < t.pa + 8 then value / Pow256(b - t.pa) % 256 else At(s.mem, b)
  {
    OnlyLines(s, va, Store);
    var t := Translate(s, va, Store).1;
    if t.Pa? && Inside(s.mem, t.pa, 8) { WritesSpelledOut(s.mem, ViaBus, t.pa, value, 8, b); }
  }

  lemma LoadOnBytes(s: MmuState, va: nat)
    ensures Load64(s, va).1 == Translate(s, va, Load).1
    ensures var t := Load64(s, va).1; t.Pa? && Inside(s.mem, t.pa, 8) ==> Load64(s, va).2 == Double(s.mem, t.pa)
  {
    OnlyLines(s, va, Load);
    var t := Translate(s, va, Load).1;
    if t.Pa? { ReadsSpelledOut(s.mem, ViaBus, t.pa); }
  }
}
