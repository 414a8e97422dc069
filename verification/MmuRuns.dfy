/** What holds of the TLB over whole runs: agreement with the page-table walk, and recency. */
module MmuRuns {
  import opened Options
  import opened Bits
  import opened Bytes
  import opened Memory
  import opened Sv39
  import opened TlbModel

  /** What can happen to the translation state. `Write` is any write into DRAM, by the hart or by
      a device. */
  datatype Step =
    | Access(va: nat, acc: Access)
    | SetPrivilege(privilege: nat)
    | Write(off: nat, bytes: seq<Byte>)
    | WriteSatp(value: nat)
    | Sfence

  function Apply(s: MmuState, step: Step): (s': MmuState)
    ensures |s'.mem| == |s.mem| && s'.capacity == s.capacity
  {
    match step
    case Access(va, acc) => Translate(s, va, acc).0
    case SetPrivilege(p) => s.(mode := s.mode.(privilege := p))
    case Write(off, bytes) => if off + |bytes| <= |s.mem| then s.(mem := Splice(s.mem, off, bytes)) else s
    case WriteSatp(value) => s.(satp := value)
    case Sfence => s.(lines := [])
  }

  function Run(s: MmuState, steps: seq<Step>): (s': MmuState)
    ensures |s'.mem| == |s.mem| && s'.capacity == s.capacity
  {
    if steps == [] then s else Apply(Run(s, steps[..|steps| - 1]), steps[|steps| - 1])
  }

  // ---- Coherence ----------------------------------------------------------------------------

  // The tag drops bit 38, so a line serves two pages. `upper` is the set of tag page numbers whose
  // line was filled by an access with bit 38 set; the page a line was filled from is its home.

  predicate SameButAD(f: Flags, g: Flags) {
    f == g.(a := f.a, d := f.d)
  }

  function HomeVpn(upper: set<nat>, tagVpn: nat): nat {
    FullVpn(tagVpn, tagVpn in upper)
  }

  /** The line says what the walk of its home page says. */
  predicate LineCoherent(s: MmuState, upper: set<nat>, line: Line) {
    && SatpMode(s.satp) == 8
    && var leaf := MapOf(s.mem, s.satp, HomeVpn(upper, line.vpn));
       && leaf.Some?
       && line.ppn == PtePpn(leaf.value.pte)
       && SameButAD(line.flags, PteFlags(leaf.value.pte))
       && Usable(|s.mem|, leaf.value, 0)
  }

  predicate Coherent(s: MmuState, upper: set<nat>) {
    forall i :: 0 <= i < |s.lines| ==> LineCoherent(s, upper, s.lines[i])
  }

  /** The access would hit a line filled from the page that differs in bit 38. */
  predicate Crosses(s: MmuState, upper: set<nat>, va: nat) {
    Cached(s.lines, TagVpn(va)) && (TagVpn(va) in upper) != UpperHalf(va)
  }

  /** The two ways in which a hit of its own home page departs from the walk: the supervisor fetch
      from a user page under SUM, and a superpage, for which the walk forms address 0. */
  predicate HomeDeviates(home: Leaf, m: Mode, va: nat, acc: Access) {
    var f := PteFlags(home.pte);
    || SumFetch(f, m, acc)
    || (WalkAllows(f, m, acc) && home.level > 0 && PtePpn(home.pte) * PAGE + PageOffset(va) > 0)
  }

  /** A hit across bit 38 answers from the home page's PTE, the walk from the page's own, if there
      is one: only one of them permits the access, or both do at different addresses. */
  predicate CrossDeviates(home: Leaf, own: Option<Leaf>, size: nat, m: Mode, va: nat, acc: Access) {
    var off := PageOffset(va);
    var hit := TlbAllows(PteFlags(home.pte), m, acc);
    var walk := own.Some? && WalkAllows(PteFlags(own.value.pte), m, acc) && Usable(size, own.value, off);
    hit != walk || (hit && PtePpn(home.pte) * PAGE + off != LeafPa(own.value, off))
  }

  predicate Deviates(s: MmuState, upper: set<nat>, va: nat, acc: Access) {
    && SatpMode(s.satp) == 8
    && Cached(s.lines, TagVpn(va))
    && var home := MapOf(s.mem, s.satp, HomeVpn(upper, TagVpn(va)));
       && home.Some?
       && if Crosses(s, upper, va)
          then CrossDeviates(home.value, MapOf(s.mem, s.satp, Vpn(va)), |s.mem|, s.mode, va, acc)
          else HomeDeviates(home.value, s.mode, va, acc)
  }

  lemma UsableIsPagewise(size: nat, leaf: Leaf, va: nat)
    requires size % PAGE == 0
    ensures Usable(size, leaf, PageOffset(va)) == Usable(size, leaf, 0)
  {
    LowBound(va, 12);
    Pow2Of12();
    assert (MEMORY_BASE + size) % PAGE == 0;
  }

  lemma HomeHit(line: Line, home: Leaf, size: nat, m: Mode, va: nat, acc: Access)
    requires line.ppn == PtePpn(home.pte) && SameButAD(line.flags, PteFlags(home.pte)) && line.flags.v
    requires Usable(size, home, PageOffset(va))
    ensures HitResult(line, m, va, acc) == LeafResult(Some(home), size, m, va, acc)
            <==> !HomeDeviates(home, m, va, acc)
  {
    PermissionsAgree(line.flags, m, acc);
  }

  lemma CrossHit(line: Line, home: Leaf, own: Option<Leaf>, size: nat, m: Mode, va: nat, acc: Access)
    requires line.ppn == PtePpn(home.pte) && SameButAD(line.flags, PteFlags(home.pte))
    ensures HitResult(line, m, va, acc) == LeafResult(own, size, m, va, acc)
            <==> !CrossDeviates(home, own, size, m, va, acc)
  {}

  /** The line of a cached page, and the leaf of its home. */
  lemma HomeOf(s: MmuState, upper: set<nat>, va: nat) returns (line: Line, home: Leaf)
    requires Coherent(s, upper) && Cached(s.lines, TagVpn(va))
    ensures line == s.lines[IndexOf(s.lines, TagVpn(va))] && line.vpn == TagVpn(va) && line.flags.v
    ensures SatpMode(s.satp) == 8 && MapOf(s.mem, s.satp, HomeVpn(upper, TagVpn(va))) == Some(home)
    ensures line.ppn == PtePpn(home.pte) && SameButAD(line.flags, PteFlags(home.pte)) && Usable(|s.mem|, home, 0)
  {
    line := s.lines[IndexOf(s.lines, TagVpn(va))];
    assert LineCoherent(s, upper, line);
    LeafIsSound(s.mem, RootTable(s.satp), HomeVpn(upper, TagVpn(va)), LEVELS - 1);
    home := MapOf(s.mem, s.satp, HomeVpn(upper, TagVpn(va))).value;
  }

  /** Bit 38, exactly: an access whose tag is cached for the page on the other side of bit 38 is
      answered as by the walk if and only if the two PTEs lead to the same answer. */
  lemma TagDropsBit38(s: MmuState, upper: set<nat>, va: nat, acc: Access)
    requires Coherent(s, upper) && Crosses(s, upper, va)
    ensures MapOf(s.mem, s.satp, HomeVpn(upper, TagVpn(va))).Some?
    ensures Translate(s, va, acc).1 == Walk(s.mem, s.satp, s.mode, va, acc) <==>
            !CrossDeviates(MapOf(s.mem, s.satp, HomeVpn(upper, TagVpn(va))).value, MapOf(s.mem, s.satp, Vpn(va)),
                           |s.mem|, s.mode, va, acc)
  {
    var line, home := HomeOf(s, upper, va);
    CrossHit(line, home, MapOf(s.mem, s.satp, Vpn(va)), |s.mem|, s.mode, va, acc);
  }

  /** The wrong answer: the page itself is unmapped, and yet the access is given its neighbour's
      address. */
  lemma CrossHitGoesWrong(s: MmuState, upper: set<nat>, va: nat, acc: Access)
    requires Coherent(s, upper) && Crosses(s, upper, va)
    requires TlbAllows(s.lines[IndexOf(s.lines, TagVpn(va))].flags, s.mode, acc)
    requires MapOf(s.mem, s.satp, Vpn(va)) == None
    ensures var home := MapOf(s.mem, s.satp, HomeVpn(upper, TagVpn(va)));
            home.Some? && Translate(s, va, acc).1 == Pa(PtePpn(home.value.pte) * PAGE + PageOffset(va))
    ensures Walk(s.mem, s.satp, s.mode, va, acc) == PageFault
  {
    var line, home := HomeOf(s, upper, va);
  }

  lemma HomeIsOwn(s: MmuState, upper: set<nat>, va: nat)
    requires Cached(s.lines, TagVpn(va)) && !Crosses(s, upper, va)
    ensures HomeVpn(upper, TagVpn(va)) == Vpn(va)
  {
    VpnSplit(va);
  }

  /** Agreement, exactly: on a coherent TLB, `get_pa` answers as the walk of current memory does,
      for every access type, privilege and address, if and only if the access is no deviating hit. */
  lemma AgreesIff(s: MmuState, upper: set<nat>, va: nat, acc: Access)
    requires Coherent(s, upper) && |s.mem| % PAGE == 0
    ensures Translate(s, va, acc).1 == Walk(s.mem, s.satp, s.mode, va, acc) <==> !Deviates(s, upper, va, acc)
  {
    if Cached(s.lines, TagVpn(va)) {
      if Crosses(s, upper, va) {
        TagDropsBit38(s, upper, va, acc);
      } else {
        HomeAgreesIff(s, upper, va, acc);
      }
    }
  }

  lemma HomeAgreesIff(s: MmuState, upper: set<nat>, va: nat, acc: Access)
    requires Coherent(s, upper) && |s.mem| % PAGE == 0
    requires Cached(s.lines, TagVpn(va)) && !Crosses(s, upper, va)
    ensures Translate(s, va, acc).1 == Walk(s.mem, s.satp, s.mode, va, acc) <==> !Deviates(s, upper, va, acc)
  {
    var line, home := HomeOf(s, upper, va);
    HomeIsOwn(s, upper, va);
    UsableIsPagewise(|s.mem|, home, va);
    HomeHit(line, home, |s.mem|, s.mode, va, acc);
  }

  /** Promoting a coherent line, marked, keeps a list coherent; so does adding a coherent one. */
  lemma PromoteKeeps(s: MmuState, upper: set<nat>, k: nat, acc: Access)
    requires Coherent(s, upper) && k < |s.lines|
    ensures Coherent(s.(lines := Promote(s.lines, k, AfterCheck(s.lines[k], s.mode, acc))), upper)
  {
    var line := AfterCheck(s.lines[k], s.mode, acc);
    var s' := s.(lines := Promote(s.lines, k, line));
    assert LineCoherent(s, upper, s.lines[k]);
    forall j | 0 <= j < |s'.lines| ensures LineCoherent(s', upper, s'.lines[j]) {
      PromoteAt(s.lines, k, line, j);
      if j > 0 { assert LineCoherent(s, upper, s.lines[Origin(k, j)]); }
    }
  }

  lemma InsertKeeps(s: MmuState, upper: set<nat>, line: Line)
    requires Coherent(s, upper) && LineCoherent(s, upper, line)
    ensures Coherent(s.(lines := Insert(s.lines, line, s.capacity)), upper)
  {
    var s' := s.(lines := Insert(s.lines, line, s.capacity));
    forall j | 0 <= j < |s'.lines| ensures LineCoherent(s', upper, s'.lines[j]) {
      if j > 0 { assert LineCoherent(s, upper, s.lines[j - 1]); }
    }
  }

  /** An access that misses decides the half of its tag. */
  function NextUpper(s: MmuState, upper: set<nat>, step: Step): set<nat> {
    if step.Access? && !Cached(s.lines, TagVpn(step.va)) then
      if UpperHalf(step.va) then upper + {TagVpn(step.va)} else upper - {TagVpn(step.va)}
    else upper
  }

  /** The halves after a run that starts with an empty TLB. */
  function UpperAfter(s: MmuState, steps: seq<Step>): set<nat> {
    if steps == [] then {}
    else
      var before := steps[..|steps| - 1];
      NextUpper(Run(s, before), UpperAfter(s, before), steps[|steps| - 1])
  }

  /** The half of a page that is not cached can be set at will. */
  lemma UncachedHalf(s: MmuState, upper: set<nat>, upper': set<nat>, tagVpn: nat)
    requires Coherent(s, upper) && !Cached(s.lines, tagVpn)
    requires forall t :: t != tagVpn ==> (t in upper <==> t in upper')
    ensures Coherent(s, upper')
  {
    forall i | 0 <= i < |s.lines| ensures LineCoherent(s, upper', s.lines[i]) {
      assert s.lines[i].vpn != tagVpn && LineCoherent(s, upper, s.lines[i]);
    }
  }

  /** A successful walk yields a coherent line. */
  lemma FilledIsCoherent(s: MmuState, upper: set<nat>, va: nat, acc: Access)
    requires SatpMode(s.satp) == 8 && (TagVpn(va) in upper) == UpperHalf(va) && |s.mem| % PAGE == 0
    requires Walk(s.mem, s.satp, s.mode, va, acc).Pa?
    ensures LineCoherent(s, upper, LineOf(TagVpn(va), MapOf(s.mem, s.satp, Vpn(va)).value.pte))
  {
    VpnSplit(va);
    UsableIsPagewise(|s.mem|, MapOf(s.mem, s.satp, Vpn(va)).value, va);
  }

  lemma TranslateKeeps(s: MmuState, upper: set<nat>, va: nat, acc: Access)
    requires Coherent(s, upper) && |s.mem| % PAGE == 0
    ensures Coherent(Translate(s, va, acc).0, NextUpper(s, upper, Step.Access(va, acc)))
  {
    var k, upper' := IndexOf(s.lines, TagVpn(va)), NextUpper(s, upper, Step.Access(va, acc));
    if k < |s.lines| {
      if SatpMode(s.satp) != 0 { PromoteKeeps(s, upper, k, acc); }
    } else {
      UncachedHalf(s, upper, upper', TagVpn(va));
      if SatpMode(s.satp) == 8 && Walk(s.mem, s.satp, s.mode, va, acc).Pa? {
        FilledIsCoherent(s, upper', va, acc);
        InsertKeeps(s, upper', LineOf(TagVpn(va), MapOf(s.mem, s.satp, Vpn(va)).value.pte));
      }
    }
  }

  /** A step that cannot make a cached page stale: a write that leaves alone every PTE the walks
      of the cached pages read, a satp write that changes nothing or finds the TLB empty. */
  predicate Harmless(s: MmuState, upper: set<nat>, step: Step) {
    match step
    case Write(off, bytes) =>
      forall i :: 0 <= i < |s.lines| ==>
        SamePtes(s.mem, Apply(s, step).mem, MapAddrs(s.mem, s.satp, HomeVpn(upper, s.lines[i].vpn)))
    case WriteSatp(value) => value == s.satp || s.lines == []
    case _ => true
  }

  lemma HarmlessKeeps(s: MmuState, upper: set<nat>, step: Step)
    requires Coherent(s, upper) && |s.mem| % PAGE == 0 && Harmless(s, upper, step)
    ensures Coherent(Apply(s, step), NextUpper(s, upper, step))
  {
    match step
    case Access(va, acc) => TranslateKeeps(s, upper, va, acc);
    case Write(off, bytes) => WriteKeeps(s, upper, step);
    case SetPrivilege(p) =>
      forall i | 0 <= i < |s.lines| ensures LineCoherent(Apply(s, step), upper, s.lines[i]) {
        assert LineCoherent(s, upper, s.lines[i]);
      }
    case WriteSatp(value) =>
      if value == s.satp { assert Apply(s, step) == s; }
    case Sfence =>
  }

  lemma WriteKeeps(s: MmuState, upper: set<nat>, step: Step)
    requires Coherent(s, upper) && step.Write? && Harmless(s, upper, step)
    ensures Coherent(Apply(s, step), upper)
  {
    var s' := Apply(s, step);
    forall i | 0 <= i < |s.lines| ensures LineCoherent(s', upper, s.lines[i]) {
      assert LineCoherent(s, upper, s.lines[i]);
      WalkDependsOnPath(s.mem, s'.mem, RootTable(s.satp), HomeVpn(upper, s.lines[i].vpn), LEVELS - 1);
    }
  }

  /** A write away from every PTE on the paths of all cached pages is harmless: no sfence needed. */
  lemma DisjointWriteIsHarmless(s: MmuState, upper: set<nat>, off: nat, bytes: seq<Byte>)
    requires forall i :: 0 <= i < |s.lines| ==>
      MissesPtes(MapAddrs(s.mem, s.satp, HomeVpn(upper, s.lines[i].vpn)), off, |bytes|)
    ensures Harmless(s, upper, Step.Write(off, bytes))
  {
    if off + |bytes| <= |s.mem| {
      forall i | 0 <= i < |s.lines|
        ensures SamePtes(s.mem, Splice(s.mem, off, bytes), MapAddrs(s.mem, s.satp, HomeVpn(upper, s.lines[i].vpn)))
      {
        MissedPtesStay(s.mem, MapAddrs(s.mem, s.satp, HomeVpn(upper, s.lines[i].vpn)), off, bytes);
      }
    }
  }

  /** Whether some step since the last sfence.vma was not harmless. */
  predicate Stale(s: MmuState, steps: seq<Step>) {
    if steps == [] then false
    else
      var before, last := steps[..|steps| - 1], steps[|steps| - 1];
      !last.Sfence? && (Stale(s, before) || !Harmless(Run(s, before), UpperAfter(s, before), last))
  }

  lemma {:induction false} RunIsCoherent(s: MmuState, steps: seq<Step>)
    requires s.lines == [] && |s.mem| % PAGE == 0 && !Stale(s, steps)
    ensures Coherent(Run(s, steps), UpperAfter(s, steps))
  {
    if steps != [] {
      var before, last := steps[..|steps| - 1], steps[|steps| - 1];
      if !last.Sfence? {
        RunIsCoherent(s, before);
        HarmlessKeeps(Run(s, before), UpperAfter(s, before), last);
      }
    }
  }

  /** TLB coherence over runs. Start with an empty TLB and let any steps follow, at any addresses.
      If nothing made a cached page stale since the last flush, the next access is answered exactly
      as by the walk of current memory if and only if it is no deviating hit. */
  lemma RunAgreesWithWalk(s: MmuState, steps: seq<Step>, va: nat, acc: Access)
    requires s.lines == [] && |s.mem| % PAGE == 0 && !Stale(s, steps)
    ensures var e := Run(s, steps);
            Translate(e, va, acc).1 == Walk(e.mem, e.satp, e.mode, va, acc)
            <==> !Deviates(e, UpperAfter(s, steps), va, acc)
  {
    RunIsCoherent(s, steps);
    AgreesIff(Run(s, steps), UpperAfter(s, steps), va, acc);
  }

  /** The shortest run that goes wrong: from an empty TLB one access that the walk grants, then the
      same kind of access to the unmapped page across bit 38. Nothing went stale, yet the second is
      granted, at its neighbour's page, where the walk faults. */
  lemma CrossRun(s: MmuState, va: nat, twin: nat, acc: Access)
    requires s.lines == [] && |s.mem| % PAGE == 0 && SatpMode(s.satp) == 8
    requires TagVpn(twin) == TagVpn(va) && UpperHalf(twin) != UpperHalf(va)
    requires Walk(s.mem, s.satp, s.mode, va, acc).Pa? && MapOf(s.mem, s.satp, Vpn(twin)) == None
    ensures var steps := [Access(va, acc)];
            var e := Run(s, steps);
            && !Stale(s, steps) && Crosses(e, UpperAfter(s, steps), twin)
            && Translate(e, twin, acc).1 == Pa(PtePpn(MapOf(s.mem, s.satp, Vpn(va)).value.pte) * PAGE + PageOffset(twin))
            && Walk(e.mem, e.satp, e.mode, twin, acc) == PageFault
  {
    var steps := [Access(va, acc)];
    var e := FirstFill(s, va, acc);
    assert steps[..0] == [] && Run(s, steps[..0]) == s && UpperAfter(s, steps[..0]) == {} && !Stale(s, steps[..0]);
    assert Run(s, steps) == e;
    IndexIs(e.lines, TagVpn(twin), 0);
    assert UpperAfter(s, steps) == NextUpper(s, {}, steps[0]);
  }

  lemma FirstFill(s: MmuState, va: nat, acc: Access) returns (e: MmuState)
    requires s.lines == [] && SatpMode(s.satp) == 8 && Walk(s.mem, s.satp, s.mode, va, acc).Pa?
    ensures e == Apply(s, Access(va, acc)) && MapOf(s.mem, s.satp, Vpn(va)).Some?
    ensures var pte := MapOf(s.mem, s.satp, Vpn(va)).value.pte;
            e == s.(lines := [LineOf(TagVpn(va), pte)]) && TlbAllows(PteFlags(pte), s.mode, acc)
  {
    LeafIsSound(s.mem, RootTable(s.satp), Vpn(va), LEVELS - 1);
    e := Apply(s, Access(va, acc));
  }

  /** With SUM clear, as the emulator keeps it, and the page mapped by a 4 KiB leaf, agreement is
      unconditional for every access that does not hit a line filled across bit 38. */
  lemma RunAgreesOnPages(s: MmuState, steps: seq<Step>, va: nat, acc: Access)
    requires s.lines == [] && |s.mem| % PAGE == 0 && !Stale(s, steps) && !s.mode.sum
    requires !Crosses(Run(s, steps), UpperAfter(s, steps), va)
    requires var leaf := MapOf(Run(s, steps).mem, Run(s, steps).satp, Vpn(va)); leaf.Some? ==> leaf.value.level == 0
    ensures var e := Run(s, steps);
            Translate(e, va, acc).1 == Walk(e.mem, e.satp, e.mode, va, acc)
  {
    RunAgreesWithWalk(s, steps, va, acc);
    SumIsConstant(s, steps);
    if Cached(Run(s, steps).lines, TagVpn(va)) { HomeIsOwn(Run(s, steps), UpperAfter(s, steps), va); }
  }

  lemma {:induction false} SumIsConstant(s: MmuState, steps: seq<Step>)
    ensures Run(s, steps).mode.sum == s.mode.sum && Run(s, steps).mode.mxr == s.mode.mxr
  {
    if steps != [] { SumIsConstant(s, steps[..|steps| - 1]); }
  }

  predicate InHalf(steps: seq<Step>, half: bool) {
    forall i :: 0 <= i < |steps| && steps[i].Access? ==> UpperHalf(steps[i].va) == half
  }

  /** A run whose accesses all lie in one half of the address space never crosses. */
  lemma {:induction false} OneHalfNeverCrosses(s: MmuState, steps: seq<Step>, half: bool)
    requires s.lines == [] && InHalf(steps, half)
    ensures forall i :: 0 <= i < |Run(s, steps).lines| ==> (Run(s, steps).lines[i].vpn in UpperAfter(s, steps)) == half
    ensures forall va: nat :: UpperHalf(va) == half ==> !Crosses(Run(s, steps), UpperAfter(s, steps), va)
  {
    if steps != [] {
      var before, last := steps[..|steps| - 1], steps[|steps| - 1];
      assert forall i :: 0 <= i < |before| ==> before[i] == steps[i];
      OneHalfNeverCrosses(s, before, half);
      OneHalfStep(Run(s, before), UpperAfter(s, before), last, half);
    }
  }

  lemma OneHalfStep(s: MmuState, upper: set<nat>, step: Step, half: bool)
    requires forall i :: 0 <= i < |s.lines| ==> (s.lines[i].vpn in upper) == half
    requires step.Access? ==> UpperHalf(step.va) == half
    ensures var s', upper' := Apply(s, step), NextUpper(s, upper, step);
            forall i :: 0 <= i < |s'.lines| ==> (s'.lines[i].vpn in upper') == half
  {
    if step.Access? {
      var s', upper' := Apply(s, step), NextUpper(s, upper, step);
      forall i | 0 <= i < |s'.lines| ensures (s'.lines[i].vpn in upper') == half {
        var j := LineOrigin(s, step.va, step.acc, i);
      }
    }
  }

  /** Every line after an access is one of before or that of the page accessed, which was not there. */
  lemma LineOrigin(s: MmuState, va: nat, acc: Access, i: nat) returns (j: nat)
    requires i < |Translate(s, va, acc).0.lines|
    ensures var vpn := Translate(s, va, acc).0.lines[i].vpn;
            (j < |s.lines| && s.lines[j].vpn == vpn) || (vpn == TagVpn(va) && !Cached(s.lines, vpn))
  {
    AccessLines(s, va, acc);
    var k := IndexOf(s.lines, TagVpn(va));
    j := i;
    if Touched(s, Step.Access(va, acc)) != None {
      if k < |s.lines| {
        PromoteAt(s.lines, k, AfterCheck(s.lines[k], s.mode, acc), i);
        j := Origin(k, i);
      } else if i > 0 {
        j := i - 1;
      }
    }
  }

  // ---- Why the conditions are needed --------------------------------------------------------

  /** A satp write without a flush: the hit survives although the new tables map nothing. */
  lemma SatpWriteNeedsFlush(s: MmuState, value: nat, va: nat, acc: Access)
    requires SatpMode(s.satp) == 8 && Cached(s.lines, TagVpn(va))
    requires TlbAllows(s.lines[IndexOf(s.lines, TagVpn(va))].flags, s.mode, acc)
    requires SatpMode(value) == 8 && RootTable(value) >= MEMORY_BASE + |s.mem|
    ensures var s' := Apply(s, WriteSatp(value));
            Translate(s', va, acc).1.Pa? && Walk(s'.mem, s'.satp, s'.mode, va, acc) == PageFault
  {
    assert ReadPte(s.mem, RootTable(value) + Index(Vpn(va), 2) * 8) == 0;
    assert MapOf(s.mem, value, Vpn(va)) == FromPte(s.mem, 0, Vpn(va), 2) == None;
  }

  // ---- Recency ------------------------------------------------------------------------------

  predicate WellFormed(s: MmuState) {
    && s.capacity > 0 && |s.lines| <= s.capacity
    && forall i, j :: 0 <= i < j < |s.lines| ==> s.lines[i].vpn != s.lines[j].vpn
  }

  /** The page a step hits or fills, if any. */
  function Touched(s: MmuState, step: Step): Option<nat> {
    if step.Access? && SatpMode(s.satp) != 0
       && (Cached(s.lines, TagVpn(step.va))
           || (SatpMode(s.satp) == 8 && Walk(s.mem, s.satp, s.mode, step.va, step.acc).Pa?))
    then Some(TagVpn(step.va)) else None
  }

  /** The pages touched along a run. */
  function TouchedSet(s: MmuState, steps: seq<Step>): set<nat> {
    if steps == [] then {}
    else
      var t := Touched(Run(s, steps[..|steps| - 1]), steps[|steps| - 1]);
      TouchedSet(s, steps[..|steps| - 1]) + if t.Some? then {t.value} else {}
  }

  lemma AccessLines(s: MmuState, va: nat, acc: Access)
    ensures var s' := Translate(s, va, acc).0; var t := Touched(s, Step.Access(va, acc));
      if t == None then s'.lines == s.lines
      else
        var k := IndexOf(s.lines, t.value);
        if k < |s.lines| then s'.lines == Promote(s.lines, k, AfterCheck(s.lines[k], s.mode, acc))
        else exists line: Line :: line.vpn == t.value && s'.lines == Insert(s.lines, line, s.capacity)
  {
    var t := Touched(s, Step.Access(va, acc));
    if t != None && IndexOf(s.lines, t.value) == |s.lines| {
      var line := LineOf(TagVpn(va), MapOf(s.mem, s.satp, Vpn(va)).value.pte);
      assert line.vpn == t.value && Translate(s, va, acc).0.lines == Insert(s.lines, line, s.capacity);
    }
  }

  lemma PromoteWellFormed(s: MmuState, k: nat, line: Line)
    requires WellFormed(s) && k < |s.lines| && line.vpn == s.lines[k].vpn
    ensures WellFormed(s.(lines := Promote(s.lines, k, line)))
  {
    var s' := s.(lines := Promote(s.lines, k, line));
    forall i, j | 0 <= i < j < |s'.lines| ensures s'.lines[i].vpn != s'.lines[j].vpn {
      PromoteAt(s.lines, k, line, i);
      PromoteAt(s.lines, k, line, j);
    }
  }

  lemma InsertWellFormed(s: MmuState, line: Line)
    requires WellFormed(s) && !Cached(s.lines, line.vpn)
    ensures WellFormed(s.(lines := Insert(s.lines, line, s.capacity)))
  {
    var s' := s.(lines := Insert(s.lines, line, s.capacity));
    assert forall j :: 1 <= j < |s'.lines| ==> s'.lines[j] == s.lines[j - 1];
  }

  lemma ApplyWellFormed(s: MmuState, step: Step)
    requires WellFormed(s)
    ensures WellFormed(Apply(s, step))
  {
    if step.Access? {
      AccessLines(s, step.va, step.acc);
      var s', t := Translate(s, step.va, step.acc).0, Touched(s, step);
      assert s' == s.(lines := s'.lines);
      if t.Some? {
        var k := IndexOf(s.lines, t.value);
        if k < |s.lines| {
          PromoteWellFormed(s, k, AfterCheck(s.lines[k], s.mode, step.acc));
        } else {
          var line: Line :| line.vpn == t.value && s'.lines == Insert(s.lines, line, s.capacity);
          InsertWellFormed(s, line);
        }
      }
    }
  }

  lemma {:induction false} RunWellFormed(s: MmuState, steps: seq<Step>)
    requires WellFormed(s)
    ensures WellFormed(Run(s, steps))
  {
    if steps != [] {
      RunWellFormed(s, steps[..|steps| - 1]);
      ApplyWellFormed(Run(s, steps[..|steps| - 1]), steps[|steps| - 1]);
    }
  }

  /** The pages of the first n lines. */
  function Pages(lines: seq<Line>, n: nat): set<nat>
    requires n <= |lines|
  {
    set i | 0 <= i < n :: lines[i].vpn
  }

  /** The pages more recent than page p. */
  function Newer(lines: seq<Line>, p: nat): set<nat> { Pages(lines, IndexOf(lines, p)) }

  /** The page is cached, and everything newer is in `t`. */
  predicate Recent(s: MmuState, p: nat, t: set<nat>) {
    Cached(s.lines, p) && Newer(s.lines, p) <= t - {p}
  }

  lemma {:induction false} DistinctCount(lines: seq<Line>, n: nat)
    requires n <= |lines| && forall i, j :: 0 <= i < j < |lines| ==> lines[i].vpn != lines[j].vpn
    ensures |Pages(lines, n)| == n
  {
    if n > 0 {
      DistinctCount(lines, n - 1);
      assert Pages(lines, n) == Pages(lines, n - 1) + {lines[n - 1].vpn};
      assert lines[n - 1].vpn !in Pages(lines, n - 1);
    }
  }

  lemma SubsetCount(a: set<nat>, b: set<nat>)
    requires a <= b
    ensures |a| <= |b|
  {
    assert b == a + (b - a);
  }

  lemma PromoteRecent(s: MmuState, p: nat, t: set<nat>, k: nat, line: Line)
    requires WellFormed(s) && Recent(s, p, t) && k < |s.lines| && line.vpn == s.lines[k].vpn
    ensures Recent(s.(lines := Promote(s.lines, k, line)), p, t + {line.vpn})
  {
    var lines, lines' := s.lines, Promote(s.lines, k, line);
    var i := IndexOf(lines, p);
    forall j | 0 <= j < |lines| ensures lines'[j] == if j == 0 then line else lines[Origin(k, j)] {
      PromoteAt(lines, k, line, j);
    }
    if i == k {
      IndexIs(lines', p, 0);
    } else {
      var i' := if i < k then i + 1 else i;
      assert Origin(k, i') == i;
      IndexIs(lines', p, i');
      forall j | 0 <= j < i' ensures lines'[j].vpn in (t + {line.vpn}) - {p} {
        if j > 0 {
          assert Origin(k, j) < i;
          assert lines[Origin(k, j)].vpn in Newer(lines, p);
        }
      }
    }
  }

  /** While few pages have been touched, page p is not the oldest of a full TLB. */
  lemma NotLast(s: MmuState, p: nat, t: set<nat>, line: Line)
    requires WellFormed(s) && Recent(s, p, t) && !Cached(s.lines, line.vpn)
    requires |(t + {line.vpn}) - {p}| < s.capacity
    ensures |s.lines| < s.capacity || IndexOf(s.lines, p) < |s.lines| - 1
  {
    var lines, i := s.lines, IndexOf(s.lines, p);
    if |lines| == s.capacity && i == |lines| - 1 {
      DistinctCount(lines, i);
      assert line.vpn !in Newer(lines, p);
      assert |Newer(lines, p) + {line.vpn}| == s.capacity;
      SubsetCount(Newer(lines, p) + {line.vpn}, (t + {line.vpn}) - {p});
    }
  }

  lemma InsertRecent(s: MmuState, p: nat, t: set<nat>, line: Line)
    requires WellFormed(s) && Recent(s, p, t) && !Cached(s.lines, line.vpn)
    requires |(t + {line.vpn}) - {p}| < s.capacity
    ensures Recent(s.(lines := Insert(s.lines, line, s.capacity)), p, t + {line.vpn})
  {
    var lines, lines' := s.lines, Insert(s.lines, line, s.capacity);
    var i := IndexOf(lines, p);
    NotLast(s, p, t, line);
    assert forall j :: 1 <= j < |lines'| ==> lines'[j] == lines[j - 1];
    IndexIs(lines', p, i + 1);
    forall j | 0 <= j < i + 1 ensures lines'[j].vpn in (t + {line.vpn}) - {p} {
      if j > 0 { assert lines[j - 1].vpn in Newer(lines, p); }
    }
  }

  lemma StepRecent(s: MmuState, p: nat, t: set<nat>, step: Step)
    requires WellFormed(s) && Recent(s, p, t) && !step.Sfence?
    requires var q := Touched(s, step); q.Some? ==> |(t + {q.value}) - {p}| < s.capacity
    ensures var q := Touched(s, step); Recent(Apply(s, step), p, if q.Some? then t + {q.value} else t)
  {
    var q := Touched(s, step);
    if step.Access? && q.Some? {
      AccessLines(s, step.va, step.acc);
      var s', k := Apply(s, step), IndexOf(s.lines, q.value);
      if k < |s.lines| {
        PromoteRecent(s, p, t, k, AfterCheck(s.lines[k], s.mode, step.acc));
      } else {
        var line: Line :| line.vpn == q.value && s'.lines == Insert(s.lines, line, s.capacity);
        InsertRecent(s, p, t, line);
      }
    }
  }

  lemma {:induction false} RunRecent(s: MmuState, p: nat, steps: seq<Step>)
    requires WellFormed(s) && Recent(s, p, {})
    requires forall i :: 0 <= i < |steps| ==> !steps[i].Sfence?
    requires |TouchedSet(s, steps) - {p}| < s.capacity
    ensures WellFormed(Run(s, steps)) && Recent(Run(s, steps), p, TouchedSet(s, steps))
  {
    if steps != [] {
      var before, last := steps[..|steps| - 1], steps[|steps| - 1];
      assert forall i :: 0 <= i < |before| ==> before[i] == steps[i];
      SubsetCount(TouchedSet(s, before) - {p}, TouchedSet(s, steps) - {p});
      RunRecent(s, p, before);
      StepRecent(Run(s, before), p, TouchedSet(s, before), last);
      ApplyWellFormed(Run(s, before), last);
    }
  }

  lemma JustTouched(s: MmuState, va: nat, acc: Access) returns (s': MmuState)
    requires WellFormed(s) && Touched(s, Step.Access(va, acc)).Some?
    ensures s' == Translate(s, va, acc).0 && s'.capacity == s.capacity
    ensures WellFormed(s') && Recent(s', TagVpn(va), {})
  {
    s' := Translate(s, va, acc).0;
    ApplyWellFormed(s, Step.Access(va, acc));
    AccessLines(s, va, acc);
    assert s'.lines[0].vpn == TagVpn(va);
    IndexIs(s'.lines, TagVpn(va), 0);
  }

  /** Working set: a page just touched stays cached as long as no flush happens and fewer other
      pages than the TLB has slots are touched. */
  lemma WorkingSet(s: MmuState, va: nat, acc: Access, steps: seq<Step>)
    requires WellFormed(s) && Touched(s, Step.Access(va, acc)).Some?
    requires forall i :: 0 <= i < |steps| ==> !steps[i].Sfence?
    requires |TouchedSet(Translate(s, va, acc).0, steps) - {TagVpn(va)}| < s.capacity
    ensures Cached(Run(Translate(s, va, acc).0, steps).lines, TagVpn(va))
  {
    var s' := JustTouched(s, va, acc);
    RunRecent(s', TagVpn(va), steps);
  }

  lemma PromoteCaches(lines: seq<Line>, k: nat, line: Line, p: nat)
    requires k < |lines| && line.vpn == lines[k].vpn && Cached(lines, p)
    ensures Cached(Promote(lines, k, line), p)
  {
    var i := IndexOf(lines, p);
    var i' := if i == k then 0 else if i < k then i + 1 else i;
    PromoteAt(lines, k, line, i');
  }

  lemma InsertEvicts(lines: seq<Line>, line: Line, capacity: nat, p: nat)
    requires Cached(lines, p)
    ensures Cached(Insert(lines, line, capacity), p)
         || (|lines| >= capacity && IndexOf(lines, p) == |lines| - 1)
  {
    var i := IndexOf(lines, p);
    if |lines| < capacity || i < |lines| - 1 {
      assert Insert(lines, line, capacity)[i + 1] == lines[i];
    }
  }

  /** A page leaves the TLB in an access only if every slot was in use, and then it was the least
      recent one. */
  lemma EvictionIsForced(s: MmuState, va: nat, acc: Access, p: nat)
    requires WellFormed(s) && Cached(s.lines, p) && !Cached(Translate(s, va, acc).0.lines, p)
    ensures |s.lines| == s.capacity && s.lines[s.capacity - 1].vpn == p && !Cached(s.lines, TagVpn(va))
  {
    AccessLines(s, va, acc);
    var s', t := Translate(s, va, acc).0, Touched(s, Step.Access(va, acc));
    var k := IndexOf(s.lines, t.value);
    if k < |s.lines| {
      PromoteCaches(s.lines, k, AfterCheck(s.lines[k], s.mode, acc), p);
    } else {
      var line: Line :| line.vpn == t.value && s'.lines == Insert(s.lines, line, s.capacity);
      InsertEvicts(s.lines, line, s.capacity, p);
    }
  }

  // ---- Store then load ----------------------------------------------------------------------

  /** No line is writable without being readable, which the walk refuses to produce. */
  predicate WriteNeedsRead(lines: seq<Line>) {
    forall i :: 0 <= i < |lines| ==> lines[i].flags.v && (lines[i].flags.w ==> lines[i].flags.r)
  }

  /** A page that can be stored to can be loaded from, at the same physical address. */
  lemma StoreThenTranslate(s: MmuState, va: nat, mem: seq<Byte>)
    requires s.capacity > 0 && WriteNeedsRead(s.lines) && |mem| == |s.mem|
    requires Translate(s, va, Store).1.Pa? && InDram(|s.mem|, Translate(s, va, Store).1.pa, 8)
    ensures Translate(Translate(s, va, Store).0.(mem := mem), va, Load).1 == Translate(s, va, Store).1
  {
    var (s', t) := Translate(s, va, Store);
    AccessLines(s, va, Store);
    var k := IndexOf(s.lines, TagVpn(va));
    if SatpMode(s.satp) != 0 && (k < |s.lines| || SatpMode(s.satp) == 8) {
      if k == |s.lines| {
        LeafIsSound(s.mem, RootTable(s.satp), Vpn(va), LEVELS - 1);
      }
      IndexIs(s'.lines, TagVpn(va), 0);
      assert HitResult(s'.lines[0], s.mode, va, Load) == t;
    }
  }

  /** After a successful SD, an LD of the same address does not fault and returns the stored
      64 bits, even if the store overwrote the page's own PTE. */
  lemma StoreThenLoad(s: MmuState, va: nat, value: nat)
    requires s.capacity > 0 && WriteNeedsRead(s.lines)
    requires Store64(s, va, value).1.Pa? && InDram(|s.mem|, Store64(s, va, value).1.pa, 8)
    ensures var (s', t) := Store64(s, va, value);
            Load64(s', va).1 == t && Load64(s', va).2 == value % 0x1_0000_0000_0000_0000
  {
    var (s', t) := Store64(s, va, value);
    var off := t.pa - MEMORY_BASE;
    var mem := Splice(s.mem, off, LeBytes(value, 8));
    StoreThenTranslate(s, va, mem);
    SpliceSame(s.mem, off, LeBytes(value, 8));
    LeAtIsValue(mem, off, 8);
    LeRoundTrip(value, 8);
    assert Pow256(8) == 0x1_0000_0000_0000_0000;
  }

  /** A store through translation is an access and a write of a run. */
  lemma StoreIsTwoSteps(s: MmuState, va: nat, value: nat)
    requires Store64(s, va, value).1.Pa? && InDram(|s.mem|, Store64(s, va, value).1.pa, 8)
    ensures Store64(s, va, value).0
         == Run(s, [Access(va, Store), Step.Write(Store64(s, va, value).1.pa - MEMORY_BASE, LeBytes(value, 8))])
  {
    var write := Step.Write(Store64(s, va, value).1.pa - MEMORY_BASE, LeBytes(value, 8));
    var steps := [Access(va, Store), write];
    assert steps[..1] == [Access(va, Store)] && steps[..1][..0] == [];
    assert Run(s, steps[..1]) == Apply(s, Access(va, Store));
  }
}
