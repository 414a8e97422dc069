/** The TLB as an abstract recency list, newest line first, and address translation over it. */
module TlbModel {
  import opened Options
  import opened Bytes
  import opened Memory
  import opened Sv39

  datatype Line = Line(vpn: nat, ppn: nat, flags: Flags)

  function LineOf(vpn: nat, pte: nat): Line {
    Line(vpn, PtePpn(pte), PteFlags(pte))
  }

  /** Position of the line for a page; |lines| when there is none. */
  function IndexOf(lines: seq<Line>, vpn: nat): (i: nat)
    ensures i <= |lines|
    ensures i < |lines| ==> lines[i].vpn == vpn
    ensures forall j :: 0 <= j < i ==> lines[j].vpn != vpn
  {
    if lines == [] || lines[0].vpn == vpn then 0 else 1 + IndexOf(lines[1..], vpn)
  }

  predicate Cached(lines: seq<Line>, vpn: nat) { IndexOf(lines, vpn) < |lines| }

  /** Line `i` becomes the newest and is replaced by `line`. */
  function Promote(lines: seq<Line>, i: nat, line: Line): seq<Line>
    requires i < |lines|
  {
    [line] + lines[..i] + lines[i + 1..]
  }

  /** Where position `j` after promoting `k` was before. */
  function Origin(k: nat, j: nat): nat {
    if j == 0 then k else if j <= k then j - 1 else j
  }

  lemma PromoteAt(lines: seq<Line>, k: nat, line: Line, j: nat)
    requires k < |lines| && j < |lines|
    ensures Promote(lines, k, line)[j] == if j == 0 then line else lines[Origin(k, j)]
  {}

  lemma IndexIs(lines: seq<Line>, vpn: nat, k: nat)
    requires k < |lines| && lines[k].vpn == vpn
    requires forall j :: 0 <= j < k ==> lines[j].vpn != vpn
    ensures IndexOf(lines, vpn) == k
  {}

  /** A new line in front; the oldest one leaves only if the list is full. */
  function Insert(lines: seq<Line>, line: Line, capacity: nat): seq<Line> {
    [line] + if |lines| < capacity || lines == [] then lines else lines[..|lines| - 1]
  }

  /** The A and D bits a permitted access sets in the TLB copy. */
  function Mark(f: Flags, acc: Access): Flags {
    f.(a := true, d := f.d || acc == Store)
  }

  function AfterCheck(line: Line, m: Mode, acc: Access): Line {
    if TlbAllows(line.flags, m, acc) then line.(flags := Mark(line.flags, acc)) else line
  }

  datatype MmuState = MmuState(mem: seq<Byte>, satp: nat, mode: Mode, lines: seq<Line>, capacity: nat)

  /** Translation on a hit: the line alone decides. */
  function HitResult(line: Line, m: Mode, va: nat, acc: Access): Translation {
    if TlbAllows(line.flags, m, acc) then Pa(line.ppn * PAGE + PageOffset(va)) else PageFault
  }

  /** `tlb_lookup`: the new list, and the answer of a hit. */
  function Lookup(lines: seq<Line>, m: Mode, va: nat, acc: Access): (seq<Line>, Option<Translation>) {
    var i := IndexOf(lines, TagVpn(va));
    if i == |lines| then (lines, None)
    else (Promote(lines, i, AfterCheck(lines[i], m, acc)), Some(HitResult(lines[i], m, va, acc)))
  }

  /** A miss: the walk decides, and its success fills the TLB. */
  function Fill(s: MmuState, va: nat, acc: Access): (seq<Line>, Translation) {
    var t := Walk(s.mem, s.satp, s.mode, va, acc);
    if t.Pa? && SatpMode(s.satp) == 8
    then (Insert(s.lines, LineOf(TagVpn(va), MapOf(s.mem, s.satp, Vpn(va)).value.pte), s.capacity), t)
    else (s.lines, t)
  }

  lemma FillOfLeaf(s: MmuState, va: nat, acc: Access, leaf: Leaf)
    requires SatpMode(s.satp) == 8 && MapOf(s.mem, s.satp, Vpn(va)) == Some(leaf)
    ensures var usable := WalkAllows(PteFlags(leaf.pte), s.mode, acc) && Usable(|s.mem|, leaf, PageOffset(va));
            && Fill(s, va, acc).0 == (if usable then Insert(s.lines, LineOf(TagVpn(va), leaf.pte), s.capacity) else s.lines)
            && Fill(s, va, acc).1 == (if usable then Pa(LeafPa(leaf, PageOffset(va))) else PageFault)
  {}

  /** `get_pa`: TLB first, then the walk. */
  function Translate(s: MmuState, va: nat, acc: Access): (MmuState, Translation) {
    if SatpMode(s.satp) == 0 then (s, Pa(va))
    else
      var (lines, hit) := Lookup(s.lines, s.mode, va, acc);
      if hit.Some? then (s.(lines := lines), hit.value)
      else
        var (filled, t) := Fill(s, va, acc);
        (s.(lines := filled), t)
  }

  lemma OnlyLines(s: MmuState, va: nat, acc: Access)
    ensures Translate(s, va, acc).0 == s.(lines := Translate(s, va, acc).0.lines)
  {}

  /** A 64-bit store: translate, then write through the bus; after a fault the bus gets address 0,
      which is not in DRAM. */
  function Store64(s: MmuState, va: nat, value: nat): (MmuState, Translation) {
    var (s', t) := Translate(s, va, Store);
    (if t.Pa? then s'.(mem := DramWrite(s'.mem, t.pa, value, 8)) else s', t)
  }

  /** A 64-bit load: translate, then read through the bus. */
  function Load64(s: MmuState, va: nat): (MmuState, Translation, nat) {
    var (s', t) := Translate(s, va, Load);
    (s', t, if t.Pa? then DramRead(s'.mem, t.pa, 8) else 0)
  }
}
