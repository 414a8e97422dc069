/** The used ring as a driver reads it. An element's id has 32 bits in the VIRTIO standard, version
    1.1, section 2.6.8; the device writes 16 of them. */
module VirtioUsed {
  import opened Bytes
  import opened Memory
  import opened VirtioModel
  import opened VirtioRings
  import opened VirtioRuns

  /** The id as the driver reads it, and the half of it that the device does not write. */
  function UsedId(mem: seq<Byte>, cfg: Config, i: nat): nat { DramRead(mem, UsedElem(cfg, i), 4) }

  function UsedHigh(mem: seq<Byte>, cfg: Config, i: nat): nat { DramRead(mem, UsedElem(cfg, i) + 2, 2) }

  lemma TwoHalves(m: seq<Byte>, o: nat)
    requires o + 4 <= |m|
    ensures LeAt(m, o, 4) == LeAt(m, o, 2) + 0x1_0000 * LeAt(m, o + 2, 2)
  {
    assert LeAt(m, o, 4) == m[o] + 256 * LeAt(m, o + 1, 3);
    assert LeAt(m, o + 1, 3) == m[o + 1] + 256 * LeAt(m, o + 2, 2);
    assert LeAt(m, o, 2) == m[o] + 256 * LeAt(m, o + 1, 1);
    assert LeAt(m, o + 1, 1) == m[o + 1] + 256 * LeAt(m, o + 2, 0);
  }

  lemma IdHalves(mem: seq<Byte>, cfg: Config, i: nat)
    requires Layout(|mem|, cfg) && i < cfg.queueNum
    ensures UsedId(mem, cfg, i) == UsedSlot(mem, cfg, i) + 0x1_0000 * UsedHigh(mem, cfg, i)
  {
    var a, b, c := UsedPlaces(|mem|, cfg, i, i);
    TwoHalves(mem, a - MEMORY_BASE);
  }

  predicate SameHighs(mem: seq<Byte>, mem': seq<Byte>, cfg: Config) {
    |mem'| == |mem| && forall i :: 0 <= i < cfg.queueNum ==> UsedHigh(mem', cfg, i) == UsedHigh(mem, cfg, i)
  }

  // ---- Nobody writes the upper halves ---------------------------------------------------------

  /** Where the upper half of an id stands, seen from the places an element is written to. */
  lemma HighPlaces(size: nat, cfg: Config, slot: nat, i: nat) returns (a: nat, b: nat, c: nat)
    requires Layout(size, cfg) && slot < cfg.queueNum && i < cfg.queueNum
    ensures a == UsedElem(cfg, slot) && b == cfg.usedRing + 2 && c == UsedElem(cfg, i) + 2
    ensures InDram(size, a, 2) && InDram(size, a + 4, 4) && InDram(size, b, 2) && InDram(size, c, 2)
    ensures Apart(a, 2, c, 2) && Apart(a + 4, 4, c, 2) && Apart(b, 2, c, 2)
  {
    a, b, c := UsedElem(cfg, slot), cfg.usedRing + 2, UsedElem(cfg, i) + 2;
  }

  lemma PushLeavesHigh(mem: seq<Byte>, cfg: Config, slot: nat, head: nat, idx: nat, i: nat)
    requires Layout(|mem|, cfg) && slot < cfg.queueNum && i < cfg.queueNum
    ensures UsedHigh(PushUsedAt(mem, cfg, slot, head, idx), cfg, i) == UsedHigh(mem, cfg, i)
  {
    var a, b, c := HighPlaces(|mem|, cfg, slot, i);
    var mem1 := Beside(mem, a, head, 2, c);
    var mem2 := Beside(mem1, a + 4, 512, 4, c);
    var mem3 := Beside(mem2, b, idx, 2, c);
  }

  lemma PushKeepsHighs(mem: seq<Byte>, cfg: Config, head: nat) returns (mem': seq<Byte>)
    requires Layout(|mem|, cfg)
    ensures mem' == PushUsed(mem, cfg, head) && SameHighs(mem, mem', cfg)
  {
    var idx := UsedIdx(mem, cfg);
    mem' := PushUsed(mem, cfg, head);
    forall i | 0 <= i < cfg.queueNum ensures UsedHigh(mem', cfg, i) == UsedHigh(mem, cfg, i) {
      PushLeavesHigh(mem, cfg, idx % cfg.queueNum, head, (idx + 1) % IDX, i);
    }
  }

  lemma SameRingSameHighs(mem: seq<Byte>, mem': seq<Byte>, cfg: Config)
    requires Layout(|mem|, cfg) && SameAt(mem, mem', cfg.usedRing, UsedLen(cfg))
    ensures SameHighs(mem, mem', cfg)
  {
    forall i | 0 <= i < cfg.queueNum ensures UsedHigh(mem', cfg, i) == UsedHigh(mem, cfg, i) {
      SameRead(mem, mem', cfg.usedRing, UsedLen(cfg), UsedElem(cfg, i) + 2, 2);
    }
  }

  lemma SameHighsTrans(mem: seq<Byte>, mem': seq<Byte>, mem'': seq<Byte>, cfg: Config)
    requires SameHighs(mem, mem', cfg) && SameHighs(mem', mem'', cfg)
    ensures SameHighs(mem, mem'', cfg)
  {}

  lemma CompleteKeepsHighs(d: Dev, op: Op) returns (d': Dev)
    requires WellFormedDev(d) && Layout(|d.mem|, d.cfg) && CompletesCleanly(d, op)
    ensures d' == Complete(d, op) && SameHighs(d.mem, d'.mem, d.cfg)
  {
    var chain := ChainOf(d, op.head).value;
    var mem1 := StatusKeepsRings(d.mem, d.cfg, chain);
    TransferKeepsRings(mem1, d.cfg, d.disk, chain);
    var mem2 := TransferMem(mem1, d.disk, chain);
    SameRingSameHighs(d.mem, mem1, d.cfg);
    SameRingSameHighs(mem1, mem2, d.cfg);
    var mem3 := PushKeepsHighs(mem2, d.cfg, op.head);
    SameHighsTrans(d.mem, mem1, mem2, d.cfg);
    SameHighsTrans(d.mem, mem2, mem3, d.cfg);
    d' := Complete(d, op);
  }

  lemma DueKeepsHighs(d: Dev, i: nat) returns (d': Dev)
    requires WellFormedDev(d) && i < |d.pending| && Layout(|d.mem|, d.cfg) && UpdatesCleanly(d, i)
    requires d.cycle >= d.pending[i].completion
    ensures WellFormedDev(d') && |d'.pending| == |d.pending| - 1 && d'.cfg == d.cfg
    ensures SameHighs(d.mem, d'.mem, d.cfg) && UpdatesCleanly(d', i) && UpdateFrom(d, i) == UpdateFrom(d', i)
  {
    var d1 := CompleteKeepsHighs(d, d.pending[i]);
    d' := CompleteAt(d, i);
  }

  lemma {:induction false} UpdateKeepsHighs(d: Dev, i: nat)
    requires WellFormedDev(d) && i <= |d.pending| && Layout(|d.mem|, d.cfg) && UpdatesCleanly(d, i)
    ensures SameHighs(d.mem, UpdateFrom(d, i).mem, d.cfg)
    decreases |d.pending| - i
  {
    if i < |d.pending| {
      if d.cycle >= d.pending[i].completion {
        var d' := DueKeepsHighs(d, i);
        UpdateKeepsHighs(d', i);
        SameHighsTrans(d.mem, d'.mem, UpdateFrom(d', i).mem, d.cfg);
      } else {
        NotDue(d, i);
        UpdateKeepsHighs(d, i + 1);
      }
    }
  }

  lemma {:induction false} ConsumeKeepsMem(d: Dev, last: nat)
    requires WellFormedDev(d) && last < IDX
    ensures Consume(d, last).mem == d.mem && Consume(d, last).cfg == d.cfg
    decreases Behind(d.prevAvail, last)
  {
    if d.prevAvail != last { ConsumeKeepsMem(Start(d), last); }
  }

  lemma NotifyKeepsMem(s: Sys) returns (s': Sys)
    requires WellFormedDev(s.dev)
    ensures s' == VirtioRuns.Apply(s, Notify) && s'.dev.mem == s.dev.mem && s'.dev.cfg == s.dev.cfg
  {
    IdxBound(s.dev.mem, s.dev.cfg.availRing + 2);
    if s.dev.ready { ConsumeKeepsMem(s.dev, AvailIdx(s.dev.mem, s.dev.cfg)); }
    s' := VirtioRuns.Apply(s, Notify);
  }

  lemma TickKeepsHighs(s: Sys) returns (s': Sys)
    requires Inv(s) && StepOk(s, Tick)
    ensures s' == VirtioRuns.Apply(s, Tick) && SameHighs(s.dev.mem, s'.dev.mem, s.dev.cfg) && s'.dev.cfg == s.dev.cfg
  {
    UpdateKeepsHighs(s.dev.(cycle := s.dev.cycle + 1), 0);
    s' := VirtioRuns.Apply(s, Tick);
  }

  lemma PostKeepsHighs(s: Sys, head: nat) returns (s': Sys)
    requires Layout(|s.dev.mem|, s.dev.cfg) && WellFormedDev(s.dev)
    ensures s' == VirtioRuns.Apply(s, Post(head)) && SameHighs(s.dev.mem, s'.dev.mem, s.dev.cfg) && s'.dev.cfg == s.dev.cfg
  {
    var mem' := PublishMissesUsed(s.dev.mem, s.dev.cfg, head);
    SameRingSameHighs(s.dev.mem, mem', s.dev.cfg);
    s' := VirtioRuns.Apply(s, Post(head));
  }

  lemma StepKeepsHighs(s: Sys, step: Step) returns (s': Sys)
    requires Inv(s) && StepOk(s, step)
    ensures s' == VirtioRuns.Apply(s, step) && SameHighs(s.dev.mem, s'.dev.mem, s.dev.cfg) && s'.dev.cfg == s.dev.cfg
  {
    match step
    case Post(head) => s' := PostKeepsHighs(s, head);
    case Guest(off, bytes) =>
      s' := VirtioRuns.Apply(s, step);
      if off + |bytes| <= |s.dev.mem| {
        SpliceKeepsRings(s.dev.mem, s.dev.cfg, off, bytes);
        SameRingSameHighs(s.dev.mem, s'.dev.mem, s.dev.cfg);
      }
    case Hart(mapping) => s' := VirtioRuns.Apply(s, step);
    case Notify => s' := NotifyKeepsMem(s);
    case Tick => s' := TickKeepsHighs(s);
  }

  lemma {:induction false} HighsAlongRuns(states: seq<Sys>, steps: seq<Step>, n: nat)
    requires IsRun(states, steps) && Initial(states[0]) && n <= |steps|
    ensures states[n].dev.cfg == states[0].dev.cfg
    ensures SameHighs(states[0].dev.mem, states[n].dev.mem, states[0].dev.cfg)
  {
    if n > 0 {
      HighsAlongRuns(states, steps, n - 1);
      InvAlongRuns(states, steps, n - 1);
      assert StepAt(states, steps, n - 1);
      var s' := StepKeepsHighs(states[n - 1], steps[n - 1]);
      SameHighsTrans(states[0].dev.mem, states[n - 1].dev.mem, s'.dev.mem, states[0].dev.cfg);
    }
  }

  // ---- What the driver reads ------------------------------------------------------------------

  /** The id a driver reads for a completed request is its head if and only if the upper half of
      that slot was zero when the queue was set up: always, when the driver zeroes the ring. */
  lemma UsedIdExact(states: seq<Sys>, steps: seq<Step>, n: nat, k: nat)
    requires IsRun(states, steps) && Initial(states[0]) && n <= |steps|
    requires k < |states[n].dev.completed| <= k + states[n].dev.cfg.queueNum
    ensures var d := states[n].dev;
            UsedId(d.mem, d.cfg, k % d.cfg.queueNum) == d.completed[k]
            <==> UsedHigh(states[0].dev.mem, d.cfg, k % d.cfg.queueNum) == 0
  {
    var d := states[n].dev;
    UsedRingIsHistory(states, steps, n, k);
    HighsAlongRuns(states, steps, n);
    LayoutAlongRuns(states, steps, n);
    IdHalves(d.mem, d.cfg, k % d.cfg.queueNum);
  }

  lemma LayoutAlongRuns(states: seq<Sys>, steps: seq<Step>, n: nat)
    requires IsRun(states, steps) && Initial(states[0]) && n <= |steps|
    ensures Layout(|states[n].dev.mem|, states[n].dev.cfg)
  {
    InvAlongRuns(states, steps, n);
  }
}
