/** The PLIC in plain numbers: what every operation does to a source, what a register write stores,
    and that a completion ends the service of a source. */
module PlicLaws {
  import opened Bits
  import opened Bitmaps
  import opened PlicModel
  import opened PlicRuns
  import opened PlicUnit

  // ---- The source a claim returns -------------------------------------------------------------

  /** A source that asks for service. */
  predicate Ready(s: Plic, irq: nat)
    requires |s.priority| == 1024
  {
    && 1 <= irq < 1023 && irq in s.pending && irq !in s.claimed && irq in s.enabled
    && s.priority[irq] > s.threshold
  }

  /** The ready source of the highest priority, the lowest number among equals; 0 if none is ready. */
  ghost predicate First(s: Plic, w: nat)
    requires |s.priority| == 1024
  {
    if w == 0 then forall i :: 1 <= i < 1023 ==> !Ready(s, i)
    else Ready(s, w) && forall i :: 1 <= i < 1023 && Ready(s, i) && i != w ==>
                          s.priority[w] > s.priority[i] || (s.priority[w] == s.priority[i] && w < i)
  }

  lemma WinnerIsFirst(s: Plic, w: nat)
    requires WellFormed(s)
    ensures |s.priority| == 1024 && (Winner(s) == w <==> First(s, w))
  {
    forall i: nat ensures Eligible(s, i) == Ready(s, i) {}
    assert BestBelow(s, 1023, w) <==> First(s, w);
    if First(s, w) { WinnerIsUnique(s, 1023, Winner(s), w); }
  }

  /** The line, the current source and the halted flag as an evaluation leaves them. */
  ghost predicate Settled(s: Plic, s': Plic)
    requires |s'.priority| == 1024
  {
    First(s', s'.current) && s'.meip == (s'.current != 0) && s'.halted == (s.halted && s'.current == 0)
  }

  predicate SameLine(s: Plic, s': Plic) {
    s'.meip == s.meip && s'.current == s.current && s'.halted == s.halted
  }

  lemma UpdateSettles(s: Plic, s1: Plic)
    requires WellFormed(s1) && s.halted == s1.halted
    ensures Settled(s, Update(s1))
  {
    UpdateRestoresLine(s1);
    WinnerIsFirst(Update(s1), Winner(Update(s1)));
  }

  lemma LineIsFirst(s: Plic)
    requires WellFormed(s)
    ensures LineOk(s) <==> First(s, s.current) && s.meip == (s.current != 0)
  {
    WinnerIsFirst(s, s.current);
    WinnerZero(s);
  }

  // ---- What each operation does ---------------------------------------------------------------

  lemma SetIrqIs(s: Plic, irq: nat, level: bool)
    requires WellFormed(s)
    ensures var s' := Apply(s, OpSetIrq(irq, level));
      && (forall i: nat :: i in s'.pending <==> if i == irq && 1 <= irq < 1023 then level else i in s.pending)
      && s'.claimed == s.claimed && s'.enabled == s.enabled
      && s'.priority == s.priority && s'.threshold == s.threshold
      && if 1 <= irq < 1023 && irq in s.enabled then Settled(s, s') else SameLine(s, s')
  {
    UpdateSettles(s, s.(pending := if level then s.pending + {irq} else s.pending - {irq}));
  }

  /** A claim takes the first ready source out of pending and marks it claimed; without one it
      changes nothing. */
  lemma ClaimIs(s: Plic, w: nat)
    requires WellFormed(s) && First(s, w)
    ensures var s' := Apply(s, OpClaim);
      && Winner(s) == w
      && (w == 0 ==> s' == s)
      && (w != 0 ==>
           && s'.claimed == s.claimed + {w} && s'.pending == s.pending - {w} && s'.enabled == s.enabled
           && s'.priority == s.priority && s'.threshold == s.threshold && Settled(s, s'))
  {
    WinnerIsFirst(s, w);
    UpdateSettles(s, s.(claimed := s.claimed + {w}, pending := s.pending - {w}));
  }

  /** A completion ends the service of its source, whether or not it was being served, and drops
      its pending bit; every other source stays as it was. */
  lemma CompleteIs(s: Plic, irq: nat)
    requires WellFormed(s)
    ensures var s' := Apply(s, OpComplete(irq));
      && (1 <= irq < 1023 ==> irq !in s'.claimed && irq !in s'.pending && Settled(s, s'))
      && (irq == 0 || irq >= 1023 ==> s' == s)
      && (forall i: nat :: i != irq ==> (i in s'.claimed <==> i in s.claimed) && (i in s'.pending <==> i in s.pending))
      && s'.enabled == s.enabled && s'.priority == s.priority && s'.threshold == s.threshold
  {
    UpdateSettles(s, s.(claimed := s.claimed - {irq}, pending := s.pending - {irq}, meip := false));
  }

  lemma EnableIs(s: Plic, irq: nat, on: bool)
    requires WellFormed(s)
    ensures var s' := Apply(s, OpEnable(irq, on));
      && (forall i: nat :: i in s'.enabled <==> if i == irq && 1 <= irq < 1023 then on else i in s.enabled)
      && s'.pending == s.pending && s'.claimed == s.claimed
      && s'.priority == s.priority && s'.threshold == s.threshold
      && if 1 <= irq < 1023 then Settled(s, s') else s' == s
  {
    UpdateSettles(s, s.(enabled := if on then s.enabled + {irq} else s.enabled - {irq}));
  }

  /** An enable word holds the 32 sources from 32 * n on; word 31 cannot be written. */
  lemma EnableWordIs(s: Plic, n: nat, w: nat)
    requires WellFormed(s)
    ensures var s' := Apply(s, OpEnableWord(n, w));
      && (forall i: nat :: i in s'.enabled
            <==> if i / 32 == n && n < 31 then w / Pow2(i % 32) % 2 == 1 else i in s.enabled)
      && s'.pending == s.pending && s'.claimed == s.claimed
      && s'.priority == s.priority && s'.threshold == s.threshold
      && if n < 31 then Settled(s, s') else s' == s
  {
    var s1 := s.(enabled := (set i | i in s.enabled && i / WORD != n) + WordBits(n, w));
    UpdateSettles(s, s1);
    forall i: nat ensures i in s1.enabled <==> if i / 32 == n then w / Pow2(i % 32) % 2 == 1 else i in s.enabled {
      BitIsDigit(w, i % 32);
      assert i == 32 * (i / 32) + i % 32;
    }
  }

  lemma ThresholdIs(s: Plic, v: nat)
    requires WellFormed(s)
    ensures var s' := Apply(s, OpThreshold(v));
      && s'.threshold == v % 8 && Settled(s, s')
      && s'.pending == s.pending && s'.claimed == s.claimed && s'.enabled == s.enabled && s'.priority == s.priority
  {
    Pow2Values();
    LowIsMod(v, 3);
    UpdateSettles(s, s.(threshold := v % 8));
  }

  /** A priority write reaches one register and does not re-evaluate the line. */
  lemma PriorityIs(s: Plic, irq: nat, v: nat)
    requires WellFormed(s)
    ensures var s' := Apply(s, OpPriority(irq, v));
      s' == if irq < 1023 then s.(priority := s.priority[irq := v % 8]) else s
  {
    Pow2Values();
    LowIsMod(v, 3);
  }

  // ---- Registers ------------------------------------------------------------------------------

  /** Bit i % 32 of word i / 32 of a bitmap stands for source i. */
  lemma BitmapIs(words: seq<nat>, i: nat)
    requires i < 32 * |words|
    ensures i in BitsOf(words) <==> words[i / 32] / Pow2(i % 32) % 2 == 1
  {
    BitIsDigit(words[i / 32], i % 32);
  }

  /** Where the registers lie: a word for every priority, 31 enable words, threshold and completion. */
  lemma WritesGoTo(i: nat, v: nat)
    ensures i < 1023 ==> DecodeWrite(4 * i, v) == DoOp(OpPriority(i, v))
    ensures i < 31 ==> DecodeWrite(0x2000 + 4 * i, v) == DoOp(OpEnableWord(i, v))
    ensures DecodeWrite(0x20_0000, v) == DoOp(OpThreshold(v))
    ensures DecodeWrite(0x20_0004, v) == DoOp(OpComplete(v % 0x1_0000_0000))
    ensures i >= 0x21_0000 || 0x207C <= i < 0x20_0000 || 0xFFC <= i < 0x2000 ==> DecodeWrite(i, v) == NoOp
  {}

  function Written(s: Plic, offset: nat, v: nat): (s': Plic)
    requires WellFormed(s)
    ensures WellFormed(s')
  {
    match DecodeWrite(offset, v) case NoOp => s case DoOp(op) => Apply(s, op)
  }

  /** Write, then look: the register holds the value, cut to its width, and the others are kept. */
  lemma WritesRead(s: Plic, i: nat, v: nat)
    requires WellFormed(s)
    ensures i < 1023 ==> Written(s, 4 * i, v) == s.(priority := s.priority[i := v % 8])
    ensures i < 31 ==>
      (forall irq: nat :: irq in Written(s, 0x2000 + 4 * i, v).enabled
         <==> if irq / 32 == i then v / Pow2(irq % 32) % 2 == 1 else irq in s.enabled)
    ensures Written(s, 0x20_0000, v).threshold == v % 8
  {
    WritesGoTo(i, v);
    PriorityIs(s, i, v);
    EnableWordIs(s, i, v);
    ThresholdIs(s, v);
  }

  /** A completion written to its register. */
  lemma CompletionWritten(s: Plic, irq: nat)
    requires WellFormed(s) && 1 <= irq < 1023
    ensures var s' := Written(s, 0x20_0004, irq);
      && s'.claimed == s.claimed - {irq} && s'.pending == s.pending - {irq} && s'.enabled == s.enabled
      && s'.priority == s.priority && s'.threshold == s.threshold
  {
    WritesGoTo(0, irq);
    CompleteIs(s, irq);
  }

  // ---- A completed source is served again -----------------------------------------------------

  /** Only a claim that returns a source marks it claimed or drops it from pending on its own. */
  lemma KeepsUnclaimed(s: Plic, op: Op, irq: nat)
    requires WellFormed(s) && irq !in s.claimed && (op.OpClaim? ==> Winner(s) != irq)
    ensures irq !in Apply(s, op).claimed
  {}

  lemma KeepsPending(s: Plic, op: Op, irq: nat)
    requires WellFormed(s) && irq in s.pending && (op.OpClaim? ==> Winner(s) != irq)
    requires op != OpComplete(irq) && op != OpSetIrq(irq, false)
    ensures irq in Apply(s, op).pending
  {}

  lemma StaysUnclaimed(s: Plic, ops: seq<Op>, t: nat, irq: nat)
    requires WellFormed(s) && t < |ops| && !ClaimsAt(s, ops, t, irq)
    requires irq !in Run(s, ops[..t]).claimed
    ensures irq !in Run(s, ops[..t + 1]).claimed
  {
    RunStep(s, ops, t);
    KeepsUnclaimed(Run(s, ops[..t]), ops[t], irq);
  }

  lemma {:induction false} Unclaimed(s: Plic, ops: seq<Op>, a: nat, n: nat, irq: nat)
    requires WellFormed(s) && a < n <= |ops| && 1 <= irq < 1023 && ops[a] == OpComplete(irq)
    requires forall t :: a < t < n ==> !ClaimsAt(s, ops, t, irq)
    ensures irq !in Run(s, ops[..n]).claimed
    decreases n
  {
    if n == a + 1 {
      RunStep(s, ops, a);
      CompleteIs(Run(s, ops[..a]), irq);
    } else {
      Unclaimed(s, ops, a, n - 1, irq);
      StaysUnclaimed(s, ops, n - 1, irq);
    }
  }

  lemma StaysPending(s: Plic, ops: seq<Op>, t: nat, irq: nat)
    requires WellFormed(s) && t < |ops| && !ClaimsAt(s, ops, t, irq)
    requires ops[t] != OpComplete(irq) && ops[t] != OpSetIrq(irq, false)
    requires irq in Run(s, ops[..t]).pending
    ensures irq in Run(s, ops[..t + 1]).pending
  {
    RunStep(s, ops, t);
    KeepsPending(Run(s, ops[..t]), ops[t], irq);
  }

  lemma {:induction false} Raised(s: Plic, ops: seq<Op>, b: nat, n: nat, irq: nat)
    requires WellFormed(s) && b < n <= |ops| && 1 <= irq < 1023 && ops[b] == OpSetIrq(irq, true)
    requires forall t :: b < t < n ==>
      !ClaimsAt(s, ops, t, irq) && ops[t] != OpComplete(irq) && ops[t] != OpSetIrq(irq, false)
    ensures irq in Run(s, ops[..n]).pending
    decreases n
  {
    if n == b + 1 {
      RunStep(s, ops, b);
      SetIrqIs(Run(s, ops[..b]), irq, true);
    } else {
      Raised(s, ops, b, n - 1, irq);
      StaysPending(s, ops, n - 1, irq);
    }
  }

  /** Whatever else happens, a source that was completed and then raised, and since then neither
      claimed nor lowered nor completed, asks for service as soon as it is enabled and above the
      threshold, and 1022 claims in a row return it. */
  lemma ServedAgain(s: Plic, ops: seq<Op>, a: nat, b: nat, n: nat, irq: nat)
    requires WellFormed(s) && a < b < n <= |ops| && 1 <= irq < 1023
    requires ops[a] == OpComplete(irq) && ops[b] == OpSetIrq(irq, true)
    requires forall t :: a < t < n ==> !ClaimsAt(s, ops, t, irq)
    requires forall t :: b < t < n ==> ops[t] != OpComplete(irq) && ops[t] != OpSetIrq(irq, false)
    requires var s' := Run(s, ops[..n]); irq in s'.enabled && s'.priority[irq] > s'.threshold
    ensures Ready(Run(s, ops[..n]), irq)
    ensures irq in Claims(Run(s, ops[..n]), 1022)
  {
    var s' := Run(s, ops[..n]);
    Unclaimed(s, ops, a, n, irq);
    Raised(s, ops, b, n, irq);
    ReadyIsServed(s', irq);
  }

  /** Nothing that is ready waits for more than the other 1021 sources. */
  lemma ReadyIsServed(s: Plic, irq: nat)
    requires WellFormed(s) && Ready(s, irq)
    ensures irq in Claims(s, 1022)
  {
    assert irq in EligibleSet(s);
    Sources(EligibleSet(s), 1023);
    DrainAll(s, 1022, irq);
  }

  lemma {:induction false} Sources(irqs: set<nat>, k: nat)
    requires k > 0 && forall i :: i in irqs ==> 1 <= i < k
    ensures |irqs| < k
  {
    if k == 1 {
      assert irqs == {};
    } else {
      Sources(irqs - {k - 1}, k - 1);
    }
  }
}
