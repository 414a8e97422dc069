/** The PLIC towards CPU 0 as a state machine over sets of interrupt sources. */
module PlicModel {
  import opened Bits
  import opened Bitmaps

  const MAX_IRQS: nat := 1023

  datatype Plic = Plic(
    pending: set<nat>, claimed: set<nat>, enabled: set<nat>,
    priority: seq<nat>, threshold: nat,
    meip: bool, current: nat, halted: bool)

  predicate ValidIrq(irq: nat) { 1 <= irq < MAX_IRQS }

  ghost predicate WellFormed(s: Plic) { |s.priority| == MAX_IRQS + 1 }

  predicate Eligible(s: Plic, irq: nat)
    requires WellFormed(s)
  {
    && ValidIrq(irq) && irq in s.pending && irq !in s.claimed && irq in s.enabled
    && s.priority[irq] > s.threshold
  }

  function EligibleSet(s: Plic): set<nat>
    requires WellFormed(s)
  {
    set irq | 1 <= irq < MAX_IRQS && Eligible(s, irq)
  }

  /** Higher priority first, then lower number. */
  predicate Precedes(s: Plic, i: nat, j: nat)
    requires WellFormed(s) && i <= MAX_IRQS && j <= MAX_IRQS
  {
    s.priority[i] > s.priority[j] || (s.priority[i] == s.priority[j] && i < j)
  }

  /** The eligible source below k that precedes all others, or 0: what the arg-max scan holds
      after looking at the sources below k. */
  ghost predicate BestBelow(s: Plic, k: nat, w: nat)
    requires WellFormed(s)
  {
    if w == 0 then forall j :: 1 <= j < k && j < MAX_IRQS ==> !Eligible(s, j)
    else w < k && Eligible(s, w) && forall j :: 1 <= j < k && j < MAX_IRQS && Eligible(s, j) && j != w ==> Precedes(s, w, j)
  }

  function Scan(s: Plic, k: nat): (w: nat)
    requires WellFormed(s) && 1 <= k <= MAX_IRQS
    ensures BestBelow(s, k, w)
  {
    if k == 1 then 0
    else
      var w := Scan(s, k - 1);
      if Eligible(s, k - 1) && (w == 0 || s.priority[k - 1] > s.priority[w]) then k - 1 else w
  }

  /** The source the next claim returns. */
  function Winner(s: Plic): (w: nat)
    requires WellFormed(s)
    ensures BestBelow(s, MAX_IRQS, w)
  {
    Scan(s, MAX_IRQS)
  }

  lemma WinnerIsUnique(s: Plic, k: nat, w: nat, w': nat)
    requires WellFormed(s) && BestBelow(s, k, w) && BestBelow(s, k, w') && k <= MAX_IRQS
    ensures w == w'
  {}

  /** The winner depends only on which sources are eligible and on their priorities. */
  lemma SameEligibleSameWinner(s: Plic, s': Plic)
    requires WellFormed(s) && WellFormed(s') && s.priority == s'.priority
    requires forall i :: ValidIrq(i) ==> Eligible(s, i) == Eligible(s', i)
    ensures Winner(s) == Winner(s')
  {
    assert BestBelow(s', MAX_IRQS, Winner(s));
    WinnerIsUnique(s', MAX_IRQS, Winner(s), Winner(s'));
  }

  // ---- Operations ---------------------------------------------------------------------------

  /** `plic_update`: the MEIP line and `current_irq` follow the winner; a raised line wakes the hart. */
  function Update(s: Plic): Plic
    requires WellFormed(s)
  {
    var w := Winner(s);
    s.(meip := w != 0, current := w, halted := s.halted && w == 0)
  }

  function SetIrq(s: Plic, irq: nat, level: bool): Plic
    requires WellFormed(s)
  {
    if !ValidIrq(irq) then s
    else
      var s' := s.(pending := if level then s.pending + {irq} else s.pending - {irq});
      if irq in s.enabled then Update(s') else s'
  }

  function Claim(s: Plic): Plic
    requires WellFormed(s)
  {
    var w := Winner(s);
    if w == 0 then s else Update(s.(claimed := s.claimed + {w}, pending := s.pending - {w}))
  }

  /** Completion also drops a pending bit raised while the source was being served. */
  function Complete(s: Plic, irq: nat): Plic
    requires WellFormed(s)
  {
    if !ValidIrq(irq) then s
    else Update(s.(claimed := s.claimed - {irq}, pending := s.pending - {irq}, meip := false))
  }

  function SetEnable(s: Plic, irq: nat, on: bool): Plic
    requires WellFormed(s)
  {
    if !ValidIrq(irq) then s
    else Update(s.(enabled := if on then s.enabled + {irq} else s.enabled - {irq}))
  }

  function SetEnableWord(s: Plic, n: nat, w: nat): Plic
    requires WellFormed(s)
  {
    if n >= MAX_IRQS / WORD then s
    else Update(s.(enabled := (set i | i in s.enabled && i / WORD != n) + WordBits(n, w)))
  }

  function SetThreshold(s: Plic, v: nat): Plic
    requires WellFormed(s)
  {
    Update(s.(threshold := Low(v, 3)))
  }

  /** The one operation that does not re-evaluate the line. */
  function SetPriority(s: Plic, irq: nat, v: nat): Plic
    requires WellFormed(s)
  {
    if irq < MAX_IRQS then s.(priority := s.priority[irq := Low(v, 3)]) else s
  }

  datatype Op =
    | OpSetIrq(irq: nat, level: bool)
    | OpClaim
    | OpComplete(irq: nat)
    | OpEnable(irq: nat, on: bool)
    | OpEnableWord(n: nat, w: nat)
    | OpThreshold(v: nat)
    | OpPriority(irq: nat, v: nat)

  function Apply(s: Plic, op: Op): (s': Plic)
    requires WellFormed(s)
    ensures WellFormed(s')
  {
    match op
    case OpSetIrq(irq, level) => SetIrq(s, irq, level)
    case OpClaim => Claim(s)
    case OpComplete(irq) => Complete(s, irq)
    case OpEnable(irq, on) => SetEnable(s, irq, on)
    case OpEnableWord(n, w) => SetEnableWord(s, n, w)
    case OpThreshold(v) => SetThreshold(s, v)
    case OpPriority(irq, v) => SetPriority(s, irq, v)
  }

  function Run(s: Plic, ops: seq<Op>): (s': Plic)
    requires WellFormed(s)
    ensures WellFormed(s')
  {
    if ops == [] then s else Apply(Run(s, ops[..|ops| - 1]), ops[|ops| - 1])
  }

  // ---- The MEIP line ------------------------------------------------------------------------

  /** MEIP is up exactly when something is eligible, and `current_irq` is what a claim returns. */
  predicate LineOk(s: Plic)
    requires WellFormed(s)
  {
    s.meip == (EligibleSet(s) != {}) && s.current == Winner(s)
  }

  lemma WinnerZero(s: Plic)
    requires WellFormed(s)
    ensures Winner(s) == 0 <==> EligibleSet(s) == {}
  {
    if Winner(s) != 0 { assert Winner(s) in EligibleSet(s); }
    if irq :| irq in EligibleSet(s) { assert Eligible(s, irq); }
  }

  lemma UpdateRestoresLine(s: Plic)
    requires WellFormed(s)
    ensures LineOk(Update(s)) && EligibleSet(Update(s)) == EligibleSet(s)
  {
    var s' := Update(s);
    assert forall i :: ValidIrq(i) ==> Eligible(s, i) == Eligible(s', i);
    SameEligibleSameWinner(s, s');
    WinnerZero(s');
  }

  /** A change outside the enabled sources leaves the line right without an update. */
  lemma DisabledIrqKeepsLine(s: Plic, irq: nat, pending: set<nat>)
    requires WellFormed(s) && LineOk(s) && irq !in s.enabled && pending - {irq} == s.pending - {irq}
    ensures LineOk(s.(pending := pending))
  {
    var s' := s.(pending := pending);
    forall i | ValidIrq(i) ensures Eligible(s, i) == Eligible(s', i) {
      assert i != irq ==> (i in s.pending <==> i in pending - {irq});
    }
    SameEligibleSameWinner(s, s');
    WinnerZero(s);
    WinnerZero(s');
  }

  /** Every operation other than a priority write keeps MEIP and `current_irq` exact. */
  lemma LineIsKept(s: Plic, op: Op)
    requires WellFormed(s) && LineOk(s) && !op.OpPriority?
    ensures LineOk(Apply(s, op))
  {
    match op
    case OpSetIrq(irq, level) =>
      var pending := if level then s.pending + {irq} else s.pending - {irq};
      if irq in s.enabled { UpdateRestoresLine(s.(pending := pending)); }
      else { DisabledIrqKeepsLine(s, irq, pending); }
    case OpClaim =>
      var w := Winner(s);
      UpdateRestoresLine(s.(claimed := s.claimed + {w}, pending := s.pending - {w}));
    case OpComplete(irq) =>
      UpdateRestoresLine(s.(claimed := s.claimed - {irq}, pending := s.pending - {irq}, meip := false));
    case OpEnable(irq, on) =>
      UpdateRestoresLine(s.(enabled := if on then s.enabled + {irq} else s.enabled - {irq}));
    case OpEnableWord(n, w) =>
      UpdateRestoresLine(s.(enabled := (set i | i in s.enabled && i / WORD != n) + WordBits(n, w)));
    case OpThreshold(v) =>
      UpdateRestoresLine(s.(threshold := Low(v, 3)));
  }
}
