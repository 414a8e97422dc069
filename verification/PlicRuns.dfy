/** What holds of the PLIC over sequences of operations. */
module PlicRuns {
  import opened Bits
  import opened PlicModel

  // ---- Priority writes ----------------------------------------------------------------------

  /** Everything eligibility asks for except the priority. */
  predicate Candidate(s: Plic, irq: nat) {
    ValidIrq(irq) && irq in s.pending && irq !in s.claimed && irq in s.enabled
  }

  /** Whether source `irq` at priority `p` would be served before source `j`. */
  predicate WouldPrecede(s: Plic, irq: nat, p: nat, j: nat)
    requires WellFormed(s) && j < MAX_IRQS
  {
    p > s.priority[j] || (p == s.priority[j] && irq < j)
  }

  /** The new priority leaves the current winner the winner. */
  predicate KeepsWinner(s: Plic, irq: nat, p: nat)
    requires WellFormed(s) && s.current < MAX_IRQS
  {
    if irq == s.current then
      p > s.threshold && forall j :: 1 <= j < MAX_IRQS && j != irq && Eligible(s, j) ==> WouldPrecede(s, irq, p, j)
    else
      p <= s.threshold || (s.current != 0 && !WouldPrecede(s, irq, p, s.current))
  }

  lemma OthersPriority(s: Plic, irq: nat, v: nat)
    requires WellFormed(s) && LineOk(s) && !Candidate(s, irq)
    ensures LineOk(SetPriority(s, irq, v))
  {
    var s' := SetPriority(s, irq, v);
    WinnerZero(s);
    WinnerZero(s');
    assert forall j :: ValidIrq(j) ==> Eligible(s, j) == Eligible(s', j);
    assert BestBelow(s', MAX_IRQS, Winner(s));
    WinnerIsUnique(s', MAX_IRQS, Winner(s), Winner(s'));
  }

  /** A priority write keeps MEIP and `current_irq` exact if and only if it concerns no candidate
      or leaves the winner the winner. */
  lemma PriorityWriteExact(s: Plic, irq: nat, v: nat)
    requires WellFormed(s) && LineOk(s)
    ensures LineOk(SetPriority(s, irq, v)) <==>
            !Candidate(s, irq) || KeepsWinner(s, irq, Low(v, 3))
  {
    var s', p := SetPriority(s, irq, v), Low(v, 3);
    WinnerZero(s);
    WinnerZero(s');
    if !Candidate(s, irq) {
      OthersPriority(s, irq, v);
    } else {
      assert forall j :: ValidIrq(j) && j != irq ==> Eligible(s, j) == Eligible(s', j);
      assert Eligible(s', irq) == (p > s.threshold);
      if KeepsWinner(s, irq, p) {
        assert BestBelow(s', MAX_IRQS, s.current);
        WinnerIsUnique(s', MAX_IRQS, s.current, Winner(s'));
      }
    }
  }

  // ---- Draining -----------------------------------------------------------------------------

  /** The answers of n claims in a row. */
  function Claims(s: Plic, n: nat): (answers: seq<nat>)
    requires WellFormed(s)
    ensures |answers| == n
    decreases n
  {
    if n == 0 then [] else [Winner(s)] + Claims(Claim(s), n - 1)
  }

  lemma ClaimTakesWinner(s: Plic)
    requires WellFormed(s)
    ensures EligibleSet(Claim(s)) == EligibleSet(s) - {Winner(s)} && Claim(s).priority == s.priority
    ensures Winner(s) in EligibleSet(s) <==> EligibleSet(s) != {}
  {
    WinnerZero(s);
    var w, s' := Winner(s), Claim(s);
    forall i | ValidIrq(i) ensures Eligible(s', i) == (Eligible(s, i) && i != w) {}
  }

  lemma ClaimsStep(s: Plic, n: nat) returns (s': Plic, r: seq<nat>, r': seq<nat>)
    requires WellFormed(s) && n > 0
    ensures WellFormed(s') && s' == Claim(s) && r == Claims(s, n) && r' == Claims(s', n - 1)
    ensures r == [Winner(s)] + r' && |r'| == n - 1 && s'.priority == s.priority
    ensures if EligibleSet(s) == {} then Winner(s) == 0 && EligibleSet(s') == {}
            else Winner(s) in EligibleSet(s) && |EligibleSet(s')| == |EligibleSet(s)| - 1
                 && EligibleSet(s') <= EligibleSet(s) && Winner(s) !in EligibleSet(s')
  {
    ClaimTakesWinner(s);
    WinnerZero(s);
    s' := Claim(s);
    r, r' := Claims(s, n), Claims(s', n - 1);
  }

  /** The first |eligible| answers are eligible sources, the later ones 0. */
  lemma {:induction false} DrainMembers(s: Plic, n: nat)
    requires WellFormed(s)
    ensures forall i :: 0 <= i < n ==>
      if i < |EligibleSet(s)| then Claims(s, n)[i] in EligibleSet(s) else Claims(s, n)[i] == 0
    decreases n
  {
    if n > 0 {
      var s', r, r' := ClaimsStep(s, n);
      DrainMembers(s', n - 1);
      forall i | 1 <= i < n
        ensures if i < |EligibleSet(s)| then r[i] in EligibleSet(s) else r[i] == 0
      {
        assert r[i] == r'[i - 1];
      }
    }
  }

  lemma SamePriorities(s: Plic, s': Plic, i: nat, j: nat)
    requires WellFormed(s) && WellFormed(s') && s.priority == s'.priority
    requires i < MAX_IRQS && j < MAX_IRQS && Precedes(s', i, j)
    ensures Precedes(s, i, j)
  {}

  lemma FirstPrecedes(s: Plic, j: nat)
    requires WellFormed(s) && j in EligibleSet(s) && j != Winner(s)
    ensures Winner(s) < MAX_IRQS && j < MAX_IRQS && Precedes(s, Winner(s), j)
  {
    WinnerZero(s);
  }

  lemma {:induction false} DrainSorted(s: Plic, n: nat, i: nat, j: nat)
    requires WellFormed(s) && i < j < n && j < |EligibleSet(s)|
    ensures Claims(s, n)[i] < MAX_IRQS && Claims(s, n)[j] < MAX_IRQS
    ensures Precedes(s, Claims(s, n)[i], Claims(s, n)[j])
    decreases n
  {
    var s', r, r' := ClaimsStep(s, n);
    DrainMembers(s', n - 1);
    assert r[j] == r'[j - 1] && r'[j - 1] in EligibleSet(s');
    if i > 0 {
      assert r[i] == r'[i - 1];
      DrainSorted(s', n - 1, i - 1, j - 1);
      SamePriorities(s, s', r[i], r[j]);
    } else {
      FirstPrecedes(s, r[j]);
    }
  }

  lemma {:induction false} DrainAll(s: Plic, n: nat, irq: nat)
    requires WellFormed(s) && n >= |EligibleSet(s)| && irq in EligibleSet(s)
    ensures irq in Claims(s, n)[..|EligibleSet(s)|]
    decreases n
  {
    var s', r, r' := ClaimsStep(s, n);
    var m := |EligibleSet(s)|;
    assert r[..m] == [Winner(s)] + r'[..m - 1];
    if irq != Winner(s) {
      ClaimTakesWinner(s);
      DrainAll(s', n - 1, irq);
    }
  }

  /** Drain order: with nothing raised meanwhile, repeated claims return exactly the eligible
      sources, each once, by falling priority and rising number, and 0 from then on. */
  lemma DrainOrder(s: Plic, n: nat)
    requires WellFormed(s) && n >= |EligibleSet(s)|
    ensures var r, m := Claims(s, n), |EligibleSet(s)|;
      && (forall irq :: irq in r[..m] <==> irq in EligibleSet(s))
      && (forall i :: m <= i < n ==> r[i] == 0)
      && (forall i, j :: 0 <= i < j < m ==>
            r[i] < MAX_IRQS && r[j] < MAX_IRQS && r[i] != r[j] && Precedes(s, r[i], r[j]))
  {
    var r, m := Claims(s, n), |EligibleSet(s)|;
    DrainMembers(s, n);
    forall irq | irq in EligibleSet(s) ensures irq in r[..m] { DrainAll(s, n, irq); }
    forall i, j | 0 <= i < j < m
      ensures r[i] < MAX_IRQS && r[j] < MAX_IRQS && r[i] != r[j] && Precedes(s, r[i], r[j])
    {
      DrainSorted(s, n, i, j);
    }
  }

  // ---- Ordering of claims, completions and raises -------------------------------------------

  /** Operation t of the run is a claim that returns `irq`. */
  predicate ClaimsAt(s: Plic, ops: seq<Op>, t: nat, irq: nat)
    requires WellFormed(s)
  {
    t < |ops| && ops[t].OpClaim? && Winner(Run(s, ops[..t])) == irq
  }

  lemma RunStep(s: Plic, ops: seq<Op>, t: nat)
    requires WellFormed(s) && t < |ops|
    ensures Run(s, ops[..t + 1]) == Apply(Run(s, ops[..t]), ops[t])
  {
    assert ops[..t + 1][..t] == ops[..t];
  }

  lemma KeepsClaimed(s: Plic, op: Op, irq: nat)
    requires WellFormed(s) && ValidIrq(irq) && op != OpComplete(irq) && irq in s.claimed
    ensures irq in Apply(s, op).claimed
  {}

  lemma KeepsIdle(s: Plic, op: Op, irq: nat)
    requires WellFormed(s) && ValidIrq(irq) && op != OpSetIrq(irq, true) && irq !in s.pending
    ensures irq !in Apply(s, op).pending
  {}

  /** Nothing but its completion ends the service of a source, and nothing but a raise makes it pending. */
  lemma StaysClaimed(s: Plic, ops: seq<Op>, t: nat, irq: nat)
    requires WellFormed(s) && t < |ops| && ValidIrq(irq) && ops[t] != OpComplete(irq)
    requires irq in Run(s, ops[..t]).claimed
    ensures irq in Run(s, ops[..t + 1]).claimed
  {
    RunStep(s, ops, t);
    KeepsClaimed(Run(s, ops[..t]), ops[t], irq);
  }

  lemma StaysIdle(s: Plic, ops: seq<Op>, t: nat, irq: nat)
    requires WellFormed(s) && t < |ops| && ValidIrq(irq) && ops[t] != OpSetIrq(irq, true)
    requires irq !in Run(s, ops[..t]).pending
    ensures irq !in Run(s, ops[..t + 1]).pending
  {
    RunStep(s, ops, t);
    KeepsIdle(Run(s, ops[..t]), ops[t], irq);
  }

  /** If a source stops being claimed, it was completed; this finds the last completion. */
  lemma {:induction false} LastCompletion(s: Plic, ops: seq<Op>, a: nat, b: nat, irq: nat) returns (c: nat)
    requires WellFormed(s) && a <= b <= |ops| && ValidIrq(irq)
    requires irq in Run(s, ops[..a]).claimed && irq !in Run(s, ops[..b]).claimed
    ensures a <= c < b && ops[c] == OpComplete(irq)
    ensures forall d :: c < d < b ==> ops[d] != OpComplete(irq)
    decreases b
  {
    if ops[b - 1] == OpComplete(irq) {
      c := b - 1;
    } else {
      if irq in Run(s, ops[..b - 1]).claimed { StaysClaimed(s, ops, b - 1, irq); }
      c := LastCompletion(s, ops, a, b - 1, irq);
    }
  }

  /** If a source becomes pending, it was raised. */
  lemma {:induction false} SomeRaise(s: Plic, ops: seq<Op>, a: nat, b: nat, irq: nat) returns (r: nat)
    requires WellFormed(s) && a <= b <= |ops| && ValidIrq(irq)
    requires irq !in Run(s, ops[..a]).pending && irq in Run(s, ops[..b]).pending
    ensures a <= r < b && ops[r] == OpSetIrq(irq, true)
    decreases b
  {
    if ops[b - 1] == OpSetIrq(irq, true) {
      r := b - 1;
    } else {
      if irq !in Run(s, ops[..b - 1]).pending { StaysIdle(s, ops, b - 1, irq); }
      r := SomeRaise(s, ops, a, b - 1, irq);
    }
  }

  /** Between two claims of the same source there is a completion of it, and after the last such
      completion a new raise. */
  lemma BetweenClaims(s: Plic, ops: seq<Op>, a: nat, b: nat, irq: nat)
    requires WellFormed(s) && ValidIrq(irq) && a < b
    requires ClaimsAt(s, ops, a, irq) && ClaimsAt(s, ops, b, irq)
    ensures exists c, r :: a < c < r < b && ops[c] == OpComplete(irq) && ops[r] == OpSetIrq(irq, true)
              && forall d :: c < d < b ==> ops[d] != OpComplete(irq)
  {
    RunStep(s, ops, a);
    var c := LastCompletion(s, ops, a + 1, b, irq);
    RunStep(s, ops, c);
    var r := SomeRaise(s, ops, c + 1, b, irq);
  }

  function CountClaims(s: Plic, ops: seq<Op>, irq: nat): nat
    requires WellFormed(s)
  {
    if ops == [] then 0
    else
      var t := |ops| - 1;
      CountClaims(s, ops[..t], irq) + if ops[t].OpClaim? && Winner(Run(s, ops[..t])) == irq then 1 else 0
  }

  function CountRaises(ops: seq<Op>, irq: nat): nat {
    if ops == [] then 0
    else
      var t := |ops| - 1;
      CountRaises(ops[..t], irq) + if ops[t] == OpSetIrq(irq, true) then 1 else 0
  }

  /** Claims of a source never outnumber its raises, counting a pending one as not yet claimed. */
  lemma {:induction false} ClaimsWithinRaises(s: Plic, ops: seq<Op>, irq: nat)
    requires WellFormed(s) && ValidIrq(irq) && irq !in s.pending
    ensures CountClaims(s, ops, irq) + (if irq in Run(s, ops).pending then 1 else 0) <= CountRaises(ops, irq)
  {
    if ops != [] {
      ClaimsWithinRaises(s, ops[..|ops| - 1], irq);
    }
  }

  /** With priorities fixed, MEIP and `current_irq` stay exact along every run. */
  lemma {:induction false} LineAlongRuns(s: Plic, ops: seq<Op>)
    requires WellFormed(s) && LineOk(s)
    requires forall i :: 0 <= i < |ops| ==> !ops[i].OpPriority?
    ensures LineOk(Run(s, ops))
  {
    if ops != [] {
      var t := |ops| - 1;
      assert forall i :: 0 <= i < t ==> ops[..t][i] == ops[i];
      LineAlongRuns(s, ops[..t]);
      LineIsKept(Run(s, ops[..t]), ops[t]);
    }
  }
}
