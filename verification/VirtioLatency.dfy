/** When and in which order requests complete, from the notification that takes them on. */
module VirtioLatency {
  import opened VirtioModel
  import opened VirtioRuns

  /** How many cycles the steps from i to j count. */
  function Ticks(steps: seq<Step>, i: nat, j: nat): nat
    requires i <= j <= |steps|
    decreases j - i
  {
    if i == j then 0 else Ticks(steps, i, j - 1) + if steps[j - 1].Tick? then 1 else 0
  }

  /** Taking requests: the new operations stand, newest first, before those already in flight. */
  lemma {:induction false} ConsumeGrows(d: Dev, last: nat) returns (ops: seq<Op>)
    requires WellFormedDev(d) && last < IDX
    ensures var d' := Consume(d, last);
      && d'.pending == ops + d.pending && |d'.consumed| == |d.consumed| + |ops| && d.consumed <= d'.consumed
      && d'.completed == d.completed && d'.cycle == d.cycle
      && forall x :: 0 <= x < |ops| ==> ops[x] == Op(d'.consumed[|d'.consumed| - 1 - x], d.cycle, d.cycle + LATENCY)
    decreases Behind(d.prevAvail, last)
  {
    if d.prevAvail == last {
      ops := [];
    } else {
      ConsumeStep(d, last);
      var rest := ConsumeGrows(Start(d), last);
      ops := rest + [Start(d).pending[0]];
    }
  }

  /** What a notification does to the requests of a device: `ops` are taken on. */
  ghost predicate Taking(d: Dev, d': Dev, ops: seq<Op>) {
    && d'.pending == ops + d.pending && |d'.consumed| == |d.consumed| + |ops| && d.consumed <= d'.consumed
    && d'.completed == d.completed && d'.cycle == d.cycle
    && forall x :: 0 <= x < |ops| ==> ops[x] == Op(d'.consumed[|d'.consumed| - 1 - x], d.cycle, d.cycle + LATENCY)
  }

  lemma NotifyTakes(s: Sys) returns (d': Dev, ops: seq<Op>)
    requires WellFormedDev(s.dev)
    ensures d' == Apply(s, Notify).dev && Taking(s.dev, d', ops)
  {
    var d := s.dev;
    IdxBound(d.mem, d.cfg.availRing + 2);
    d' := ProcessQueue(d);
    if d.ready { ops := ConsumeGrows(d, AvailIdx(d.mem, d.cfg)); } else { ops := []; }
  }

  /** What a cycle does to them: those from position m on, started 1000 cycles ago, complete. */
  ghost predicate Finishing(d: Dev, d': Dev, m: nat) {
    && m <= |d.pending| && d'.pending == d.pending[..m] && d'.completed == d.completed + Heads(d.pending[m..])
    && d'.consumed == d.consumed && d'.cycle == d.cycle + 1
    && forall q :: 0 <= q < |d.pending| ==> (q >= m <==> d.cycle + 1 == d.pending[q].start + LATENCY)
  }

  lemma {:induction false} UpdateKeepsConsumed(d: Dev, i: nat)
    requires WellFormedDev(d) && i <= |d.pending|
    ensures UpdateFrom(d, i).consumed == d.consumed
    decreases |d.pending| - i
  {
    if i < |d.pending| {
      if d.cycle >= d.pending[i].completion { UpdateKeepsConsumed(CompleteAt(d, i), i); } else { UpdateKeepsConsumed(d, i + 1); }
    }
  }

  lemma TickFinishes(s: Sys) returns (d': Dev, m: nat)
    requires Inv(s) && StepOk(s, Tick)
    ensures d' == Apply(s, Tick).dev && Finishing(s.dev, d', m)
  {
    m := TickIsExact(s);
    var d1 := s.dev.(cycle := s.dev.cycle + 1);
    UpdateKeepsConsumed(d1, 0);
    UpdateKeepsClock(d1);
    d' := UpdateFrom(d1, 0);
  }

  lemma {:induction false} HeadsLength(ops: seq<Op>)
    ensures |Heads(ops)| == |ops|
    ensures forall q :: 0 <= q < |ops| ==> Heads(ops)[q] == ops[q].head
  {
    if ops != [] { HeadsLength(ops[1..]); }
  }

  /** Any other step leaves the requests alone. */
  ghost predicate Idle(d: Dev, d': Dev) {
    d'.pending == d.pending && d'.consumed == d.consumed && d'.completed == d.completed && d'.cycle == d.cycle
  }

  /** What one step of a run does to the requests; `d.pending` accounts for those not completed. */
  lemma StepMoves(states: seq<Sys>, steps: seq<Step>, n: nat) returns (d: Dev, d': Dev, ops: seq<Op>, m: nat)
    requires IsRun(states, steps) && Initial(states[0]) && n < |steps|
    ensures d == states[n].dev && d' == states[n + 1].dev && |d.consumed| == |d.completed| + |d.pending|
    ensures steps[n].Notify? ==> Taking(d, d', ops)
    ensures steps[n].Tick? ==> Finishing(d, d', m)
    ensures !steps[n].Notify? && !steps[n].Tick? ==> Idle(d, d')
  {
    InvAlongRuns(states, steps, n);
    assert StepAt(states, steps, n);
    d, d', ops, m := states[n].dev, states[n + 1].dev, [], 0;
    if steps[n].Notify? {
      d', ops := NotifyTakes(states[n]);
    } else if steps[n].Tick? {
      d', m := TickFinishes(states[n]);
    }
  }

  // ---- One request along a run --------------------------------------------------------------

  /** Request k, taken at cycle `start`: before its 1000th cycle it is in flight, at the place its
      number gives it; from then on it is completed. */
  ghost predicate Tracks(d: Dev, k: nat, head: nat, start: nat) {
    && k < |d.consumed| == |d.completed| + |d.pending| && d.consumed[k] == head
    && (k < |d.completed| <==> d.cycle >= start + LATENCY)
    && (k >= |d.completed| ==> d.pending[|d.consumed| - 1 - k] == Op(head, start, start + LATENCY))
  }

  lemma TakingTracks(d: Dev, d': Dev, ops: seq<Op>, k: nat, head: nat, start: nat)
    requires Taking(d, d', ops) && Tracks(d, k, head, start)
    ensures Tracks(d', k, head, start)
  {}

  lemma FinishingTracks(d: Dev, d': Dev, m: nat, k: nat, head: nat, start: nat)
    requires Finishing(d, d', m) && Tracks(d, k, head, start)
    ensures Tracks(d', k, head, start)
  {
    HeadsLength(d.pending[m..]);
  }

  /** A request just taken. */
  lemma TakenTracks(d: Dev, d': Dev, ops: seq<Op>, k: nat)
    requires Taking(d, d', ops) && |d.consumed| == |d.completed| + |d.pending| && |d.consumed| <= k < |d'.consumed|
    ensures Tracks(d', k, d'.consumed[k], d.cycle)
  {
    assert ops[|d'.consumed| - 1 - k] == Op(d'.consumed[k], d.cycle, d.cycle + LATENCY);
  }

  lemma StepTracks(states: seq<Sys>, steps: seq<Step>, j: nat, k: nat, head: nat, start: nat)
    requires IsRun(states, steps) && Initial(states[0]) && j < |steps| && Tracks(states[j].dev, k, head, start)
    ensures Tracks(states[j + 1].dev, k, head, start)
    ensures states[j + 1].dev.cycle == states[j].dev.cycle + if steps[j].Tick? then 1 else 0
  {
    var d, d', ops, m := StepMoves(states, steps, j);
    if steps[j].Notify? {
      TakingTracks(d, d', ops, k, head, start);
    } else if steps[j].Tick? {
      FinishingTracks(d, d', m, k, head, start);
    }
  }

  lemma StartTracks(states: seq<Sys>, steps: seq<Step>, i: nat, k: nat)
    requires IsRun(states, steps) && Initial(states[0]) && i < |steps|
    requires |states[i].dev.consumed| <= k < |states[i + 1].dev.consumed|
    ensures Tracks(states[i + 1].dev, k, states[i + 1].dev.consumed[k], states[i].dev.cycle)
    ensures states[i + 1].dev.cycle == states[i].dev.cycle
  {
    var d, d', ops, m := StepMoves(states, steps, i);
    TakenTracks(d, d', ops, k);
  }

  lemma {:induction false} TracksAlong(states: seq<Sys>, steps: seq<Step>, i: nat, j: nat, k: nat)
    requires IsRun(states, steps) && Initial(states[0]) && i < j <= |steps|
    requires |states[i].dev.consumed| <= k < |states[i + 1].dev.consumed|
    ensures Tracks(states[j].dev, k, states[i + 1].dev.consumed[k], states[i].dev.cycle)
    ensures states[j].dev.cycle == states[i].dev.cycle + Ticks(steps, i + 1, j)
    decreases j
  {
    if j == i + 1 {
      StartTracks(states, steps, i, k);
    } else {
      TracksAlong(states, steps, i, j - 1, k);
      StepTracks(states, steps, j - 1, k, states[i + 1].dev.consumed[k], states[i].dev.cycle);
    }
  }

  /** Latency end to end: the k-th request of a run, taken at step i, counts as completed exactly
      from the 1000th cycle after that step on, and until then is in flight with the head that was
      taken and the cycle it was taken at. */
  lemma CompletesAfterLatency(states: seq<Sys>, steps: seq<Step>, i: nat, j: nat, k: nat)
    requires IsRun(states, steps) && Initial(states[0]) && i < j <= |steps|
    requires |states[i].dev.consumed| <= k < |states[i + 1].dev.consumed|
    ensures k < |states[j].dev.completed| <==> Ticks(steps, i + 1, j) >= LATENCY
    ensures Tracks(states[j].dev, k, states[i + 1].dev.consumed[k], states[i].dev.cycle)
  {
    TracksAlong(states, steps, i, j, k);
  }

  lemma LandsAt(d: Dev, d': Dev, m: nat, k: nat, head: nat, start: nat) returns (p: nat)
    requires Finishing(d, d', m) && Tracks(d, k, head, start) && d.cycle + 1 == start + LATENCY
    ensures |d.completed| <= p < |d'.completed| && d'.completed[p] == head
  {
    HeadsLength(d.pending[m..]);
    var q := |d.consumed| - 1 - k;
    assert d.pending[m..][q - m] == d.pending[q];
    p := |d.completed| + q - m;
  }

  /** The 1000th cycle itself puts the head into the used ring. */
  lemma LandsInTime(states: seq<Sys>, steps: seq<Step>, i: nat, j: nat, k: nat) returns (p: nat)
    requires IsRun(states, steps) && Initial(states[0]) && i < j < |steps|
    requires |states[i].dev.consumed| <= k < |states[i + 1].dev.consumed|
    requires Ticks(steps, i + 1, j) == LATENCY - 1 && steps[j].Tick?
    ensures |states[j].dev.completed| <= p < |states[j + 1].dev.completed|
    ensures states[j + 1].dev.completed[p] == states[i + 1].dev.consumed[k]
  {
    TracksAlong(states, steps, i, j, k);
    var d, d', ops, m := StepMoves(states, steps, j);
    p := LandsAt(d, d', m, k, states[i + 1].dev.consumed[k], states[i].dev.cycle);
  }

  // ---- Which heads have completed -----------------------------------------------------------

  /** The operations in flight are the requests taken last, newest first. */
  ghost predicate Queued(consumed: seq<nat>, completed: seq<nat>, pending: seq<Op>) {
    && |consumed| == |completed| + |pending|
    && forall q :: 0 <= q < |pending| ==> pending[q].head == consumed[|consumed| - 1 - q]
  }

  ghost predicate QueuedDev(d: Dev) { Queued(d.consumed, d.completed, d.pending) }

  lemma TakingQueued(d: Dev, d': Dev, ops: seq<Op>)
    requires Taking(d, d', ops) && QueuedDev(d)
    ensures QueuedDev(d')
  {}

  lemma FinishingQueued(d: Dev, d': Dev, m: nat)
    requires Finishing(d, d', m) && QueuedDev(d)
    ensures QueuedDev(d')
  {
    HeadsLength(d.pending[m..]);
  }

  lemma {:induction false} QueuedAlongRuns(states: seq<Sys>, steps: seq<Step>, n: nat)
    requires IsRun(states, steps) && Initial(states[0]) && n <= |steps|
    ensures QueuedDev(states[n].dev)
  {
    if n > 0 {
      QueuedAlongRuns(states, steps, n - 1);
      var d, d', ops, m := StepMoves(states, steps, n - 1);
      if steps[n - 1].Notify? { TakingQueued(d, d', ops); } else if steps[n - 1].Tick? { FinishingQueued(d, d', m); }
    }
  }

  lemma {:induction false} ReversedHeads(ops: seq<Op>, heads: seq<nat>)
    requires |ops| == |heads| && forall q :: 0 <= q < |ops| ==> ops[q].head == heads[|heads| - 1 - q]
    ensures multiset(Heads(ops)) == multiset(heads)
  {
    if ops != [] {
      var init, last := heads[..|heads| - 1], heads[|heads| - 1];
      ReversedHeads(ops[1..], init);
      assert heads == init + [last] && ops == [ops[0]] + ops[1..];
      HeadsOfCons(ops[0], ops[1..]);
    }
  }

  lemma FirstAreDone(consumed: seq<nat>, completed: seq<nat>, pending: seq<Op>)
    requires Queued(consumed, completed, pending)
    requires multiset(consumed) == multiset(completed) + multiset(Heads(pending))
    ensures multiset(completed) == multiset(consumed[..|completed|])
  {
    var first, rest := consumed[..|completed|], consumed[|completed|..];
    ReversedHeads(pending, rest);
    assert consumed == first + rest;
    Cancel(multiset(first), multiset(completed), multiset(rest));
  }

  lemma Cancel(a: multiset<nat>, b: multiset<nat>, c: multiset<nat>)
    requires a + c == b + c
    ensures a == b
  {
    assert a == (a + c) - c && b == (b + c) - c;
  }

  /** The heads returned to the driver are, as a multiset, exactly the first ones taken: nothing
      overtakes a request that was taken in an earlier cycle. */
  lemma CompletedAreFirst(states: seq<Sys>, steps: seq<Step>, n: nat)
    requires IsRun(states, steps) && Initial(states[0]) && n <= |steps|
    ensures var d := states[n].dev;
            |d.completed| <= |d.consumed| && multiset(d.completed) == multiset(d.consumed[..|d.completed|])
  {
    QueuedAlongRuns(states, steps, n);
    ExactlyOnce(states, steps, n);
    var d := states[n].dev;
    FirstAreDone(d.consumed, d.completed, d.pending);
  }
}
