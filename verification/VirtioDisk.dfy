/** The disk over whole runs: the image and everything delivered to the guest are those of a plain
    array that serves the completed requests one after another. */
module VirtioDisk {
  import opened Options
  import opened Bytes
  import opened Memory
  import opened DiskModel
  import opened VirtioModel
  import opened VirtioRings
  import opened VirtioRuns
  import opened VirtioData

  /** The transfer a completing operation asks for, if any; a write takes the guest's buffer as it
      is at completion. */
  function RequestOf(d: Dev, op: Op): seq<Request> {
    match ChainOf(d, op.head)
    case None => []
    case Some(chain) =>
      var mem1 := PhysWrite(d.mem, chain.status, 0, 1);
      if !HasTransfer(mem1, d.disk, chain) then []
      else
        var sector := RequestSector(mem1, chain);
        if RequestType(mem1, chain) == T_IN then [In(sector)]
        else if RequestType(mem1, chain) == T_OUT then [Out(sector, ReadBytes(mem1, chain.data, BSIZE))]
        else []
  }

  /** What the guest finds in its buffer once the read has completed. */
  function Delivered(d: Dev, op: Op): seq<seq<Byte>>
    requires WellFormedDev(d)
  {
    var asked := RequestOf(d, op);
    if asked != [] && asked[0].In? then [ReadBytes(Complete(d, op).mem, ChainOf(d, op.head).value.data, BSIZE)] else []
  }

  function UpdateLog(d: Dev, i: nat): seq<Request>
    requires WellFormedDev(d) && i <= |d.pending|
    decreases |d.pending| - i
  {
    if i == |d.pending| then []
    else if d.cycle >= d.pending[i].completion then RequestOf(d, d.pending[i]) + UpdateLog(CompleteAt(d, i), i)
    else UpdateLog(d, i + 1)
  }

  function UpdateDelivered(d: Dev, i: nat): seq<seq<Byte>>
    requires WellFormedDev(d) && i <= |d.pending|
    decreases |d.pending| - i
  {
    if i == |d.pending| then []
    else if d.cycle >= d.pending[i].completion then Delivered(d, d.pending[i]) + UpdateDelivered(CompleteAt(d, i), i)
    else UpdateDelivered(d, i + 1)
  }

  function Cycled(d: Dev): Dev { d.(cycle := d.cycle + 1) }

  function StepLog(d: Dev, step: Step): seq<Request>
    requires WellFormedDev(d)
  {
    if step.Tick? then UpdateLog(Cycled(d), 0) else []
  }

  function StepDelivered(d: Dev, step: Step): seq<seq<Byte>>
    requires WellFormedDev(d)
  {
    if step.Tick? then UpdateDelivered(Cycled(d), 0) else []
  }

  ghost function LogAt(states: seq<Sys>, steps: seq<Step>, n: nat): seq<Request>
    requires IsRun(states, steps) && n < |steps|
  {
    assert StepAt(states, steps, n);
    StepLog(states[n].dev, steps[n])
  }

  ghost function DeliveredAt(states: seq<Sys>, steps: seq<Step>, n: nat): seq<seq<Byte>>
    requires IsRun(states, steps) && n < |steps|
  {
    assert StepAt(states, steps, n);
    StepDelivered(states[n].dev, steps[n])
  }

  /** The requests completed by the first n steps of a run, in order. */
  ghost function RunLog(states: seq<Sys>, steps: seq<Step>, n: nat): seq<Request>
    requires IsRun(states, steps) && n <= |steps|
  {
    if n == 0 then []
    else RunLog(states, steps, n - 1) + LogAt(states, steps, n - 1)
  }

  ghost function RunDelivered(states: seq<Sys>, steps: seq<Step>, n: nat): seq<seq<Byte>>
    requires IsRun(states, steps) && n <= |steps|
  {
    if n == 0 then []
    else RunDelivered(states, steps, n - 1) + DeliveredAt(states, steps, n - 1)
  }

  // ---- The plain array over a log -----------------------------------------------------------

  predicate LogOk(size: nat, log: seq<Request>) {
    forall i :: 0 <= i < |log| ==> RequestOk(size, log[i])
  }

  /** Serving `log` turns the plain array `data` into `data'` and answers its reads with `answers`. */
  predicate Serving(data: seq<Byte>, log: seq<Request>, data': seq<Byte>, answers: seq<seq<Byte>>) {
    LogOk(|data|, log) && PlainServe(data, log).0 == data' && PlainServe(data, log).1 == answers
  }

  lemma {:induction false} ServingJoins(data: seq<Byte>, a: seq<Request>, data1: seq<Byte>, x: seq<seq<Byte>>,
                     b: seq<Request>, data2: seq<Byte>, y: seq<seq<Byte>>)
    requires Serving(data, a, data1, x) && Serving(data1, b, data2, y)
    ensures Serving(data, a + b, data2, x + y)
    decreases |b|
  {
    if b == [] {
      assert a + b == a && x + y == x;
    } else {
      var init, last := b[..|b| - 1], b[|b| - 1];
      assert (a + b)[..|a + b| - 1] == a + init;
      assert LogOk(|data1|, init);
      var mid := PlainServe(data1, init);
      ServingJoins(data, a, data1, x, init, mid.0, mid.1);
      assert RequestOk(|data1|, last) && (a + b)[|a + b| - 1] == last;
      assert LogOk(|data|, a + b);
      if last.In? { assert x + (mid.1 + [PlainRead(mid.0, last.sector)]) == x + mid.1 + [PlainRead(mid.0, last.sector)]; }
    }
  }

  lemma ServingNone(data: seq<Byte>)
    ensures Serving(data, [], data, [])
  {}

  lemma ServingIn(data: seq<Byte>, sector: nat)
    requires RequestOk(|data|, In(sector))
    ensures Serving(data, [In(sector)], data, [PlainRead(data, sector)])
  {
    ServingNone(data);
    assert [In(sector)][..0] == [];
  }

  lemma ServingOut(data: seq<Byte>, sector: nat, bytes: seq<Byte>)
    requires RequestOk(|data|, Out(sector, bytes))
    ensures Serving(data, [Out(sector, bytes)], PlainWrite(data, sector, bytes), [])
  {
    ServingNone(data);
    assert [Out(sector, bytes)][..0] == [];
  }

  // ---- One completion, one update, whole runs -----------------------------------------------

  lemma AsksIn(d: Dev, op: Op, chain: Chain, sector: nat)
    requires WellFormedDev(d) && Transfers(d, op, chain, T_IN, sector)
    ensures RequestOf(d, op) == [In(sector)] && Delivered(d, op) == [BufferAt(Complete(d, op).mem, chain.data)]
    ensures RequestOk(|d.disk.data|, In(sector))
  {
    ReadBytesIs(Complete(d, op).mem, chain.data, BSIZE);
  }

  lemma ReadServes(d: Dev, op: Op, chain: Chain, sector: nat)
    requires WellFormedDev(d) && Layout(|d.mem|, d.cfg) && CacheOk(d.disk) && Transfers(d, op, chain, T_IN, sector)
    ensures Serving(d.disk.data, RequestOf(d, op), Complete(d, op).disk.data, Delivered(d, op))
  {
    ReadDelivers(d, op, chain, sector);
    AsksIn(d, op, chain, sector);
    ServingIn(d.disk.data, sector);
  }

  lemma AsksOut(d: Dev, op: Op, chain: Chain, sector: nat) returns (bytes: seq<Byte>)
    requires WellFormedDev(d) && Transfers(d, op, chain, T_OUT, sector)
    ensures |bytes| == BSIZE && bytes == BufferAt(PhysWrite(d.mem, chain.status, 0, 1), chain.data)
    ensures RequestOf(d, op) == [Out(sector, bytes)] && Delivered(d, op) == []
  {
    var mem1 := PhysWrite(d.mem, chain.status, 0, 1);
    bytes := BufferRead(mem1, chain.data);
  }

  lemma FitsDisk(d: Dev, op: Op, chain: Chain, kind: nat, sector: nat)
    requires WellFormedDev(d) && Transfers(d, op, chain, kind, sector)
    ensures sector % 2 == 0 && sector * SECTOR + BSIZE <= |d.disk.data|
  {}

  lemma WriteServes(d: Dev, op: Op, chain: Chain, sector: nat)
    requires WellFormedDev(d) && CacheOk(d.disk) && Transfers(d, op, chain, T_OUT, sector)
    ensures Serving(d.disk.data, RequestOf(d, op), Complete(d, op).disk.data, Delivered(d, op))
  {
    WriteStores(d, op, chain, sector);
    var bytes := AsksOut(d, op, chain, sector);
    FitsDisk(d, op, chain, T_OUT, sector);
    ServingOut(d.disk.data, sector, bytes);
  }

  lemma NothingServes(d: Dev, op: Op, chain: Chain)
    requires WellFormedDev(d) && ChainOf(d, op.head) == Some(chain) && RequestOf(d, op) == []
    ensures Serving(d.disk.data, RequestOf(d, op), Complete(d, op).disk.data, Delivered(d, op))
  {
    ServingNone(d.disk.data);
  }

  /** A completion serves its request as the plain array would. */
  lemma CompleteServes(d: Dev, op: Op)
    requires WellFormedDev(d) && Layout(|d.mem|, d.cfg) && CacheOk(d.disk) && CompletesCleanly(d, op)
    ensures Serving(d.disk.data, RequestOf(d, op), Complete(d, op).disk.data, Delivered(d, op))
  {
    var chain := ChainOf(d, op.head).value;
    var mem1 := PhysWrite(d.mem, chain.status, 0, 1);
    var kind, sector := RequestType(mem1, chain), RequestSector(mem1, chain);
    if HasTransfer(mem1, d.disk, chain) && kind == T_IN {
      ReadServes(d, op, chain, sector);
    } else if HasTransfer(mem1, d.disk, chain) && kind == T_OUT {
      WriteServes(d, op, chain, sector);
    } else {
      NothingServes(d, op, chain);
    }
  }

  lemma {:induction false} UpdateServes(d: Dev, i: nat)
    requires WellFormedDev(d) && i <= |d.pending| && Layout(|d.mem|, d.cfg) && CacheOk(d.disk) && UpdatesCleanly(d, i)
    ensures Serving(d.disk.data, UpdateLog(d, i), UpdateFrom(d, i).disk.data, UpdateDelivered(d, i))
    decreases |d.pending| - i
  {
    if i == |d.pending| {
      ServingNone(d.disk.data);
    } else if d.cycle >= d.pending[i].completion {
      var op, d' := d.pending[i], CompleteAt(d, i);
      CompleteServes(d, op);
      CompleteKeepsCache(d, op);
      UpdateServes(d', i);
      ServingJoins(d.disk.data, RequestOf(d, op), d'.disk.data, Delivered(d, op),
                   UpdateLog(d', i), UpdateFrom(d', i).disk.data, UpdateDelivered(d', i));
    } else {
      UpdateServes(d, i + 1);
    }
  }

  lemma NotifyKeepsDisk(d: Dev)
    requires WellFormedDev(d)
    ensures ProcessQueue(d).disk == d.disk
  {
    IdxBound(d.mem, d.cfg.availRing + 2);
    if d.ready { ConsumeKeepsDisk(d, AvailIdx(d.mem, d.cfg)); }
  }

  /** A Tick is an update one cycle on. */
  lemma TickIsUpdate(s: Sys) returns (d1: Dev)
    requires Inv(s) && StepOk(s, Tick)
    ensures WellFormedDev(d1) && Layout(|d1.mem|, d1.cfg) && UpdatesCleanly(d1, 0) && d1.disk == s.dev.disk
    ensures VirtioRuns.Apply(s, Tick).dev == UpdateFrom(d1, 0)
    ensures StepLog(s.dev, Tick) == UpdateLog(d1, 0) && StepDelivered(s.dev, Tick) == UpdateDelivered(d1, 0)
  {
    d1 := Cycled(s.dev);
  }

  lemma TickServes(s: Sys)
    requires Inv(s) && StepOk(s, Tick) && CacheOk(s.dev.disk)
    ensures Serving(s.dev.disk.data, StepLog(s.dev, Tick), VirtioRuns.Apply(s, Tick).dev.disk.data, StepDelivered(s.dev, Tick))
  {
    var d1 := TickIsUpdate(s);
    UpdateServes(d1, 0);
  }

  /** One step of a run. */
  lemma StepServes(s: Sys, step: Step)
    requires Inv(s) && StepOk(s, step) && CacheOk(s.dev.disk)
    ensures Serving(s.dev.disk.data, StepLog(s.dev, step), VirtioRuns.Apply(s, step).dev.disk.data, StepDelivered(s.dev, step))
  {
    match step
    case Notify => NotifyKeepsDisk(s.dev); ServingNone(s.dev.disk.data);
    case Tick => TickServes(s);
    case _ => ServingNone(s.dev.disk.data);
  }

  lemma RunStepServes(states: seq<Sys>, steps: seq<Step>, n: nat)
    requires IsRun(states, steps) && Initial(states[0]) && CacheOk(states[0].dev.disk) && n < |steps|
    ensures Serving(states[n].dev.disk.data, LogAt(states, steps, n), states[n + 1].dev.disk.data,
                    DeliveredAt(states, steps, n))
  {
    InvAlongRuns(states, steps, n);
    CacheAlongRuns(states, steps, n);
    assert StepAt(states, steps, n);
    StepServes(states[n], steps[n]);
  }

  /** At every point of every run the disk image is the initial one with the requests completed so
      far served in order, and the blocks delivered to the guest's buffers are the answers the plain
      array gives, whatever the cache held and however the operations overlapped in time. */
  lemma {:induction false} DiskAlongRuns(states: seq<Sys>, steps: seq<Step>, n: nat)
    requires IsRun(states, steps) && Initial(states[0]) && CacheOk(states[0].dev.disk) && n <= |steps|
    ensures Serving(states[0].dev.disk.data, RunLog(states, steps, n), states[n].dev.disk.data,
                    RunDelivered(states, steps, n))
  {
    var data := states[0].dev.disk.data;
    if n == 0 {
      ServingNone(data);
    } else {
      DiskAlongRuns(states, steps, n - 1);
      RunStepServes(states, steps, n - 1);
      ServingJoins(data, RunLog(states, steps, n - 1), states[n - 1].dev.disk.data, RunDelivered(states, steps, n - 1),
                   LogAt(states, steps, n - 1), states[n].dev.disk.data, DeliveredAt(states, steps, n - 1));
    }
  }
}
