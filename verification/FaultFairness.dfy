/**
  The order in which volumes get a worker: the ready ring is the order in which they
  began to wait, read off the log, and nobody in it is overtaken.
 */
module FaultFairness {
  import opened Prelude
  import opened FaultSchedule
  import opened FaultQueueProofs
  import opened FaultAnswerProofs
  import opened FaultTheorems

  // ---- Counting starts ---------------------------------------------------

  function Starts(log: Log): nat {
    match log
    case Empty => 0
    case Snoc(earlier, e) => Starts(earlier) + if e.Started? then 1 else 0
  }

  function StartsOn(log: Log, v: Volume): nat {
    match log
    case Empty => 0
    case Snoc(earlier, e) => StartsOn(earlier, v) + if e.Started? && e.work.volume == v then 1 else 0
  }

  /** `v` stands at place `j` of the ring. */
  predicate StandsAt(q: Queue, v: Volume, j: int) {
    0 <= j < |q.ready| && q.ready[j] == v
  }

  lemma {:induction false} PushAllAppends(s: State, works: seq<Work>, v: Volume)
    ensures s.queue.ready <= PushAll(s, works).queue.ready
    ensures Starts(PushAll(s, works).log) == Starts(s.log) && StartsOn(PushAll(s, works).log, v) == StartsOn(s.log, v)
    decreases |works|
  {
    if works != [] { PushAllAppends(s, DropLast(works), v); }
  }

  lemma AdmitAppends(s: State, item: Item, v: Volume)
    ensures var t := Admit(s, item);
            && s.queue.ready <= t.queue.ready
            && Starts(t.log) == Starts(s.log) && StartsOn(t.log, v) == StartsOn(s.log, v)
  {
    if item.WriteProtect? && item.hosts != [] {
      PushAllAppends(OpenBatch(s, |item.hosts|), BatchWorks(item.hosts, s.serials, s.tickets, s.nextBatch), v);
    }
  }

  lemma FinishAppends(s: State, worker: nat, ok: bool, v: Volume)
    requires CanFinish(s, worker)
    ensures var t := Finish(s, worker, ok);
            && s.queue.ready <= t.queue.ready
            && Starts(t.log) == Starts(s.log) && StartsOn(t.log, v) == StartsOn(s.log, v)
  {
  }

  /** A turn moves a waiting volume up by one place for every start, or starts it. */
  lemma StepMovesUp(s: State, step: Step, v: Volume, j: nat)
    requires QueueInv(s.queue) && Offered(s, step) && StandsAt(s.queue, v, j)
    ensures var t := Apply(s, step);
            && StartsOn(s.log, v) <= StartsOn(t.log, v)
            && (StartsOn(t.log, v) == StartsOn(s.log, v) ==> StandsAt(t.queue, v, j + Starts(s.log) - Starts(t.log)))
  {
    match step
    case DoStart => StartKeeps(s.queue);
    case DoAdmit(item) => AdmitAppends(s, item, v);
    case DoFinish(worker, ok) => FinishAppends(s, worker, ok, v);
    case _ =>
  }

  lemma StepCounts(s: State, step: Step, v: Volume)
    requires Offered(s, step)
    ensures StartsOn(s.log, v) <= StartsOn(Apply(s, step).log, v)
  {
    match step
    case DoAdmit(item) => AdmitAppends(s, item, v);
    case DoFinish(worker, ok) => FinishAppends(s, worker, ok, v);
    case _ =>
  }

  lemma {:induction false} RunCounts(s: State, steps: seq<Step>, v: Volume)
    requires Possible(s, steps)
    ensures StartsOn(s.log, v) <= StartsOn(Run(s, steps).log, v)
    decreases |steps|
  {
    if steps != [] {
      StepCounts(s, steps[0], v);
      RunCounts(Apply(s, steps[0]), steps[1..], v);
    }
  }

  /** The volume will start with start number `k` at the latest. */
  predicate DueBy(s: State, v: Volume, k: int) {
    StandsAt(s.queue, v, k - Starts(s.log))
  }

  /** One turn of a run after which the volume has still not started. */
  lemma TurnMovesUp(s: State, step: Step, rest: seq<Step>, v: Volume, k: int)
    requires QueueInv(s.queue) && Offered(s, step) && Possible(Apply(s, step), rest) && DueBy(s, v, k)
    requires StartsOn(Run(Apply(s, step), rest).log, v) == StartsOn(s.log, v)
    ensures StartsOn(Apply(s, step).log, v) == StartsOn(s.log, v) && DueBy(Apply(s, step), v, k)
  {
    StepMovesUp(s, step, v, k - Starts(s.log));
    RunCounts(Apply(s, step), rest, v);
  }

  /** The queue is in order at every turn of the run. */
  ghost predicate AlwaysInOrder(s: State, steps: seq<Step>)
    requires Possible(s, steps)
    decreases |steps|
  {
    QueueInv(s.queue) && (steps != [] ==> AlwaysInOrder(Apply(s, steps[0]), steps[1..]))
  }

  lemma {:induction false} RunsAreInOrder(s: State, steps: seq<Step>)
    requires Inv(s) && Legal(s, steps)
    ensures AlwaysInOrder(s, steps)
    decreases |steps|
  {
    if steps != [] {
      StepKeeps(s, steps[0]);
      RunsAreInOrder(Apply(s, steps[0]), steps[1..]);
    }
  }

  lemma {:induction false} RunMovesUp(s: State, steps: seq<Step>, v: Volume, k: int)
    requires Possible(s, steps) && AlwaysInOrder(s, steps) && DueBy(s, v, k)
    requires StartsOn(Run(s, steps).log, v) == StartsOn(s.log, v)
    ensures DueBy(Run(s, steps), v, k)
    decreases |steps|
  {
    if steps != [] {
      TurnMovesUp(s, steps[0], steps[1..], v, k);
      RunMovesUp(Apply(s, steps[0]), steps[1..], v, k);
    }
  }

  /** In every run, a volume with `i` others before it in the ring sees at most `i`
      operations start before one of its own does, however the run goes on. */
  lemma NobodyIsOvertaken(steps: seq<Step>, more: seq<Step>, i: nat)
    requires Legal(Init(), steps) && Legal(Run(Init(), steps), more) && i < |Run(Init(), steps).queue.ready|
    ensures var s := Run(Init(), steps);
            var t := Run(s, more);
            StartsOn(t.log, s.queue.ready[i]) == StartsOn(s.log, s.queue.ready[i]) ==>
              Starts(t.log) <= Starts(s.log) + i
  {
    InitInv();
    RunKeeps(Init(), steps);
    var s := Run(Init(), steps);
    if StartsOn(Run(s, more).log, s.queue.ready[i]) == StartsOn(s.log, s.queue.ready[i]) {
      RunsAreInOrder(s, more);
      RunMovesUp(s, more, s.queue.ready[i], i + Starts(s.log));
    }
  }

  // ---- The ring, read off the log -------------------------------------------

  /** The volume has operations queued and not started. */
  predicate Behind(log: Log, v: Volume) {
    |Project(log, QueuedOn(v))| > |Project(log, StartedOn(v))|
  }

  /** The volume has an operation started and not finished. */
  predicate Busy(log: Log, v: Volume) {
    |Project(log, StartedOn(v))| > |Project(log, FinishedOn(v))|
  }

  function Without(vs: seq<Volume>, v: Volume): seq<Volume> {
    if vs == [] then [] else (if vs[0] == v then [] else [vs[0]]) + Without(vs[1..], v)
  }

  /** The volumes that wait for a worker, in the order in which they began to: when their
      first operation was queued, or when one finished with more behind it. */
  function WaitOrder(log: Log): seq<Volume> {
    match log
    case Empty => []
    case Snoc(earlier, e) =>
      var waiting := WaitOrder(earlier);
      match e
      case Queued(w) => if Behind(earlier, w.volume) || Busy(earlier, w.volume) then waiting else waiting + [w.volume]
      case Started(w) => Without(waiting, w.volume)
      case Finished(w, _) => if Behind(earlier, w.volume) then waiting + [w.volume] else waiting
      case _ => waiting
  }

  /** Whoever started had waited longest. */
  predicate StartsInTurn(log: Log) {
    match log
    case Empty => true
    case Snoc(earlier, e) =>
      && StartsInTurn(earlier)
      && (e.Started? ==> WaitOrder(earlier) != [] && WaitOrder(earlier)[0] == e.work.volume)
  }

  predicate RingInv(s: State) {
    s.queue.ready == WaitOrder(s.log) && StartsInTurn(s.log)
  }

  lemma {:induction false} WithoutAbsent(vs: seq<Volume>, v: Volume)
    requires v !in vs
    ensures Without(vs, v) == vs
  {
    if vs != [] { WithoutAbsent(vs[1..], v); }
  }

  lemma WithoutFirst(vs: seq<Volume>)
    requires vs != [] && Distinct(vs)
    ensures Without(vs, vs[0]) == vs[1..]
  {
    WithoutAbsent(vs[1..], vs[0]);
  }

  /** The log and the queue agree on who is behind and who is busy. */
  lemma LogTellsState(s: State, v: Volume)
    requires CoreInv(s)
    ensures Behind(s.log, v) <==> PendingOf(s.queue, v) != []
    ensures Busy(s.log, v) <==> v in s.queue.active
  {
    if v in s.queue.active {
      var k :| k in s.running && s.running[k].volume == v;
      assert FifoOn(s, v, [s.running[k]]);
    } else {
      assert FifoOn(s, v, []);
    }
  }

  lemma PushWorkTurns(s: State, w: Work)
    requires CoreInv(s) && RingInv(s)
    ensures RingInv(PushWork(s, w))
  {
    LogTellsState(s, w.volume);
  }

  lemma {:induction false} PushAllTurns(s: State, works: seq<Work>)
    requires CoreInv(s) && OwedInv(s) && RingInv(s)
    requires forall i :: 0 <= i < |works| ==> works[i].serial == s.serials + i
    ensures RingInv(PushAll(s, works))
    decreases |works|
  {
    if works != [] {
      PushAllTurns(s, DropLast(works));
      PushAllKeeps(s, DropLast(works));
      PushWorkTurns(PushAll(s, DropLast(works)), Last(works));
    }
  }

  lemma StartTurns(s: State)
    requires CoreInv(s) && RingInv(s) && !Settled(s)
    ensures PendingOf(s.queue, s.queue.ready[0]) != [] && RingInv(StartOne(s))
  {
    StartKeeps(s.queue);
    WithoutFirst(s.queue.ready);
  }

  lemma ReleaseTurns(s: State, worker: nat, ok: bool)
    requires CoreInv(s) && RingInv(s) && worker in s.running
    ensures RingInv(Release(s, worker, ok))
  {
    LogTellsState(s, s.running[worker].volume);
  }

  lemma AnswerTurns(r: State, t: State, ticket: nat, ok: bool)
    requires RingInv(r) && t.queue == r.queue && (t.log == r.log || t.log == Snoc(r.log, Answered(ticket, ok)))
    ensures RingInv(t)
  {
  }

  lemma FinishTurns(s: State, worker: nat, ok: bool)
    requires CoreInv(s) && RingInv(s) && CanFinish(s, worker)
    ensures RingInv(Finish(s, worker, ok))
  {
    ReleaseTurns(s, worker, ok);
    var t := Finish(s, worker, ok);
    if t.log.event.Answered? {
      AnswerTurns(Release(s, worker, ok), t, t.log.event.ticket, t.log.event.ok);
    } else {
      AnswerTurns(Release(s, worker, ok), t, 0, ok);
    }
  }

  lemma SubmittedTurns(s: State, t: State)
    requires CoreInv(s) && OwedInv(s) && RingInv(s)
    requires t.queue == s.queue && t.idle == s.idle && t.running == s.running && t.serials == s.serials
    requires t.log == Snoc(s.log, Submitted(s.tickets))
    ensures CoreInv(t) && OwedInv(t) && RingInv(t)
  {
    NeutralKeeps(s, t, Submitted(s.tickets));
    OwedNeutral(s, t, Submitted(s.tickets));
  }

  lemma AdmitTurns(s: State, item: Item)
    requires CoreInv(s) && OwedInv(s) && RingInv(s)
    ensures RingInv(Admit(s, item))
  {
    match item
    case Single(v) =>
      var t := s.(tickets := s.tickets + 1, log := Snoc(s.log, Submitted(s.tickets)));
      SubmittedTurns(s, t);
      PushWorkTurns(t, Work(v, s.serials, s.tickets, Direct));
    case WriteProtect(hosts) =>
      if hosts != [] {
        var t := OpenBatch(s, |hosts|);
        SubmittedTurns(s, t);
        PushAllTurns(t, BatchWorks(hosts, s.serials, s.tickets, s.nextBatch));
      }
    case Barrier(_) =>
  }

  lemma StepTurns(s: State, step: Step)
    requires Inv(s) && RingInv(s) && Enabled(s, step)
    ensures RingInv(Apply(s, step))
  {
    match step
    case DoStart => StartTurns(s);
    case DoAdmit(item) => AdmitTurns(s, item);
    case DoFinish(worker, ok) => FinishTurns(s, worker, ok);
    case _ =>
  }

  lemma {:induction false} RunTurns(s: State, steps: seq<Step>)
    requires Inv(s) && RingInv(s) && Legal(s, steps)
    ensures RingInv(Run(s, steps))
    decreases |steps|
  {
    if steps != [] {
      StepTurns(s, steps[0]);
      StepKeeps(s, steps[0]);
      RunTurns(Apply(s, steps[0]), steps[1..]);
    }
  }

  /** In every run the ring is the order in which volumes began to wait, and every start
      was that of the volume that had waited longest. */
  lemma EveryRunTakesTurns(steps: seq<Step>)
    requires Legal(Init(), steps)
    ensures var s := Run(Init(), steps); s.queue.ready == WaitOrder(s.log) && StartsInTurn(s.log)
  {
    InitInv();
    RunTurns(Init(), steps);
  }

  // ---- Nothing waits without need --------------------------------------------

  /** Whenever the loop does anything but hand out work, all eight workers are busy or
      every volume with work behind has an operation running. */
  lemma EveryRunKeepsWorkersBusy(steps: seq<Step>, step: Step)
    requires Legal(Init(), steps) && Offered(Run(Init(), steps), step) && !step.DoStart?
    ensures var s := Run(Init(), steps);
            || s.idle == []
            || forall v :: Behind(s.log, v) ==> exists k :: k in s.running && s.running[k].volume == v
  {
    InitInv();
    RunKeeps(Init(), steps);
    var s := Run(Init(), steps);
    if s.idle != [] {
      forall v | Behind(s.log, v) ensures exists k :: k in s.running && s.running[k].volume == v {
        LogTellsState(s, v);
        assert v in s.queue.active || v in s.queue.ready;
      }
    }
  }

  /** Once closed, the loop admits nothing more. */
  lemma {:induction false} ClosedAdmitsNothing(s: State, steps: seq<Step>)
    requires Possible(s, steps) && s.closed
    ensures forall i :: 0 <= i < |steps| ==> !steps[i].DoAdmit?
    decreases |steps|
  {
    if steps != [] {
      ClosedAdmitsNothing(Apply(s, steps[0]), steps[1..]);
      forall i | 0 <= i < |steps| ensures !steps[i].DoAdmit? {
        if i > 0 { assert steps[i] == steps[1..][i - 1]; }
      }
    }
  }

  /** The volumes of all operations ever queued, in order. */
  function QueuedVolumes(log: Log): seq<Volume> {
    match log
    case Empty => []
    case Snoc(earlier, e) => QueuedVolumes(earlier) + if e.Queued? then [e.work.volume] else []
  }

  function VolumesOf(works: seq<Work>): (volumes: seq<Volume>)
    ensures |volumes| == |works| && forall i :: 0 <= i < |works| ==> volumes[i] == works[i].volume
  {
    if works == [] then [] else VolumesOf(DropLast(works)) + [Last(works).volume]
  }

  lemma {:induction false} PushAllQueues(s: State, works: seq<Work>)
    ensures QueuedVolumes(PushAll(s, works).log) == QueuedVolumes(s.log) + VolumesOf(works)
    decreases |works|
  {
    if works != [] {
      PushAllQueues(s, DropLast(works));
      var before := QueuedVolumes(s.log);
      assert before + VolumesOf(DropLast(works)) + [Last(works).volume] == before + VolumesOf(works);
    }
  }

  /** A request queues one operation for each of its volumes, in the order given. */
  lemma AdmitQueuesInOrder(s: State, hosts: seq<Volume>)
    ensures QueuedVolumes(Admit(s, WriteProtect(hosts)).log) == QueuedVolumes(s.log) + hosts
  {
    if hosts != [] {
      var works := BatchWorks(hosts, s.serials, s.tickets, s.nextBatch);
      PushAllQueues(OpenBatch(s, |hosts|), works);
      assert QueuedVolumes(OpenBatch(s, |hosts|).log) == QueuedVolumes(s.log);
      assert VolumesOf(works) == hosts;
    }
  }
}
