/** What every queue operation keeps: workers, the ready ring, and FIFO order. */
module FaultQueueProofs {
  import opened Prelude
  import opened FaultSchedule

  // ---- Reading the log -------------------------------------------------

  function Project<T>(log: Log, f: Event -> Option<T>): seq<T> {
    match log
    case Empty => []
    case Snoc(earlier, e) => if f(e).Some? then Project(earlier, f) + [f(e).value] else Project(earlier, f)
  }

  function QueuedOn(v: Volume): Event -> Option<Work> {
    (e: Event) => if e.Queued? && e.work.volume == v then Some(e.work) else None
  }

  function StartedOn(v: Volume): Event -> Option<Work> {
    (e: Event) => if e.Started? && e.work.volume == v then Some(e.work) else None
  }

  function FinishedOn(v: Volume): Event -> Option<Work> {
    (e: Event) => if e.Finished? && e.work.volume == v then Some(e.work) else None
  }

  // ---- The ready ring and the active set --------------------------------

  /** `ready` lists, without repeats, exactly the volumes that have pending work
      and no operation running. */
  ghost predicate QueueInv(q: Queue) {
    && Distinct(q.ready)
    && (forall v :: v in q.ready <==> v !in q.active && PendingOf(q, v) != [])
    && (forall v :: v in q.queues ==> q.queues[v] != [] || v in q.active)
    && (forall v :: v in q.active ==> v in q.queues)
    && (forall v, i :: v in q.queues && 0 <= i < |q.queues[v]| ==> q.queues[v][i].volume == v)
  }

  lemma PushKeeps(q: Queue, w: Work)
    requires QueueInv(q)
    ensures QueueInv(Push(q, w.volume, w))
  {
  }

  lemma StartKeeps(q: Queue)
    requires QueueInv(q) && CanStart(q)
    ensures PendingOf(q, q.ready[0]) != []
    ensures QueueInv(StartNext(q).1)
    ensures StartNext(q).0.volume == q.ready[0]
    ensures q.ready[0] !in q.active
  {
    assert q.ready[0] in q.ready;
    var (w, q') := StartNext(q);
    assert forall v :: v in q.ready <==> v == q.ready[0] || v in q'.ready;
  }

  lemma CompleteKeeps(q: Queue, v: Volume)
    requires QueueInv(q) && v in q.active
    ensures QueueInv(Complete(q, v))
  {
    assert v !in q.ready;
  }

  /** An idle queue is one with nothing pending and nothing running. */
  lemma IdleMeansDrained(q: Queue)
    requires QueueInv(q)
    ensures IsIdle(q) <==> q.active == {} && q.ready == []
  {
    if q.ready != [] {
      assert PendingOf(q, q.ready[0]) != [];
    }
    if q.queues != map[] {
      var v :| v in q.queues;
      assert v in q.active || v in q.ready;
    }
  }

  // ---- Workers ----------------------------------------------------------

  /** Each worker is idle or runs exactly one operation; operations running at
      once are on different volumes, and those volumes are the active ones. */
  ghost predicate WorkersInv(idle: seq<nat>, running: map<nat, Work>, active: set<Volume>) {
    && Distinct(idle)
    && (forall i :: 0 <= i < |idle| ==> idle[i] < WORKERS && idle[i] !in running)
    && (forall w :: w in running ==> w < WORKERS && running[w].volume in active)
    && (forall a, b :: a in running && b in running && running[a].volume == running[b].volume ==> a == b)
    && (forall v :: v in active ==> exists w :: w in running && running[w].volume == v)
    && |idle| + |active| == WORKERS
  }

  ghost predicate WorkerInv(s: State) {
    WorkersInv(s.idle, s.running, s.queue.active)
  }

  lemma AssignWorker(idle: seq<nat>, running: map<nat, Work>, active: set<Volume>, w: Work)
    requires WorkersInv(idle, running, active) && idle != [] && w.volume !in active
    ensures WorkersInv(idle[1..], running[idle[0] := w], active + {w.volume})
  {
    var running' := running[idle[0] := w];
    forall v | v in active + {w.volume} ensures exists k :: k in running' && running'[k].volume == v {
      if v == w.volume {
        assert idle[0] in running';
      } else {
        var k :| k in running && running[k].volume == v;
        assert k in running' && running'[k].volume == v;
      }
    }
  }

  lemma FreeWorker(idle: seq<nat>, running: map<nat, Work>, active: set<Volume>, worker: nat)
    requires WorkersInv(idle, running, active) && worker in running
    ensures WorkersInv(idle + [worker], running - {worker}, active - {running[worker].volume})
  {
    var running' := running - {worker};
    forall v | v in active - {running[worker].volume} ensures exists k :: k in running' && running'[k].volume == v {
      var k :| k in running && running[k].volume == v;
      assert k in running' && running'[k].volume == v;
    }
  }

  // ---- FIFO -------------------------------------------------------------

  ghost predicate Rising(ws: seq<Work>, limit: nat) {
    && (forall i :: 0 <= i < |ws| ==> ws[i].serial < limit)
    && (forall i, j :: 0 <= i < j < |ws| ==> ws[i].serial < ws[j].serial)
  }

  /** Everything queued on a volume is: what finished, then what runs, then what
      is pending, in admission order; and it was started in that order too. */
  ghost predicate FifoOn(s: State, v: Volume, now: seq<Work>) {
    && Project(s.log, QueuedOn(v)) == Project(s.log, FinishedOn(v)) + now + PendingOf(s.queue, v)
    && Project(s.log, StartedOn(v)) == Project(s.log, FinishedOn(v)) + now
    && Rising(Project(s.log, QueuedOn(v)), s.serials)
  }

  ghost predicate FifoInv(s: State) {
    && (forall v :: v !in s.queue.active ==> FifoOn(s, v, []))
    && (forall w :: w in s.running ==> FifoOn(s, s.running[w].volume, [s.running[w]]))
  }

  ghost predicate CoreInv(s: State) {
    QueueInv(s.queue) && WorkerInv(s) && FifoInv(s)
  }

  /** Events that no volume's history mentions leave the core invariant alone. */
  ghost predicate Neutral(e: Event) {
    !e.Queued? && !e.Started? && !e.Finished?
  }

  lemma NeutralKeeps(s: State, t: State, e: Event)
    requires CoreInv(s) && Neutral(e)
    requires t.queue == s.queue && t.idle == s.idle && t.running == s.running && t.serials == s.serials
    requires t.log == Snoc(s.log, e)
    ensures CoreInv(t)
  {
    forall v | v !in t.queue.active ensures FifoOn(t, v, []) { assert FifoOn(s, v, []); }
    forall w | w in t.running ensures FifoOn(t, t.running[w].volume, [t.running[w]]) {
      assert FifoOn(s, s.running[w].volume, [s.running[w]]);
    }
  }

  lemma PushWorkFifo(s: State, w: Work, v: Volume, now: seq<Work>)
    requires FifoOn(s, v, now) && w.serial == s.serials
    ensures FifoOn(PushWork(s, w), v, now)
  {
    var done := Project(s.log, FinishedOn(v)) + now;
    assert done + PendingOf(s.queue, v) + [w] == done + (PendingOf(s.queue, v) + [w]);
  }

  lemma PushWorkKeeps(s: State, w: Work)
    requires CoreInv(s) && w.serial == s.serials
    ensures CoreInv(PushWork(s, w))
  {
    var t := PushWork(s, w);
    PushKeeps(s.queue, w);
    forall v | v !in t.queue.active ensures FifoOn(t, v, []) { PushWorkFifo(s, w, v, []); }
    forall k | k in t.running ensures FifoOn(t, t.running[k].volume, [t.running[k]]) {
      PushWorkFifo(s, w, s.running[k].volume, [s.running[k]]);
    }
  }

  lemma StartFifo(s: State, v: Volume, now: seq<Work>)
    requires !Settled(s) && FifoOn(s, v, now)
    requires PendingOf(s.queue, s.queue.ready[0]) != []
    requires StartNext(s.queue).0.volume == s.queue.ready[0]
    requires v == s.queue.ready[0] ==> now == []
    ensures FifoOn(StartOne(s), v, if v == s.queue.ready[0] then [StartNext(s.queue).0] else now)
  {
    if v == s.queue.ready[0] {
      HeadMoves(Project(s.log, FinishedOn(v)), PendingOf(s.queue, v));
    }
  }

  lemma HeadMoves(done: seq<Work>, pending: seq<Work>)
    requires pending != []
    ensures done + [] + pending == done + [pending[0]] + pending[1..]
  {
  }

  lemma StartOneKeeps(s: State)
    requires CoreInv(s) && !Settled(s)
    ensures PendingOf(s.queue, s.queue.ready[0]) != []
    ensures CoreInv(StartOne(s))
  {
    StartKeeps(s.queue);
    AssignWorker(s.idle, s.running, s.queue.active, StartNext(s.queue).0);
    var t := StartOne(s);
    var head := s.queue.ready[0];
    forall v | v !in t.queue.active ensures FifoOn(t, v, []) { StartFifo(s, v, []); }
    forall k | k in t.running ensures FifoOn(t, t.running[k].volume, [t.running[k]]) {
      if k == s.idle[0] {
        StartFifo(s, head, []);
      } else {
        StartFifo(s, s.running[k].volume, [s.running[k]]);
      }
    }
  }

  lemma ReleaseFifo(s: State, worker: nat, ok: bool, v: Volume, now: seq<Work>)
    requires worker in s.running && FifoOn(s, v, now)
    requires v == s.running[worker].volume ==> now == [s.running[worker]]
    ensures FifoOn(Release(s, worker, ok), v, if v == s.running[worker].volume then [] else now)
  {
  }

  lemma ReleaseKeeps(s: State, worker: nat, ok: bool)
    requires CoreInv(s) && worker in s.running
    ensures CoreInv(Release(s, worker, ok))
  {
    var t := Release(s, worker, ok);
    var v0 := s.running[worker].volume;
    CompleteKeeps(s.queue, v0);
    FreeWorker(s.idle, s.running, s.queue.active, worker);
    forall v | v !in t.queue.active ensures FifoOn(t, v, []) {
      ReleaseFifo(s, worker, ok, v, if v == v0 then [s.running[worker]] else []);
    }
    forall k | k in t.running ensures FifoOn(t, t.running[k].volume, [t.running[k]]) {
      ReleaseFifo(s, worker, ok, s.running[k].volume, [s.running[k]]);
    }
  }

  lemma InitCore()
    ensures CoreInv(Init())
  {
  }
}
