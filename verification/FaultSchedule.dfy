/**
  The fault-work scheduler as values: per-volume FIFO queues, a ring of ready
  volumes, eight workers, multi-volume batches and barriers. `State` records
  what the dispatcher holds plus a log of everything it did; `Step` is one turn
  of its event loop, with worker completions arriving in any order.
 */
module FaultSchedule {
  import opened Prelude

  const WORKERS: nat := 8

  type Volume = nat

  datatype Reply = Direct | Batched(batch: nat)

  /** One queued operation. `serial` identifies the operation itself and
      `ticket` the submission whose caller is waiting for an answer. */
  datatype Work = Work(volume: Volume, serial: nat, ticket: nat, reply: Reply)

  datatype Queue = Queue(queues: map<Volume, seq<Work>>, ready: seq<Volume>, active: set<Volume>)

  datatype Batch = Batch(remaining: nat, failed: bool, ticket: nat)

  datatype Event =
    | Submitted(ticket: nat)
    | Queued(work: Work)
    | Started(work: Work)
    | Finished(work: Work, ok: bool)
    | Answered(ticket: nat, ok: bool)
    | BarrierTaken(barrier: nat)
    | BarrierSignalled(barrier: nat)

  /** Everything that happened, newest event outermost. */
  datatype Log = Empty | Snoc(earlier: Log, event: Event)

  datatype State = State(
    queue: Queue,
    idle: seq<nat>,
    running: map<nat, Work>,
    batches: map<nat, Batch>,
    nextBatch: nat,
    barrier: Option<nat>,
    closed: bool,
    tickets: nat,
    serials: nat,
    log: Log)

  /** What a caller submits: one operation on one volume, one write-protect
      request over any number of volumes, or a barrier. */
  datatype Item = Single(volume: Volume) | WriteProtect(hosts: seq<Volume>) | Barrier(id: nat)

  // ---- The queue -------------------------------------------------------

  function PendingOf(q: Queue, v: Volume): seq<Work> {
    if v in q.queues then q.queues[v] else []
  }

  function Push(q: Queue, v: Volume, w: Work): Queue {
    Queue(
      q.queues[v := PendingOf(q, v) + [w]],
      if PendingOf(q, v) == [] && v !in q.active then q.ready + [v] else q.ready,
      q.active)
  }

  predicate CanStart(q: Queue) {
    |q.active| < WORKERS && q.ready != []
  }

  /** Take the oldest operation of the volume at the front of the ring. */
  function StartNext(q: Queue): (Work, Queue)
    requires CanStart(q)
    requires PendingOf(q, q.ready[0]) != []
  {
    var v := q.ready[0];
    (q.queues[v][0], Queue(q.queues[v := q.queues[v][1..]], q.ready[1..], q.active + {v}))
  }

  function Complete(q: Queue, v: Volume): Queue {
    if v in q.queues && q.queues[v] == []
    then Queue(q.queues - {v}, q.ready, q.active - {v})
    else Queue(q.queues, q.ready + [v], q.active - {v})
  }

  predicate IsIdle(q: Queue) {
    q.queues == map[] && q.active == {}
  }

  // ---- The dispatcher --------------------------------------------------

  function Init(): State {
    State(Queue(map[], [], {}), seq(WORKERS, i => i), map[], map[], 1, None, false, 0, 0, Empty)
  }

  function PushWork(s: State, w: Work): State {
    s.(queue := Push(s.queue, w.volume, w), serials := s.serials + 1, log := Snoc(s.log, Queued(w)))
  }

  function PushAll(s: State, works: seq<Work>): State
    decreases |works|
  {
    if works == [] then s else PushWork(PushAll(s, DropLast(works)), Last(works))
  }

  function BatchWorks(hosts: seq<Volume>, serial: nat, ticket: nat, batch: nat): seq<Work> {
    seq(|hosts|, i requires 0 <= i < |hosts| => Work(hosts[i], serial + i, ticket, Batched(batch)))
  }

  /** The state just before a write-protect request's operations are queued. */
  function OpenBatch(s: State, size: nat): State {
    s.(batches := s.batches[s.nextBatch := Batch(size, false, s.tickets)],
       nextBatch := (s.nextBatch + 1) % U64_LIMIT,
       tickets := s.tickets + 1,
       log := Snoc(s.log, Submitted(s.tickets)))
  }

  function Admit(s: State, item: Item): State {
    match item
    case Single(v) =>
      PushWork(s.(tickets := s.tickets + 1, log := Snoc(s.log, Submitted(s.tickets))),
               Work(v, s.serials, s.tickets, Direct))
    case WriteProtect(hosts) =>
      if hosts == [] then
        s.(tickets := s.tickets + 1, log := Snoc(Snoc(s.log, Submitted(s.tickets)), Answered(s.tickets, true)))
      else
        PushAll(OpenBatch(s, |hosts|), BatchWorks(hosts, s.serials, s.tickets, s.nextBatch))
    case Barrier(id) =>
      s.(barrier := Some(id), log := Snoc(s.log, BarrierTaken(id)))
  }

  /** The loop cannot hand out more work. */
  predicate Settled(s: State) {
    s.idle == [] || !CanStart(s.queue)
  }

  function StartOne(s: State): State
    requires !Settled(s)
    requires PendingOf(s.queue, s.queue.ready[0]) != []
  {
    var (w, q) := StartNext(s.queue);
    s.(queue := q, idle := s.idle[1..], running := s.running[s.idle[0] := w], log := Snoc(s.log, Started(w)))
  }

  predicate CanFinish(s: State, worker: nat) {
    && worker in s.running
    && var reply := s.running[worker].reply;
    && (reply.Batched? ==> reply.batch in s.batches && s.batches[reply.batch].remaining > 0)
  }

  /** The worker and its volume are free again; the answer is still owed. */
  function Release(s: State, worker: nat, ok: bool): State
    requires worker in s.running
  {
    var w := s.running[worker];
    s.(queue := Complete(s.queue, w.volume), idle := s.idle + [worker],
       running := s.running - {worker}, log := Snoc(s.log, Finished(w, ok)))
  }

  function Finish(s: State, worker: nat, ok: bool): State
    requires CanFinish(s, worker)
  {
    var w := s.running[worker];
    var r := Release(s, worker, ok);
    match w.reply
    case Direct => r.(log := Snoc(r.log, Answered(w.ticket, ok)))
    case Batched(b) =>
      var before := s.batches[b];
      var now := Batch(before.remaining - 1, before.failed || !ok, before.ticket);
      if now.remaining == 0
      then r.(batches := s.batches - {b}, log := Snoc(r.log, Answered(now.ticket, !now.failed)))
      else r.(batches := s.batches[b := now])
  }

  function Signal(s: State): State
    requires s.barrier.Some?
  {
    s.(barrier := None, log := Snoc(s.log, BarrierSignalled(s.barrier.value)))
  }

  // ---- One turn of the event loop --------------------------------------

  datatype Step = DoStart | DoSignal | DoAdmit(item: Item) | DoFinish(worker: nat, ok: bool) | DoClose

  /** The loop leaves instead of selecting. */
  predicate Exits(s: State) {
    Settled(s) && IsIdle(s.queue) && s.barrier.None? && s.closed
  }

  predicate AtSelect(s: State) {
    Settled(s) && !(IsIdle(s.queue) && (s.barrier.Some? || s.closed))
  }

  predicate CompletionBranch(s: State) {
    AtSelect(s) && |s.idle| != WORKERS
  }

  predicate IncomingBranch(s: State) {
    AtSelect(s) && s.barrier.None? && !s.closed
  }

  /** The batch number a request would take is not still in use. */
  predicate FreshBatch(s: State, item: Item) {
    item.WriteProtect? && item.hosts != [] ==> s.nextBatch !in s.batches
  }

  /** What the loop itself checks before taking a turn. */
  predicate Offered(s: State, step: Step) {
    match step
    case DoStart => !Settled(s) && PendingOf(s.queue, s.queue.ready[0]) != []
    case DoSignal => Settled(s) && IsIdle(s.queue) && s.barrier.Some?
    case DoAdmit(_) => IncomingBranch(s)
    case DoFinish(worker, _) => CompletionBranch(s) && CanFinish(s, worker)
    case DoClose => IncomingBranch(s)
  }

  predicate Enabled(s: State, step: Step) {
    Offered(s, step) && (step.DoAdmit? ==> FreshBatch(s, step.item))
  }

  function Apply(s: State, step: Step): State
    requires Offered(s, step)
  {
    match step
    case DoStart => StartOne(s)
    case DoSignal => Signal(s)
    case DoAdmit(item) => Admit(s, item)
    case DoFinish(worker, ok) => Finish(s, worker, ok)
    case DoClose => s.(closed := true)
  }

  predicate Possible(s: State, steps: seq<Step>)
    decreases |steps|
  {
    steps == [] || (Offered(s, steps[0]) && Possible(Apply(s, steps[0]), steps[1..]))
  }

  function Run(s: State, steps: seq<Step>): State
    requires Possible(s, steps)
    decreases |steps|
  {
    if steps == [] then s else Run(Apply(s, steps[0]), steps[1..])
  }

  /** A possible run in which no batch number is taken while still in use. */
  predicate Legal(s: State, steps: seq<Step>)
    ensures Legal(s, steps) ==> Possible(s, steps)
    decreases |steps|
  {
    steps == [] || (Enabled(s, steps[0]) && Legal(Apply(s, steps[0]), steps[1..]))
  }
}
