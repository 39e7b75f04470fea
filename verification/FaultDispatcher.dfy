/** The scheduler as the objects the event loop mutates, proved against `FaultSchedule`. */
module FaultDispatcher {
  import opened Prelude
  import opened FaultSchedule
  import opened FaultQueueProofs
  import opened FaultAnswerProofs
  import opened FaultTheorems

  /** What a select branch delivers. */
  datatype Arrival = Completed(worker: nat, ok: bool) | Incoming(item: Item) | Closed

  function StepOf(a: Arrival): Step {
    match a
    case Completed(worker, ok) => DoFinish(worker, ok)
    case Incoming(item) => DoAdmit(item)
    case Closed => DoClose
  }

  /** How one turn of the loop ended. */
  datatype Outcome = Took(step: Step) | Leave | Wait

  function BatchesIn(script: seq<Arrival>): nat
    decreases |script|
  {
    if script == [] then 0 else OpensBatch(StepOf(script[0])) + BatchesIn(script[1..])
  }

  lemma PushAllSnoc(s: State, works: seq<Work>, i: nat)
    requires i < |works|
    ensures PushAll(s, works[..i + 1]) == PushWork(PushAll(s, works[..i]), works[i])
  {
    assert works[..i + 1] == works[..i] + [works[i]];
    SnocParts(works[..i], works[i]);
  }

  class FaultWorkQueue {
    var queues: map<Volume, seq<Work>>
    var ready: seq<Volume>
    var active: set<Volume>

    constructor ()
      ensures View() == Init().queue
    {
      queues, ready, active := map[], [], {};
    }

    ghost function View(): Queue
      reads this
    {
      Queue(queues, ready, active)
    }

    method PushBack(volume: Volume, work: Work)
      modifies this
      ensures View() == Push(old(View()), volume, work)
    {
      var queue := if volume in queues then queues[volume] else [];
      if queue == [] && volume !in active {
        ready := ready + [volume];
      }
      queues := queues[volume := queue + [work]];
    }

    method TakeNext() returns (next: Option<Work>)
      requires QueueInv(View())
      modifies this
      ensures next.Some? <==> CanStart(old(View()))
      ensures next.None? ==> View() == old(View())
      ensures next.Some? ==>
                && PendingOf(old(View()), old(ready)[0]) != []
                && (next.value, View()) == StartNext(old(View()))
    {
      if |active| >= WORKERS || ready == [] {
        return None;
      }
      StartKeeps(View());
      var volume := ready[0];
      ready := ready[1..];
      active := active + {volume};
      var work := queues[volume][0];
      queues := queues[volume := queues[volume][1..]];
      return Some(work);
    }

    method Retire(volume: Volume)
      requires volume in active
      modifies this
      ensures View() == Complete(old(View()), volume)
    {
      active := active - {volume};
      if volume in queues && queues[volume] == [] {
        queues := queues - {volume};
      } else {
        ready := ready + [volume];
      }
    }

    method Drained() returns (idle: bool)
      ensures idle == IsIdle(View())
    {
      idle := queues == map[] && active == {};
    }
  }

  class FaultWorkDispatcher {
    const queue: FaultWorkQueue
    var idleWorkers: seq<nat>
    var batches: map<nat, Batch>
    var nextBatch: nat
    var barrier: Option<nat>
    var incomingClosed: bool
    /** What each worker thread has been sent and not yet completed. */
    var mailboxes: map<nat, Work>
    /** Names for the next reply channel and the next operation. */
    var tickets: nat
    var serials: nat
    ghost var log: Log

    ghost function View(): State
      reads this, queue
    {
      State(queue.View(), idleWorkers, mailboxes, batches, nextBatch, barrier, incomingClosed, tickets, serials, log)
    }

    constructor ()
      ensures View() == Init() && fresh(queue)
    {
      queue := new FaultWorkQueue();
      idleWorkers := seq(WORKERS, i => i);
      batches, nextBatch, barrier, incomingClosed := map[], 1, None, false;
      mailboxes, tickets, serials, log := map[], 0, 0, Empty;
    }

    /** Hand the next ready operation to the next idle worker, if there is one. */
    method StartNextWorker() returns (started: bool)
      requires QueueInv(View().queue)
      modifies this, queue
      ensures started <==> !Settled(old(View()))
      ensures !started ==> View() == old(View())
      ensures started ==> Offered(old(View()), DoStart) && View() == Apply(old(View()), DoStart)
    {
      if idleWorkers == [] {
        return false;
      }
      var next := queue.TakeNext();
      match next
      case None => return false;
      case Some(work) =>
        mailboxes := mailboxes[idleWorkers[0] := work];
        idleWorkers := idleWorkers[1..];
        log := Snoc(log, Started(work));
        return true;
    }

    method Enqueue(volume: Volume, ticket: nat, reply: Reply)
      modifies this`serials, this`log, queue
      ensures View() == PushWork(old(View()), Work(volume, old(serials), ticket, reply))
    {
      var work := Work(volume, serials, ticket, reply);
      serials := serials + 1;
      log := Snoc(log, Queued(work));
      queue.PushBack(volume, work);
    }

    method EnqueueAll(hosts: seq<Volume>, ticket: nat, batch: nat)
      modifies this`serials, this`log, queue
      ensures View() == PushAll(old(View()), BatchWorks(hosts, old(serials), ticket, batch))
    {
      ghost var start := View();
      ghost var works := BatchWorks(hosts, serials, ticket, batch);
      for i := 0 to |hosts|
        invariant View() == PushAll(start, works[..i])
        invariant serials == old(serials) + i
      {
        ghost var before := View();
        assert works[i] == Work(hosts[i], serials, ticket, Batched(batch));
        Enqueue(hosts[i], ticket, Batched(batch));
        assert View() == PushWork(before, works[i]);
        PushAllSnoc(start, works, i);
      }
      assert works[..|hosts|] == works;
    }

    method AdmitWriteProtect(hosts: seq<Volume>)
      requires hosts != []
      modifies this, queue
      ensures View() == Admit(old(View()), WriteProtect(hosts))
    {
      var batch, ticket := nextBatch, tickets;
      nextBatch := (nextBatch + 1) % U64_LIMIT;
      batches := batches[batch := Batch(|hosts|, false, ticket)];
      tickets := tickets + 1;
      log := Snoc(log, Submitted(ticket));
      EnqueueAll(hosts, ticket, batch);
    }

    method AdmitItem(item: Item)
      modifies this, queue
      ensures View() == Admit(old(View()), item)
    {
      match item
      case Single(volume) =>
        var ticket := tickets;
        tickets := tickets + 1;
        log := Snoc(log, Submitted(ticket));
        Enqueue(volume, ticket, Direct);
      case WriteProtect(hosts) =>
        if hosts == [] {
          log := Snoc(Snoc(log, Submitted(tickets)), Answered(tickets, true));
          tickets := tickets + 1;
        } else {
          AdmitWriteProtect(hosts);
        }
      case Barrier(id) =>
        barrier := Some(id);
        log := Snoc(log, BarrierTaken(id));
    }

    method FinishItem(worker: nat, ok: bool)
      requires CanFinish(View(), worker) && mailboxes[worker].volume in queue.active
      modifies this, queue
      ensures View() == Finish(old(View()), worker, ok)
    {
      var work := mailboxes[worker];
      mailboxes := mailboxes - {worker};
      idleWorkers := idleWorkers + [worker];
      log := Snoc(log, Finished(work, ok));
      queue.Retire(work.volume);
      match work.reply
      case Direct =>
        log := Snoc(log, Answered(work.ticket, ok));
      case Batched(batch) =>
        var state := batches[batch];
        state := state.(failed := state.failed || !ok, remaining := state.remaining - 1);
        if state.remaining == 0 {
          batches := batches - {batch};
          log := Snoc(log, Answered(state.ticket, !state.failed));
        } else {
          batches := batches[batch := state];
        }
    }

    /** One turn: hand out work, or signal a barrier, or leave, or take what the
        select delivers; `Wait` if no branch can take `arrival`. */
    method Turn(arrival: Option<Arrival>) returns (outcome: Outcome)
      requires QueueInv(View().queue)
      requires forall w :: w in mailboxes ==> CanFinish(View(), w) && mailboxes[w].volume in queue.active
      modifies this, queue
      ensures outcome.Took? ==> Offered(old(View()), outcome.step) && View() == Apply(old(View()), outcome.step)
      ensures outcome.Took? && !outcome.step.DoStart? && !outcome.step.DoSignal? ==>
                arrival.Some? && outcome.step == StepOf(arrival.value)
      ensures !outcome.Took? ==> View() == old(View()) && Settled(View())
      ensures outcome.Leave? <==> Exits(old(View()))
      ensures outcome.Wait? && arrival.Some? ==> !Offered(View(), StepOf(arrival.value))
    {
      var started := StartNextWorker();
      if started {
        return Took(DoStart);
      }
      var idle := queue.Drained();
      if idle && barrier.Some? {
        log := Snoc(log, BarrierSignalled(barrier.value));
        barrier := None;
        return Took(DoSignal);
      }
      if idle && incomingClosed {
        return Leave;
      }
      if arrival.None? {
        return Wait;
      }
      match arrival.value {
        case Completed(worker, ok) =>
          if |idleWorkers| == WORKERS || worker !in mailboxes {
            return Wait;
          }
          FinishItem(worker, ok);
        case Incoming(item) =>
          if barrier.Some? || incomingClosed {
            return Wait;
          }
          AdmitItem(item);
        case Closed =>
          if barrier.Some? || incomingClosed {
            return Wait;
          }
          incomingClosed := true;
      }
      return Took(StepOf(arrival.value));
    }

    /** The event loop, for any order in which the select delivers arrivals. It
        performs only legal steps of the schedule and stops only at an exit or at
        a select that cannot take the next arrival. */
    method EventLoop(script: seq<Arrival>, ghost numbered: nat) returns (taken: nat, ghost steps: seq<Step>)
      requires Inv(View()) && Numbered(View(), numbered) && numbered + BatchesIn(script) <= U64_LIMIT
      modifies this, queue
      ensures Legal(old(View()), steps) && View() == Run(old(View()), steps) && Settled(View())
      ensures taken <= |script|
      ensures Exits(View()) || taken == |script| || !Offered(View(), StepOf(script[taken]))
    {
      taken, steps := 0, [];
      ghost var start := View();
      assert script[0..] == script;
      while true
        invariant taken <= |script| && start == old(View())
        invariant LoopAt(start, numbered, steps, script[taken..], View())
        decreases |script| - taken, Slack(View())
      {
        ghost var before := View();
        LoopReady(start, numbered, steps, script[taken..], before);
        var outcome := Turn(if taken < |script| then Some(script[taken]) else None);
        if !outcome.Took? {
          assert View() == before;
          return;
        }
        assert View() == Apply(before, outcome.step);
        LoopStep(start, numbered, steps, script[taken..], before, outcome.step);
        steps := steps + [outcome.step];
        if !Internal(outcome.step) {
          assert script[taken..][1..] == script[taken + 1..];
          taken := taken + 1;
        }
      }
    }
  }

  /** Turns left before the loop needs an arrival. */
  function Slack(s: State): nat {
    |s.idle| + if s.barrier.Some? then 1 else 0
  }

  predicate Internal(step: Step) {
    step.DoStart? || step.DoSignal?
  }

  /** The loop has performed `steps` from `start` and still has `rest` to come. */
  ghost predicate LoopAt(start: State, n: nat, steps: seq<Step>, rest: seq<Arrival>, now: State) {
    && Inv(start) && Numbered(start, n) && Legal(start, steps) && now == Run(start, steps)
    && n + BatchAdmissions(steps) + BatchesIn(rest) <= U64_LIMIT
  }

  lemma LoopReady(start: State, n: nat, steps: seq<Step>, rest: seq<Arrival>, now: State)
    requires LoopAt(start, n, steps, rest, now)
    ensures QueueInv(now.queue)
    ensures forall w :: w in now.running ==> CanFinish(now, w) && now.running[w].volume in now.queue.active
  {
    RunKeeps(start, steps);
    forall w | w in now.running ensures CanFinish(now, w) { CanAlwaysFinish(now, w); }
  }

  lemma {:induction false} RunNumbers(s: State, steps: seq<Step>, n: nat)
    requires Numbered(s, n) && Possible(s, steps) && n + BatchAdmissions(steps) <= U64_LIMIT
    ensures Numbered(Run(s, steps), n + BatchAdmissions(steps))
    decreases |steps|
  {
    if steps != [] {
      if n < U64_LIMIT { StepNumbers(s, steps[0], n); }
      RunNumbers(Apply(s, steps[0]), steps[1..], n + OpensBatch(steps[0]));
    }
  }

  lemma {:induction false} LegalSnoc(s: State, steps: seq<Step>, step: Step)
    requires Legal(s, steps) && Enabled(Run(s, steps), step)
    ensures Legal(s, steps + [step]) && Run(s, steps + [step]) == Apply(Run(s, steps), step)
    ensures BatchAdmissions(steps + [step]) == BatchAdmissions(steps) + OpensBatch(step)
    decreases |steps|
  {
    if steps == [] {
      assert [step][1..] == [];
    } else {
      LegalSnoc(Apply(s, steps[0]), steps[1..], step);
      assert (steps + [step])[1..] == steps[1..] + [step];
    }
  }

  lemma LoopStep(start: State, n: nat, steps: seq<Step>, rest: seq<Arrival>, now: State, step: Step)
    requires LoopAt(start, n, steps, rest, now) && Offered(now, step)
    requires !Internal(step) ==> rest != [] && step == StepOf(rest[0])
    ensures LoopAt(start, n, steps + [step], if Internal(step) then rest else rest[1..], Apply(now, step))
    ensures Internal(step) ==> Slack(Apply(now, step)) < Slack(now)
  {
    RunNumbers(start, steps, n);
    LegalSnoc(start, steps, step);
  }
}
