/**
  Batch numbers that wrap: which possible runs of the dispatcher leave a submission
  nobody can answer, and a run that does.
 */
module FaultReuse {
  import opened Prelude
  import opened FaultSchedule
  import opened FaultQueueProofs
  import opened FaultAnswerProofs
  import opened FaultTheorems

  // ---- Exactly the runs that reuse a number orphan a submission -----------------------

  lemma UnansweredIsHeld(s: State, t: nat) returns (w: Work)
    requires OwedInv(s) && AnswerInv(s) && t < s.tickets && AccountOf(s.log, t).answers == []
    ensures Held(s, w) && w.ticket == t
    ensures w.reply.Batched? ==> w.reply.batch in s.batches && s.batches[w.reply.batch].ticket == t
  {
    var a := AccountOf(s.log, t);
    assert AccountOk(a, true);
    w :| w in a.owed;
    AccountOwes(s.log, t, w);
    assert WorkOk(w, a, s.batches);
  }

  /** While the invariant holds, whoever is unanswered has an operation that will answer. */
  lemma NobodyOrphaned(s: State, t: nat)
    requires OwedInv(s) && AnswerInv(s)
    ensures !Orphaned(s, t)
  {
    if t < s.tickets && AccountOf(s.log, t).answers == [] {
      var w := UnansweredIsHeld(s, t);
    }
  }

  lemma ReuseStepOrphans(s: State, step: Step)
    requires Inv(s) && Offered(s, step) && !Enabled(s, step)
    ensures exists t: nat :: Orphaned(Apply(s, step), t)
  {
    ReuseOrphans(s, step.item.hosts);
    assert Orphaned(Apply(s, step), s.batches[s.nextBatch].ticket);
  }

  /** A possible run that is not legal is legal up to a first reuse. */
  lemma {:induction false} FirstReuse(s: State, steps: seq<Step>) returns (i: nat)
    requires Possible(s, steps) && !Legal(s, steps)
    ensures i < |steps| && Legal(s, steps[..i])
    ensures var mid := Run(s, steps[..i]);
            && Offered(mid, steps[i]) && !Enabled(mid, steps[i])
            && Possible(Apply(mid, steps[i]), steps[i + 1..])
            && Run(s, steps) == Run(Apply(mid, steps[i]), steps[i + 1..])
    decreases |steps|
  {
    if Enabled(s, steps[0]) {
      var j := FirstReuse(Apply(s, steps[0]), steps[1..]);
      i := j + 1;
      assert steps[..i][1..] == steps[1..][..j] && steps[1..][j + 1..] == steps[i + 1..];
    } else {
      i := 0;
    }
  }

  lemma ReuseLeavesAnOrphan(s: State, steps: seq<Step>)
    requires Inv(s) && Possible(s, steps) && !Legal(s, steps)
    ensures exists t: nat :: Orphaned(Run(s, steps), t)
  {
    var i := FirstReuse(s, steps);
    RunKeeps(s, steps[..i]);
    var mid := Run(s, steps[..i]);
    ReuseStepOrphans(mid, steps[i]);
    var t: nat :| Orphaned(Apply(mid, steps[i]), t);
    RunOrphaned(Apply(mid, steps[i]), steps[i + 1..], t);
  }

  /** A possible run has left some submission without anyone to answer it exactly when it
      took a batch number still in use. */
  lemma OnlyReuseOrphans(steps: seq<Step>)
    requires Possible(Init(), steps)
    ensures Legal(Init(), steps) <==> forall t: nat :: !Orphaned(Run(Init(), steps), t)
  {
    InitInv();
    if Legal(Init(), steps) {
      RunKeeps(Init(), steps);
      forall t: nat ensures !Orphaned(Run(Init(), steps), t) {
        NobodyOrphaned(Run(Init(), steps), t);
      }
    } else {
      ReuseLeavesAnOrphan(Init(), steps);
    }
  }

  // ---- A run that reuses a number ------------------------------------------------------

  lemma {:induction false} OneMoreStep(s: State, steps: seq<Step>, step: Step)
    requires Possible(s, steps) && Offered(Run(s, steps), step)
    ensures Possible(s, steps + [step]) && Run(s, steps + [step]) == Apply(Run(s, steps), step)
    ensures BatchAdmissions(steps + [step]) == BatchAdmissions(steps) + OpensBatch(step)
    decreases |steps|
  {
    if steps == [] {
      assert [step][1..] == [];
    } else {
      OneMoreStep(Apply(s, steps[0]), steps[1..], step);
      assert (steps + [step])[1..] == steps[1..] + [step];
    }
  }

  const LONG_WORK: Work := Work(0, 0, 0, Batched(1))

  /** Batch 1 is still running on volume 0, nothing else is going on, and `n` batches
      have been numbered. */
  predicate Cycling(s: State, n: nat) {
    && s.queue == Queue(map[0 := []], [], {0})
    && s.running == map[0 := LONG_WORK] && |s.idle| == WORKERS - 1 && 0 !in s.idle
    && s.batches == map[1 := Batch(1, false, 0)] && s.nextBatch == (n + 1) % U64_LIMIT
    && s.barrier.None? && !s.closed
  }

  /** The first batch starts and stays. */
  lemma FirstBatch()
    ensures var steps := [DoAdmit(WriteProtect([0])), DoStart];
            Possible(Init(), steps) && Cycling(Run(Init(), steps), 1) && BatchAdmissions(steps) == 1
  {
    var first := DoAdmit(WriteProtect([0]));
    assert Run(Init(), []) == Init();
    OneMoreStep(Init(), [], first);
    assert BatchWorks([0], 0, 0, 1) == [LONG_WORK];
    AdmitsOne(Init(), 0);
    OneMoreStep(Init(), [first], DoStart);
    assert [] + [first] == [first] && [first] + [DoStart] == [first, DoStart];
  }

  /** What admitting a batch of one operation does. */
  lemma AdmitsOne(s: State, v: Volume)
    ensures var w := Work(v, s.serials, s.tickets, Batched(s.nextBatch));
            Admit(s, WriteProtect([v])) == PushWork(OpenBatch(s, 1), w)
  {
    var w := Work(v, s.serials, s.tickets, Batched(s.nextBatch));
    assert BatchWorks([v], s.serials, s.tickets, s.nextBatch) == [w];
    assert DropLast([w]) == [] && Last([w]) == w;
    assert PushAll(OpenBatch(s, 1), [w]) == PushWork(PushAll(OpenBatch(s, 1), []), w);
  }

  lemma CycleAdmits(s: State, n: nat)
    requires Cycling(s, n) && 1 <= n < U64_LIMIT
    ensures Offered(s, DoAdmit(WriteProtect([1])))
    ensures var w := Work(1, s.serials, s.tickets, Batched(s.nextBatch));
            var t := Admit(s, WriteProtect([1]));
            && t == s.(queue := Queue(map[0 := [], 1 := [w]], [1], {0}), batches := t.batches, nextBatch := t.nextBatch,
                       tickets := t.tickets, serials := t.serials, log := t.log)
            && t.batches == s.batches[s.nextBatch := Batch(1, false, s.tickets)] && s.nextBatch != 1
            && t.nextBatch == (n + 2) % U64_LIMIT
  {
    AdmitsOne(s, 1);
    var w := Work(1, s.serials, s.tickets, Batched(s.nextBatch));
    assert PendingOf(s.queue, 1) == [] && [] + [w] == [w] && [] + [1] == [1];
    assert s.queue.queues[1 := [w]] == map[0 := [], 1 := [w]];
  }

  lemma CycleStarts(s: State, w: Work)
    requires s.queue == Queue(map[0 := [], 1 := [w]], [1], {0}) && |s.idle| == WORKERS - 1
    ensures Offered(s, DoStart)
    ensures var t := Apply(s, DoStart);
            t == s.(queue := Queue(map[0 := [], 1 := []], [], {0, 1}), idle := s.idle[1..],
                    running := s.running[s.idle[0] := w], log := t.log)
  {
  }

  lemma CycleFinishes(s: State, w: Work, worker: nat)
    requires s.queue == Queue(map[0 := [], 1 := []], [], {0, 1}) && |s.idle| == WORKERS - 2
    requires worker in s.running && s.running[worker] == w && w.volume == 1 && w.reply.Batched?
    requires w.reply.batch in s.batches && s.batches[w.reply.batch].remaining == 1
    ensures Offered(s, DoFinish(worker, true))
    ensures var t := Apply(s, DoFinish(worker, true));
            t == s.(queue := Queue(map[0 := []], [], {0}), idle := s.idle + [worker],
                    running := s.running - {worker}, batches := s.batches - {w.reply.batch}, log := t.log)
  {
  }

  lemma ThreeMoreSteps(s: State, steps: seq<Step>, a: Step, b: Step, c: Step)
    requires Possible(s, steps) && Offered(Run(s, steps), a)
    requires var s1 := Apply(Run(s, steps), a); Offered(s1, b) && Offered(Apply(s1, b), c)
    ensures Possible(s, steps + [a] + [b] + [c])
    ensures Run(s, steps + [a] + [b] + [c]) == Apply(Apply(Apply(Run(s, steps), a), b), c)
    ensures BatchAdmissions(steps + [a] + [b] + [c])
            == BatchAdmissions(steps) + OpensBatch(a) + OpensBatch(b) + OpensBatch(c)
  {
    OneMoreStep(s, steps, a);
    OneMoreStep(s, steps + [a], b);
    OneMoreStep(s, steps + [a] + [b], c);
  }

  /** One more batch comes and goes while batch 1 runs. */
  lemma OneCycle(s: State, n: nat)
    requires Cycling(s, n) && 1 <= n < U64_LIMIT
    ensures Offered(s, DoAdmit(WriteProtect([1])))
    ensures var s1 := Apply(s, DoAdmit(WriteProtect([1])));
            && Offered(s1, DoStart)
            && var s2 := Apply(s1, DoStart);
            && Offered(s2, DoFinish(s.idle[0], true))
            && Cycling(Apply(s2, DoFinish(s.idle[0], true)), n + 1)
  {
    var w := Work(1, s.serials, s.tickets, Batched(s.nextBatch));
    CycleAdmits(s, n);
    var s1 := Admit(s, WriteProtect([1]));
    CycleStarts(s1, w);
    var s2 := Apply(s1, DoStart);
    CycleFinishes(s2, w, s.idle[0]);
    var s3 := Apply(s2, DoFinish(s.idle[0], true));
    assert s3.running == s.running && s3.batches == s.batches;
    assert s.idle[1..] + [s.idle[0]] == s3.idle;
  }

  /** From `start`, these steps number `n` batches of which the first is still running. */
  predicate CyclesTo(start: State, steps: seq<Step>, n: nat) {
    Possible(start, steps) && Cycling(Run(start, steps), n) && BatchAdmissions(steps) == n
  }

  lemma CycleAgain(start: State, steps: seq<Step>, n: nat) returns (more: seq<Step>)
    requires CyclesTo(start, steps, n) && 1 <= n < U64_LIMIT
    ensures CyclesTo(start, more, n + 1)
  {
    var s := Run(start, steps);
    OneCycle(s, n);
    ThreeMoreSteps(start, steps, DoAdmit(WriteProtect([1])), DoStart, DoFinish(s.idle[0], true));
    more := steps + [DoAdmit(WriteProtect([1]))] + [DoStart] + [DoFinish(s.idle[0], true)];
  }

  lemma {:induction false} ManyCycles(start: State, first: seq<Step>, n: nat) returns (steps: seq<Step>)
    requires CyclesTo(start, first, 1) && 1 <= n <= U64_LIMIT
    ensures CyclesTo(start, steps, n)
  {
    if n == 1 {
      steps := first;
    } else {
      steps := ManyCycles(start, first, n - 1);
      steps := CycleAgain(start, steps, n - 1);
    }
  }

  /** Submission `t` stays unanswered however the run goes on. */
  ghost predicate NeverAnswered(s: State, t: nat) {
    t < s.tickets && forall more :: Possible(s, more) ==> AccountOf(Run(s, more).log, t).answers == []
  }

  lemma ReuseIsForever(s: State)
    requires Inv(s) && Cycling(s, U64_LIMIT)
    ensures NeverAnswered(Admit(s, WriteProtect([1])), 0)
  {
    AdmitsOne(s, 1);
    forall more | Possible(Admit(s, WriteProtect([1])), more)
      ensures AccountOf(Run(Admit(s, WriteProtect([1])), more).log, 0).answers == []
    {
      ReusedNumberIsNeverAnswered(s, [1], more);
    }
  }

  lemma LastCycle(start: State, steps: seq<Step>) returns (more: seq<Step>)
    requires CyclesTo(start, steps, U64_LIMIT) && Inv(Run(start, steps))
    ensures Possible(start, more) && BatchAdmissions(more) == U64_LIMIT + 1 && NeverAnswered(Run(start, more), 0)
  {
    ReuseIsForever(Run(start, steps));
    OneMoreStep(start, steps, DoAdmit(WriteProtect([1])));
    more := steps + [DoAdmit(WriteProtect([1]))];
  }

  lemma LegalRunKeeps(steps: seq<Step>)
    requires Possible(Init(), steps) && BatchAdmissions(steps) <= U64_LIMIT
    ensures Inv(Run(Init(), steps))
  {
    PossibleRunsAreLegal(steps);
    InitInv();
    RunKeeps(Init(), steps);
  }

  /** The loop can come to take a batch number still in use: after 2^64 batches, of which
      the first is still running, the next number is 1 again. The first submission is
      then never answered. */
  lemma NumbersDoRunOut()
    ensures exists steps :: Possible(Init(), steps) && BatchAdmissions(steps) == U64_LIMIT + 1
                            && NeverAnswered(Run(Init(), steps), 0)
  {
    FirstBatch();
    var most := ManyCycles(Init(), [DoAdmit(WriteProtect([0])), DoStart], U64_LIMIT);
    LegalRunKeeps(most);
    var steps := LastCycle(Init(), most);
  }
}
