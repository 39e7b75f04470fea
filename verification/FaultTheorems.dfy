/** What holds in every run of the fault-work dispatcher. */
module FaultTheorems {
  import opened Prelude
  import opened FaultSchedule
  import opened FaultQueueProofs
  import opened FaultAnswerProofs

  // ---- Barriers -----------------------------------------------------------

  function BarriersTaken(log: Log): seq<nat> {
    match log
    case Empty => []
    case Snoc(earlier, e) => if e.BarrierTaken? then BarriersTaken(earlier) + [e.barrier] else BarriersTaken(earlier)
  }

  function BarriersSignalled(log: Log): seq<nat> {
    match log
    case Empty => []
    case Snoc(earlier, e) =>
      if e.BarrierSignalled? then BarriersSignalled(earlier) + [e.barrier] else BarriersSignalled(earlier)
  }

  function Submissions(log: Log): nat {
    match log
    case Empty => 0
    case Snoc(earlier, e) => Submissions(earlier) + if e.Submitted? then 1 else 0
  }

  /** `b` was taken and nothing has been admitted since. */
  predicate QuietSince(log: Log, b: nat) {
    match log
    case Empty => false
    case Snoc(earlier, e) =>
      e == BarrierTaken(b) || (!e.Submitted? && !e.Queued? && !e.BarrierTaken? && QuietSince(earlier, b))
  }

  /** Every operation ever queued has finished and every submission has had
      exactly one answer, which is success iff all its operations succeeded. */
  ghost predicate Drained(log: Log) {
    && Owed(log) == {}
    && forall t: nat :: t < Submissions(log) ==>
         var a := AccountOf(log, t);
         && a.answers == [AllTrue(a.results)] && |a.results| == a.members
  }

  /** Every signal in the log came after everything before its barrier was
      answered and before anything later was admitted. */
  ghost predicate BarriersSound(log: Log) {
    match log
    case Empty => true
    case Snoc(earlier, e) =>
      && BarriersSound(earlier)
      && (e.BarrierSignalled? ==> QuietSince(earlier, e.barrier) && Drained(earlier))
  }

  ghost predicate BarrierInv(log: Log, barrier: Option<nat>, tickets: nat) {
    && tickets == Submissions(log)
    && BarriersSound(log)
    && (barrier.Some? ==> QuietSince(log, barrier.value))
    && BarriersTaken(log) == if barrier.Some? then BarriersSignalled(log) + [barrier.value] else BarriersSignalled(log)
  }

  ghost predicate Inv(s: State) {
    CoreInv(s) && OwedInv(s) && AnswerInv(s) && BarrierInv(s.log, s.barrier, s.tickets)
  }

  // ---- Admission ----------------------------------------------------------

  lemma SubmitKeeps(s: State, t: State)
    requires CoreInv(s) && OwedInv(s) && BarrierInv(s.log, None, s.tickets)
    requires t == s.(batches := t.batches, nextBatch := t.nextBatch, tickets := s.tickets + 1,
                     log := Snoc(s.log, Submitted(s.tickets)))
    ensures CoreInv(t) && OwedInv(t) && BarrierInv(t.log, None, t.tickets)
  {
    NeutralKeeps(s, t, Submitted(s.tickets));
    OwedNeutral(s, t, Submitted(s.tickets));
  }

  /** What queueing a run of operations of one submission keeps. */
  lemma {:induction false} PushAllKeeps(s: State, works: seq<Work>)
    requires CoreInv(s) && OwedInv(s)
    requires forall i :: 0 <= i < |works| ==> works[i].serial == s.serials + i
    ensures var r := PushAll(s, works);
            && CoreInv(r) && OwedInv(r)
            && r == s.(queue := r.queue, serials := s.serials + |works|, log := r.log)
    decreases |works|
  {
    if works != [] {
      PushAllKeeps(s, DropLast(works));
      PushWorkKeeps(PushAll(s, DropLast(works)), Last(works));
      OwedPush(PushAll(s, DropLast(works)), Last(works));
    }
  }

  lemma {:induction false} PushAllBarriers(s: State, works: seq<Work>)
    requires BarrierInv(s.log, None, s.tickets)
    ensures BarrierInv(PushAll(s, works).log, None, s.tickets)
    decreases |works|
  {
    if works != [] { PushAllBarriers(s, DropLast(works)); }
  }

  lemma {:induction false} PushAllAccounts(s: State, works: seq<Work>, t: nat)
    requires forall i :: 0 <= i < |works| ==> works[i].ticket == t
    ensures var r := PushAll(s, works);
            && (forall w :: w in Owed(r.log) <==> w in Owed(s.log) || w in works)
            && (forall u: nat :: u != t ==> AccountOf(r.log, u) == AccountOf(s.log, u))
            && var a, b := AccountOf(s.log, t), AccountOf(r.log, t);
               b == Account(a.answers, a.results, a.members + |works|, b.owed)
    decreases |works|
  {
    if works != [] {
      PushAllAccounts(s, DropLast(works), t);
      assert works == DropLast(works) + [Last(works)];
    }
  }

  function Elements(works: seq<Work>): set<Work> {
    set w | w in works
  }

  lemma ElementsSnoc(works: seq<Work>)
    requires works != []
    ensures Elements(works) == Elements(DropLast(works)) + {Last(works)}
  {
    assert works == DropLast(works) + [Last(works)];
  }

  lemma {:induction false} PushAllOwes(s: State, works: seq<Work>, t: nat)
    requires AccountOf(s.log, t).owed == {}
    requires forall i :: 0 <= i < |works| ==> works[i].ticket == t
    ensures AccountOf(PushAll(s, works).log, t).owed == Elements(works)
    decreases |works|
  {
    if works != [] {
      PushAllOwes(s, DropLast(works), t);
      ElementsSnoc(works);
      assert Last(works) == works[|works| - 1];
    }
  }

  lemma {:induction false} DistinctSize(works: seq<Work>)
    requires forall i, j :: 0 <= i < j < |works| ==> works[i].serial < works[j].serial
    ensures |Elements(works)| == |works|
    decreases |works|
  {
    if works != [] {
      DistinctSize(DropLast(works));
      ElementsSnoc(works);
    }
  }

  lemma AdmitSingle(s: State, v: Volume)
    requires Inv(s) && s.barrier.None?
    ensures Inv(Admit(s, Single(v)))
  {
    var mid := s.(tickets := s.tickets + 1, log := Snoc(s.log, Submitted(s.tickets)));
    var w := Work(v, s.serials, s.tickets, Direct);
    SubmitKeeps(s, mid);
    PushWorkKeeps(mid, w);
    OwedPush(mid, w);
    SingleAnswers(s, Admit(s, Single(v)), w);
  }

  lemma SingleAnswers(s: State, t: State, w: Work)
    requires AnswerInv(s) && w.reply.Direct? && w.ticket == s.tickets
    requires t.log == Snoc(Snoc(s.log, Submitted(s.tickets)), Queued(w))
    requires t.batches == s.batches && t.tickets == s.tickets + 1
    ensures AnswerInv(t)
  {
    assert AccountOk(AccountOf(s.log, s.tickets), false);
    assert Owed(t.log) == Owed(t.log.earlier) + {w} && Owed(t.log.earlier) == Owed(s.log);
    forall u: nat ensures AccountOk(AccountOf(t.log, u), u < t.tickets) {
      assert AccountOk(AccountOf(s.log, u), u < s.tickets);
    }
    forall b | b in t.batches
      ensures t.batches[b].ticket < t.tickets && BatchOk(t.batches[b], AccountOf(t.log, t.batches[b].ticket))
    {}
    forall u | u in Owed(t.log) ensures u.ticket < t.tickets && WorkOk(u, AccountOf(t.log, u.ticket), t.batches) {
      if u in Owed(s.log) { assert WorkOk(u, AccountOf(s.log, u.ticket), s.batches); }
    }
  }

  lemma AdmitEmpty(s: State)
    requires Inv(s) && s.barrier.None?
    ensures Inv(Admit(s, WriteProtect([])))
  {
    var t := Admit(s, WriteProtect([]));
    var mid := s.(tickets := s.tickets + 1, log := Snoc(s.log, Submitted(s.tickets)));
    SubmitKeeps(s, mid);
    NeutralKeeps(mid, t, Answered(s.tickets, true));
    OwedNeutral(mid, t, Answered(s.tickets, true));
    EmptyAnswers(s, t);
  }

  lemma EmptyAnswers(s: State, t: State)
    requires AnswerInv(s) && t.log == Snoc(Snoc(s.log, Submitted(s.tickets)), Answered(s.tickets, true))
    requires t.batches == s.batches && t.tickets == s.tickets + 1
    ensures AnswerInv(t)
  {
    assert AccountOk(AccountOf(s.log, s.tickets), false);
    assert Owed(t.log) == Owed(t.log.earlier) && Owed(t.log.earlier) == Owed(s.log);
    forall u: nat ensures AccountOk(AccountOf(t.log, u), u < t.tickets) {
      assert AccountOk(AccountOf(s.log, u), u < s.tickets);
    }
    forall b | b in t.batches
      ensures t.batches[b].ticket < t.tickets && BatchOk(t.batches[b], AccountOf(t.log, t.batches[b].ticket))
    {}
    forall u | u in Owed(t.log) ensures u.ticket < t.tickets && WorkOk(u, AccountOf(t.log, u.ticket), t.batches) {
      assert WorkOk(u, AccountOf(s.log, u.ticket), s.batches);
    }
  }

  lemma AdmitBatch(s: State, hosts: seq<Volume>)
    requires Inv(s) && s.barrier.None? && hosts != []
    requires s.nextBatch !in s.batches
    ensures Inv(Admit(s, WriteProtect(hosts)))
  {
    var works := BatchWorks(hosts, s.serials, s.tickets, s.nextBatch);
    AdmitBatchCore(s, hosts, works);
    AdmitBatchAnswers(s, hosts, works);
  }

  lemma AdmitBatchCore(s: State, hosts: seq<Volume>, works: seq<Work>)
    requires CoreInv(s) && OwedInv(s) && BarrierInv(s.log, None, s.tickets) && s.barrier.None?
    requires works == BatchWorks(hosts, s.serials, s.tickets, s.nextBatch)
    ensures var r := PushAll(OpenBatch(s, |hosts|), works);
            && CoreInv(r) && OwedInv(r) && BarrierInv(r.log, r.barrier, r.tickets)
            && r == OpenBatch(s, |hosts|).(queue := r.queue, serials := r.serials, log := r.log)
  {
    var mid := OpenBatch(s, |hosts|);
    SubmitKeeps(s, mid);
    PushAllKeeps(mid, works);
    PushAllBarriers(mid, works);
  }

  lemma AdmitBatchAnswers(s: State, hosts: seq<Volume>, works: seq<Work>)
    requires AnswerInv(s) && hosts != [] && s.nextBatch !in s.batches
    requires works == BatchWorks(hosts, s.serials, s.tickets, s.nextBatch)
    requires var r := PushAll(OpenBatch(s, |hosts|), works);
             r == OpenBatch(s, |hosts|).(queue := r.queue, serials := r.serials, log := r.log)
    ensures AnswerInv(PushAll(OpenBatch(s, |hosts|), works))
  {
    var mid := OpenBatch(s, |hosts|);
    PushAllAccounts(mid, works, s.tickets);
    assert AccountOk(AccountOf(s.log, s.tickets), false);
    PushAllOwes(mid, works, s.tickets);
    DistinctSize(works);
    BatchAnswers(s, mid, PushAll(mid, works), works);
  }

  lemma BatchAnswers(s: State, mid: State, r: State, works: seq<Work>)
    requires AnswerInv(s) && s.nextBatch !in s.batches && works != []
    requires mid == OpenBatch(s, |works|) && r.batches == mid.batches && r.tickets == s.tickets + 1
    requires forall w :: w in works ==> w.ticket == s.tickets && w.reply == Batched(s.nextBatch)
    requires forall w :: w in Owed(r.log) <==> w in Owed(s.log) || w in works
    requires forall u: nat :: u != s.tickets ==> AccountOf(r.log, u) == AccountOf(s.log, u)
    requires var a := AccountOf(r.log, s.tickets);
             a.answers == [] && a.results == [] && a.members == |works| && |a.owed| == |works|
    ensures AnswerInv(r)
  {
    forall u: nat ensures AccountOk(AccountOf(r.log, u), u < r.tickets) {
      assert AccountOk(AccountOf(s.log, u), u < s.tickets);
    }
    forall w | w in Owed(r.log) ensures w.ticket < r.tickets && WorkOk(w, AccountOf(r.log, w.ticket), r.batches) {
      if w in Owed(s.log) { assert WorkOk(w, AccountOf(s.log, w.ticket), s.batches); }
    }
  }

  lemma AdmitBarrier(s: State, id: nat)
    requires Inv(s) && s.barrier.None?
    ensures Inv(Admit(s, Barrier(id)))
  {
    var t := Admit(s, Barrier(id));
    NeutralKeeps(s, t, BarrierTaken(id));
    OwedNeutral(s, t, BarrierTaken(id));
    AnswersQuiet(s, t, BarrierTaken(id));
  }

  // ---- Every step ---------------------------------------------------------

  lemma FinishKeeps(s: State, worker: nat, ok: bool)
    requires Inv(s) && worker in s.running && CanFinish(s, worker)
    ensures Inv(Finish(s, worker, ok))
  {
    FinishCore(s, worker, ok);
    FinishAnswers(s, worker, ok);
    FinishShape(s, worker, ok);
    FinishFrame(s, Release(s, worker, ok), Finish(s, worker, ok));
  }

  lemma FinishCore(s: State, worker: nat, ok: bool)
    requires CoreInv(s) && OwedInv(s) && worker in s.running
    ensures CoreInv(Release(s, worker, ok)) && OwedInv(Release(s, worker, ok))
    ensures s.running[worker] in Owed(s.log)
  {
    ReleaseKeeps(s, worker, ok);
    OwedRelease(s, worker, ok);
  }

  lemma FinishShape(s: State, worker: nat, ok: bool)
    requires worker in s.running && CanFinish(s, worker)
    ensures var r, f := Release(s, worker, ok), Finish(s, worker, ok);
            && r.log == Snoc(s.log, Finished(s.running[worker], ok))
            && (f.log == r.log || (f.log.Snoc? && f.log.earlier == r.log && f.log.event.Answered?))
            && f == r.(batches := f.batches, log := f.log) && f.barrier == s.barrier && f.tickets == s.tickets
  {
  }

  lemma FinishFrame(s: State, r: State, f: State)
    requires CoreInv(r) && OwedInv(r) && BarrierInv(s.log, s.barrier, s.tickets)
    requires r.log.Snoc? && r.log.earlier == s.log && r.log.event.Finished?
    requires f.log == r.log || (f.log.Snoc? && f.log.earlier == r.log && f.log.event.Answered?)
    requires f == r.(batches := f.batches, log := f.log) && f.barrier == s.barrier && f.tickets == s.tickets
    ensures CoreInv(f) && OwedInv(f) && BarrierInv(f.log, f.barrier, f.tickets)
  {
    if f.log == r.log {
      SameCore(r, f);
    } else {
      NeutralKeeps(r, f, f.log.event);
      OwedNeutral(r, f, f.log.event);
    }
  }

  lemma SameCore(r: State, f: State)
    requires CoreInv(r) && OwedInv(r)
    requires f.queue == r.queue && f.idle == r.idle && f.running == r.running && f.serials == r.serials
             && f.log == r.log
    ensures CoreInv(f) && OwedInv(f)
  {
    forall v | v !in f.queue.active ensures FifoOn(f, v, []) { assert FifoOn(r, v, []); }
    forall w | w in f.running ensures FifoOn(f, f.running[w].volume, [f.running[w]]) {
      assert FifoOn(r, r.running[w].volume, [r.running[w]]);
    }
    forall w ensures Held(f, w) == Held(r, w) {}
  }

  lemma StartStep(s: State)
    requires Inv(s) && !Settled(s)
    ensures Offered(s, DoStart) && Inv(StartOne(s))
  {
    StartOneKeeps(s);
    OwedStart(s);
    AnswersQuiet(s, StartOne(s), StartOne(s).log.event);
    StartIsNoBarrier(s.log, s.barrier, s.tickets, StartNext(s.queue).0);
  }

  lemma StartIsNoBarrier(log: Log, barrier: Option<nat>, tickets: nat, w: Work)
    requires BarrierInv(log, barrier, tickets)
    ensures BarrierInv(Snoc(log, Started(w)), barrier, tickets)
  {
  }

  /** With the queue idle, everything ever submitted has been answered. */
  lemma IdleIsDrained(s: State)
    requires Inv(s) && IsIdle(s.queue)
    ensures Drained(s.log)
  {
    forall w ensures w !in Owed(s.log) {
      assert PendingOf(s.queue, w.volume) == [];
      assert !Held(s, w);
    }
    forall t: nat | t < Submissions(s.log)
      ensures var a := AccountOf(s.log, t); a.answers == [AllTrue(a.results)] && |a.results| == a.members
    {
      var a := AccountOf(s.log, t);
      assert AccountOk(a, true);
      forall w ensures w !in a.owed { AccountOwes(s.log, t, w); }
      assert a.owed == {};
    }
  }

  lemma SignalKeeps(s: State)
    requires Inv(s) && IsIdle(s.queue) && s.barrier.Some?
    ensures Inv(Signal(s))
  {
    var t := Signal(s);
    IdleIsDrained(s);
    NeutralKeeps(s, t, t.log.event);
    OwedNeutral(s, t, t.log.event);
    AnswersQuiet(s, t, t.log.event);
  }

  lemma StepKeeps(s: State, step: Step)
    requires Inv(s) && Enabled(s, step)
    ensures Inv(Apply(s, step))
  {
    match step
    case DoStart => StartStep(s);
    case DoSignal => SignalKeeps(s);
    case DoAdmit(item) =>
      if item.Single? {
        AdmitSingle(s, item.volume);
      } else if item.Barrier? {
        AdmitBarrier(s, item.id);
      } else if item.hosts == [] {
        AdmitEmpty(s);
      } else {
        AdmitBatch(s, item.hosts);
      }
    case DoFinish(worker, ok) => FinishKeeps(s, worker, ok);
    case DoClose => SameCore(s, s.(closed := true));
  }

  // ---- Every run ----------------------------------------------------------

  lemma {:induction false} RunKeeps(s: State, steps: seq<Step>)
    requires Inv(s) && Legal(s, steps)
    ensures Inv(Run(s, steps))
    decreases |steps|
  {
    if steps != [] {
      StepKeeps(s, steps[0]);
      RunKeeps(Apply(s, steps[0]), steps[1..]);
    }
  }

  lemma InitInv()
    ensures Inv(Init())
  {
    InitCore();
    forall t: nat ensures AccountOk(AccountOf(Init().log, t), false) {}
  }

  /** The worker pool and the ready ring in every reachable state. */
  lemma EveryRunSchedules(steps: seq<Step>)
    requires Legal(Init(), steps)
    ensures var s := Run(Init(), steps);
            && |s.queue.active| <= WORKERS && |s.idle| + |s.queue.active| == WORKERS
            && Distinct(s.queue.ready)
            && (forall v :: v in s.queue.ready <==> v !in s.queue.active && PendingOf(s.queue, v) != [])
            && (forall a, b :: a in s.running && b in s.running && s.running[a].volume == s.running[b].volume
                  ==> a == b)
            && (forall v :: v in s.queue.active <==> exists w :: w in s.running && s.running[w].volume == v)
  {
    InitInv();
    RunKeeps(Init(), steps);
  }

  /** Each volume's operations start and finish in the order they were admitted,
      with at most one between its start and its finish. */
  lemma EveryRunIsFifo(steps: seq<Step>, v: Volume)
    requires Legal(Init(), steps)
    ensures var log := Run(Init(), steps).log;
            var queued, started := Project(log, QueuedOn(v)), Project(log, StartedOn(v));
            var finished := Project(log, FinishedOn(v));
            finished <= started <= queued && |started| <= |finished| + 1
  {
    InitInv();
    RunKeeps(Init(), steps);
    var s := Run(Init(), steps);
    if v in s.queue.active {
      var w :| w in s.running && s.running[w].volume == v;
      assert FifoOn(s, v, [s.running[w]]);
    } else {
      assert FifoOn(s, v, []);
    }
  }

  /** Every submission has at most one answer; it has none only while one of its
      operations is queued or running; and the answer reports failure iff one of
      its operations, all of which have then finished, failed. */
  lemma EveryRunAnswersOnce(steps: seq<Step>, t: nat)
    requires Legal(Init(), steps)
    ensures var s := Run(Init(), steps);
            var a := AccountOf(s.log, t);
            && |a.answers| <= 1
            && (t < Submissions(s.log) && a.answers == [] ==> exists w :: Held(s, w) && w.ticket == t)
            && (a.answers != [] ==> a.answers[0] == AllTrue(a.results) && |a.results| == a.members)
  {
    InitInv();
    RunKeeps(Init(), steps);
    var s := Run(Init(), steps);
    var a := AccountOf(s.log, t);
    assert AccountOk(a, t < s.tickets);
    if t < s.tickets && a.answers == [] {
      var w :| w in a.owed;
      AccountOwes(s.log, t, w);
    }
  }

  /** Barriers are signalled once each, in the order taken, and each signal
      separates what came before it from what comes after. */
  lemma EveryRunSeparatesBarriers(steps: seq<Step>)
    requires Legal(Init(), steps)
    ensures var s := Run(Init(), steps);
            && BarriersSound(s.log)
            && BarriersSignalled(s.log) <= BarriersTaken(s.log)
            && |BarriersTaken(s.log)| <= |BarriersSignalled(s.log)| + 1
  {
    InitInv();
    RunKeeps(Init(), steps);
  }

  /** Whenever the loop stops handing out work it can go on: it leaves, signals,
      or has an enabled select branch, and the completion branch is enabled
      exactly when some worker still owes a completion the loop can accept. */
  lemma EveryRunCanContinue(steps: seq<Step>)
    requires Legal(Init(), steps)
    ensures var s := Run(Init(), steps);
            && (!Settled(s) ==> Offered(s, DoStart))
            && (Settled(s) ==> Exits(s) || Offered(s, DoSignal) || CompletionBranch(s) || IncomingBranch(s))
            && (Exits(s) ==> Drained(s.log))
            && (|s.idle| != WORKERS <==> exists w :: w in s.running)
            && (forall w :: w in s.running ==> CanFinish(s, w))
  {
    InitInv();
    RunKeeps(Init(), steps);
    var s := Run(Init(), steps);
    if !Settled(s) { StartKeeps(s.queue); }
    if Exits(s) { IdleIsDrained(s); }
    IdleMeansDrained(s.queue);
    BusyMeansRunning(s);
    forall w | w in s.running ensures CanFinish(s, w) { CanAlwaysFinish(s, w); }
  }

  lemma BusyMeansRunning(s: State)
    requires WorkerInv(s)
    ensures |s.idle| != WORKERS <==> s.queue.active != {}
    ensures s.queue.active != {} <==> exists w :: w in s.running
  {
    if s.queue.active != {} {
      var v :| v in s.queue.active;
      assert exists w :: w in s.running && s.running[w].volume == v;
    }
  }

  // ---- Batch numbers wrap at 2^64 -------------------------------------------

  function OpensBatch(step: Step): nat {
    if step.DoAdmit? && step.item.WriteProtect? && step.item.hosts != [] then 1 else 0
  }

  function BatchAdmissions(steps: seq<Step>): nat
    decreases |steps|
  {
    if steps == [] then 0 else OpensBatch(steps[0]) + BatchAdmissions(steps[1..])
  }

  /** After `n` batches the next number is `n + 1` modulo 2^64, and the numbers
      in use are among the first `n`. */
  ghost predicate Numbered(s: State, n: nat) {
    && s.nextBatch == (n + 1) % U64_LIMIT
    && (n < U64_LIMIT ==> forall b :: b in s.batches ==> 1 <= b <= n)
  }

  lemma {:induction false} PushAllNumbers(s: State, works: seq<Work>)
    ensures PushAll(s, works).batches == s.batches && PushAll(s, works).nextBatch == s.nextBatch
    decreases |works|
  {
    if works != [] { PushAllNumbers(s, DropLast(works)); }
  }

  lemma StepNumbers(s: State, step: Step, n: nat)
    requires Numbered(s, n) && n < U64_LIMIT && Offered(s, step)
    ensures Numbered(Apply(s, step), n + OpensBatch(step))
  {
    if OpensBatch(step) == 1 {
      var hosts := step.item.hosts;
      OpenNumbers(s, |hosts|, n);
      PushAllNumbers(OpenBatch(s, |hosts|), BatchWorks(hosts, s.serials, s.tickets, s.nextBatch));
    } else {
      QuietNumbers(s, step);
    }
  }

  lemma OpenNumbers(s: State, size: nat, n: nat)
    requires Numbered(s, n) && n < U64_LIMIT
    ensures Numbered(OpenBatch(s, size), n + 1)
  {
  }

  lemma QuietNumbers(s: State, step: Step)
    requires Offered(s, step) && OpensBatch(step) == 0
    ensures Apply(s, step).nextBatch == s.nextBatch && Apply(s, step).batches.Keys <= s.batches.Keys
  {
  }

  lemma {:induction false} NumbersLast(s: State, steps: seq<Step>, n: nat)
    requires Numbered(s, n) && Possible(s, steps) && n + BatchAdmissions(steps) <= U64_LIMIT
    ensures Legal(s, steps)
    decreases |steps|
  {
    if steps != [] && n < U64_LIMIT {
      StepNumbers(s, steps[0], n);
      NumbersLast(Apply(s, steps[0]), steps[1..], n + OpensBatch(steps[0]));
    } else if steps != [] {
      NoMoreBatches(s, steps);
    }
  }

  lemma {:induction false} NoMoreBatches(s: State, steps: seq<Step>)
    requires Possible(s, steps) && BatchAdmissions(steps) == 0
    ensures Legal(s, steps)
    decreases |steps|
  {
    if steps != [] { NoMoreBatches(Apply(s, steps[0]), steps[1..]); }
  }

  /** Every possible run with at most 2^64 batch submissions is legal. */
  lemma PossibleRunsAreLegal(steps: seq<Step>)
    requires Possible(Init(), steps) && BatchAdmissions(steps) <= U64_LIMIT
    ensures Legal(Init(), steps)
  {
    NumbersLast(Init(), steps, 0);
  }

  /** Nobody left can answer submission `t`. */
  ghost predicate Orphaned(s: State, t: nat) {
    && t < s.tickets && AccountOf(s.log, t).answers == []
    && (forall b :: b in s.batches ==> s.batches[b].ticket != t)
    && (forall v, i :: v in s.queue.queues && 0 <= i < |s.queue.queues[v]| && s.queue.queues[v][i].ticket == t
          ==> s.queue.queues[v][i].reply.Batched?)
    && (forall w :: w in s.running && s.running[w].ticket == t ==> s.running[w].reply.Batched?)
  }

  lemma {:induction false} PushAllOrphaned(s: State, works: seq<Work>, t: nat)
    requires Orphaned(s, t) && forall i :: 0 <= i < |works| ==> works[i].ticket != t || works[i].reply.Batched?
    ensures Orphaned(PushAll(s, works), t)
    decreases |works|
  {
    if works != [] { PushAllOrphaned(s, DropLast(works), t); }
  }

  lemma StepOrphaned(s: State, step: Step, t: nat)
    requires Orphaned(s, t) && Offered(s, step)
    ensures Orphaned(Apply(s, step), t)
  {
    if step.DoAdmit? {
      AdmitOrphaned(s, step.item, t);
    }
  }

  lemma AdmitOrphaned(s: State, item: Item, t: nat)
    requires Orphaned(s, t)
    ensures Orphaned(Admit(s, item), t)
  {
    if item.WriteProtect? && item.hosts != [] {
      PushAllOrphaned(OpenBatch(s, |item.hosts|), BatchWorks(item.hosts, s.serials, s.tickets, s.nextBatch), t);
    }
  }

  lemma {:induction false} RunOrphaned(s: State, steps: seq<Step>, t: nat)
    requires Orphaned(s, t) && Possible(s, steps)
    ensures Orphaned(Run(s, steps), t)
    decreases |steps|
  {
    if steps != [] {
      StepOrphaned(s, steps[0], t);
      RunOrphaned(Apply(s, steps[0]), steps[1..], t);
    }
  }

  lemma ReuseOrphans(s: State, hosts: seq<Volume>)
    requires Inv(s) && hosts != [] && s.nextBatch in s.batches
    ensures Orphaned(Admit(s, WriteProtect(hosts)), s.batches[s.nextBatch].ticket)
  {
    var t := s.batches[s.nextBatch].ticket;
    assert AccountOk(AccountOf(s.log, t), true);
    OutstandingBatched(s, t);
    PushAllOrphaned(OpenBatch(s, |hosts|), BatchWorks(hosts, s.serials, s.tickets, s.nextBatch), t);
  }

  /** If a batch number is taken again while in use, the submission that held it
      is never answered, however the run goes on. */
  lemma ReusedNumberIsNeverAnswered(s: State, hosts: seq<Volume>, steps: seq<Step>)
    requires Inv(s) && hosts != [] && s.nextBatch in s.batches
    requires Possible(Admit(s, WriteProtect(hosts)), steps)
    ensures AccountOf(Run(Admit(s, WriteProtect(hosts)), steps).log, s.batches[s.nextBatch].ticket).answers == []
  {
    ReuseOrphans(s, hosts);
    RunOrphaned(Admit(s, WriteProtect(hosts)), steps, s.batches[s.nextBatch].ticket);
  }

  lemma OutstandingBatched(s: State, t: nat)
    requires OwedInv(s) && AnswerInv(s) && QueueInv(s.queue)
    requires exists b :: b in s.batches && s.batches[b].ticket == t
    ensures forall v, i :: v in s.queue.queues && 0 <= i < |s.queue.queues[v]| && s.queue.queues[v][i].ticket == t
              ==> s.queue.queues[v][i].reply.Batched?
    ensures forall w :: w in s.running && s.running[w].ticket == t ==> s.running[w].reply.Batched?
  {
    forall v, i | v in s.queue.queues && 0 <= i < |s.queue.queues[v]| && s.queue.queues[v][i].ticket == t
      ensures s.queue.queues[v][i].reply.Batched?
    {
      assert Held(s, s.queue.queues[v][i]);
    }
    forall w | w in s.running && s.running[w].ticket == t ensures s.running[w].reply.Batched? {
      assert Held(s, s.running[w]);
    }
  }
}
