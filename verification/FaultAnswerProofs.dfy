/** Who is answered, when, and with what: submissions, batches and barriers. */
module FaultAnswerProofs {
  import opened Prelude
  import opened FaultSchedule
  import opened FaultQueueProofs

  // ---- Operations still owed --------------------------------------------

  /** Operations queued and not yet finished, read off the log. */
  function Owed(log: Log): set<Work> {
    match log
    case Empty => {}
    case Snoc(earlier, e) =>
      if e.Queued? then Owed(earlier) + {e.work}
      else if e.Finished? then Owed(earlier) - {e.work}
      else Owed(earlier)
  }

  ghost predicate Held(s: State, w: Work) {
    w in PendingOf(s.queue, w.volume) || exists k :: k in s.running && s.running[k] == w
  }

  /** The log and the scheduler agree on which operations are outstanding. */
  ghost predicate OwedInv(s: State) {
    && (forall w :: w in Owed(s.log) <==> Held(s, w))
    && (forall w :: w in Owed(s.log) ==> w.serial < s.serials)
  }

  lemma OwedNeutral(s: State, t: State, e: Event)
    requires OwedInv(s) && Neutral(e)
    requires t.queue == s.queue && t.running == s.running && t.serials == s.serials && t.log == Snoc(s.log, e)
    ensures OwedInv(t) && Owed(t.log) == Owed(s.log)
  {
    forall w ensures Held(s, w) == Held(t, w) {}
  }

  lemma OwedPush(s: State, w: Work)
    requires OwedInv(s) && w.serial == s.serials
    ensures OwedInv(PushWork(s, w))
    ensures Owed(PushWork(s, w).log) == Owed(s.log) + {w}
  {
    var t := PushWork(s, w);
    forall u ensures Held(t, u) <==> Held(s, u) || u == w {
      if u.volume == w.volume {
        assert PendingOf(t.queue, u.volume) == PendingOf(s.queue, u.volume) + [w];
      } else {
        assert PendingOf(t.queue, u.volume) == PendingOf(s.queue, u.volume);
      }
    }
  }

  lemma OwedStart(s: State)
    requires CoreInv(s) && OwedInv(s) && !Settled(s)
    requires PendingOf(s.queue, s.queue.ready[0]) != []
    ensures OwedInv(StartOne(s)) && Owed(StartOne(s).log) == Owed(s.log)
  {
    StartKeeps(s.queue);
    var t := StartOne(s);
    var w := StartNext(s.queue).0;
    assert s.idle[0] !in s.running;
    forall u ensures Held(t, u) <==> Held(s, u) {
      HeldStart(s, t, w, u);
    }
    OwedSame(s, t);
  }

  lemma OwedSame(s: State, t: State)
    requires OwedInv(s) && t.serials == s.serials && Owed(t.log) == Owed(s.log)
    requires forall u :: Held(t, u) <==> Held(s, u)
    ensures OwedInv(t)
  {
  }

  lemma HeldStart(s: State, t: State, w: Work, u: Work)
    requires s.idle != [] && s.idle[0] !in s.running && t.running == s.running[s.idle[0] := w]
    requires PendingOf(s.queue, w.volume) != [] && PendingOf(s.queue, w.volume)[0] == w
    requires t.queue.queues == s.queue.queues[w.volume := PendingOf(s.queue, w.volume)[1..]]
    ensures Held(t, u) <==> Held(s, u)
  {
    var before := PendingOf(s.queue, w.volume);
    assert before == [w] + before[1..];
    if u.volume != w.volume {
      assert PendingOf(t.queue, u.volume) == PendingOf(s.queue, u.volume);
    } else {
      assert PendingOf(t.queue, u.volume) == before[1..];
    }
    if u == w {
      assert t.running[s.idle[0]] == u;
    }
    if k :| k in s.running && s.running[k] == u {
      assert t.running[k] == u;
    }
  }

  lemma OwedRelease(s: State, worker: nat, ok: bool)
    requires CoreInv(s) && OwedInv(s) && worker in s.running
    ensures OwedInv(Release(s, worker, ok))
    ensures s.running[worker] in Owed(s.log)
    ensures Owed(Release(s, worker, ok).log) == Owed(s.log) - {s.running[worker]}
  {
    var w := s.running[worker];
    var t := Release(s, worker, ok);
    assert Held(s, w);
    assert FifoOn(s, w.volume, [w]);
    RunningIsNotPending(Project(s.log, FinishedOn(w.volume)), w, PendingOf(s.queue, w.volume), s.serials);
    forall u ensures Held(t, u) <==> Held(s, u) && u != w {
      assert PendingOf(t.queue, u.volume) == PendingOf(s.queue, u.volume);
      if u != w {
        if k :| k in s.running && s.running[k] == u { assert t.running[k] == u; }
      }
    }
  }

  lemma RunningIsNotPending(done: seq<Work>, w: Work, pending: seq<Work>, limit: nat)
    requires Rising(done + [w] + pending, limit)
    ensures w !in pending
  {
    var all := done + [w] + pending;
    assert all[|done|] == w;
    forall i | 0 <= i < |pending| ensures pending[i] != w {
      assert all[|done| + 1 + i] == pending[i];
    }
  }

  // ---- Tickets -----------------------------------------------------------

  /** What the log says about one submission: the answers it got, the results of
      its finished operations, how many it had, and which are outstanding. */
  datatype Account = Account(answers: seq<bool>, results: seq<bool>, members: nat, owed: set<Work>)

  function Note(a: Account, e: Event, t: nat): Account {
    match e
    case Answered(u, ok) => if u == t then a.(answers := a.answers + [ok]) else a
    case Finished(w, ok) => if w.ticket == t then a.(results := a.results + [ok], owed := a.owed - {w}) else a
    case Queued(w) => if w.ticket == t then a.(members := a.members + 1, owed := a.owed + {w}) else a
    case _ => a
  }

  function AccountOf(log: Log, t: nat): Account {
    match log
    case Empty => Account([], [], 0, {})
    case Snoc(earlier, e) => Note(AccountOf(earlier, t), e, t)
  }

  lemma {:induction false} AccountOwes(log: Log, t: nat, w: Work)
    ensures w in AccountOf(log, t).owed <==> w in Owed(log) && w.ticket == t
  {
    match log
    case Empty =>
    case Snoc(earlier, e) => AccountOwes(earlier, t, w);
  }

  predicate AllTrue(bs: seq<bool>) {
    forall i :: 0 <= i < |bs| ==> bs[i]
  }

  lemma AllTrueSnoc(bs: seq<bool>, b: bool)
    ensures AllTrue(bs + [b]) <==> AllTrue(bs) && b
  {
    if AllTrue(bs + [b]) {
      assert (bs + [b])[|bs|];
      forall i | 0 <= i < |bs| ensures bs[i] { assert (bs + [b])[i]; }
    }
  }

  /** A submission is answered at most once, exactly when its last operation has
      finished, and with success iff every one of its operations succeeded. */
  ghost predicate AccountOk(a: Account, known: bool) {
    && a.members == |a.results| + |a.owed|
    && (known ==> (a.answers == [] <==> a.owed != {}))
    && (a.answers != [] ==> a.answers == [AllTrue(a.results)])
    && (!known ==> a == Account([], [], 0, {}))
  }

  ghost predicate BatchOk(batch: Batch, a: Account) {
    && batch.remaining == |a.owed|
    && batch.remaining > 0
    && batch.failed == !AllTrue(a.results)
  }

  ghost predicate WorkOk(w: Work, a: Account, batches: map<nat, Batch>) {
    && (w.reply.Direct? ==>
          && a.owed == {w} && a.results == []
          && forall b :: b in batches ==> batches[b].ticket != w.ticket)
    && (w.reply.Batched? ==> w.reply.batch in batches && batches[w.reply.batch].ticket == w.ticket)
  }

  ghost predicate AnswerInv(s: State) {
    && (forall t: nat :: AccountOk(AccountOf(s.log, t), t < s.tickets))
    && (forall b :: b in s.batches ==>
          s.batches[b].ticket < s.tickets && BatchOk(s.batches[b], AccountOf(s.log, s.batches[b].ticket)))
    && (forall w :: w in Owed(s.log) ==> w.ticket < s.tickets && WorkOk(w, AccountOf(s.log, w.ticket), s.batches))
    && (forall a, b :: a in s.batches && b in s.batches && s.batches[a].ticket == s.batches[b].ticket ==> a == b)
  }

  /** An event that concerns no submission changes no account. */
  lemma AnswersQuiet(s: State, t: State, e: Event)
    requires AnswerInv(s) && !e.Answered? && !e.Finished? && !e.Queued? && t.log == Snoc(s.log, e)
    requires t.batches == s.batches && t.tickets == s.tickets
    ensures AnswerInv(t)
  {
    forall u: nat ensures AccountOf(t.log, u) == AccountOf(s.log, u) {}
  }

  // ---- Finishing ----------------------------------------------------------

  /** Whatever a running operation replies to, its batch is open: completion never fails. */
  lemma CanAlwaysFinish(s: State, worker: nat)
    requires OwedInv(s) && AnswerInv(s) && worker in s.running
    ensures CanFinish(s, worker)
  {
    var w := s.running[worker];
    assert Held(s, w);
    assert w in Owed(s.log);
  }

  /** The account of the finishing operation's own submission. */
  lemma OwnAccount(w: Work, ok: bool, a: Account)
    requires AccountOk(a, true) && w in a.owed
    ensures var after := Note(a, Finished(w, ok), w.ticket);
            && after.answers == [] && after.members == |after.results| + |after.owed|
            && |after.owed| == |a.owed| - 1
            && AllTrue(after.results) == (AllTrue(a.results) && ok)
  {
    AllTrueSnoc(a.results, ok);
  }

  lemma FinishAccount(s: State, worker: nat, ok: bool, t: nat)
    requires worker in s.running && CanFinish(s, worker)
    requires AccountOk(AccountOf(s.log, t), t < s.tickets)
    requires var w := s.running[worker];
             && w.ticket < s.tickets && w in AccountOf(s.log, w.ticket).owed
             && WorkOk(w, AccountOf(s.log, w.ticket), s.batches)
             && (w.reply.Batched? ==> BatchOk(s.batches[w.reply.batch], AccountOf(s.log, w.ticket)))
    ensures AccountOk(AccountOf(Finish(s, worker, ok).log, t), t < s.tickets)
  {
    var w := s.running[worker];
    if t == w.ticket {
      OwnAccount(w, ok, AccountOf(s.log, t));
    }
  }

  lemma FinishOwed(s: State, worker: nat, ok: bool)
    requires worker in s.running && CanFinish(s, worker)
    ensures Owed(Finish(s, worker, ok).log) == Owed(s.log) - {s.running[worker]}
  {
  }

  /** Accounts of other submissions do not notice. */
  lemma FinishElsewhere(s: State, worker: nat, ok: bool, t: nat)
    requires worker in s.running && CanFinish(s, worker) && t != s.running[worker].ticket
    requires s.running[worker].reply.Batched? ==>
               s.batches[s.running[worker].reply.batch].ticket == s.running[worker].ticket
    ensures AccountOf(Finish(s, worker, ok).log, t) == AccountOf(s.log, t)
  {
  }

  lemma FinishAnswers(s: State, worker: nat, ok: bool)
    requires AnswerInv(s) && worker in s.running && CanFinish(s, worker) && s.running[worker] in Owed(s.log)
    ensures AnswerInv(Finish(s, worker, ok))
  {
    var w := s.running[worker];
    var f := Finish(s, worker, ok);
    AccountOwes(s.log, w.ticket, w);
    FinishOwed(s, worker, ok);
    forall t: nat ensures AccountOk(AccountOf(f.log, t), t < f.tickets) {
      FinishAccount(s, worker, ok, t);
    }
    forall b | b in f.batches
      ensures f.batches[b].ticket < f.tickets && BatchOk(f.batches[b], AccountOf(f.log, f.batches[b].ticket))
    {
      FinishBatch(s, worker, ok, b);
    }
    forall u | u in Owed(f.log) ensures u.ticket < f.tickets && WorkOk(u, AccountOf(f.log, u.ticket), f.batches) {
      FinishWork(s, worker, ok, u);
    }
  }

  lemma FinishBatch(s: State, worker: nat, ok: bool, b: nat)
    requires AnswerInv(s) && worker in s.running && CanFinish(s, worker)
    requires s.running[worker] in Owed(s.log) && s.running[worker] in AccountOf(s.log, s.running[worker].ticket).owed
    requires b in Finish(s, worker, ok).batches
    ensures var f := Finish(s, worker, ok);
            f.batches[b].ticket < s.tickets && BatchOk(f.batches[b], AccountOf(f.log, f.batches[b].ticket))
  {
    var w := s.running[worker];
    if s.batches[b].ticket == w.ticket {
      OwnAccount(w, ok, AccountOf(s.log, w.ticket));
    } else {
      FinishElsewhere(s, worker, ok, s.batches[b].ticket);
    }
  }

  lemma FinishWork(s: State, worker: nat, ok: bool, u: Work)
    requires AnswerInv(s) && worker in s.running && CanFinish(s, worker)
    requires s.running[worker] in Owed(s.log) && s.running[worker] in AccountOf(s.log, s.running[worker].ticket).owed
    requires u in Owed(s.log) && u != s.running[worker]
    ensures var f := Finish(s, worker, ok);
            u.ticket < s.tickets && WorkOk(u, AccountOf(f.log, u.ticket), f.batches)
  {
    var w := s.running[worker];
    AccountOwes(s.log, u.ticket, u);
    if u.ticket == w.ticket {
      OwnAccount(w, ok, AccountOf(s.log, w.ticket));
      assert u in AccountOf(s.log, w.ticket).owed - {w};
    } else {
      FinishElsewhere(s, worker, ok, u.ticket);
    }
  }
}
