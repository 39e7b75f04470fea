/** Which lane a receive serves, told from the deliveries so far, and how a stream ends. */
module InjectorOrder {
  import opened Prelude
  import opened Injector

  /** The critical events delivered since the last background one. */
  function CriticalRun(w: State, trace: Trace): nat {
    match trace
    case Empty => 0
    case Snoc(earlier, _) =>
      var before, after := Run(w, earlier).delivered, Run(w, trace).delivered;
      if after.background > before.background then 0
      else if after.critical > before.critical then CriticalRun(w, earlier) + 1
      else CriticalRun(w, earlier)
  }

  /** The streak follows from what was delivered. */
  predicate StreakFollows(w: State, v: State) {
    v.streak == if v.delivered.background > w.delivered.background then 0
                else if v.delivered.critical > w.delivered.critical then SaturatingPlus(w.streak, U32_LIMIT - 1)
                else w.streak
  }

  lemma TakeStreak(w: State, lane: Lane)
    requires w.queues.At(lane) > 0
    ensures StreakFollows(w, Take(w, lane))
  {
  }

  lemma LaneStreak(w: State, lane: Lane, pending: Receive)
    ensures StreakFollows(w, PollLane(w, lane, pending))
  {
    if w.queues.At(lane) > 0 { TakeStreak(w, lane); }
  }

  lemma PollStreak(w: State)
    ensures StreakFollows(w, Polled(w))
  {
    match w.receive
    case Ask(prefer) => if w.queues.At(First(prefer)) > 0 { TakeStreak(w, First(prefer)); }
    case AskOther(prefer) => if w.queues.At(First(!prefer)) > 0 { TakeStreak(w, First(!prefer)); }
    case Select(prefer) => LaneStreak(w, First(prefer), SelectOther(prefer));
    case SelectOther(prefer) => LaneStreak(w, First(!prefer), Select(prefer));
    case _ =>
  }

  lemma StepStreak(w: State, step: Step)
    requires Enabled(w, step)
    ensures StreakFollows(w, Apply(w, step))
  {
    if step.Poll? { PollStreak(w); }
  }

  /** In every run the streak is the number of critical events delivered since the last
      background one, as far as 32 bits go. */
  lemma {:induction false} EveryStreakIsCounted(capacity: Option<U64>, pushers: nat, trace: Trace)
    requires Legal(Start(capacity, pushers), trace)
    ensures var run := CriticalRun(Start(capacity, pushers), trace);
            Run(Start(capacity, pushers), trace).streak == if run < U32_LIMIT then run else U32_LIMIT - 1
  {
    match trace
    case Empty =>
    case Snoc(earlier, step) =>
      EveryStreakIsCounted(capacity, pushers, earlier);
      StepStreak(Run(Start(capacity, pushers), earlier), step);
  }

  predicate LooksFirst(receive: Receive) { receive.Ask? || receive.Select? }

  lemma FirstLook(w: State)
    requires Fair(w) && LooksFirst(w.receive) && w.queues.critical > 0 && w.queues.background > 0
    ensures Polled(w).delivered
            == if w.streak >= 32 then w.delivered.(background := w.delivered.background + 1)
               else w.delivered.(critical := w.delivered.critical + 1)
  {
    assert Critical !in w.closed && Background !in w.closed;
  }

  /** In every run, a receive that looks while both lanes wait delivers the critical event,
      unless 32 or more critical events were delivered since the last background one; then it
      delivers the background event. */
  lemma CriticalGoesFirst(capacity: Option<U64>, pushers: nat, trace: Trace)
    requires Legal(Start(capacity, pushers), trace)
    requires var w := Run(Start(capacity, pushers), trace);
             LooksFirst(w.receive) && w.queues.critical > 0 && w.queues.background > 0
    ensures var w := Run(Start(capacity, pushers), trace);
            Apply(w, Poll).delivered
            == if CriticalRun(Start(capacity, pushers), trace) >= 32
               then w.delivered.(background := w.delivered.background + 1)
               else w.delivered.(critical := w.delivered.critical + 1)
  {
    FairRun(capacity, pushers, trace);
    EveryStreakIsCounted(capacity, pushers, trace);
    FirstLook(Run(Start(capacity, pushers), trace));
  }

  // ---- The end of the stream ---------------------------------------------------------------------

  function Polls(w: State, n: nat): State
    decreases n
  {
    if n == 0 then w else Polls(Polled(w), n - 1)
  }

  /** Nothing waits and nobody can send. */
  predicate Drained(w: State) {
    w.sendersGone && w.queues == Lanes(0, 0)
  }

  lemma AskAgain(w: State)
    requires Fair(w) && Drained(w) && w.receive.Ask?
    ensures Drained(Polls(w, 2)) && Fair(Polls(w, 2)) && Polls(w, 2).closed == w.closed
    ensures Critical in w.closed && Background in w.closed ==> Polls(w, 2).receive.Free?
    ensures !(Critical in w.closed && Background in w.closed) ==> Polls(w, 2).receive == Select(w.receive.prefer)
  {
    PollFair(w);
    PollFair(Polled(w));
    assert Polls(w, 2) == Polls(Polled(w), 1) == Polls(Polled(Polled(w)), 0);
  }

  /** A select on a drained injector closes one more lane, in one look or two, and asks again. */
  lemma SelectCloses(w: State) returns (n: nat)
    requires Fair(w) && Drained(w) && w.receive.Select? && !(Critical in w.closed && Background in w.closed)
    ensures Drained(Polls(w, n)) && Fair(Polls(w, n)) && Polls(w, n).receive.Ask? && w.closed < Polls(w, n).closed
  {
    PollFair(w);
    var v := Polled(w);
    if First(w.receive.prefer) !in w.closed {
      n := 1;
      assert Polls(w, 1) == Polls(v, 0) == v;
    } else {
      n := 2;
      PollFair(v);
      assert Polls(w, 2) == Polls(v, 1) == Polls(Polled(v), 0) == Polled(v);
      assert First(!w.receive.prefer) !in w.closed;
    }
  }

  lemma {:induction false} PollsAdd(w: State, m: nat, n: nat)
    ensures Polls(Polls(w, m), n) == Polls(w, m + n)
    decreases m
  {
    if m > 0 { PollsAdd(Polled(w), m - 1, n); }
  }

  function Opened(w: State): nat {
    (if Critical in w.closed then 0 else 1) + if Background in w.closed then 0 else 1
  }

  /** A receive on an injector whose senders are gone and whose lanes are empty reports the end. */
  lemma {:induction false} DrainedStreamEnds(w: State) returns (n: nat)
    requires Fair(w) && Drained(w) && w.receive.Ask?
    ensures Polls(w, n).receive.Free? && Critical in Polls(w, n).closed && Background in Polls(w, n).closed
    ensures Polls(w, n).delivered == w.delivered
    decreases Opened(w)
  {
    AskAgain(w);
    n := 2;
    if !(Critical in w.closed && Background in w.closed) {
      var v := Polls(w, 2);
      var m := SelectCloses(v);
      PollsAdd(w, 2, m);
      MoreClosed(v, Polls(v, m));
      var rest := DrainedStreamEnds(Polls(v, m));
      PollsAdd(w, 2 + m, rest);
      n := 2 + m + rest;
    }
    NothingDelivered(w, n);
  }

  lemma MoreClosed(w: State, v: State)
    requires w.closed < v.closed
    ensures Opened(v) < Opened(w)
  {
    var lane :| lane in v.closed && lane !in w.closed;
    assert lane == Critical || lane == Background;
  }

  lemma {:induction false} NothingDelivered(w: State, n: nat)
    requires w.queues == Lanes(0, 0)
    ensures Polls(w, n).delivered == w.delivered && Polls(w, n).queues == w.queues
    decreases n
  {
    if n > 0 { NothingDelivered(Polled(w), n - 1); }
  }
}
