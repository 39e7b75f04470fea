/**
  The two-lane event injector: any number of pushers that reserve room in a shared
  counter by compare-exchange, and one receiver at a time that prefers critical events
  but owes the background lane a turn. Every atomic access is one step, so a run is
  an arbitrary interleaving of all of them.
 */
module Injector {
  import opened Prelude

  const BACKGROUND_SHARE: nat := 32
  const USIZE_MAX: nat := U64_LIMIT - 1

  datatype Lane = Critical | Background

  datatype Counter = Total | LaneDepth(lane: Lane)

  /** Where one call of push stands. */
  datatype Push =
    | Idle
    | Loading(lane: Lane)
    | Loaded(lane: Lane, current: nat)
    | Reserved(lane: Lane)
    | Sent(lane: Lane)
    | Failed(lane: Lane)
    | Refunding

  /** Where the receive that holds the mutex stands. */
  datatype Receive =
    | Free
    | Ask(prefer: bool)
    | AskOther(prefer: bool)
    | Select(prefer: bool)
    | SelectOther(prefer: bool)
    | Took(lane: Lane)
    | Refund

  datatype Depths = Depths(total: nat, critical: nat, background: nat) {
    function At(c: Counter): nat {
      match c
      case Total => total
      case LaneDepth(lane) => if lane.Critical? then critical else background
    }

    function With(c: Counter, n: nat): Depths {
      match c
      case Total => this.(total := n)
      case LaneDepth(lane) => if lane.Critical? then this.(critical := n) else this.(background := n)
    }
  }

  datatype Lanes = Lanes(critical: nat, background: nat) {
    function At(lane: Lane): nat { if lane.Critical? then critical else background }

    function With(lane: Lane, n: nat): Lanes {
      if lane.Critical? then this.(critical := n) else this.(background := n)
    }
  }

  datatype State = State(
    capacity: Option<U64>,
    counters: Depths,
    queues: Lanes,
    closed: set<Lane>,
    sendersGone: bool,
    receiverGone: bool,
    streak: nat,
    pool: seq<Push>,
    receive: Receive,
    delivered: Lanes)

  /** An injector with room for `pushers` concurrent calls of push. */
  function Start(capacity: Option<U64>, pushers: nat): State {
    State(capacity, Depths(0, 0, 0), Lanes(0, 0), {},
          false, false, 0, seq(pushers, _ => Idle), Free, Lanes(0, 0))
  }

  /** Wrapping fetch_add and fetch_sub. */
  function Plus(n: nat): nat { if n < USIZE_MAX then n + 1 else 0 }

  function Minus(n: nat): nat { if n == 0 then USIZE_MAX else n - 1 }

  function SaturatingPlus(n: nat, limit: nat): nat { if n < limit then n + 1 else limit }

  function Other(lane: Lane): Lane { if lane.Critical? then Background else Critical }

  function First(prefer: bool): Lane { if prefer then Background else Critical }

  datatype Step =
    | Begin(slot: nat, lane: Lane)
    | Advance(slot: nat)
    | SpuriousFailure(slot: nat)
    | Acquire
    | Poll
    | Cancel
    | DropSenders
    | DropReceiver

  predicate Enabled(w: State, step: Step) {
    match step
    case Begin(slot, _) => slot < |w.pool| && w.pool[slot].Idle? && !w.sendersGone
    case Advance(slot) => slot < |w.pool| && !w.pool[slot].Idle?
    case SpuriousFailure(slot) => slot < |w.pool| && w.pool[slot].Loaded? && !Full(w.capacity, w.pool[slot].current)
    case Acquire => w.receive.Free? && !w.receiverGone
    case Poll => !w.receive.Free?
    case Cancel => w.receive.Select? || w.receive.SelectOther?
    case DropSenders => forall i :: 0 <= i < |w.pool| ==> w.pool[i].Idle?
    case DropReceiver => w.receive.Free?
  }

  predicate Full(capacity: Option<U64>, current: nat) {
    capacity.Some? && current >= capacity.value
  }

  function SetSlot(w: State, slot: nat, push: Push): State
    requires slot < |w.pool|
  {
    w.(pool := w.pool[slot := push])
  }

  /** Where a push stands after its next atomic access. */
  function NextPush(push: Push, capacity: Option<U64>, total: nat, receiverGone: bool): Push {
    match push
    case Idle => Idle
    case Loading(lane) => Loaded(lane, total)
    case Loaded(lane, current) =>
      if Full(capacity, current) then Idle else if total != current then Loaded(lane, total) else Reserved(lane)
    case Reserved(lane) => Sent(lane)
    case Sent(lane) => if receiverGone then Failed(lane) else Idle
    case Failed(lane) => Refunding
    case Refunding => Idle
  }

  /** What that access does to the counters. */
  function NextDepths(push: Push, capacity: Option<U64>, depths: Depths): Depths {
    match push
    case Loaded(_, current) =>
      if !Full(capacity, current) && depths.total == current
      then depths.(total := SaturatingPlus(current, USIZE_MAX)) else depths
    case Reserved(lane) => depths.With(LaneDepth(lane), Plus(depths.At(LaneDepth(lane))))
    case Failed(lane) => depths.With(LaneDepth(lane), Minus(depths.At(LaneDepth(lane))))
    case Refunding => depths.(total := Minus(depths.total))
    case _ => depths
  }

  /** A send reaches its queue unless the receiver is gone. */
  function NextQueues(push: Push, queues: Lanes, receiverGone: bool): Lanes {
    if push.Sent? && !receiverGone then queues.With(push.lane, queues.At(push.lane) + 1) else queues
  }

  function Advanced(w: State, slot: nat): State
    requires slot < |w.pool|
  {
    var push := w.pool[slot];
    w.(pool := w.pool[slot := NextPush(push, w.capacity, w.counters.total, w.receiverGone)],
       counters := NextDepths(push, w.capacity, w.counters),
       queues := NextQueues(push, w.queues, w.receiverGone))
  }

  /** Hand over one event and account for it in the streak. */
  function Take(w: State, lane: Lane): State
    requires w.queues.At(lane) > 0
  {
    w.(queues := w.queues.With(lane, w.queues.At(lane) - 1),
       streak := if lane.Critical? then SaturatingPlus(w.streak, U32_LIMIT - 1) else 0,
       delivered := w.delivered.With(lane, w.delivered.At(lane) + 1),
       receive := Took(lane))
  }

  predicate Prefers(w: State) { w.streak >= BACKGROUND_SHARE }

  /** One branch of the biased select: an open lane yields an event or its end of stream. */
  function PollLane(w: State, lane: Lane, pending: Receive): State
  {
    if lane in w.closed then w.(receive := pending)
    else if w.queues.At(lane) > 0 then Take(w, lane)
    else if w.sendersGone then w.(closed := w.closed + {lane}, receive := Ask(Prefers(w)))
    else w.(receive := pending)
  }

  function Polled(w: State): State
  {
    match w.receive
    case Free => w
    case Ask(prefer) =>
      if w.queues.At(First(prefer)) > 0 then Take(w, First(prefer)) else w.(receive := AskOther(prefer))
    case AskOther(prefer) =>
      if w.queues.At(First(!prefer)) > 0 then Take(w, First(!prefer))
      else if Critical in w.closed && Background in w.closed then w.(receive := Free)
      else w.(receive := Select(prefer))
    case Select(prefer) => PollLane(w, First(prefer), SelectOther(prefer))
    case SelectOther(prefer) => PollLane(w, First(!prefer), Select(prefer))
    case Took(lane) =>
      w.(counters := w.counters.With(LaneDepth(lane), Minus(w.counters.At(LaneDepth(lane)))), receive := Refund)
    case Refund =>
      w.(counters := w.counters.With(Total, Minus(w.counters.total)), receive := Free)
  }

  function Apply(w: State, step: Step): State
    requires Enabled(w, step)
  {
    match step
    case Begin(slot, lane) => SetSlot(w, slot, Loading(lane))
    case Advance(slot) => Advanced(w, slot)
    case SpuriousFailure(slot) => SetSlot(w, slot, Loaded(w.pool[slot].lane, w.counters.total))
    case Acquire => w.(receive := Ask(Prefers(w)))
    case Poll => Polled(w)
    case Cancel => w.(receive := Free)
    case DropSenders => w.(sendersGone := true)
    case DropReceiver => w.(receiverGone := true)
  }

  datatype Trace = Empty | Snoc(earlier: Trace, step: Step)

  predicate Legal(w: State, trace: Trace)
  {
    match trace
    case Empty => true
    case Snoc(earlier, step) => Legal(w, earlier) && Enabled(Run(w, earlier), step)
  }

  function Run(w: State, trace: Trace): State
  {
    match trace
    case Empty => w
    case Snoc(earlier, step) =>
      var v := Run(w, earlier);
      if Enabled(v, step) then Apply(v, step) else v
  }

  // ---- What the counters count ----------------------------------------------------

  /** Whether a push in this stage holds one unit of a counter. */
  function Holds(push: Push, c: Counter): nat {
    match c
    case Total => if push.Reserved? || push.Sent? || push.Failed? || push.Refunding? then 1 else 0
    case LaneDepth(lane) => if (push.Sent? || push.Failed?) && push.lane == lane then 1 else 0
  }

  function PoolHolds(pool: seq<Push>, c: Counter): nat {
    if pool == [] then 0 else Holds(pool[0], c) + PoolHolds(pool[1..], c)
  }

  function ReceiveHolds(receive: Receive, c: Counter): nat {
    match c
    case Total => if receive.Took? || receive.Refund? then 1 else 0
    case LaneDepth(lane) => if receive.Took? && receive.lane == lane then 1 else 0
  }

  function Queued(queues: Lanes, c: Counter): nat {
    match c
    case Total => queues.critical + queues.background
    case LaneDepth(lane) => queues.At(lane)
  }

  /** A counter is exactly the events queued, being pushed or being received. */
  predicate CountsAt(w: State, c: Counter) {
    w.counters.At(c) == PoolHolds(w.pool, c) + Queued(w.queues, c) + ReceiveHolds(w.receive, c)
  }

  predicate Counts(w: State) {
    CountsAt(w, Total) && CountsAt(w, LaneDepth(Critical)) && CountsAt(w, LaneDepth(Background))
  }

  predicate Bounded(w: State) {
    w.capacity.Some? ==> w.counters.total <= w.capacity.value
  }

  /** The preference in force is the streak's, and an ended lane stays empty. */
  predicate Fair(w: State) {
    && (w.receive.Ask? || w.receive.AskOther? || w.receive.Select? || w.receive.SelectOther?
        ==> w.receive.prefer == Prefers(w))
    && (forall l :: l in w.closed ==> w.queues.At(l) == 0 && w.sendersGone)
    && (w.sendersGone ==> forall i :: 0 <= i < |w.pool| ==> w.pool[i].Idle?)
  }

  ghost predicate Inv(w: State) {
    Counts(w) && Bounded(w) && Fair(w)
  }

  lemma {:induction false} SlotMoves(pool: seq<Push>, slot: nat, push: Push, c: Counter)
    requires slot < |pool|
    ensures PoolHolds(pool[slot := push], c) == PoolHolds(pool, c) - Holds(pool[slot], c) + Holds(push, c)
  {
    if slot == 0 {
      assert pool[slot := push][1..] == pool[1..];
    } else {
      assert pool[slot := push][1..] == pool[1..][slot - 1 := push];
      SlotMoves(pool[1..], slot - 1, push, c);
    }
  }

  lemma {:induction false} SlotHolds(pool: seq<Push>, slot: nat, c: Counter)
    requires slot < |pool|
    ensures Holds(pool[slot], c) <= PoolHolds(pool, c)
  {
    if slot > 0 { SlotHolds(pool[1..], slot - 1, c); }
  }

  lemma {:induction false} LanesWithinTotal(pool: seq<Push>)
    ensures PoolHolds(pool, LaneDepth(Critical)) + PoolHolds(pool, LaneDepth(Background)) <= PoolHolds(pool, Total)
  {
    if pool != [] { LanesWithinTotal(pool[1..]); }
  }

  lemma {:induction false} IdlePoolHoldsNothing(pool: seq<Push>, c: Counter)
    requires forall i :: 0 <= i < |pool| ==> pool[i].Idle?
    ensures PoolHolds(pool, c) == 0
  {
    if pool != [] { IdlePoolHoldsNothing(pool[1..], c); }
  }

  lemma CountsBound(w: State)
    requires Counts(w)
    ensures w.counters.critical + w.counters.background <= w.counters.total
  {
    LanesWithinTotal(w.pool);
  }

  /** The compare-exchange is about to succeed on a total that cannot grow. */
  predicate Saturates(push: Push, capacity: Option<U64>, total: nat) {
    push.Loaded? && push.current == total && total >= USIZE_MAX && !Full(capacity, total)
  }

  /** A push step changes a counter by what it gains, loses or hands to the queue. */
  lemma PushBalances(push: Push, capacity: Option<U64>, depths: Depths, queues: Lanes, gone: bool, c: Counter)
    requires Holds(push, c) <= depths.At(c)
    requires c.Total? ==> !Saturates(push, capacity, depths.total)
    requires push.Reserved? && c.LaneDepth? ==> depths.At(c) < USIZE_MAX
    ensures NextDepths(push, capacity, depths).At(c) + Holds(push, c) + Queued(queues, c)
            == depths.At(c) + Holds(NextPush(push, capacity, depths.total, gone), c)
              + Queued(NextQueues(push, queues, gone), c)
  {
  }

  lemma AdvanceCounts(w: State, slot: nat, c: Counter)
    requires CountsAt(w, c) && slot < |w.pool|
    requires c.Total? ==> !Saturates(w.pool[slot], w.capacity, w.counters.total)
    requires w.pool[slot].Reserved? && c.LaneDepth? ==> w.counters.At(c) < USIZE_MAX
    ensures CountsAt(Advanced(w, slot), c)
  {
    var push := w.pool[slot];
    SlotHolds(w.pool, slot, c);
    PushBalances(push, w.capacity, w.counters, w.queues, w.receiverGone, c);
    SlotMoves(w.pool, slot, NextPush(push, w.capacity, w.counters.total, w.receiverGone), c);
  }

  lemma ReservedLeavesRoom(w: State, slot: nat, lane: Lane)
    requires Counts(w) && slot < |w.pool| && w.pool[slot].Reserved?
    ensures w.counters.At(LaneDepth(lane)) < w.counters.total
  {
    LanesWithinTotal(w.pool[slot := Idle]);
    SlotMoves(w.pool, slot, Idle, Total);
    SlotMoves(w.pool, slot, Idle, LaneDepth(Critical));
    SlotMoves(w.pool, slot, Idle, LaneDepth(Background));
  }

  lemma RefundFindsOne(w: State, slot: nat)
    requires CountsAt(w, Total) && slot < |w.pool| && w.pool[slot].Refunding?
    ensures w.counters.total > 0
  {
    SlotHolds(w.pool, slot, Total);
  }

  lemma AdvanceKeeps(w: State, slot: nat)
    requires Inv(w) && slot < |w.pool| && !w.pool[slot].Idle?
    requires w.counters.total <= USIZE_MAX
    requires !Saturates(w.pool[slot], w.capacity, w.counters.total)
    ensures Inv(Advanced(w, slot)) && Advanced(w, slot).counters.total <= w.counters.total + 1
    ensures Advanced(w, slot).counters.total <= USIZE_MAX
  {
    CountsBound(w);
    if w.pool[slot].Reserved? {
      ReservedLeavesRoom(w, slot, Critical);
      ReservedLeavesRoom(w, slot, Background);
    }
    if w.pool[slot].Refunding? { RefundFindsOne(w, slot); }
    AdvanceCounts(w, slot, Total);
    AdvanceCounts(w, slot, LaneDepth(Critical));
    AdvanceCounts(w, slot, LaneDepth(Background));
  }

  lemma SlotKeeps(w: State, slot: nat, push: Push)
    requires Inv(w) && slot < |w.pool| && (w.pool[slot].Idle? || w.pool[slot].Loaded?)
    requires (push.Loading? || push.Loaded?) && !w.sendersGone
    ensures Inv(SetSlot(w, slot, push))
  {
    SlotMoves(w.pool, slot, push, Total);
    SlotMoves(w.pool, slot, push, LaneDepth(Critical));
    SlotMoves(w.pool, slot, push, LaneDepth(Background));
  }

  /** A poll changes a counter by what the receive gains or loses and the queue hands over. */
  predicate Balanced(w: State, v: State, c: Counter) {
    && v.pool == w.pool && v.capacity == w.capacity && v.counters.At(c) <= w.counters.At(c)
    && v.counters.At(c) + Queued(w.queues, c) + ReceiveHolds(w.receive, c)
       == w.counters.At(c) + Queued(v.queues, c) + ReceiveHolds(v.receive, c)
  }

  lemma TakeBalances(w: State, lane: Lane, c: Counter)
    requires w.queues.At(lane) > 0 && !w.receive.Took? && !w.receive.Refund?
    ensures Balanced(w, Take(w, lane), c)
  {
  }

  lemma RefundBalances(w: State, c: Counter)
    requires ReceiveHolds(w.receive, c) <= w.counters.At(c) && (w.receive.Took? || w.receive.Refund?)
    ensures Balanced(w, Polled(w), c)
  {
  }

  lemma LaneBalances(w: State, lane: Lane, pending: Receive, c: Counter)
    requires w.receive.Select? || w.receive.SelectOther?
    requires pending.Select? || pending.SelectOther?
    ensures Balanced(w, PollLane(w, lane, pending), c)
  {
    if w.queues.At(lane) > 0 { TakeBalances(w, lane, c); }
  }

  lemma PollBalances(w: State, c: Counter)
    requires ReceiveHolds(w.receive, c) <= w.counters.At(c)
    ensures Balanced(w, Polled(w), c)
  {
    match w.receive {
      case Ask(prefer) => if w.queues.At(First(prefer)) > 0 { TakeBalances(w, First(prefer), c); }
      case AskOther(prefer) => if w.queues.At(First(!prefer)) > 0 { TakeBalances(w, First(!prefer), c); }
      case Select(prefer) => LaneBalances(w, First(prefer), SelectOther(prefer), c);
      case SelectOther(prefer) => LaneBalances(w, First(!prefer), Select(prefer), c);
      case Took(_) => RefundBalances(w, c);
      case Refund => RefundBalances(w, c);
      case Free =>
    }
  }

  lemma PollLaneFair(w: State, lane: Lane, pending: Receive)
    requires Fair(w) && (pending.Select? || pending.SelectOther?) && pending.prefer == Prefers(w)
    ensures Fair(PollLane(w, lane, pending))
  {
  }

  lemma PollFair(w: State)
    requires Fair(w)
    ensures Fair(Polled(w))
  {
    match w.receive {
      case Select(prefer) => PollLaneFair(w, First(prefer), SelectOther(prefer));
      case SelectOther(prefer) => PollLaneFair(w, First(!prefer), Select(prefer));
      case _ =>
    }
  }

  lemma PollKeeps(w: State)
    requires Inv(w)
    ensures Inv(Polled(w)) && Polled(w).counters.total <= w.counters.total && Polled(w).capacity == w.capacity
  {
    PollBalances(w, Total);
    PollBalances(w, LaneDepth(Critical));
    PollBalances(w, LaneDepth(Background));
    PollFair(w);
  }

  lemma QuietKeeps(w: State, step: Step)
    requires Inv(w) && Enabled(w, step) && (step.Acquire? || step.Cancel? || step.DropSenders? || step.DropReceiver?)
    ensures Inv(Apply(w, step)) && Apply(w, step).counters == w.counters && Apply(w, step).capacity == w.capacity
  {
  }

  /** The events that should be in the total: being pushed, queued or being received. */
  function Outstanding(w: State): nat {
    PoolHolds(w.pool, Total) + Queued(w.queues, Total) + ReceiveHolds(w.receive, Total)
  }

  /** A saturating push leaves one event more than the total can say. */
  lemma SaturationOvercounts(w: State, slot: nat)
    requires CountsAt(w, Total) && slot < |w.pool| && Saturates(w.pool[slot], w.capacity, w.counters.total)
    ensures Outstanding(Advanced(w, slot)) > USIZE_MAX
  {
    SlotMoves(w.pool, slot, Reserved(w.pool[slot].lane), Total);
  }

  predicate SaturatesNow(w: State, step: Step) {
    step.Advance? && step.slot < |w.pool| && Saturates(w.pool[step.slot], w.capacity, w.counters.total)
  }

  lemma StepKeeps(w: State, step: Step)
    requires Inv(w) && Enabled(w, step) && w.counters.total <= USIZE_MAX && !SaturatesNow(w, step)
    ensures var v := Apply(w, step);
            Inv(v) && v.counters.total <= w.counters.total + 1 && v.counters.total <= USIZE_MAX
  {
    match step {
      case Begin(slot, lane) => SlotKeeps(w, slot, Loading(lane));
      case Advance(slot) => AdvanceKeeps(w, slot);
      case SpuriousFailure(slot) => SlotKeeps(w, slot, Loaded(w.pool[slot].lane, w.counters.total));
      case Poll => PollKeeps(w);
      case _ => QuietKeeps(w, step);
    }
  }

  lemma StartInv(capacity: Option<U64>, pushers: nat)
    ensures Inv(Start(capacity, pushers))
  {
    var w := Start(capacity, pushers);
    IdlePoolHoldsNothing(w.pool, Total);
    IdlePoolHoldsNothing(w.pool, LaneDepth(Critical));
    IdlePoolHoldsNothing(w.pool, LaneDepth(Background));
  }

  /** The counters are exact at every point of the run. */
  predicate AlwaysCounts(w: State, trace: Trace) {
    Counts(Run(w, trace)) && (trace.Snoc? ==> AlwaysCounts(w, trace.earlier))
  }

  /** At no point of the run are there 2^64 events outstanding. */
  predicate AlwaysFits(w: State, trace: Trace) {
    Outstanding(Run(w, trace)) <= USIZE_MAX && (trace.Snoc? ==> AlwaysFits(w, trace.earlier))
  }

  lemma {:induction false} FittingRunKeeps(capacity: Option<U64>, pushers: nat, trace: Trace)
    requires Legal(Start(capacity, pushers), trace) && AlwaysFits(Start(capacity, pushers), trace)
    ensures Inv(Run(Start(capacity, pushers), trace)) && AlwaysCounts(Start(capacity, pushers), trace)
  {
    match trace
    case Empty => StartInv(capacity, pushers);
    case Snoc(earlier, step) =>
      FittingRunKeeps(capacity, pushers, earlier);
      var w := Run(Start(capacity, pushers), earlier);
      if SaturatesNow(w, step) { SaturationOvercounts(w, step.slot); }
      StepKeeps(w, step);
  }

  lemma StepWithinWord(w: State, step: Step)
    requires Enabled(w, step) && w.counters.total <= USIZE_MAX
    ensures Apply(w, step).counters.total <= USIZE_MAX && Apply(w, step).capacity == w.capacity
  {
  }

  lemma {:induction false} CountingRunFits(capacity: Option<U64>, pushers: nat, trace: Trace)
    requires Legal(Start(capacity, pushers), trace)
    ensures var w := Run(Start(capacity, pushers), trace); w.counters.total <= USIZE_MAX && w.capacity == capacity
    ensures AlwaysCounts(Start(capacity, pushers), trace) ==> AlwaysFits(Start(capacity, pushers), trace)
  {
    match trace
    case Empty =>
    case Snoc(earlier, step) =>
      CountingRunFits(capacity, pushers, earlier);
      StepWithinWord(Run(Start(capacity, pushers), earlier), step);
  }

  /** Whatever the interleaving, the counters stay exact exactly as long as the events
      outstanding fit in a machine word. */
  lemma CountsExactlyWhileTheyFit(capacity: Option<U64>, pushers: nat, trace: Trace)
    requires Legal(Start(capacity, pushers), trace)
    ensures AlwaysCounts(Start(capacity, pushers), trace) <==> AlwaysFits(Start(capacity, pushers), trace)
  {
    CountingRunFits(capacity, pushers, trace);
    if AlwaysFits(Start(capacity, pushers), trace) { FittingRunKeeps(capacity, pushers, trace); }
  }

  /** A capacity is reached before the word ends, so a bounded injector always fits. */
  lemma {:induction false} BoundedRunFits(capacity: U64, pushers: nat, trace: Trace)
    requires Legal(Start(Some(capacity), pushers), trace)
    ensures AlwaysFits(Start(Some(capacity), pushers), trace)
  {
    CountingRunFits(Some(capacity), pushers, trace);
    match trace
    case Empty => StartInv(Some(capacity), pushers);
    case Snoc(earlier, step) =>
      BoundedRunFits(capacity, pushers, earlier);
      FittingRunKeeps(Some(capacity), pushers, earlier);
      CountingRunFits(Some(capacity), pushers, earlier);
      StepKeeps(Run(Start(Some(capacity), pushers), earlier), step);
  }

  /** Within capacity, lanes within the total, and nobody about to decrement finds zero. */
  predicate CountsRight(w: State) {
    && (w.capacity.Some? ==> w.counters.total <= w.capacity.value)
    && w.counters.critical + w.counters.background <= w.counters.total <= USIZE_MAX
    && (forall i :: 0 <= i < |w.pool| && w.pool[i].Failed? ==> w.counters.At(LaneDepth(w.pool[i].lane)) > 0)
    && (forall i :: 0 <= i < |w.pool| && w.pool[i].Refunding? ==> w.counters.total > 0)
    && (w.receive.Took? ==> w.counters.At(LaneDepth(w.receive.lane)) > 0)
    && (w.receive.Refund? ==> w.counters.total > 0)
  }

  lemma InvCountsRight(w: State)
    requires Counts(w) && Bounded(w) && w.counters.total <= USIZE_MAX
    ensures CountsRight(w)
  {
    CountsBound(w);
    forall i | 0 <= i < |w.pool| && w.pool[i].Failed? ensures w.counters.At(LaneDepth(w.pool[i].lane)) > 0 {
      SlotHolds(w.pool, i, LaneDepth(w.pool[i].lane));
    }
    forall i | 0 <= i < |w.pool| && w.pool[i].Refunding? ensures w.counters.total > 0 {
      SlotHolds(w.pool, i, Total);
    }
  }

  /** Whatever the interleaving, the counters are right: always with a capacity, and
      without one as long as fewer than 2^64 events are outstanding. */
  lemma EveryRunCountsRight(capacity: Option<U64>, pushers: nat, trace: Trace)
    requires Legal(Start(capacity, pushers), trace)
    requires capacity.Some? || AlwaysFits(Start(capacity, pushers), trace)
    ensures CountsRight(Run(Start(capacity, pushers), trace))
  {
    if capacity.Some? { BoundedRunFits(capacity.value, pushers, trace); }
    FittingRunKeeps(capacity, pushers, trace);
    InvCountsRight(Run(Start(capacity, pushers), trace));
  }

  // ---- The unbounded injector at the end of its counter -------------------------------

  /** One complete push by slot 0 after `before`. */
  function PushOnce(before: Trace, lane: Lane): Trace {
    Snoc(Snoc(Snoc(Snoc(Snoc(before, Begin(0, lane)), Advance(0)), Advance(0)), Advance(0)), Advance(0))
  }

  /** `n` complete pushes to one lane after `before`. */
  function Pushes(before: Trace, lane: Lane, n: nat): Trace {
    if n == 0 then before else PushOnce(Pushes(before, lane, n - 1), lane)
  }

  /** The state after one more complete push by slot 0. */
  function Pushed(w: State, lane: Lane): State
  {
    w.(counters := w.counters.With(Total, SaturatingPlus(w.counters.total, USIZE_MAX))
                             .With(LaneDepth(lane), Plus(w.counters.At(LaneDepth(lane)))),
       queues := w.queues.With(lane, w.queues.At(lane) + 1))
  }

  lemma OneMore(w: State, trace: Trace, step: Step, v: State)
    requires Legal(w, trace) && Enabled(Run(w, trace), step) && Apply(Run(w, trace), step) == v
    ensures Legal(w, Snoc(trace, step)) && Run(w, Snoc(trace, step)) == v
  {
  }

  /** Undisturbed, a push to an injector with room counts and queues its event. */
  lemma OnePush(w: State, trace: Trace, lane: Lane)
    requires Legal(w, trace)
    requires var v := Run(w, trace);
             && |v.pool| > 0 && v.pool[0].Idle? && !v.sendersGone && !v.receiverGone
             && (v.capacity.Some? ==> v.counters.total < v.capacity.value)
    ensures Legal(w, PushOnce(trace, lane)) && Run(w, PushOnce(trace, lane)) == Pushed(Run(w, trace), lane)
  {
    var v := Run(w, trace);
    var t1, v1 := Snoc(trace, Begin(0, lane)), SetSlot(v, 0, Loading(lane));
    OneMore(w, trace, Begin(0, lane), v1);
    var t2, v2 := Snoc(t1, Advance(0)), SetSlot(v1, 0, Loaded(lane, v.counters.total));
    OneMore(w, t1, Advance(0), v2);
    var t3, v3 := Snoc(t2, Advance(0)),
      SetSlot(v2, 0, Reserved(lane)).(counters := v.counters.With(Total, SaturatingPlus(v.counters.total, USIZE_MAX)));
    OneMore(w, t2, Advance(0), v3);
    var t4, v4 := Snoc(t3, Advance(0)), SetSlot(v3, 0, Sent(lane)).(counters := Pushed(v, lane).counters);
    OneMore(w, t3, Advance(0), v4);
    assert v4.pool[0 := Idle] == v.pool;
    OneMore(w, t4, Advance(0), Pushed(v, lane));
  }

  /** And a push to a full one is refused, leaving everything as it was. */
  lemma FullRefuses(w: State, trace: Trace, lane: Lane)
    requires Legal(w, trace)
    requires var v := Run(w, trace);
             && |v.pool| > 0 && v.pool[0].Idle? && !v.sendersGone
             && v.capacity.Some? && v.counters.total >= v.capacity.value
    ensures var refused := Snoc(Snoc(Snoc(trace, Begin(0, lane)), Advance(0)), Advance(0));
            Legal(w, refused) && Run(w, refused) == Run(w, trace)
  {
    var v := Run(w, trace);
    var t1, v1 := Snoc(trace, Begin(0, lane)), SetSlot(v, 0, Loading(lane));
    OneMore(w, trace, Begin(0, lane), v1);
    var t2, v2 := Snoc(t1, Advance(0)), SetSlot(v1, 0, Loaded(lane, v.counters.total));
    OneMore(w, t1, Advance(0), v2);
    assert v2.pool[0 := Idle] == v.pool;
    OneMore(w, t2, Advance(0), v);
  }

  lemma {:induction false} ManyPushes(w: State, trace: Trace, lane: Lane, n: nat)
    requires Legal(w, trace) && n < U64_LIMIT
    requires var v := Run(w, trace);
             |v.pool| > 0 && v.pool[0].Idle? && v.capacity.None? && !v.sendersGone && !v.receiverGone
    requires Run(w, trace).counters.total <= USIZE_MAX && Run(w, trace).counters.At(LaneDepth(lane)) == 0
    ensures Legal(w, Pushes(trace, lane, n))
    ensures var v, u := Run(w, trace), Run(w, Pushes(trace, lane, n));
            && u == v.(counters := u.counters, queues := u.queues)
            && u.counters.total == (if v.counters.total + n < USIZE_MAX then v.counters.total + n else USIZE_MAX)
            && u.counters.At(LaneDepth(lane)) == n
            && u.counters.At(LaneDepth(Other(lane))) == v.counters.At(LaneDepth(Other(lane)))
  {
    if n > 0 {
      ManyPushes(w, trace, lane, n - 1);
      var before := Pushes(trace, lane, n - 1);
      OnePush(w, before, lane);
    }
  }

  /** Past that bound the promise does fail: 2^64 events in an unbounded injector saturate the
      total, and the lanes then sum to more than it. */
  lemma SaturationBreaksTheSum()
    ensures exists trace :: Legal(Start(None, 1), trace)
              && var w := Run(Start(None, 1), trace);
                 w.counters.critical + w.counters.background > w.counters.total
  {
    var w := Start(None, 1);
    var half := U64_LIMIT / 2;
    ManyPushes(w, Empty, Critical, half);
    var first := Pushes(Empty, Critical, half);
    ManyPushes(w, first, Background, half);
    var both := Pushes(first, Background, half);
    var v := Run(w, both);
    assert v.counters.critical + v.counters.background > v.counters.total;
  }

  // ---- The background share ---------------------------------------------------------

  /** How many critical events can still overtake a queued background event. */
  function Allowance(w: State): nat {
    if w.streak < BACKGROUND_SHARE then BACKGROUND_SHARE - w.streak
    else if w.receive.AskOther? || w.receive.SelectOther? then 1
    else 0
  }

  lemma DeliveriesSpendAllowance(w: State, step: Step)
    requires Fair(w) && Enabled(w, step) && w.queues.background > 0
    ensures var v := Apply(w, step);
            && (v.delivered.background == w.delivered.background ==>
                  && v.queues.background > 0
                  && v.delivered.critical + Allowance(v) <= w.delivered.critical + Allowance(w))
  {
    match step {
      case Poll => assert Background !in w.closed;
      case _ =>
    }
  }

  /** A receive hands over a waiting event at its second look at the latest, the preferred
      lane's if it has one. */
  lemma ReceiveHandsOver(w: State)
    requires w.receive.Ask? && w.queues.critical + w.queues.background > 0
    ensures var lane := First(if w.queues.At(First(w.receive.prefer)) > 0 then w.receive.prefer else !w.receive.prefer);
            var v := if w.queues.At(First(w.receive.prefer)) > 0 then Polled(w) else Polled(Polled(w));
            && v.receive == Took(lane) && w.queues.At(lane) > 0
            && v.queues == w.queues.With(lane, w.queues.At(lane) - 1)
            && v.delivered == w.delivered.With(lane, w.delivered.At(lane) + 1)
  {
  }

  /** A receive reports the end of the stream only when every sender is gone and nothing waits. */
  lemma EndMeansEmpty(w: State)
    requires Fair(w) && w.receive.AskOther? && Polled(w).receive.Free?
    ensures w.sendersGone && w.queues == Lanes(0, 0)
  {
    assert Critical in w.closed && Background in w.closed;
  }

  /** Run `trace` after `before`. */
  function Then(before: Trace, trace: Trace): Trace {
    match trace case Empty => before case Snoc(earlier, step) => Snoc(Then(before, earlier), step)
  }

  lemma StepDelivers(w: State, step: Step)
    requires Enabled(w, step)
    ensures w.delivered.background <= Apply(w, step).delivered.background
  {
    if step.Poll? { PollDelivers(w); }
  }

  lemma PollDelivers(w: State)
    ensures w.delivered.background <= Polled(w).delivered.background
  {
  }

  lemma {:induction false} DeliveredGrows(w: State, before: Trace, trace: Trace)
    requires Legal(w, Then(before, trace))
    ensures Legal(w, before)
    ensures Run(w, before).delivered.background <= Run(w, Then(before, trace)).delivered.background
  {
    match trace
    case Empty =>
    case Snoc(earlier, step) =>
      DeliveredGrows(w, before, earlier);
      StepDelivers(Run(w, Then(before, earlier)), step);
  }

  lemma FairStep(w: State, step: Step)
    requires Fair(w) && Enabled(w, step)
    ensures Fair(Apply(w, step))
  {
    if step.Poll? { PollFair(w); }
  }

  lemma {:induction false} FairRun(capacity: Option<U64>, pushers: nat, trace: Trace)
    requires Legal(Start(capacity, pushers), trace)
    ensures Fair(Run(Start(capacity, pushers), trace))
  {
    match trace
    case Empty =>
    case Snoc(earlier, step) =>
      FairRun(capacity, pushers, earlier);
      FairStep(Run(Start(capacity, pushers), earlier), step);
  }

  lemma {:induction false} AllowanceIsSpent(capacity: Option<U64>, pushers: nat, before: Trace, trace: Trace)
    requires var w := Start(capacity, pushers); Legal(w, Then(before, trace)) && Legal(w, before)
    requires var w := Start(capacity, pushers);
             && Run(w, before).queues.background > 0
             && Run(w, Then(before, trace)).delivered.background == Run(w, before).delivered.background
    ensures var w := Start(capacity, pushers);
            var v, u := Run(w, before), Run(w, Then(before, trace));
            u.queues.background > 0 && u.delivered.critical + Allowance(u) <= v.delivered.critical + Allowance(v)
  {
    match trace
    case Empty =>
    case Snoc(earlier, step) =>
      var w := Start(capacity, pushers);
      DeliveredGrows(w, before, earlier);
      DeliveredGrows(w, Then(before, earlier), Snoc(Empty, step));
      AllowanceIsSpent(capacity, pushers, before, earlier);
      FairRun(capacity, pushers, Then(before, earlier));
      DeliveriesSpendAllowance(Run(w, Then(before, earlier)), step);
  }

  /** Once a background event is queued, at most 32 critical events are delivered before
      a background one, whatever pushes, cancellations and polls come in between. */
  lemma BackgroundIsNeverStarved(capacity: Option<U64>, pushers: nat, before: Trace, trace: Trace)
    requires var w := Start(capacity, pushers); Legal(w, Then(before, trace)) && Legal(w, before)
    requires Run(Start(capacity, pushers), before).queues.background > 0
    ensures var w := Start(capacity, pushers);
            var v, u := Run(w, before), Run(w, Then(before, trace));
            || u.delivered.background > v.delivered.background
            || u.delivered.critical - v.delivered.critical <= BACKGROUND_SHARE
  {
    var w := Start(capacity, pushers);
    DeliveredGrows(w, before, trace);
    if Run(w, Then(before, trace)).delivered.background == Run(w, before).delivered.background {
      AllowanceIsSpent(capacity, pushers, before, trace);
    }
  }
}
