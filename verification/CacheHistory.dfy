/**
  What the cache holds, told from the operations alone: the kind, dirt and flushes of every
  resident page, and which page the next reservation evicts.
 */
module CacheHistory {
  import opened Prelude
  import opened CacheModel

  // ---- What the operations say about a page --------------------------------

  /** How the page was last filled. */
  function LastFill(ops: seq<Op>, p: PageId): Option<(bool, bool)> {
    if ops == [] then None
    else
      match Last(ops)
      case Fill(q, dirty, memory) => if q == p then Some((dirty, memory)) else LastFill(DropLast(ops), p)
      case _ => LastFill(DropLast(ops), p)
  }

  predicate FilledAsMemory(ops: seq<Op>, p: PageId) {
    LastFill(ops, p).Some? && LastFill(ops, p).value.1
  }

  /** Filled dirty or marked dirty since, and not flushed after that. */
  predicate DirtySince(ops: seq<Op>, p: PageId) {
    ops != [] &&
    match Last(ops)
    case Fill(q, dirty, _) => if q == p then dirty else DirtySince(DropLast(ops), p)
    case MarkDirty(q) => q == p || DirtySince(DropLast(ops), p)
    case BeginFlush(q) => q != p && DirtySince(DropLast(ops), p)
    case _ => DirtySince(DropLast(ops), p)
  }

  /** Flushes begun and not ended since the page was filled. */
  function OpenFlushes(ops: seq<Op>, p: PageId): int {
    if ops == [] then 0
    else
      var before := OpenFlushes(DropLast(ops), p);
      match Last(ops)
      case Fill(q, _, _) => if q == p then 0 else before
      case BeginFlush(q) => if q == p then before + 1 else before
      case EndFlush(q) => if q == p then before - 1 else before
      case _ => before
  }

  predicate Durable(ops: seq<Op>, p: PageId) {
    !DirtySince(ops, p) && OpenFlushes(ops, p) == 0
  }

  /** The pages touched, in order: filled, marked dirty, or harvested. */
  function Touches(ops: seq<Op>): seq<PageId> {
    if ops == [] then []
    else
      Touches(DropLast(ops)) +
      match Last(ops)
      case Fill(p, _, _) => [p]
      case MarkDirty(p) => [p]
      case Age(harvest) => harvest
      case _ => []
  }

  /** One past the place of the last touch, or 0. */
  function LastTouch(touches: seq<PageId>, p: PageId): nat {
    if touches == [] then 0 else if Last(touches) == p then |touches| else LastTouch(DropLast(touches), p)
  }

  // ---- Runs from the end ------------------------------------------------------

  lemma {:induction false} RunSnoc(c: Cache, ops: seq<Op>)
    requires Inv(c) && EachAllowed(c, ops) && ops != []
    ensures EachAllowed(c, DropLast(ops)) && Legal(c, DropLast(ops)) && Legal(c, ops)
    ensures var before := Run(c, DropLast(ops));
            Inv(before) && Allowed(before, Last(ops)) && Run(c, ops) == Apply(before, Last(ops))
    decreases |ops|
  {
    AllowedRunsAreLegal(c, ops);
    if |ops| == 1 {
      assert DropLast(ops) == [] && ops[1..] == [];
    } else {
      ApplyKeeps(c, ops[0]);
      RunSnoc(Apply(c, ops[0]), ops[1..]);
      assert DropLast(ops)[1..] == DropLast(ops[1..]) && Last(ops) == Last(ops[1..]);
    }
  }

  // ---- Kind, dirt and flushes -------------------------------------------------

  predicate Recalls(e: Entry, ops: seq<Op>, p: PageId) {
    && LastFill(ops, p).Some? && e.tier == (if FilledAsMemory(ops, p) then 1 else 0)
    && e.dirty == DirtySince(ops, p) && e.flushing == OpenFlushes(ops, p)
  }

  ghost predicate AllRecalled(entries: map<PageId, Entry>, ops: seq<Op>) {
    forall p :: p in entries ==> Recalls(entries[p], ops, p)
  }

  /** The operation says nothing about the page's kind, dirt or flushes. */
  predicate Silent(op: Op, p: PageId) {
    !(op.Fill? && op.page == p) && !(op.MarkDirty? && op.page == p)
    && !(op.BeginFlush? && op.page == p) && !(op.EndFlush? && op.page == p)
  }

  lemma SilentRecalls(e: Entry, f: Entry, ops: seq<Op>, p: PageId)
    requires ops != [] && Silent(Last(ops), p) && Recalls(e, DropLast(ops), p)
    requires f.tier == e.tier && f.dirty == e.dirty && f.flushing == e.flushing
    ensures Recalls(f, ops, p)
  {
  }

  /** Pages that stay keep what the log says about them. */
  predicate SameFacts(before: map<PageId, Entry>, after: map<PageId, Entry>) {
    forall p :: p in after ==> p in before && after[p].tier == before[p].tier && after[p].dirty == before[p].dirty
                               && after[p].flushing == before[p].flushing
  }

  lemma {:induction false} PromoteAllSameFacts(c: Cache, pages: seq<PageId>)
    requires Inv(c)
    ensures SameFacts(c.entries, PromoteAll(c, pages).entries)
    decreases |pages|
  {
    if pages != [] {
      PromoteAllSameFacts(c, DropLast(pages));
      PromoteAllKeeps(c, DropLast(pages));
    }
  }

  lemma AgedSameFacts(c: Cache, harvest: seq<PageId>)
    requires Inv(c)
    ensures SameFacts(c.entries, Aged(c, harvest).entries)
  {
    if c.entries != map[] {
      OpenGenerationKeeps(c);
      PromoteAllSameFacts(OpenGeneration(c), harvest);
    }
  }

  lemma ReservedSameFacts(c: Cache)
    requires Inv(c)
    ensures SameFacts(c.entries, Reserved(c).entries)
  {
  }

  lemma QuietSameFacts(c: Cache, op: Op)
    requires Inv(c) && Allowed(c, op) && (op.Reserve? || op.Release? || op.Age? || op.Purge? || op.BaseInsert?)
    ensures SameFacts(c.entries, Apply(c, op).entries)
  {
    if op.Age? { AgedSameFacts(c, op.harvest); }
    if op.Reserve? { ReservedSameFacts(c); }
  }

  lemma ApplyRecalls(c: Cache, ops: seq<Op>)
    requires ops != [] && Inv(c) && Allowed(c, Last(ops)) && AllRecalled(c.entries, DropLast(ops))
    ensures AllRecalled(Apply(c, Last(ops)).entries, ops)
  {
    var op := Last(ops);
    var after := Apply(c, op).entries;
    if op.Reserve? || op.Release? || op.Age? || op.Purge? || op.BaseInsert? {
      QuietSameFacts(c, op);
      forall p | p in after ensures Recalls(after[p], ops, p) {
        SilentRecalls(c.entries[p], after[p], ops, p);
      }
    } else {
      forall p | p in after ensures Recalls(after[p], ops, p) {
        if p != op.page { SilentRecalls(c.entries[p], after[p], ops, p); }
      }
    }
  }

  // ---- The order of touches -----------------------------------------------------

  /** Of two pages, the one touched later arrived later, in a generation not older. */
  predicate Ordered(e: Entry, f: Entry, touches: seq<PageId>, p: PageId, q: PageId) {
    && (LastTouch(touches, p) < LastTouch(touches, q) ==> e.touched < f.touched && e.generation <= f.generation)
    && LastTouch(touches, p) != LastTouch(touches, q)
  }

  ghost predicate AllOrdered(entries: map<PageId, Entry>, touches: seq<PageId>) {
    forall p, q :: p in entries && q in entries && p != q ==> Ordered(entries[p], entries[q], touches, p, q)
  }

  ghost predicate UpTo(entries: map<PageId, Entry>, maxSeq: nat, clock: nat) {
    forall p :: p in entries ==> entries[p].touched <= clock && entries[p].generation <= maxSeq
  }

  lemma {:induction false} TouchBound(touches: seq<PageId>, p: PageId)
    ensures LastTouch(touches, p) <= |touches|
  {
    if touches != [] { TouchBound(DropLast(touches), p); }
  }

  lemma TouchSnoc(touches: seq<PageId>, x: PageId, p: PageId)
    ensures LastTouch(touches + [x], p) == if p == x then |touches| + 1 else LastTouch(touches, p)
  {
    SnocParts(touches, x);
  }

  /** Touching a page puts it last. */
  lemma TouchOrders(before: map<PageId, Entry>, after: map<PageId, Entry>, touches: seq<PageId>, x: PageId,
                    maxSeq: nat, clock: nat)
    requires AllOrdered(before, touches) && UpTo(before, maxSeq, clock)
    requires forall p :: p in after && p != x ==> p in before && after[p] == before[p]
    requires x in after ==> after[x].touched == clock + 1 && after[x].generation == maxSeq
    ensures AllOrdered(after, touches + [x])
  {
    forall p, q | p in after && q in after && p != q ensures Ordered(after[p], after[q], touches + [x], p, q) {
      TouchSnoc(touches, x, p);
      TouchSnoc(touches, x, q);
      TouchBound(touches, p);
      TouchBound(touches, q);
    }
  }

  lemma FewerOrdered(before: map<PageId, Entry>, after: map<PageId, Entry>, touches: seq<PageId>)
    requires AllOrdered(before, touches)
    requires forall p :: p in after ==> p in before && after[p].touched == before[p].touched
                                        && after[p].generation == before[p].generation
    ensures AllOrdered(after, touches)
  {
  }

  /** Promotion gives a page the youngest generation and the latest arrival, and touches no other. */
  lemma PromoteEntries(c: Cache, x: PageId, dirty: bool)
    requires x in c.entries && c.entries[x].tier < |c.minSeq|
    ensures Promote(c, x, dirty).entries
            == c.entries[x := c.entries[x].(dirty := dirty, generation := c.maxSeq, touched := c.clock + 1)]
  {
  }

  lemma PromoteOrdersTouches(c: Cache, x: PageId, dirty: bool, touches: seq<PageId>)
    requires Inv(c) && AllOrdered(c.entries, touches) && x in c.entries
    ensures AllOrdered(Promote(c, x, dirty).entries, touches + [x])
  {
    PromoteEntries(c, x, dirty);
    TouchOrders(c.entries, Promote(c, x, dirty).entries, touches, x, c.maxSeq, c.clock);
  }

  ghost function PromoteOne(c: Cache, x: PageId): Cache
    requires TiersKnown(c)
  {
    if x in c.entries then Promote(c, x, c.entries[x].dirty) else c
  }

  lemma HarvestOne(c: Cache, x: PageId, touches: seq<PageId>)
    requires Inv(c) && AllOrdered(c.entries, touches)
    ensures AllOrdered(PromoteOne(c, x).entries, touches + [x])
  {
    if x in c.entries {
      PromoteOrdersTouches(c, x, c.entries[x].dirty, touches);
    } else {
      TouchOrders(c.entries, c.entries, touches, x, c.maxSeq, c.clock);
    }
  }

  lemma {:induction false} HarvestOrders(c: Cache, pages: seq<PageId>, touches: seq<PageId>)
    requires Inv(c) && AllOrdered(c.entries, touches)
    ensures AllOrdered(PromoteAll(c, pages).entries, touches + pages)
    decreases |pages|
  {
    if pages == [] {
      assert touches + pages == touches;
    } else {
      HarvestOrders(c, DropLast(pages), touches);
      PromoteAllKeeps(c, DropLast(pages));
      HarvestOne(PromoteAll(c, DropLast(pages)), Last(pages), touches + DropLast(pages));
      assert touches + DropLast(pages) + [Last(pages)] == touches + pages;
    }
  }

  lemma AgeOrders(c: Cache, harvest: seq<PageId>, touches: seq<PageId>)
    requires Inv(c) && AllOrdered(c.entries, touches)
    ensures AllOrdered(Aged(c, harvest).entries, touches + harvest)
  {
    if c.entries != map[] {
      OpenGenerationKeeps(c);
      HarvestOrders(OpenGeneration(c), harvest, touches);
    }
  }

  lemma ApplyOrders(c: Cache, op: Op, touches: seq<PageId>)
    requires Inv(c) && Allowed(c, op) && AllOrdered(c.entries, touches)
    ensures AllOrdered(Apply(c, op).entries, if op.Fill? || op.MarkDirty? then touches + [op.page]
                                             else if op.Age? then touches + op.harvest else touches)
  {
    if op.Fill? {
      TouchOrders(c.entries, Apply(c, op).entries, touches, op.page, c.maxSeq, c.clock);
    } else if op.MarkDirty? {
      PromoteOrdersTouches(c, op.page, true, touches);
    } else if op.Age? {
      AgeOrders(c, op.harvest, touches);
    } else {
      FewerOrdered(c.entries, Apply(c, op).entries, touches);
    }
  }

  lemma {:induction false} RunRemembers(c: Cache, ops: seq<Op>)
    requires Inv(c) && c.entries == map[] && EachAllowed(c, ops)
    ensures Legal(c, ops) && Inv(Run(c, ops))
    ensures AllRecalled(Run(c, ops).entries, ops) && AllOrdered(Run(c, ops).entries, Touches(ops))
  {
    AllowedRunsAreLegal(c, ops);
    if ops != [] {
      RunSnoc(c, ops);
      RunRemembers(c, DropLast(ops));
      ApplyRecalls(Run(c, DropLast(ops)), ops);
      ApplyOrders(Run(c, DropLast(ops)), Last(ops), Touches(DropLast(ops)));
      assert Touches(DropLast(ops)) + [] == Touches(DropLast(ops));
    }
  }

  // ---- The promises -----------------------------------------------------------------

  /** Over every allowed run, a resident page is of the kind it was last filled as, is dirty
      exactly if filled or marked dirty with no flush begun after that, and counts exactly
      the flushes begun and not ended since. */
  lemma EveryRunRemembers(capacity: nat, ops: seq<Op>, p: PageId)
    requires capacity >= 1 && EachAllowed(New(capacity), ops)
    ensures Legal(New(capacity), ops)
    ensures p in Run(New(capacity), ops).entries ==>
              var e := Run(New(capacity), ops).entries[p];
              && LastFill(ops, p).Some? && (e.tier == 1 <==> FilledAsMemory(ops, p)) && e.tier < 2
              && (e.dirty <==> DirtySince(ops, p)) && e.flushing == OpenFlushes(ops, p)
  {
    RunRemembers(New(capacity), ops);
  }

  /** The page to go next: durable; disk before memory; and of one kind the one whose last
      touch is longest ago. */
  ghost predicate GoesFirst(resident: set<PageId>, ops: seq<Op>, p: PageId) {
    && p in resident && Durable(ops, p)
    && forall q :: q in resident && q != p && Durable(ops, q) ==>
         || (!FilledAsMemory(ops, p) && FilledAsMemory(ops, q))
         || (FilledAsMemory(ops, p) == FilledAsMemory(ops, q)
             && LastTouch(Touches(ops), p) < LastTouch(Touches(ops), q))
  }

  lemma VictimGoesFirst(entries: map<PageId, Entry>, ops: seq<Op>, p: PageId)
    requires AllRecalled(entries, ops) && AllOrdered(entries, Touches(ops)) && IsVictim(entries, p)
    ensures GoesFirst(entries.Keys, ops, p)
  {
    assert Recalls(entries[p], ops, p);
    forall q | q in entries && q != p && Durable(ops, q)
      ensures || (!FilledAsMemory(ops, p) && FilledAsMemory(ops, q))
              || (FilledAsMemory(ops, p) == FilledAsMemory(ops, q)
                  && LastTouch(Touches(ops), p) < LastTouch(Touches(ops), q))
    {
      assert Recalls(entries[q], ops, q);
      assert Before(RankOf(p, entries[p]), RankOf(q, entries[q]));
      assert Ordered(entries[q], entries[p], Touches(ops), q, p);
    }
  }

  /** A reservation after any allowed run: with a slot free it takes it; on a full cache it
      evicts exactly the page to go next, and is refused exactly when no page is durable. */
  lemma EveryReservationIsRight(capacity: nat, ops: seq<Op>)
    requires capacity >= 1 && EachAllowed(New(capacity), ops)
    ensures Legal(New(capacity), ops) && Inv(Run(New(capacity), ops))
    ensures var c := Run(New(capacity), ops);
            var after := Apply(c, Reserve);
            var used := |c.entries| + |c.base| + c.reserved;
            && used <= capacity
            && (used < capacity ==> after == c.(reserved := c.reserved + 1))
            && (used == capacity && (forall p :: p in c.entries ==> !Durable(ops, p)) ==> after == c)
            && (used == capacity && (exists p :: p in c.entries && Durable(ops, p)) ==>
                  after.reserved == c.reserved + 1 && after.base == c.base
                  && exists p :: GoesFirst(c.entries.Keys, ops, p) && after.entries == c.entries - {p})
  {
    RunRemembers(New(capacity), ops);
    AllowedRunsAreLegal(New(capacity), ops);
    var c := Run(New(capacity), ops);
    DurableIsEvictable(c.entries, ops);
    if Full(c) && AnyEvictable(c.entries) {
      SomeVictim(c.entries);
      VictimGoesFirst(c.entries, ops, Victim(c.entries));
    }
  }

  lemma DurableIsEvictable(entries: map<PageId, Entry>, ops: seq<Op>)
    requires AllRecalled(entries, ops)
    ensures forall p :: p in entries ==> (Evictable(entries[p]) <==> Durable(ops, p))
    ensures AnyEvictable(entries) <==> exists p :: p in entries && Durable(ops, p)
  {
    forall p | p in entries ensures Evictable(entries[p]) <==> Durable(ops, p) {
      assert Recalls(entries[p], ops, p);
    }
  }

  /** What each operation does to the slots and to who is resident, beside a reservation. */
  lemma SlotsBalance(c: Cache, op: Op)
    requires Inv(c) && Allowed(c, op) && !op.Reserve?
    ensures var d := Apply(c, op);
            && d.reserved == c.reserved - (if op.Fill? || op.Release? || op.BaseInsert? then 1 else 0)
            && d.base == c.base + (if op.BaseInsert? then {op.key} else {})
            && (forall p :: p in d.entries <==>
                  (p in c.entries && !(op.Purge? && p.volume == op.volume)) || (op.Fill? && p == op.page))
  {
    if op.Age? { AgedSlots(c, op.harvest); }
    if op.MarkDirty? { PromoteEntries(c, op.page, true); }
  }

  lemma AgedSlots(c: Cache, harvest: seq<PageId>)
    requires Inv(c)
    ensures var d := Aged(c, harvest);
            d.reserved == c.reserved && d.base == c.base && d.entries.Keys == c.entries.Keys
  {
    if c.entries != map[] {
      OpenGenerationKeeps(c);
      PromoteAllKeeps(OpenGeneration(c), harvest);
      PromoteAllSlots(OpenGeneration(c), harvest);
    }
  }

  lemma {:induction false} PromoteAllSlots(c: Cache, pages: seq<PageId>)
    requires Inv(c)
    ensures PromoteAll(c, pages).reserved == c.reserved && PromoteAll(c, pages).base == c.base
    decreases |pages|
  {
    if pages != [] { PromoteAllSlots(c, DropLast(pages)); }
  }

  /** An aging pass opens a new youngest generation exactly when every resident page is in
      one of the three youngest, and there is any. */
  lemma AgingOpensAGeneration(c: Cache, harvest: seq<PageId>)
    requires Inv(c)
    ensures Apply(c, Age(harvest)).maxSeq == c.maxSeq +
              if c.entries != map[] && (forall p :: p in c.entries ==> c.entries[p].generation + 2 >= c.maxSeq)
              then 1 else 0
  {
    if c.entries != map[] {
      OpenGenerationKeeps(c);
      PromoteAllKeeps(OpenGeneration(c), harvest);
      FirstHeldIsHeld(c.entries, 0, c.minSeq[0], c.maxSeq);
      FirstHeldIsHeld(c.entries, 1, c.minSeq[1], c.maxSeq);
      FirstHeldSkipsNothing(c.entries, 0, c.minSeq[0], c.maxSeq);
      FirstHeldSkipsNothing(c.entries, 1, c.minSeq[1], c.maxSeq);
    }
  }

  /** The first held generation is held, or is the youngest. */
  lemma {:induction false} FirstHeldIsHeld(entries: map<PageId, Entry>, tier: nat, min: nat, max: nat)
    requires min <= max
    ensures var g := FirstHeld(entries, tier, min, max);
            g == max || exists p :: p in entries && entries[p].tier == tier && entries[p].generation == g
    decreases max - min
  {
    if min < max && Members(entries, tier, min) == {} {
      FirstHeldIsHeld(entries, tier, min + 1, max);
    } else if min < max {
      var p :| p in Members(entries, tier, min);
    }
  }
}
