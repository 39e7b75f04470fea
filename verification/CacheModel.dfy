/**
  The residency cache in its simplest form: one map from pages to entries and a
  few counters. Every question (which page to evict, where a generation window
  starts) is answered by looking at the map.
 */
module CacheModel {
  import opened Prelude

  const MAX_NR_GENS: nat := 4

  datatype PageId = PageId(volume: nat, page: nat)

  /** `tier` is 0 for storage pages and 1 for compute memory. */
  datatype Entry = Entry(tier: nat, dirty: bool, flushing: nat, generation: nat, touched: nat)

  type BaseKey = (nat, nat, nat, nat)

  datatype Cache = Cache(
    capacity: nat,
    reserved: nat,
    entries: map<PageId, Entry>,
    base: set<BaseKey>,
    maxSeq: nat,
    minSeq: seq<nat>,
    clock: nat)

  predicate Evictable(e: Entry) {
    !e.dirty && e.flushing == 0
  }

  // ---- Eviction order ----------------------------------------------------

  /** Where a page stands in the eviction order: (tier, generation, arrival, page). */
  datatype Rank = Rank(tier: nat, generation: nat, touched: nat, page: PageId)

  function RankOf(p: PageId, e: Entry): Rank {
    Rank(e.tier, e.generation, e.touched, p)
  }

  predicate Before(a: Rank, b: Rank) {
    || a.tier < b.tier
    || (a.tier == b.tier && (
          || a.generation < b.generation
          || (a.generation == b.generation && (
                || a.touched < b.touched
                || (a.touched == b.touched && (
                      || a.page.volume < b.page.volume
                      || (a.page.volume == b.page.volume && a.page.page < b.page.page)))))))
  }

  lemma BeforeIsTotal(a: Rank, b: Rank, c: Rank)
    ensures !Before(a, a)
    ensures a == b || Before(a, b) || Before(b, a)
    ensures Before(a, b) && Before(b, c) ==> Before(a, c)
  {
  }

  /** `p` is evictable and precedes every other evictable page. */
  ghost predicate IsVictim(entries: map<PageId, Entry>, p: PageId) {
    && p in entries && Evictable(entries[p])
    && forall q :: q in entries && q != p && Evictable(entries[q]) ==>
        Before(RankOf(p, entries[p]), RankOf(q, entries[q]))
  }

  ghost predicate AnyEvictable(entries: map<PageId, Entry>) {
    exists p :: p in entries && Evictable(entries[p])
  }

  lemma VictimIsUnique(entries: map<PageId, Entry>, p: PageId, q: PageId)
    requires IsVictim(entries, p) && IsVictim(entries, q)
    ensures p == q
  {
    if p != q { BeforeIsTotal(RankOf(p, entries[p]), RankOf(q, entries[q]), RankOf(p, entries[p])); }
  }

  ghost function Victim(entries: map<PageId, Entry>): PageId
    requires exists p :: IsVictim(entries, p)
  {
    var p :| IsVictim(entries, p); p
  }

  // ---- Generation windows --------------------------------------------------

  ghost function Members(entries: map<PageId, Entry>, tier: nat, generation: nat): set<PageId> {
    set p | p in entries && entries[p].tier == tier && entries[p].generation == generation
  }

  /** The first generation from `min` on that holds a page of the tier, capped at `max`. */
  ghost function FirstHeld(entries: map<PageId, Entry>, tier: nat, min: nat, max: nat): nat
    decreases max - min
  {
    if min < max && Members(entries, tier, min) == {} then FirstHeld(entries, tier, min + 1, max) else min
  }

  lemma {:induction false} FirstHeldSkipsNothing(entries: map<PageId, Entry>, tier: nat, min: nat, max: nat)
    requires min <= max
    requires forall p :: p in entries && entries[p].tier == tier ==> min <= entries[p].generation <= max
    ensures min <= FirstHeld(entries, tier, min, max) <= max
    ensures forall p :: p in entries && entries[p].tier == tier ==>
              FirstHeld(entries, tier, min, max) <= entries[p].generation
    decreases max - min
  {
    if min < max && Members(entries, tier, min) == {} {
      forall p | p in entries && entries[p].tier == tier ensures min + 1 <= entries[p].generation {
        assert p !in Members(entries, tier, min);
      }
      FirstHeldSkipsNothing(entries, tier, min + 1, max);
    }
  }

  function MinOf(minSeq: seq<nat>): nat
    requires |minSeq| == 2
  {
    if minSeq[0] <= minSeq[1] then minSeq[0] else minSeq[1]
  }

  function Span(c: Cache): int
    requires |c.minSeq| == 2
  {
    c.maxSeq - MinOf(c.minSeq) + 1
  }

  // ---- Operations ----------------------------------------------------------

  function New(capacity: nat): Cache {
    Cache(capacity, 0, map[], {}, 0, [0, 0], 0)
  }

  predicate Full(c: Cache) {
    |c.entries| + |c.base| + c.reserved >= c.capacity
  }

  /** Forget a page and let its tier's window advance past emptied generations. */
  ghost function Drop(c: Cache, p: PageId): Cache
    requires p in c.entries && c.entries[p].tier < |c.minSeq|
  {
    var tier := c.entries[p].tier;
    var rest := c.entries - {p};
    c.(entries := rest, minSeq := c.minSeq[tier := FirstHeld(rest, tier, c.minSeq[tier], c.maxSeq)])
  }

  /** Put a page back as the youngest one, with the given dirt and flush state. */
  ghost function Promote(c: Cache, p: PageId, dirty: bool): Cache
    requires p in c.entries && c.entries[p].tier < |c.minSeq|
  {
    var e := c.entries[p].(dirty := dirty, generation := c.maxSeq, touched := c.clock + 1);
    var d := Drop(c, p);
    d.(entries := d.entries[p := e], clock := c.clock + 1)
  }

  ghost predicate TiersKnown(c: Cache) {
    |c.minSeq| == 2 && forall p :: p in c.entries ==> c.entries[p].tier < 2
  }

  ghost function PromoteAll(c: Cache, pages: seq<PageId>): (r: Cache)
    requires TiersKnown(c)
    ensures TiersKnown(r)
    decreases |pages|
  {
    if pages == [] then c else
      var before := PromoteAll(c, DropLast(pages));
      var p := Last(pages);
      if p in before.entries then Promote(before, p, before.entries[p].dirty) else before
  }

  /** The state in which an aging pass starts promoting: windows advanced, and a
      new youngest generation opened if the span allows one. */
  ghost function OpenGeneration(c: Cache): Cache
    requires |c.minSeq| == 2
  {
    var advanced := c.(minSeq := [
                         FirstHeld(c.entries, 0, c.minSeq[0], c.maxSeq),
                         FirstHeld(c.entries, 1, c.minSeq[1], c.maxSeq)]);
    if Span(advanced) < MAX_NR_GENS then advanced.(maxSeq := c.maxSeq + 1) else advanced
  }

  ghost predicate Loses(c: Cache, gone: set<PageId>, tier: nat) {
    exists p :: p in gone && p in c.entries && c.entries[p].tier == tier
  }

  /** The window of a tier that lost pages advances past emptied generations. */
  ghost function WindowAfter(c: Cache, gone: set<PageId>, tier: nat): nat
    requires tier < |c.minSeq|
  {
    if Loses(c, gone, tier) then FirstHeld(c.entries - gone, tier, c.minSeq[tier], c.maxSeq) else c.minSeq[tier]
  }

  /** Forget many pages at once. */
  ghost function DropAll(c: Cache, gone: set<PageId>): Cache
    requires |c.minSeq| == 2
  {
    c.(entries := c.entries - gone, minSeq := [WindowAfter(c, gone, 0), WindowAfter(c, gone, 1)])
  }

  ghost function PagesOf(pages: set<PageId>, volume: nat): set<PageId> {
    set p | p in pages && p.volume == volume
  }

  ghost function PurgeVolume(c: Cache, volume: nat): Cache
    requires |c.minSeq| == 2
  {
    DropAll(c, PagesOf(c.entries.Keys, volume))
  }

  lemma {:induction false} FirstHeldCompose(less: map<PageId, Entry>, more: map<PageId, Entry>, tier: nat, min: nat,
                                            max: nat)
    requires forall p :: p in less ==> p in more && more[p] == less[p]
    ensures FirstHeld(less, tier, FirstHeld(more, tier, min, max), max) == FirstHeld(less, tier, min, max)
    decreases max - min
  {
    if min < max && Members(more, tier, min) == {} {
      forall p ensures p !in Members(less, tier, min) { assert p !in Members(more, tier, min); }
      FirstHeldCompose(less, more, tier, min + 1, max);
    }
  }

  lemma {:induction false} FirstHeldSame(a: map<PageId, Entry>, b: map<PageId, Entry>, tier: nat, min: nat, max: nat)
    requires forall g: nat :: Members(a, tier, g) == Members(b, tier, g)
    ensures FirstHeld(a, tier, min, max) == FirstHeld(b, tier, min, max)
    decreases max - min
  {
    if min < max { FirstHeldSame(a, b, tier, min + 1, max); }
  }

  /** Dropping pages one after another, in any order, is dropping them all at once. */
  lemma DropOneMore(c: Cache, gone: set<PageId>, p: PageId)
    requires TiersKnown(c) && p in c.entries && p !in gone
    ensures Drop(DropAll(c, gone), p) == DropAll(c, gone + {p})
  {
    var tier := c.entries[p].tier;
    var before, after := c.entries - gone, c.entries - (gone + {p});
    assert before - {p} == after;
    assert Loses(c, gone + {p}, tier);
    WindowStays(c, gone, p, 1 - tier);
    FirstHeldCompose(after, before, tier, c.minSeq[tier], c.maxSeq);
    assert Drop(DropAll(c, gone), p).minSeq[tier] == WindowAfter(c, gone + {p}, tier);
  }

  lemma WindowStays(c: Cache, gone: set<PageId>, p: PageId, other: nat)
    requires |c.minSeq| == 2 && other < 2 && p in c.entries && c.entries[p].tier != other
    ensures WindowAfter(c, gone + {p}, other) == WindowAfter(c, gone, other)
  {
    forall g: nat ensures Members(c.entries - (gone + {p}), other, g) == Members(c.entries - gone, other, g) {}
    FirstHeldSame(c.entries - (gone + {p}), c.entries - gone, other, c.minSeq[other], c.maxSeq);
    assert Loses(c, gone, other) ==> Loses(c, gone + {p}, other);
  }

  datatype Op =
    | Reserve
    | Fill(page: PageId, dirty: bool, memory: bool)
    | Release
    | MarkDirty(page: PageId)
    | BeginFlush(page: PageId)
    | EndFlush(page: PageId)
    | Age(harvest: seq<PageId>)
    | Purge(volume: nat)
    | BaseInsert(key: BaseKey)

  /** What the cache demands of its callers. */
  predicate Allowed(c: Cache, op: Op) {
    match op
    case Reserve => true
    case Fill(p, _, _) => c.reserved > 0 && p !in c.entries
    case Release => c.reserved > 0
    case MarkDirty(p) => p in c.entries
    case BeginFlush(p) => p in c.entries && !Evictable(c.entries[p]) && c.entries[p].flushing < 255
    case EndFlush(p) => p in c.entries && c.entries[p].flushing > 0
    case Age(_) => true
    case Purge(_) => true
    case BaseInsert(_) => c.reserved > 0
  }

  ghost function Reserved(c: Cache): Cache
    requires TiersKnown(c)
  {
    if !Full(c) then c.(reserved := c.reserved + 1)
    else if AnyEvictable(c.entries) then
      SomeVictim(c.entries);
      Drop(c, Victim(c.entries)).(reserved := c.reserved + 1)
    else c
  }

  function NewEntry(c: Cache, dirty: bool, memory: bool): Entry {
    Entry(if memory then 1 else 0, dirty, 0, c.maxSeq, c.clock + 1)
  }

  function Filled(c: Cache, p: PageId, e: Entry): Cache
    requires c.reserved > 0
  {
    c.(reserved := c.reserved - 1, clock := c.clock + 1, entries := c.entries[p := e])
  }

  function Updated(c: Cache, p: PageId, e: Entry): Cache {
    c.(entries := c.entries[p := e])
  }

  /** One more flush under way, in an eight-bit count. */
  function Flushing(e: Entry): Entry {
    e.(dirty := false, flushing := if e.flushing < 255 then e.flushing + 1 else 0)
  }

  function Flushed(e: Entry): Entry
    requires e.flushing > 0
  {
    e.(flushing := e.flushing - 1)
  }

  ghost function Aged(c: Cache, harvest: seq<PageId>): Cache
    requires Inv(c)
  {
    if c.entries == map[] then c else
      OpenGenerationKeeps(c);
      PromoteAll(OpenGeneration(c), harvest)
  }

  ghost function Apply(c: Cache, op: Op): Cache
    requires Inv(c) && Allowed(c, op)
  {
    match op
    case Reserve => Reserved(c)
    case Fill(p, dirty, memory) => Filled(c, p, NewEntry(c, dirty, memory))
    case Release => c.(reserved := c.reserved - 1)
    case MarkDirty(p) => Promote(c, p, true)
    case BeginFlush(p) => Updated(c, p, Flushing(c.entries[p]))
    case EndFlush(p) => Updated(c, p, Flushed(c.entries[p]))
    case Age(harvest) => Aged(c, harvest)
    case Purge(volume) => PurgeVolume(c, volume)
    case BaseInsert(k) => c.(reserved := c.reserved - 1, base := c.base + {k})
  }

  // ---- What every operation keeps ------------------------------------------

  ghost predicate Windows(entries: map<PageId, Entry>, minSeq: seq<nat>, maxSeq: nat, clock: nat) {
    && |minSeq| == 2 && minSeq[0] <= maxSeq && minSeq[1] <= maxSeq
    && maxSeq - MinOf(minSeq) + 1 <= MAX_NR_GENS
    && forall p :: p in entries ==>
         && entries[p].tier < 2 && entries[p].flushing <= 255 && entries[p].touched <= clock
         && minSeq[entries[p].tier] <= entries[p].generation <= maxSeq
  }

  ghost predicate Inv(c: Cache) {
    && Windows(c.entries, c.minSeq, c.maxSeq, c.clock)
    && |c.entries| + |c.base| + c.reserved <= c.capacity
  }

  ghost predicate IsFirst(ranks: set<Rank>, r: Rank) {
    r in ranks && forall q :: q in ranks && q != r ==> Before(r, q)
  }

  lemma {:induction false} FirstExists(ranks: set<Rank>)
    requires ranks != {}
    ensures exists r :: IsFirst(ranks, r)
    decreases ranks
  {
    var r :| r in ranks;
    if ranks == {r} {
      assert IsFirst(ranks, r);
    } else {
      FirstExists(ranks - {r});
      var m :| IsFirst(ranks - {r}, m);
      var best := if Before(r, m) then r else m;
      forall q | q in ranks && q != best ensures Before(best, q) {
        BeforeIsTotal(r, m, q);
      }
      assert IsFirst(ranks, best);
    }
  }

  lemma SomeVictim(entries: map<PageId, Entry>)
    requires AnyEvictable(entries)
    ensures exists p :: IsVictim(entries, p)
  {
    var ranks := set p | p in entries && Evictable(entries[p]) :: RankOf(p, entries[p]);
    var p0 :| p0 in entries && Evictable(entries[p0]);
    assert RankOf(p0, entries[p0]) in ranks;
    FirstExists(ranks);
    var r :| IsFirst(ranks, r);
    forall q | q in entries && q != r.page && Evictable(entries[q]) ensures Before(r, RankOf(q, entries[q])) {
      assert RankOf(q, entries[q]) in ranks;
    }
    assert IsVictim(entries, r.page);
  }

  lemma DropKeeps(c: Cache, p: PageId)
    requires Inv(c) && p in c.entries
    ensures Inv(Drop(c, p)) && |Drop(c, p).entries| == |c.entries| - 1
    ensures Drop(c, p).minSeq[c.entries[p].tier] >= c.minSeq[c.entries[p].tier]
  {
    var rest := c.entries - {p};
    var tier := c.entries[p].tier;
    assert rest.Keys == c.entries.Keys - {p};
    FirstHeldSkipsNothing(rest, tier, c.minSeq[tier], c.maxSeq);
  }

  lemma PromoteKeeps(c: Cache, p: PageId, dirty: bool)
    requires Inv(c) && p in c.entries
    ensures Inv(Promote(c, p, dirty)) && Promote(c, p, dirty).entries.Keys == c.entries.Keys
  {
    DropKeeps(c, p);
    assert Promote(c, p, dirty).entries.Keys == c.entries.Keys;
  }

  lemma {:induction false} PromoteAllKeeps(c: Cache, pages: seq<PageId>)
    requires Inv(c)
    ensures Inv(PromoteAll(c, pages)) && PromoteAll(c, pages).maxSeq == c.maxSeq
    ensures PromoteAll(c, pages).capacity == c.capacity
    ensures PromoteAll(c, pages).entries.Keys == c.entries.Keys
    decreases |pages|
  {
    if pages != [] {
      PromoteAllKeeps(c, DropLast(pages));
      var before := PromoteAll(c, DropLast(pages));
      if Last(pages) in before.entries { PromoteKeeps(before, Last(pages), before.entries[Last(pages)].dirty); }
    }
  }

  lemma OpenGenerationKeeps(c: Cache)
    requires Inv(c)
    ensures Inv(OpenGeneration(c)) && OpenGeneration(c).entries == c.entries && OpenGeneration(c).clock == c.clock
    ensures OpenGeneration(c).capacity == c.capacity
    ensures c.maxSeq <= OpenGeneration(c).maxSeq
  {
    FirstHeldSkipsNothing(c.entries, 0, c.minSeq[0], c.maxSeq);
    FirstHeldSkipsNothing(c.entries, 1, c.minSeq[1], c.maxSeq);
  }

  lemma PurgeVolumeKeeps(c: Cache, volume: nat)
    requires Inv(c)
    ensures Inv(PurgeVolume(c, volume))
  {
    var r := PurgeVolume(c, volume);
    FirstHeldSkipsNothing(r.entries, 0, c.minSeq[0], c.maxSeq);
    FirstHeldSkipsNothing(r.entries, 1, c.minSeq[1], c.maxSeq);
    SubsetSize(r.entries.Keys, c.entries.Keys);
  }

  lemma SubsetSize<T>(a: set<T>, b: set<T>)
    requires a <= b
    ensures |a| <= |b|
  {
    assert b == a + (b - a);
  }

  lemma ReserveKeeps(c: Cache)
    requires Inv(c)
    ensures Inv(Reserved(c)) && Reserved(c).capacity == c.capacity
  {
    if Full(c) && AnyEvictable(c.entries) {
      SomeVictim(c.entries);
      DropKeeps(c, Victim(c.entries));
    }
  }

  lemma FillKeeps(c: Cache, p: PageId, dirty: bool, memory: bool)
    requires Inv(c) && c.reserved > 0 && p !in c.entries
    ensures Inv(Filled(c, p, NewEntry(c, dirty, memory)))
  {
    assert c.entries[p := NewEntry(c, dirty, memory)].Keys == c.entries.Keys + {p};
  }

  lemma UpdateKeeps(c: Cache, p: PageId, e: Entry)
    requires Inv(c) && p in c.entries && e.flushing <= 255
    requires e == c.entries[p].(dirty := e.dirty, flushing := e.flushing)
    ensures Inv(Updated(c, p, e))
  {
    assert c.entries[p := e].Keys == c.entries.Keys;
  }

  lemma AgeKeeps(c: Cache, harvest: seq<PageId>)
    requires Inv(c)
    ensures Inv(Aged(c, harvest)) && Aged(c, harvest).capacity == c.capacity
  {
    OpenGenerationKeeps(c);
    PromoteAllKeeps(OpenGeneration(c), harvest);
  }

  lemma ApplyKeeps(c: Cache, op: Op)
    requires Inv(c) && Allowed(c, op)
    ensures Inv(Apply(c, op)) && Apply(c, op).capacity == c.capacity
  {
    match op
    case Reserve => ReserveKeeps(c);
    case Fill(p, dirty, memory) => FillKeeps(c, p, dirty, memory);
    case Release =>
    case MarkDirty(p) => PromoteKeeps(c, p, true);
    case BeginFlush(p) => UpdateKeeps(c, p, Flushing(c.entries[p]));
    case EndFlush(p) => UpdateKeeps(c, p, Flushed(c.entries[p]));
    case Age(harvest) => AgeKeeps(c, harvest);
    case Purge(volume) => PurgeVolumeKeeps(c, volume);
    case BaseInsert(k) =>
  }

  // ---- Every run ------------------------------------------------------------

  ghost predicate Legal(c: Cache, ops: seq<Op>)
    decreases |ops|
  {
    Inv(c) && (ops == [] || (Allowed(c, ops[0]) && Legal(Apply(c, ops[0]), ops[1..])))
  }

  ghost function Run(c: Cache, ops: seq<Op>): Cache
    requires Legal(c, ops)
    decreases |ops|
  {
    if ops == [] then c else Run(Apply(c, ops[0]), ops[1..])
  }

  ghost predicate EachAllowed(c: Cache, ops: seq<Op>)
    requires Inv(c)
    decreases |ops|
  {
    ops == [] || (Allowed(c, ops[0]) && (ApplyKeeps(c, ops[0]); EachAllowed(Apply(c, ops[0]), ops[1..])))
  }

  /** Calls that respect the caller contract never leave the invariant. */
  lemma {:induction false} AllowedRunsAreLegal(c: Cache, ops: seq<Op>)
    requires Inv(c) && EachAllowed(c, ops)
    ensures Legal(c, ops) && Inv(Run(c, ops)) && Run(c, ops).capacity == c.capacity
    decreases |ops|
  {
    if ops != [] {
      ApplyKeeps(c, ops[0]);
      AllowedRunsAreLegal(Apply(c, ops[0]), ops[1..]);
    }
  }

  /** Slots promised or used never exceed the capacity, and pages stay within a
      window of one to four generations, over every allowed run. */
  lemma EveryRunStaysInBounds(capacity: nat, ops: seq<Op>)
    requires capacity >= 1 && EachAllowed(New(capacity), ops)
    ensures Legal(New(capacity), ops)
    ensures var c := Run(New(capacity), ops);
            && |c.entries| + |c.base| + c.reserved <= capacity
            && |c.minSeq| == 2 && 1 <= Span(c) <= MAX_NR_GENS
            && forall p :: p in c.entries ==>
                 c.entries[p].tier < 2 && c.minSeq[c.entries[p].tier] <= c.entries[p].generation <= c.maxSeq
  {
    AllowedRunsAreLegal(New(capacity), ops);
  }

  /** A slot is refused exactly when the cache is full and nothing may be evicted.
      What is evicted is durable, and is no memory page while a disk page could go. */
  lemma ReserveIsRight(c: Cache)
    requires Inv(c)
    ensures Apply(c, Reserve) == c <==> Full(c) && !AnyEvictable(c.entries)
    ensures Full(c) && AnyEvictable(c.entries) ==>
              exists p :: p in c.entries
                && Apply(c, Reserve).entries == c.entries - {p}
                && !c.entries[p].dirty && c.entries[p].flushing == 0
                && (c.entries[p].tier == 1 ==>
                      forall q :: q in c.entries && c.entries[q].tier == 0 ==> !Evictable(c.entries[q]))
  {
    if Full(c) && AnyEvictable(c.entries) {
      SomeVictim(c.entries);
      var p := Victim(c.entries);
      assert Apply(c, Reserve).entries == c.entries - {p};
    }
  }

  // ---- Aging ----------------------------------------------------------------

  lemma PromoteOrders(c: Cache, moved: PageId, p: PageId)
    requires moved in c.entries && c.entries[moved].tier < |c.minSeq| && p in c.entries
    ensures var r := Promote(c, moved, c.entries[moved].dirty);
            && r.clock == c.clock + 1
            && p in r.entries && r.entries[p].tier == c.entries[p].tier
              && Evictable(r.entries[p]) == Evictable(c.entries[p])
            && (p != moved ==> r.entries[p] == c.entries[p])
            && (p == moved ==> r.entries[p].generation == c.maxSeq && r.entries[p].touched == c.clock + 1)
  {
  }

  /** Promotion leaves other pages alone and puts each promoted page last. */
  lemma {:induction false} PromoteAllOrders(c: Cache, pages: seq<PageId>, p: PageId)
    requires Inv(c) && p in c.entries
    ensures var r := PromoteAll(c, pages);
            && p in r.entries && r.clock >= c.clock && r.entries[p].tier == c.entries[p].tier
            && Evictable(r.entries[p]) == Evictable(c.entries[p])
            && (p !in pages ==> r.entries[p] == c.entries[p])
            && (p in pages ==> r.entries[p].generation == c.maxSeq && r.entries[p].touched > c.clock)
    decreases |pages|
  {
    if pages != [] {
      PromoteAllKeeps(c, DropLast(pages));
      PromoteAllOrders(c, DropLast(pages), p);
      var before := PromoteAll(c, DropLast(pages));
      if Last(pages) in before.entries { PromoteOrders(before, Last(pages), p); }
      assert pages == DropLast(pages) + [Last(pages)];
    }
  }

  /** Right after an aging pass every unharvested evictable page is evicted before
      any harvested page of its tier, even if no new generation could be opened. */
  lemma AgingPrefersTheUntouched(c: Cache, harvest: seq<PageId>, idle: PageId, touched: PageId)
    requires Inv(c) && idle in c.entries && touched in c.entries
    requires idle !in harvest && touched in harvest && c.entries[idle].tier == c.entries[touched].tier
    requires Evictable(c.entries[idle])
    ensures !IsVictim(Apply(c, Age(harvest)).entries, touched)
    ensures var after := Apply(c, Age(harvest)).entries;
            idle in after && touched in after && Before(RankOf(idle, after[idle]), RankOf(touched, after[touched]))
  {
    OpenGenerationKeeps(c);
    var o := OpenGeneration(c);
    PromoteAllOrders(o, harvest, idle);
    PromoteAllOrders(o, harvest, touched);
    var after := PromoteAll(o, harvest).entries;
    BeforeIsTotal(RankOf(idle, after[idle]), RankOf(touched, after[touched]), RankOf(idle, after[idle]));
  }
}
