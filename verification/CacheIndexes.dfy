/** The cache's incremental indexes and what it means for them to agree with the page map. */
module CacheIndexes {
  import opened Prelude
  import opened CacheModel

  type Counts = map<(nat, nat), nat>

  datatype Indexes = Indexes(dirty: set<PageId>, unstable: set<PageId>, victims: set<Rank>, counts: Counts)

  function CountAt(counts: Counts, tier: nat, generation: nat): nat {
    if (tier, generation) in counts then counts[(tier, generation)] else 0
  }

  function AddCount(counts: Counts, tier: nat, generation: nat): Counts {
    counts[(tier, generation) := CountAt(counts, tier, generation) + 1]
  }

  function RemoveCount(counts: Counts, tier: nat, generation: nat): Counts
    requires (tier, generation) in counts && counts[(tier, generation)] > 0
  {
    if counts[(tier, generation)] == 1 then counts - {(tier, generation)}
    else counts[(tier, generation) := counts[(tier, generation)] - 1]
  }

  function AdvanceOver(counts: Counts, tier: nat, min: nat, max: nat): nat
    decreases max - min
  {
    if min < max && (tier, min) !in counts then AdvanceOver(counts, tier, min + 1, max) else min
  }

  /** Exactly the populated (tier, generation) pairs are counted, and exactly. */
  ghost predicate Counted(counts: Counts, entries: map<PageId, Entry>) {
    && (forall tier: nat, generation: nat :: CountAt(counts, tier, generation) == |Members(entries, tier, generation)|)
    && (forall k :: k in counts ==> counts[k] > 0)
  }

  /** Every index equals what the page map defines. */
  ghost predicate Mirrors(ix: Indexes, entries: map<PageId, Entry>) {
    && (forall p :: p in ix.dirty <==> p in entries && entries[p].dirty)
    && (forall p :: p in ix.unstable <==> p in entries && !Evictable(entries[p]))
    && (forall r :: r in ix.victims <==>
          r.page in entries && Evictable(entries[r.page]) && r == RankOf(r.page, entries[r.page]))
    && Counted(ix.counts, entries)
  }

  /** What the page map defines. */
  ghost function IndexOf(entries: map<PageId, Entry>): Indexes {
    Indexes(
      set p | p in entries && entries[p].dirty,
      set p | p in entries && !Evictable(entries[p]),
      set p | p in entries && Evictable(entries[p]) :: RankOf(p, entries[p]),
      CountsOf(entries))
  }

  ghost function CountsOf(entries: map<PageId, Entry>): Counts {
    map k | k in (set p | p in entries :: (entries[p].tier, entries[p].generation)) :: |Members(entries, k.0, k.1)|
  }

  lemma CountsAreCounted(entries: map<PageId, Entry>)
    ensures Counted(CountsOf(entries), entries)
  {
    var counts := CountsOf(entries);
    forall tier: nat, generation: nat
      ensures CountAt(counts, tier, generation) == |Members(entries, tier, generation)|
    {
      if (tier, generation) !in counts {
        forall p ensures p !in Members(entries, tier, generation) {}
        assert Members(entries, tier, generation) == {};
      }
    }
    forall k | k in counts ensures counts[k] > 0 {
      var p :| p in entries && k == (entries[p].tier, entries[p].generation);
      assert p in Members(entries, k.0, k.1);
    }
  }

  lemma CountedIsExact(a: Counts, b: Counts, entries: map<PageId, Entry>)
    requires Counted(a, entries) && Counted(b, entries)
    ensures a == b
  {
    forall k ensures k in a <==> k in b
             ensures k in a && k in b ==> a[k] == b[k]
    {
      assert CountAt(a, k.0, k.1) == |Members(entries, k.0, k.1)| == CountAt(b, k.0, k.1);
    }
  }

  lemma MirrorsIsEquality(ix: Indexes, entries: map<PageId, Entry>)
    ensures Mirrors(ix, entries) <==> ix == IndexOf(entries)
  {
    CountsAreCounted(entries);
    if Mirrors(ix, entries) {
      CountedIsExact(ix.counts, CountsOf(entries), entries);
    }
  }

  /** Counting forward over emptied counters finds the first populated generation. */
  lemma {:induction false} AdvanceFindsFirstHeld(counts: Counts, entries: map<PageId, Entry>, tier: nat, min: nat,
                                                 max: nat)
    requires Counted(counts, entries)
    ensures AdvanceOver(counts, tier, min, max) == FirstHeld(entries, tier, min, max)
    decreases max - min
  {
    assert CountAt(counts, tier, min) == |Members(entries, tier, min)|;
    if min < max && (tier, min) !in counts {
      AdvanceFindsFirstHeld(counts, entries, tier, min + 1, max);
    }
  }

  lemma MembersWithout(entries: map<PageId, Entry>, p: PageId, tier: nat, generation: nat)
    requires p in entries
    ensures Members(entries - {p}, tier, generation) == Members(entries, tier, generation) - {p}
    ensures p in Members(entries, tier, generation) <==> (tier, generation) == (entries[p].tier, entries[p].generation)
  {
  }

  lemma MembersWith(entries: map<PageId, Entry>, p: PageId, e: Entry, tier: nat, generation: nat)
    requires p !in entries
    ensures p !in Members(entries, tier, generation)
    ensures Members(entries[p := e], tier, generation) ==
            if (tier, generation) == (e.tier, e.generation)
            then Members(entries, tier, generation) + {p} else Members(entries, tier, generation)
  {
  }

  /** A resident page's generation is counted, so removing it never fails. */
  lemma ResidentIsCounted(counts: Counts, entries: map<PageId, Entry>, p: PageId)
    requires Counted(counts, entries) && p in entries
    ensures (entries[p].tier, entries[p].generation) in counts
    ensures counts[(entries[p].tier, entries[p].generation)] > 0
  {
    var e := entries[p];
    assert p in Members(entries, e.tier, e.generation);
    assert CountAt(counts, e.tier, e.generation) == |Members(entries, e.tier, e.generation)|;
  }

  lemma CountedDrop(counts: Counts, entries: map<PageId, Entry>, p: PageId)
    requires Counted(counts, entries) && p in entries
    requires (entries[p].tier, entries[p].generation) in counts && counts[(entries[p].tier, entries[p].generation)] > 0
    ensures Counted(RemoveCount(counts, entries[p].tier, entries[p].generation), entries - {p})
  {
    var after := RemoveCount(counts, entries[p].tier, entries[p].generation);
    forall tier: nat, generation: nat
      ensures CountAt(after, tier, generation) == |Members(entries - {p}, tier, generation)|
    {
      MembersWithout(entries, p, tier, generation);
      assert CountAt(counts, tier, generation) == |Members(entries, tier, generation)|;
    }
  }

  lemma CountedInsert(counts: Counts, entries: map<PageId, Entry>, p: PageId, e: Entry)
    requires Counted(counts, entries) && p !in entries
    ensures Counted(AddCount(counts, e.tier, e.generation), entries[p := e])
  {
    var after := AddCount(counts, e.tier, e.generation);
    forall tier: nat, generation: nat
      ensures CountAt(after, tier, generation) == |Members(entries[p := e], tier, generation)|
    {
      MembersWith(entries, p, e, tier, generation);
      assert CountAt(counts, tier, generation) == |Members(entries, tier, generation)|;
    }
  }

  lemma MirrorDrop(ix: Indexes, entries: map<PageId, Entry>, p: PageId)
    requires Mirrors(ix, entries) && p in entries
    ensures (entries[p].tier, entries[p].generation) in ix.counts
    ensures ix.counts[(entries[p].tier, entries[p].generation)] > 0
    ensures Mirrors(Indexes(ix.dirty - {p}, ix.unstable - {p}, ix.victims - {RankOf(p, entries[p])},
                            RemoveCount(ix.counts, entries[p].tier, entries[p].generation)),
                    entries - {p})
  {
    ResidentIsCounted(ix.counts, entries, p);
    CountedDrop(ix.counts, entries, p);
  }

  function InsertIndex(ix: Indexes, p: PageId, e: Entry): Indexes {
    Indexes(
      if e.dirty then ix.dirty + {p} else ix.dirty,
      if Evictable(e) then ix.unstable else ix.unstable + {p},
      if Evictable(e) then ix.victims + {RankOf(p, e)} else ix.victims,
      AddCount(ix.counts, e.tier, e.generation))
  }

  lemma MirrorInsert(ix: Indexes, entries: map<PageId, Entry>, p: PageId, e: Entry)
    requires Mirrors(ix, entries) && p !in entries
    ensures Mirrors(InsertIndex(ix, p, e), entries[p := e])
  {
    CountedInsert(ix.counts, entries, p, e);
  }

  lemma SameMembers(entries: map<PageId, Entry>, p: PageId, e: Entry, tier: nat, generation: nat)
    requires p in entries && e.tier == entries[p].tier && e.generation == entries[p].generation
    ensures Members(entries[p := e], tier, generation) == Members(entries, tier, generation)
  {
  }

  lemma CountedUpdate(counts: Counts, entries: map<PageId, Entry>, p: PageId, e: Entry)
    requires Counted(counts, entries)
    requires p in entries && e.tier == entries[p].tier && e.generation == entries[p].generation
    ensures Counted(counts, entries[p := e])
  {
    forall tier: nat, generation: nat
      ensures CountAt(counts, tier, generation) == |Members(entries[p := e], tier, generation)|
    {
      SameMembers(entries, p, e, tier, generation);
      assert CountAt(counts, tier, generation) == |Members(entries, tier, generation)|;
    }
  }

  /** Starting a flush only clears the dirty mark, which keeps the indexes right exactly
      for a page that is already dirty or mid-flush and whose flush count does not wrap. */
  lemma BeginFlushNeedsAnUnstablePage(ix: Indexes, entries: map<PageId, Entry>, p: PageId)
    requires Mirrors(ix, entries) && p in entries
    ensures Mirrors(ix.(dirty := ix.dirty - {p}),
                    entries[p := Flushing(entries[p])])
            <==> p in ix.unstable && entries[p].flushing < 255
  {
    var e := Flushing(entries[p]);
    CountedUpdate(ix.counts, entries, p, e);
    if p !in ix.unstable {
      assert RankOf(p, entries[p]) in ix.victims;
      assert !Evictable(entries[p := e][p]);
    }
  }

  lemma MirrorEndFlush(ix: Indexes, entries: map<PageId, Entry>, p: PageId, e: Entry)
    requires Mirrors(ix, entries) && p in entries && !Evictable(entries[p])
    requires e == entries[p].(flushing := e.flushing)
    ensures Mirrors(
              ix.(unstable := if Evictable(e) then ix.unstable - {p} else ix.unstable,
                  victims := if Evictable(e) then ix.victims + {RankOf(p, e)} else ix.victims),
              entries[p := e])
  {
    CountedUpdate(ix.counts, entries, p, e);
  }

  // ---- The indexes an operation leaves behind -------------------------------

  /** Indexes after a page has been unlinked, uncounted and forgotten. */
  function DroppedIndex(ix: Indexes, p: PageId, e: Entry): Indexes
    requires (e.tier, e.generation) in ix.counts && ix.counts[(e.tier, e.generation)] > 0
  {
    Indexes(ix.dirty - {p}, ix.unstable - {p}, ix.victims - {RankOf(p, e)},
            RemoveCount(ix.counts, e.tier, e.generation))
  }

  /** Indexes after a page has been unlinked from its old place and counted and linked in its new one. */
  function PromotedIndex(ix: Indexes, p: PageId, e: Entry, now: Entry): Indexes
    requires (e.tier, e.generation) in ix.counts && ix.counts[(e.tier, e.generation)] > 0
  {
    Indexes(
      if now.dirty then ix.dirty + {p} else ix.dirty,
      if now.dirty then ix.unstable + {p} else ix.unstable,
      if Evictable(now) then ix.victims - {RankOf(p, e)} + {RankOf(p, now)} else ix.victims - {RankOf(p, e)},
      AddCount(RemoveCount(ix.counts, e.tier, e.generation), now.tier, now.generation))
  }

  /** The cache keeps its bounds and every index equals what the page map defines. */
  ghost predicate Agrees(c: Cache, ix: Indexes) {
    Inv(c) && ix == IndexOf(c.entries)
  }

  lemma DropIndex(ix: Indexes, entries: map<PageId, Entry>, p: PageId)
    requires ix == IndexOf(entries) && p in entries
    ensures var e := entries[p];
            && (e.tier, e.generation) in ix.counts && ix.counts[(e.tier, e.generation)] > 0
            && DroppedIndex(ix, p, e) == IndexOf(entries - {p})
            && (Evictable(e) ==> p !in ix.dirty && p !in ix.unstable)
  {
    MirrorsIsEquality(ix, entries);
    MirrorDrop(ix, entries, p);
    MirrorsIsEquality(DroppedIndex(ix, p, entries[p]), entries - {p});
  }

  lemma AdvanceIndex(entries: map<PageId, Entry>, tier: nat, min: nat, max: nat)
    ensures AdvanceOver(IndexOf(entries).counts, tier, min, max) == FirstHeld(entries, tier, min, max)
  {
    CountsAreCounted(entries);
    AdvanceFindsFirstHeld(CountsOf(entries), entries, tier, min, max);
  }

  lemma DropAgrees(c: Cache, ix: Indexes, p: PageId)
    requires Agrees(c, ix) && p in c.entries
    ensures c.entries[p].tier < 2 == |c.minSeq|
    ensures (c.entries[p].tier, c.entries[p].generation) in ix.counts
            && ix.counts[(c.entries[p].tier, c.entries[p].generation)] > 0
    ensures Agrees(Drop(c, p), DroppedIndex(ix, p, c.entries[p]))
    ensures Evictable(c.entries[p]) ==> p !in ix.dirty && p !in ix.unstable
  {
    DropIndex(ix, c.entries, p);
    DropKeeps(c, p);
  }

  lemma PromoteIndex(ix: Indexes, entries: map<PageId, Entry>, p: PageId, now: Entry)
    requires ix == IndexOf(entries) && p in entries
    requires now.flushing == entries[p].flushing && (entries[p].dirty ==> now.dirty)
    ensures (entries[p].tier, entries[p].generation) in ix.counts
            && ix.counts[(entries[p].tier, entries[p].generation)] > 0
    ensures PromotedIndex(ix, p, entries[p], now) == IndexOf(entries[p := now])
  {
    var e := entries[p];
    MirrorsIsEquality(ix, entries);
    MirrorDrop(ix, entries, p);
    var dropped := DroppedIndex(ix, p, e);
    MirrorInsert(dropped, entries - {p}, p, now);
    assert (entries - {p})[p := now] == entries[p := now];
    MirrorsIsEquality(InsertIndex(dropped, p, now), entries[p := now]);
    PromotedIsInserted(ix, entries, p, now);
  }

  lemma PromotedIsInserted(ix: Indexes, entries: map<PageId, Entry>, p: PageId, now: Entry)
    requires Mirrors(ix, entries) && p in entries
    requires now.flushing == entries[p].flushing && (entries[p].dirty ==> now.dirty)
    requires (entries[p].tier, entries[p].generation) in ix.counts
             && ix.counts[(entries[p].tier, entries[p].generation)] > 0
    ensures PromotedIndex(ix, p, entries[p], now) == InsertIndex(DroppedIndex(ix, p, entries[p]), p, now)
  {
    var promoted := PromotedIndex(ix, p, entries[p], now);
    var inserted := InsertIndex(DroppedIndex(ix, p, entries[p]), p, now);
    assert promoted.dirty == inserted.dirty;
    assert promoted.unstable == inserted.unstable;
  }

  function Promoted(e: Entry, c: Cache, dirty: bool): Entry {
    e.(dirty := dirty, generation := c.maxSeq, touched := c.clock + 1)
  }

  /** What promotion does to the fields: the entry, the clock and one window. */
  lemma PromoteShape(c: Cache, p: PageId, dirty: bool)
    requires p in c.entries && c.entries[p].tier < |c.minSeq|
    ensures var e := c.entries[p];
            Promote(c, p, dirty) == c.(
              entries := c.entries[p := Promoted(e, c, dirty)], clock := c.clock + 1,
              minSeq := c.minSeq[e.tier := FirstHeld(c.entries - {p}, e.tier, c.minSeq[e.tier], c.maxSeq)])
  {
    assert (c.entries - {p})[p := Promoted(c.entries[p], c, dirty)] == c.entries[p := Promoted(c.entries[p], c, dirty)];
  }

  /** The window after uncounting one page. */
  lemma UncountedWindow(c: Cache, ix: Indexes, p: PageId, min: nat, max: nat)
    requires Agrees(c, ix) && p in c.entries
    ensures var e := c.entries[p];
            && (e.tier, e.generation) in ix.counts && ix.counts[(e.tier, e.generation)] > 0
            && AdvanceOver(RemoveCount(ix.counts, e.tier, e.generation), e.tier, min, max)
               == FirstHeld(c.entries - {p}, e.tier, min, max)
  {
    DropIndex(ix, c.entries, p);
    AdvanceIndex(c.entries - {p}, c.entries[p].tier, min, max);
  }

  lemma PromoteAgrees(c: Cache, ix: Indexes, p: PageId, dirty: bool)
    requires Agrees(c, ix) && p in c.entries && (c.entries[p].dirty ==> dirty)
    ensures c.entries[p].tier < 2 == |c.minSeq|
    ensures (c.entries[p].tier, c.entries[p].generation) in ix.counts
            && ix.counts[(c.entries[p].tier, c.entries[p].generation)] > 0
    ensures Agrees(Promote(c, p, dirty), PromotedIndex(ix, p, c.entries[p], Promoted(c.entries[p], c, dirty)))
  {
    PromoteKeeps(c, p, dirty);
    PromoteIndex(ix, c.entries, p, Promoted(c.entries[p], c, dirty));
    PromoteShape(c, p, dirty);
  }

  lemma FlushIndex(ix: Indexes, entries: map<PageId, Entry>, p: PageId)
    requires ix == IndexOf(entries) && p in entries
    ensures ix.(dirty := ix.dirty - {p}) == IndexOf(entries[p := Flushing(entries[p])])
            <==> p in ix.unstable && entries[p].flushing < 255
  {
    MirrorsIsEquality(ix, entries);
    BeginFlushNeedsAnUnstablePage(ix, entries, p);
    MirrorsIsEquality(ix.(dirty := ix.dirty - {p}), entries[p := Flushing(entries[p])]);
  }

  function FlushedIndex(ix: Indexes, p: PageId, e: Entry): Indexes {
    ix.(unstable := if Evictable(e) then ix.unstable - {p} else ix.unstable,
        victims := if Evictable(e) then ix.victims + {RankOf(p, e)} else ix.victims)
  }

  lemma FlushedIndexIs(ix: Indexes, entries: map<PageId, Entry>, p: PageId)
    requires ix == IndexOf(entries) && p in entries && entries[p].flushing > 0
    ensures FlushedIndex(ix, p, Flushed(entries[p])) == IndexOf(entries[p := Flushed(entries[p])])
  {
    MirrorsIsEquality(ix, entries);
    MirrorEndFlush(ix, entries, p, Flushed(entries[p]));
    MirrorsIsEquality(FlushedIndex(ix, p, Flushed(entries[p])), entries[p := Flushed(entries[p])]);
  }

  lemma FillIndex(ix: Indexes, entries: map<PageId, Entry>, p: PageId, e: Entry)
    requires ix == IndexOf(entries) && p !in entries
    ensures InsertIndex(ix, p, e) == IndexOf(entries[p := e])
  {
    MirrorsIsEquality(ix, entries);
    MirrorInsert(ix, entries, p, e);
    MirrorsIsEquality(InsertIndex(ix, p, e), entries[p := e]);
  }

  lemma FlushAgrees(c: Cache, ix: Indexes, p: PageId)
    requires Agrees(c, ix) && p in c.entries
    ensures Agrees(Updated(c, p, Flushing(c.entries[p])), ix.(dirty := ix.dirty - {p})) <==> Allowed(c, BeginFlush(p))
  {
    UpdateKeeps(c, p, Flushing(c.entries[p]));
    FlushIndex(ix, c.entries, p);
  }

  lemma FlushedAgrees(c: Cache, ix: Indexes, p: PageId)
    requires Agrees(c, ix) && Allowed(c, EndFlush(p))
    ensures Agrees(Updated(c, p, Flushed(c.entries[p])), FlushedIndex(ix, p, Flushed(c.entries[p])))
  {
    UpdateKeeps(c, p, Flushed(c.entries[p]));
    FlushedIndexIs(ix, c.entries, p);
  }

  lemma FillAgrees(c: Cache, ix: Indexes, p: PageId, dirty: bool, memory: bool)
    requires Agrees(c, ix) && p !in c.entries && c.reserved > 0
    ensures Agrees(Filled(c, p, NewEntry(c, dirty, memory)), InsertIndex(ix, p, NewEntry(c, dirty, memory)))
  {
    FillKeeps(c, p, dirty, memory);
    FillIndex(ix, c.entries, p, NewEntry(c, dirty, memory));
  }

  lemma ReserveAgrees(c: Cache, ix: Indexes, p: PageId)
    requires Agrees(c, ix) && Full(c) && IsVictim(c.entries, p)
    ensures c.entries[p].tier < 2 == |c.minSeq|
    ensures TiersKnown(c)
    ensures (c.entries[p].tier, c.entries[p].generation) in ix.counts
            && ix.counts[(c.entries[p].tier, c.entries[p].generation)] > 0
    ensures Reserved(c) == Drop(c, p).(reserved := c.reserved + 1)
    ensures Agrees(Reserved(c), ix.(victims := ix.victims - {RankOf(p, c.entries[p])},
                                    counts := RemoveCount(ix.counts, c.entries[p].tier, c.entries[p].generation)))
  {
    DropIndex(ix, c.entries, p);
    ReserveKeeps(c);
    VictimIsUnique(c.entries, p, Victim(c.entries));
    assert ix.dirty - {p} == ix.dirty && ix.unstable - {p} == ix.unstable;
  }

  lemma SpareAgrees(c: Cache, ix: Indexes)
    requires Agrees(c, ix)
    ensures TiersKnown(c)
    ensures !Full(c) ==> Reserved(c) == c.(reserved := c.reserved + 1) && Agrees(Reserved(c), ix)
    ensures Full(c) && !AnyEvictable(c.entries) ==> Reserved(c) == c
  {
  }

  /** Both windows advanced by counting, and a new youngest generation if the span allows. */
  function WindowsOpened(c: Cache, counts: Counts): Cache
    requires |c.minSeq| == 2
  {
    var windows := [AdvanceOver(counts, 0, c.minSeq[0], c.maxSeq), AdvanceOver(counts, 1, c.minSeq[1], c.maxSeq)];
    c.(minSeq := windows, maxSeq := if c.maxSeq - MinOf(windows) + 1 < MAX_NR_GENS then c.maxSeq + 1 else c.maxSeq)
  }

  lemma WindowAgrees(c: Cache, ix: Indexes)
    requires Agrees(c, ix)
    ensures |c.minSeq| == 2
    ensures Agrees(OpenGeneration(c), ix)
    ensures OpenGeneration(c) == WindowsOpened(c, ix.counts)
  {
    AdvanceIndex(c.entries, 0, c.minSeq[0], c.maxSeq);
    AdvanceIndex(c.entries, 1, c.minSeq[1], c.maxSeq);
    OpenGenerationKeeps(c);
  }

  lemma FirstIsVictim(c: Cache, ix: Indexes, first: Rank)
    requires Agrees(c, ix) && IsFirst(ix.victims, first)
    ensures IsVictim(c.entries, first.page) && AnyEvictable(c.entries) && Victim(c.entries) == first.page
  {
    var entries := c.entries;
    forall q | q in entries && q != first.page && Evictable(entries[q]) ensures Before(first, RankOf(q, entries[q])) {
      assert RankOf(q, entries[q]) in ix.victims;
    }
    assert IsVictim(entries, first.page);
    VictimIsUnique(entries, first.page, Victim(entries));
  }

  lemma NoVictims(c: Cache, ix: Indexes)
    requires Agrees(c, ix) && ix.victims == {}
    ensures !AnyEvictable(c.entries)
  {
    var entries := c.entries;
    forall p | p in entries ensures !Evictable(entries[p]) {
      assert RankOf(p, entries[p]) !in ix.victims;
    }
  }

  /** Indexes after a page moved without changing its dirt. */
  function TouchedIndex(ix: Indexes, p: PageId, e: Entry, now: Entry): Indexes
    requires (e.tier, e.generation) in ix.counts && ix.counts[(e.tier, e.generation)] > 0
  {
    ix.(victims := if Evictable(now) then ix.victims - {RankOf(p, e)} + {RankOf(p, now)}
                   else ix.victims - {RankOf(p, e)},
        counts := AddCount(RemoveCount(ix.counts, e.tier, e.generation), now.tier, now.generation))
  }

  /** A page that keeps its dirt keeps its marks. */
  lemma TouchAgrees(c: Cache, ix: Indexes, p: PageId)
    requires Agrees(c, ix) && p in c.entries
    ensures c.entries[p].tier < 2 == |c.minSeq|
    ensures (c.entries[p].tier, c.entries[p].generation) in ix.counts
            && ix.counts[(c.entries[p].tier, c.entries[p].generation)] > 0
    ensures Agrees(Promote(c, p, c.entries[p].dirty),
                   TouchedIndex(ix, p, c.entries[p], Promoted(c.entries[p], c, c.entries[p].dirty)))
  {
    PromoteAgrees(c, ix, p, c.entries[p].dirty);
    if c.entries[p].dirty { MarksStay(ix, c.entries, p); }
  }

  predicate Countable(c: Cache, counts: Counts, p: PageId) {
    && p in c.entries && c.entries[p].tier < |c.minSeq|
    && (c.entries[p].tier, c.entries[p].generation) in counts
    && counts[(c.entries[p].tier, c.entries[p].generation)] > 0
  }

  /** The window of the page's tier once the page is no longer counted. */
  function WindowWithout(c: Cache, counts: Counts, p: PageId): seq<nat>
    requires Countable(c, counts, p)
  {
    var e := c.entries[p];
    c.minSeq[e.tier := AdvanceOver(RemoveCount(counts, e.tier, e.generation), e.tier, c.minSeq[e.tier], c.maxSeq)]
  }

  function Moved(c: Cache, counts: Counts, p: PageId, now: Entry): Cache
    requires Countable(c, counts, p)
  {
    c.(entries := c.entries[p := now], clock := c.clock + 1, minSeq := WindowWithout(c, counts, p))
  }

  /** Promotion in terms of the counters: the window comes from counting forward. */
  lemma PromoteByCounters(c: Cache, ix: Indexes, p: PageId, dirty: bool)
    requires Agrees(c, ix) && p in c.entries
    ensures Countable(c, ix.counts, p)
    ensures Promote(c, p, dirty) == Moved(c, ix.counts, p, Promoted(c.entries[p], c, dirty))
  {
    PromoteShape(c, p, dirty);
    UncountedWindow(c, ix, p, c.minSeq[c.entries[p].tier], c.maxSeq);
  }

  lemma MarksStay(ix: Indexes, entries: map<PageId, Entry>, p: PageId)
    requires ix == IndexOf(entries) && p in entries && entries[p].dirty
    ensures ix.dirty + {p} == ix.dirty && ix.unstable + {p} == ix.unstable
  {
  }

  lemma DropNothing(c: Cache)
    requires |c.minSeq| == 2
    ensures DropAll(c, {}) == c
  {
    assert c.entries - {} == c.entries;
  }
}
