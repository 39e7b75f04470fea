/** The cache as the daemon keeps it: one page map and its incremental indexes, updated in place. */
module ResidencyCache {
  import opened Prelude
  import opened CacheModel
  import opened CacheIndexes

  predicate PageBefore(a: PageId, b: PageId) {
    a.volume < b.volume || (a.volume == b.volume && a.page < b.page)
  }

  ghost predicate Ascending(pages: seq<PageId>) {
    forall i, j :: 0 <= i < j < |pages| ==> PageBefore(pages[i], pages[j])
  }

  /** A volume's pages out of an ordered set, in page order. */
  method RangeOf(pages: set<PageId>, volume: nat) returns (found: seq<PageId>)
    ensures Ascending(found)
    ensures forall p :: p in found <==> p in pages && p.volume == volume
  {
    found := [];
    var rest := set p | p in pages && p.volume == volume;
    while rest != {}
      invariant Ascending(found)
      invariant forall p :: p in found || p in rest <==> p in pages && p.volume == volume
      invariant forall p, q :: p in found && q in rest ==> PageBefore(p, q)
      decreases rest
    {
      var least := LeastPage(rest);
      found, rest := found + [least], rest - {least};
    }
  }

  method LeastPage(pages: set<PageId>) returns (least: PageId)
    requires pages != {}
    ensures least in pages && forall p :: p in pages && p != least ==> PageBefore(least, p)
  {
    least :| least in pages;
    var rest := pages - {least};
    while rest != {}
      invariant least in pages && least !in rest && rest <= pages
      invariant forall p :: p in pages && p !in rest && p != least ==> PageBefore(least, p)
      decreases rest
    {
      var p :| p in rest;
      rest := rest - {p};
      if PageBefore(p, least) {
        least := p;
      }
    }
  }

  /** The first victim in eviction order. */
  method FirstRank(victims: set<Rank>) returns (first: Rank)
    requires victims != {}
    ensures IsFirst(victims, first)
  {
    FirstExists(victims);
    first :| first in victims && forall q :: q in victims && q != first ==> Before(first, q);
  }

  class Cache {
    var capacity: nat
    var reserved: nat
    var entries: map<PageId, Entry>
    var dirty: set<PageId>
    var unstable: set<PageId>
    var victims: set<Rank>
    var genCounts: Counts
    var maxSeq: nat
    var minSeq: seq<nat>
    var baseResident: set<BaseKey>
    var clock: nat

    ghost function View(): CacheModel.Cache
      reads this
    {
      CacheModel.Cache(capacity, reserved, entries, baseResident, maxSeq, minSeq, clock)
    }

    ghost function Index(): Indexes
      reads this
    {
      Indexes(dirty, unstable, victims, genCounts)
    }

    /** Every index equals what the page map defines, and the map keeps its bounds. */
    ghost predicate Valid()
      reads this
    {
      Agrees(View(), Index())
    }

    constructor (capacity: nat)
      requires capacity >= 1
      ensures Valid() && View() == New(capacity)
    {
      this.capacity, reserved, clock := capacity, 0, 0;
      entries, genCounts, maxSeq, minSeq := map[], map[], 0, [0, 0];
      dirty, unstable, victims, baseResident := {}, {}, {}, {};
    }

    method Unlink(page: PageId, entry: Entry)
      modifies this`victims
      ensures victims == old(victims) - {RankOf(page, entry)}
    {
      victims := victims - {RankOf(page, entry)};
    }

    method Link(page: PageId, entry: Entry)
      modifies this`victims
      ensures victims == if Evictable(entry) then old(victims) + {RankOf(page, entry)} else old(victims)
    {
      if Evictable(entry) {
        victims := victims + {RankOf(page, entry)};
      }
    }

    method CountOneMore(tier: nat, generation: nat)
      modifies this`genCounts
      ensures genCounts == AddCount(old(genCounts), tier, generation)
    {
      var key := (tier, generation);
      genCounts := genCounts[key := (if key in genCounts then genCounts[key] else 0) + 1];
    }

    method AdvanceMinSeq(tier: nat)
      requires tier < |minSeq|
      modifies this`minSeq
      ensures minSeq == old(minSeq)[tier := AdvanceOver(genCounts, tier, old(minSeq)[tier], maxSeq)]
    {
      while minSeq[tier] < maxSeq && (tier, minSeq[tier]) !in genCounts
        invariant |minSeq| == |old(minSeq)| && minSeq == old(minSeq)[tier := minSeq[tier]]
        invariant AdvanceOver(genCounts, tier, minSeq[tier], maxSeq)
                  == AdvanceOver(genCounts, tier, old(minSeq)[tier], maxSeq)
        decreases maxSeq - minSeq[tier]
      {
        minSeq := minSeq[tier := minSeq[tier] + 1];
      }
    }

    /** The counter must exist and be positive, as it does for every resident page. */
    method CountRemove(tier: nat, generation: nat)
      requires tier < |minSeq| && (tier, generation) in genCounts && genCounts[(tier, generation)] > 0
      modifies this`genCounts, this`minSeq
      ensures genCounts == RemoveCount(old(genCounts), tier, generation)
      ensures minSeq == old(minSeq)[tier := AdvanceOver(genCounts, tier, old(minSeq)[tier], maxSeq)]
    {
      var key := (tier, generation);
      genCounts := genCounts[key := genCounts[key] - 1];
      if genCounts[key] == 0 {
        genCounts := genCounts - {key};
      }
      assert genCounts == RemoveCount(old(genCounts), tier, generation);
      AdvanceMinSeq(tier);
    }

    // The next five methods update the fields; the public ones below them add
    // what the whole cache keeps.

    method RemoveEntry(page: PageId) returns (entry: Entry)
      requires Countable(View(), genCounts, page)
      modifies this`entries, this`victims, this`genCounts, this`minSeq
      ensures entry == old(entries)[page]
      ensures View() == old(View()).(entries := old(entries) - {page},
                                     minSeq := WindowWithout(old(View()), old(genCounts), page))
      ensures Index() == old(Index()).(victims := old(victims) - {RankOf(page, entry)},
                                       counts := RemoveCount(old(genCounts), entry.tier, entry.generation))
    {
      entry := entries[page];
      entries := entries - {page};
      Unlink(page, entry);
      CountRemove(entry.tier, entry.generation);
    }

    method FillSlotIn(page: PageId, asDirty: bool, generation: nat, memory: bool)
      requires reserved > 0 && generation == maxSeq
      modifies this
      ensures View() == Filled(old(View()), page, NewEntry(old(View()), asDirty, memory))
      ensures Index() == InsertIndex(old(Index()), page, NewEntry(old(View()), asDirty, memory))
    {
      reserved := reserved - 1;
      clock := clock + 1;
      var entry := Entry(if memory then 1 else 0, asDirty, 0, generation, clock);
      if asDirty {
        dirty := dirty + {page};
        unstable := unstable + {page};
      }
      CountOneMore(entry.tier, generation);
      Link(page, entry);
      entries := entries[page := entry];
    }

    method MoveToYoungest(page: PageId)
      requires Countable(View(), genCounts, page)
      modifies this`entries, this`victims, this`genCounts, this`minSeq, this`clock
      ensures var e := old(entries)[page];
              var now := Promoted(e, old(View()), e.dirty);
              && View() == Moved(old(View()), old(genCounts), page, now)
              && Index() == TouchedIndex(old(Index()), page, e, now)
    {
      var entry := entries[page];
      Unlink(page, entry);
      CountRemove(entry.tier, entry.generation);
      clock := clock + 1;
      var now := entry.(generation := maxSeq, touched := clock);
      CountOneMore(entry.tier, maxSeq);
      Link(page, now);
      entries := entries[page := now];
    }

    method WriteToYoungest(page: PageId)
      requires Countable(View(), genCounts, page)
      modifies this
      ensures var e := old(entries)[page];
              var now := Promoted(e, old(View()), true);
              && View() == Moved(old(View()), old(genCounts), page, now)
              && Index() == PromotedIndex(old(Index()), page, e, now)
    {
      clock := clock + 1;
      var entry := entries[page];
      Unlink(page, entry);
      CountRemove(entry.tier, entry.generation);
      CountOneMore(entry.tier, maxSeq);
      entries := entries[page := entry.(dirty := true, generation := maxSeq, touched := clock)];
      dirty := dirty + {page};
      unstable := unstable + {page};
    }

    method ClearFlush(page: PageId)
      requires page in entries && entries[page].flushing > 0
      modifies this
      ensures View() == Updated(old(View()), page, Flushed(old(entries)[page]))
      ensures Index() == FlushedIndex(old(Index()), page, Flushed(old(entries)[page]))
    {
      var entry := entries[page].(flushing := entries[page].flushing - 1);
      entries := entries[page := entry];
      if Evictable(entry) {
        unstable := unstable - {page};
      }
      Link(page, entry);
    }

    // ---- Public operations ----------------------------------------------------

    method ReserveSlot() returns (slot: Option<Option<PageId>>)
      requires Valid()
      modifies this
      ensures Valid() && View() == Reserved(old(View()))
      ensures slot.None? <==> Full(old(View())) && !AnyEvictable(old(entries))
      ensures slot == Some(None) <==> !Full(old(View()))
      ensures slot.Some? && slot.value.Some? ==> IsVictim(old(entries), slot.value.value)
    {
      SpareAgrees(View(), Index());
      if |entries| + |baseResident| + reserved < capacity {
        reserved := reserved + 1;
        return Some(None);
      }
      if victims == {} {
        NoVictims(View(), Index());
        return None;
      }
      var first := FirstRank(victims);
      FirstIsVictim(View(), Index(), first);
      ReserveAgrees(View(), Index(), first.page);
      UncountedWindow(View(), Index(), first.page, minSeq[entries[first.page].tier], maxSeq);
      var entry := RemoveEntry(first.page);
      reserved := reserved + 1;
      return Some(Some(first.page));
    }

    method FillSlot(page: PageId, asDirty: bool, memory: bool)
      requires Valid() && reserved > 0 && page !in entries
      modifies this
      ensures Valid() && View() == Filled(old(View()), page, NewEntry(old(View()), asDirty, memory))
    {
      FillAgrees(View(), Index(), page, asDirty, memory);
      FillSlotIn(page, asDirty, maxSeq, memory);
    }

    method ReleaseSlot()
      requires Valid() && reserved > 0
      modifies this`reserved
      ensures Valid() && View() == old(View()).(reserved := old(reserved) - 1)
    {
      reserved := reserved - 1;
    }

    method MarkPageDirty(page: PageId)
      requires Valid() && page in entries
      modifies this
      ensures Valid() && View() == Promote(old(View()), page, true)
    {
      PromoteAgrees(View(), Index(), page, true);
      PromoteByCounters(View(), Index(), page, true);
      WriteToYoungest(page);
    }

    /** Start a flush of any resident page. The indexes stay right exactly when the page was
        dirty or mid-flush and its flush count does not wrap. */
    method StartFlush(page: PageId)
      requires Valid() && page in entries
      modifies this`entries, this`dirty
      ensures View() == Updated(old(View()), page, Flushing(old(entries)[page]))
      ensures Index() == old(Index()).(dirty := old(dirty) - {page})
      ensures Valid() <==> Allowed(old(View()), BeginFlush(page))
    {
      FlushAgrees(View(), Index(), page);
      var entry := entries[page];
      var flushing := if entry.flushing < 255 then entry.flushing + 1 else 0;
      entries := entries[page := entry.(dirty := false, flushing := flushing)];
      dirty := dirty - {page};
    }

    method FinishFlush(page: PageId)
      requires Valid() && Allowed(View(), EndFlush(page))
      modifies this
      ensures Valid() && View() == Updated(old(View()), page, Flushed(old(entries)[page]))
    {
      FlushedAgrees(View(), Index(), page);
      ClearFlush(page);
    }

    /** Move one harvested page to the youngest generation. */
    method Touch(page: PageId)
      requires Valid() && page in entries
      modifies this`entries, this`victims, this`genCounts, this`minSeq, this`clock
      ensures Valid() && View() == Promote(old(View()), page, old(entries)[page].dirty)
    {
      TouchAgrees(View(), Index(), page);
      PromoteByCounters(View(), Index(), page, entries[page].dirty);
      MoveToYoungest(page);
    }

    method AgePages(harvest: seq<PageId>)
      requires Valid()
      modifies this
      ensures Valid() && View() == Aged(old(View()), harvest)
    {
      if entries == map[] {
        return;
      }
      OpenWindow();
      TouchAll(harvest);
    }

    method OpenWindow()
      requires Valid()
      modifies this`minSeq, this`maxSeq
      ensures Valid() && View() == OpenGeneration(old(View()))
    {
      WindowAgrees(View(), Index());
      AdvanceBothWindows();
    }

    method AdvanceBothWindows()
      requires |minSeq| == 2
      modifies this`minSeq, this`maxSeq
      ensures View() == WindowsOpened(old(View()), genCounts)
    {
      AdvanceMinSeq(0);
      AdvanceMinSeq(1);
      if maxSeq - MinOf(minSeq) + 1 < MAX_NR_GENS {
        maxSeq := maxSeq + 1;
      }
    }

    method TouchAll(harvest: seq<PageId>)
      requires Valid()
      modifies this`entries, this`victims, this`genCounts, this`minSeq, this`clock
      ensures Valid() && View() == PromoteAll(old(View()), harvest)
    {
      for i := 0 to |harvest|
        invariant Valid() && View() == PromoteAll(old(View()), harvest[..i])
      {
        if harvest[i] in entries {
          Touch(harvest[i]);
        }
        PromoteAllSnoc(old(View()), harvest, i);
      }
      assert harvest[..|harvest|] == harvest;
    }

    method Expel(page: PageId)
      requires Valid() && page in entries
      modifies this`entries, this`victims, this`genCounts, this`minSeq, this`dirty, this`unstable
      ensures Valid() && View() == Drop(old(View()), page)
    {
      DropAgrees(View(), Index(), page);
      UncountedWindow(View(), Index(), page, minSeq[entries[page].tier], maxSeq);
      var entry := RemoveEntry(page);
      dirty := dirty - {page};
      unstable := unstable - {page};
    }

    method PurgePages(volume: nat) returns (pages: seq<PageId>)
      requires Valid()
      modifies this
      ensures Valid() && View() == PurgeVolume(old(View()), volume)
      ensures Ascending(pages) && forall p :: p in pages <==> p in old(entries) && p.volume == volume
    {
      pages := RangeOf(entries.Keys, volume);
      ExpelAll(pages);
      assert Front(pages, |pages|) == PagesOf(old(entries).Keys, volume);
    }

    method ExpelAll(pages: seq<PageId>)
      requires Valid() && Ascending(pages) && forall p :: p in pages ==> p in entries
      modifies this`entries, this`victims, this`genCounts, this`minSeq, this`dirty, this`unstable
      ensures Valid() && View() == DropAll(old(View()), Front(pages, |pages|))
    {
      DropNothing(View());
      assert Front(pages, 0) == {};
      for i := 0 to |pages|
        invariant Valid() && View() == DropAll(old(View()), Front(pages, i))
      {
        ExpelStep(old(View()), pages, i);
        Expel(pages[i]);
      }
    }

    method UnstablePagesOf(volume: nat) returns (pages: seq<PageId>)
      requires Valid()
      ensures Ascending(pages)
      ensures forall p :: p in pages <==> p in entries && p.volume == volume && !Evictable(entries[p])
    {
      pages := RangeOf(unstable, volume);
    }

    method DirtyPagesOf(volume: nat) returns (pages: seq<PageId>)
      requires Valid()
      ensures Ascending(pages)
      ensures forall p :: p in pages <==> p in entries && p.volume == volume && entries[p].dirty
    {
      pages := RangeOf(dirty, volume);
    }

    method InsertBase(key: BaseKey)
      requires Valid() && reserved > 0
      modifies this`reserved, this`baseResident
      ensures Valid() && View() == old(View()).(reserved := old(reserved) - 1, base := old(baseResident) + {key})
    {
      reserved := reserved - 1;
      baseResident := baseResident + {key};
    }
  }

  function Front(pages: seq<PageId>, i: nat): set<PageId>
    requires i <= |pages|
  {
    set p | p in pages[..i]
  }

  lemma ExpelStep(c: CacheModel.Cache, pages: seq<PageId>, i: nat)
    requires TiersKnown(c) && Ascending(pages) && i < |pages| && forall p :: p in pages ==> p in c.entries
    ensures pages[i] in DropAll(c, Front(pages, i)).entries
    ensures Drop(DropAll(c, Front(pages, i)), pages[i]) == DropAll(c, Front(pages, i + 1))
  {
    assert pages[i] !in Front(pages, i);
    assert pages[..i + 1] == pages[..i] + [pages[i]];
    assert Front(pages, i + 1) == Front(pages, i) + {pages[i]};
    DropOneMore(c, Front(pages, i), pages[i]);
  }

  lemma PromoteAllSnoc(c: CacheModel.Cache, harvest: seq<PageId>, i: nat)
    requires TiersKnown(c) && i < |harvest|
    ensures var before := PromoteAll(c, harvest[..i]);
            PromoteAll(c, harvest[..i + 1]) ==
            if harvest[i] in before.entries
            then Promote(before, harvest[i], before.entries[harvest[i]].dirty) else before
  {
    assert harvest[..i + 1] == harvest[..i] + [harvest[i]];
    SnocParts(harvest[..i], harvest[i]);
  }
}
