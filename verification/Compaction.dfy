/**
  What a set of files means: the newest entry of every key, and the blocks visible
  through them. Compaction replaces a run of files without changing either.
 */
module Compaction {
  import opened Prelude
  import opened Ordered
  import opened Format
  import opened BlockKeys
  import opened Blx
  import opened BlxObjects
  import opened BlxChunks

  /** Entries under the position of their keys. */
  type Table = map<nat, Entry>

  /** An entry replaces one that is not newer. */
  function Newest(page: nat, table: Table, e: Entry): Table
    requires page > 0
  {
    var p := Position(page, e.key);
    if p in table && table[p].generation > e.generation then table else table[p := e]
  }

  function InsertAll(page: nat, table: Table, entries: seq<Entry>): Table
    requires page > 0
  {
    if entries == [] then table else Newest(page, InsertAll(page, table, DropLast(entries)), Last(entries))
  }

  /** The newest entry of every key in a run of entries; of equally new ones, the last. */
  function NewestOf(page: nat, entries: seq<Entry>): Table
    requires page > 0
  {
    InsertAll(page, map[], entries)
  }

  /** Entry `i` is the newest at position `p`: none there is newer, and of equally new ones
      it comes last. */
  predicate IsNewestAt(page: nat, entries: seq<Entry>, p: nat, i: nat)
    requires page > 0
  {
    && i < |entries| && Position(page, entries[i].key) == p
    && forall j :: 0 <= j < |entries| && Position(page, entries[j].key) == p ==>
         entries[j].generation <= entries[i].generation && (j > i ==> entries[j].generation < entries[i].generation)
  }

  predicate Occurs(page: nat, entries: seq<Entry>, p: nat)
    requires page > 0
  {
    exists i :: 0 <= i < |entries| && Position(page, entries[i].key) == p
  }

  lemma NewestGrows(page: nat, entries: seq<Entry>, e: Entry, p: nat, i: nat)
    requires page > 0 && IsNewestAt(page, entries, p, i)
    ensures if Position(page, e.key) == p && entries[i].generation <= e.generation
            then IsNewestAt(page, entries + [e], p, |entries|) else IsNewestAt(page, entries + [e], p, i)
  {
  }

  /** Inserting entry by entry keeps at each position the entry of greatest generation
      there, the last of several. */
  lemma {:induction false} NewestIsNewest(page: nat, entries: seq<Entry>, p: nat)
    requires page > 0
    ensures p in NewestOf(page, entries) <==> Occurs(page, entries, p)
    ensures p in NewestOf(page, entries) ==>
              exists i: nat :: IsNewestAt(page, entries, p, i) && NewestOf(page, entries)[p] == entries[i]
  {
    if entries != [] {
      var front, e := DropLast(entries), Last(entries);
      assert entries == front + [e];
      NewestIsNewest(page, front, p);
      if Occurs(page, front, p) {
        var i: nat :| IsNewestAt(page, front, p, i) && NewestOf(page, front)[p] == front[i];
        NewestGrows(page, front, e, p, i);
        assert entries[i] == front[i];
      } else if Position(page, e.key) == p {
        assert IsNewestAt(page, entries, p, |front|);
      }
    }
  }

  lemma NewestIsUnique(page: nat, entries: seq<Entry>, p: nat, i: nat)
    requires page > 0 && IsNewestAt(page, entries, p, i)
    ensures p in NewestOf(page, entries) && NewestOf(page, entries)[p] == entries[i]
  {
    NewestIsNewest(page, entries, p);
  }

  predicate WellKeyed(page: nat, table: Table)
    requires page > 0
  {
    forall p :: p in table ==> Position(page, table[p].key) == p
  }

  lemma {:induction false} InsertAllWellKeyed(page: nat, table: Table, entries: seq<Entry>)
    requires page > 0 && WellKeyed(page, table)
    ensures WellKeyed(page, InsertAll(page, table, entries))
  {
    if entries != [] { InsertAllWellKeyed(page, table, DropLast(entries)); }
  }

  // ---- Runs of entries combine --------------------------------------------------------------------

  /** Later entries over earlier ones. */
  function Over(earlier: Table, later: Table): Table {
    map p | p in earlier.Keys + later.Keys ::
      if p in later && !(p in earlier && earlier[p].generation > later[p].generation) then later[p] else earlier[p]
  }

  lemma NewestOver(page: nat, earlier: Table, later: Table, e: Entry)
    requires page > 0
    ensures Newest(page, Over(earlier, later), e) == Over(earlier, Newest(page, later, e))
  {
    var p := Position(page, e.key);
    var a, b := Newest(page, Over(earlier, later), e), Over(earlier, Newest(page, later, e));
    assert a.Keys == b.Keys;
    forall q | q in a.Keys ensures a[q] == b[q] {
    }
  }

  lemma {:induction false} InsertAllOver(page: nat, table: Table, entries: seq<Entry>)
    requires page > 0
    ensures InsertAll(page, table, entries) == Over(table, NewestOf(page, entries))
  {
    if entries == [] {
      assert Over(table, map[]) == table;
    } else {
      InsertAllOver(page, table, DropLast(entries));
      NewestOver(page, table, NewestOf(page, DropLast(entries)), Last(entries));
    }
  }

  lemma {:induction false} InsertAllBoth(page: nat, table: Table, a: seq<Entry>, b: seq<Entry>)
    requires page > 0
    ensures InsertAll(page, table, a + b) == InsertAll(page, InsertAll(page, table, a), b)
  {
    if b == [] {
      assert a + b == a;
    } else {
      assert DropLast(a + b) == a + DropLast(b) && Last(a + b) == Last(b);
      InsertAllBoth(page, table, a, DropLast(b));
    }
  }

  /** The newest entries of three runs, from those of each. */
  lemma NewestOfThree(page: nat, before: seq<Entry>, run: seq<Entry>, after: seq<Entry>)
    requires page > 0
    ensures NewestOf(page, before + run + after)
            == Over(Over(NewestOf(page, before), NewestOf(page, run)), NewestOf(page, after))
  {
    InsertAllBoth(page, map[], before + run, after);
    InsertAllBoth(page, map[], before, run);
    InsertAllOver(page, NewestOf(page, before), run);
    InsertAllOver(page, NewestOf(page, before + run), after);
  }

  // ---- A table as a sorted run ----------------------------------------------------------------------

  /** The entries of a table in key order. */
  function InOrder(table: Table): seq<Entry> {
    ValuesAt(table, Ascending(table.Keys))
  }

  lemma InOrderIsSorted(page: nat, table: Table)
    requires page > 0 && WellKeyed(page, table)
    ensures Sorted(page, InOrder(table))
  {
    var keys := Ascending(table.Keys);
    var entries := ValuesAt(table, keys);
    forall i, j | 0 <= i < j < |entries| ensures Position(page, entries[i].key) < Position(page, entries[j].key) {
      assert keys[i] < keys[j];
    }
  }

  ghost predicate Restricts(table: Table, keys: seq<nat>, part: Table) {
    && (forall p :: p in part <==> p in keys)
    && (forall p :: p in part ==> p in table && part[p] == table[p])
  }

  lemma RestrictsGrows(page: nat, table: Table, front: seq<nat>, part: Table, last: nat)
    requires page > 0 && WellKeyed(page, table) && Restricts(table, front, part) && last in table && last !in front
    ensures Restricts(table, front + [last], Newest(page, part, table[last]))
  {
  }

  lemma {:induction false} NewestOfDistinct(page: nat, table: Table, keys: seq<nat>)
    requires page > 0 && WellKeyed(page, table) && Increasing(keys) && forall p :: p in keys ==> p in table
    ensures Restricts(table, keys, NewestOf(page, ValuesAt(table, keys)))
    decreases |keys|
  {
    if keys != [] {
      var front, last := DropLast(keys), Last(keys);
      NewestOfDistinct(page, table, front);
      LastIsNew(keys);
      RestrictsGrows(page, table, front, NewestOf(page, ValuesAt(table, front)), last);
      ValuesAtFront(table, keys);
      assert keys == front + [last];
    }
  }

  lemma ValuesAtFront(table: Table, keys: seq<nat>)
    requires keys != [] && forall p :: p in keys ==> p in table
    ensures Last(keys) in table
    ensures ValuesAt(table, keys) != [] && Last(ValuesAt(table, keys)) == table[Last(keys)]
    ensures DropLast(ValuesAt(table, keys)) == ValuesAt(table, DropLast(keys))
  {
    assert Last(keys) in keys;
    assert forall i :: 0 <= i < |DropLast(keys)| ==> DropLast(keys)[i] == keys[i];
  }

  lemma LastIsNew(keys: seq<nat>)
    requires Increasing(keys) && keys != []
    ensures Last(keys) !in DropLast(keys)
  {
  }

  /** Writing a table out in order and reading it back changes nothing. */
  lemma NewestOfInOrder(page: nat, table: Table)
    requires page > 0 && WellKeyed(page, table)
    ensures NewestOf(page, InOrder(table)) == table
  {
    NewestOfDistinct(page, table, Ascending(table.Keys));
    RestrictsAll(table, Ascending(table.Keys), NewestOf(page, InOrder(table)));
  }

  function Positions(page: nat, entries: seq<Entry>): seq<nat>
    requires page > 0
  {
    seq(|entries|, i requires 0 <= i < |entries| => Position(page, entries[i].key))
  }

  lemma PositionsAreKeys(page: nat, entries: seq<Entry>, p: nat)
    requires page > 0
    ensures p in Positions(page, entries) <==> p in NewestOf(page, entries)
  {
    NewestIsNewest(page, entries, p);
    if Occurs(page, entries, p) {
      var i :| 0 <= i < |entries| && Position(page, entries[i].key) == p;
      assert Positions(page, entries)[i] == p;
    }
  }

  lemma SortedIsNewest(page: nat, entries: seq<Entry>, i: nat)
    requires page > 0 && Sorted(page, entries) && i < |entries|
    ensures var p := Position(page, entries[i].key);
            p in NewestOf(page, entries) && NewestOf(page, entries)[p] == entries[i]
  {
    NewestIsUnique(page, entries, Position(page, entries[i].key), i);
  }

  /** And a sorted run is its own table in order. */
  lemma InOrderOfSorted(page: nat, entries: seq<Entry>)
    requires page > 0 && Sorted(page, entries)
    ensures InOrder(NewestOf(page, entries)) == entries
  {
    var table, positions := NewestOf(page, entries), Positions(page, entries);
    forall p: nat ensures p in positions <==> p in table.Keys { PositionsAreKeys(page, entries, p); }
    AscendingIsThe(positions, table.Keys);
    forall i | 0 <= i < |entries| ensures InOrder(table)[i] == entries[i] { SortedIsNewest(page, entries, i); }
  }

  lemma RestrictsAll(table: Table, keys: seq<nat>, part: Table)
    requires Restricts(table, keys, part) && forall p :: p in keys <==> p in table
    ensures part == table
  {
    assert forall p :: p in part <==> p in table;
  }

  // ---- Compaction ----------------------------------------------------------------------------------------

  function WithoutTombstones(table: Table): Table {
    map p | p in table && table[p].DataEntry? :: table[p]
  }

  /** What compacting a run of files writes out, in order. */
  function Compacted(page: nat, run: seq<Entry>, retain: bool): seq<Entry>
    requires page > 0
  {
    var newest := NewestOf(page, run);
    InOrder(if retain then newest else WithoutTombstones(newest))
  }

  lemma NewestOfCompacted(page: nat, run: seq<Entry>, retain: bool)
    requires page > 0
    ensures NewestOf(page, Compacted(page, run, retain))
            == if retain then NewestOf(page, run) else WithoutTombstones(NewestOf(page, run))
  {
    InsertAllWellKeyed(page, map[], run);
    NewestOfInOrder(page, if retain then NewestOf(page, run) else WithoutTombstones(NewestOf(page, run)));
  }

  /** Retaining tombstones, compaction changes no newest entry, whatever files come before and after. */
  lemma CompactionKeepsNewest(page: nat, before: seq<Entry>, run: seq<Entry>, after: seq<Entry>)
    requires page > 0
    ensures NewestOf(page, before + Compacted(page, run, true) + after) == NewestOf(page, before + run + after)
  {
    NewestOfCompacted(page, run, true);
    NewestOfThree(page, before, run, after);
    NewestOfThree(page, before, Compacted(page, run, true), after);
  }

  /** So at every position the entry of greatest generation, over all the files, is the one
      it was before. */
  lemma CompactionKeepsGreatest(page: nat, before: seq<Entry>, run: seq<Entry>, after: seq<Entry>, p: nat)
    requires page > 0
    ensures var was, now := before + run + after, before + Compacted(page, run, true) + after;
            && (Occurs(page, was, p) <==> Occurs(page, now, p))
            && forall i: nat, j: nat :: IsNewestAt(page, was, p, i) && IsNewestAt(page, now, p, j) ==> was[i] == now[j]
  {
    var was, now := before + run + after, before + Compacted(page, run, true) + after;
    CompactionKeepsNewest(page, before, run, after);
    NewestIsNewest(page, was, p);
    NewestIsNewest(page, now, p);
    forall i: nat, j: nat | IsNewestAt(page, was, p, i) && IsNewestAt(page, now, p, j) ensures was[i] == now[j] {
      NewestIsUnique(page, was, p, i);
      NewestIsUnique(page, now, p, j);
    }
  }

  /** The generation and checksum of every block that reading through the files would find. */
  function Visible(sum: Bytes -> U64, table: Table): map<nat, (U64, U64)> {
    map p | p in table && table[p].DataEntry? :: (table[p].generation, sum(table[p].bytes))
  }

  /** At `p` the run's tombstone is the newest entry of all, and hides data of the rest. */
  predicate Hides(before: Table, run: Table, after: Table, p: nat) {
    && p in run && run[p].Tombstone? && Over(Over(before, run), after)[p] == run[p]
    && p in Over(before, after) && Over(before, after)[p].DataEntry?
  }

  /** The two tables show the same at a key. */
  predicate SameAt(a: Table, b: Table, p: nat) {
    if p in a && a[p].DataEntry? then p in b && b[p] == a[p] else p !in b || b[p].Tombstone?
  }

  lemma SameEverywhere(sum: Bytes -> U64, a: Table, b: Table)
    requires forall p :: SameAt(a, b, p)
    ensures Visible(sum, a) == Visible(sum, b)
  {
    forall p ensures p in Visible(sum, a) <==> p in Visible(sum, b) {
      assert SameAt(a, b, p);
    }
    forall p | p in Visible(sum, a) ensures Visible(sum, a)[p] == Visible(sum, b)[p] {
      assert SameAt(a, b, p);
    }
  }

  /** Dropping tombstones is safe at a key exactly when the tombstone there hides nothing. */
  lemma DroppingAt(before: Table, run: Table, after: Table, p: nat)
    ensures SameAt(Over(Over(before, WithoutTombstones(run)), after), Over(Over(before, run), after), p)
            <==> !Hides(before, run, after, p)
  {
  }

  lemma DroppingDecides(sum: Bytes -> U64, before: Table, run: Table, after: Table)
    ensures Visible(sum, Over(Over(before, WithoutTombstones(run)), after))
            == Visible(sum, Over(Over(before, run), after))
            <==> forall p :: p in run ==> !Hides(before, run, after, p)
  {
    var a, b := Over(Over(before, WithoutTombstones(run)), after), Over(Over(before, run), after);
    if forall p :: p in run ==> !Hides(before, run, after, p) {
      forall p ensures SameAt(a, b, p) {
        DroppingAt(before, run, after, p);
      }
      SameEverywhere(sum, a, b);
    } else {
      var p :| p in run && Hides(before, run, after, p);
      HiddenIsUncovered(before, run, after, p);
      assert p in Visible(sum, a) && p !in Visible(sum, b);
    }
  }

  lemma HiddenIsUncovered(before: Table, run: Table, after: Table, p: nat)
    requires Hides(before, run, after, p)
    ensures var a := Over(Over(before, WithoutTombstones(run)), after); p in a && a[p].DataEntry?
    ensures Over(Over(before, run), after)[p].Tombstone?
  {
  }

  /** Dropping tombstones leaves the visible data unchanged exactly when none of them is
      the newest entry of a key for which the other files still hold data. */
  lemma CompactionKeepsVisible(page: nat, sum: Bytes -> U64, before: seq<Entry>, run: seq<Entry>, after: seq<Entry>)
    requires page > 0
    ensures Visible(sum, NewestOf(page, before + Compacted(page, run, false) + after))
            == Visible(sum, NewestOf(page, before + run + after))
            <==> forall p :: p in NewestOf(page, run) ==>
                   !Hides(NewestOf(page, before), NewestOf(page, run), NewestOf(page, after), p)
  {
    NewestOfCompacted(page, run, false);
    NewestOfThree(page, before, run, after);
    NewestOfThree(page, before, Compacted(page, run, false), after);
    DroppingDecides(sum, NewestOf(page, before), NewestOf(page, run), NewestOf(page, after));
  }

  /** In particular when no other file holds a key whose newest entry in the run is a tombstone. */
  lemma UnsharedTombstonesHideNothing(before: Table, run: Table, after: Table, p: nat)
    requires p in run && run[p].Tombstone? ==> p !in before && p !in after
    ensures !Hides(before, run, after, p)
  {
  }

  /** Otherwise it can change: a dropped tombstone uncovers older data. */
  lemma DroppingCanUncover(sum: Bytes -> U64, key: BlockKey, p: nat, bytes: Bytes)
    ensures var before, run := map[p := DataEntry(key, 1, bytes)], map[p := Tombstone(key, 2)];
            Visible(sum, Over(Over(before, WithoutTombstones(run)), map[]))
            != Visible(sum, Over(Over(before, run), map[]))
  {
    var before, run := map[p := DataEntry(key, 1, bytes)], map[p := Tombstone(key, 2)];
    assert Hides(before, run, map[], p);
    DroppingDecides(sum, before, run, map[]);
  }
}
