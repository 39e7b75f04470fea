/** The state-chain verdict, on the fields of the files alone. */
module StateChainMeaning {
  import opened Prelude
  import opened Ordered
  import opened ObjectRefs
  import opened StateChain

  predicate SameBatch(a: ObjectRef, b: ObjectRef) { a.maxSeq == b.maxSeq && a.batch == b.batch }

  predicate EarlierBatch(a: ObjectRef, b: ObjectRef) {
    a.maxSeq < b.maxSeq || (a.maxSeq == b.maxSeq && a.batch < b.batch)
  }

  /** No batch of the files lies between theirs. */
  predicate NextBatch(files: set<ObjectRef>, a: ObjectRef, b: ObjectRef) {
    EarlierBatch(a, b) && forall f :: f in files ==> !(EarlierBatch(a, f) && EarlierBatch(f, b))
  }

  /** Files of one batch agree; the first batch starts from the base state or is materialized;
      each next batch starts where the one before ended; and the last ends in the final state. */
  ghost predicate ChainsUp(base: nat, post: nat, files: set<ObjectRef>) {
    && (forall a, b :: a in files && b in files && SameBatch(a, b) ==> a.pre == b.pre && a.post == b.post)
    && (files == {} ==> post == base)
    && (forall a :: a in files && IsEarliest(files, a) ==> a.pre == a.post || a.pre == base)
    && (forall a, b :: a in files && b in files && NextBatch(files, a, b) ==> a.post == b.pre)
    && (forall a :: a in files && IsLatest(files, a) ==> a.post == post)
  }

  predicate IsEarliest(files: set<ObjectRef>, a: ObjectRef) { forall f :: f in files ==> !EarlierBatch(f, a) }

  predicate IsLatest(files: set<ObjectRef>, a: ObjectRef) { forall f :: f in files ==> !EarlierBatch(a, f) }

  // ---- The walk, by index --------------------------------------------------------------------

  /** Batch `i` of the walk ends where the next one starts. */
  predicate LinkedAt(table: Table, walk: seq<nat>, i: nat)
    requires Covers(table, walk) && i + 1 < |walk|
  {
    walk[i] in walk && walk[i + 1] in walk && table[walk[i]].1 == table[walk[i + 1]].0
  }

  predicate Linked(table: Table, walk: seq<nat>)
    requires Covers(table, walk)
  {
    forall i :: 0 <= i < |walk| - 1 ==> LinkedAt(table, walk, i)
  }

  lemma {:induction false} FollowIsLinked(checksum: nat, table: Table, walk: seq<nat>, post: nat)
    requires Covers(table, walk)
    ensures Follow(checksum, table, walk) == Some(post) <==>
            if walk == [] then post == checksum
            else (walk[0] in walk && table[walk[0]].0 == checksum && Linked(table, walk)
                  && walk[|walk| - 1] in walk && table[walk[|walk| - 1]].1 == post)
    decreases |walk|
  {
    if walk != [] {
      assert walk[0] in walk;
      var rest := walk[1..];
      FollowIsLinked(table[walk[0]].1, table, rest, post);
      if rest != [] {
        assert Linked(table, walk) <==> Linked(table, rest) && table[walk[0]].1 == table[rest[0]].0 by {
          LinkedCons(table, walk);
        }
      }
    }
  }

  lemma LinkedCons(table: Table, walk: seq<nat>)
    requires Covers(table, walk) && |walk| > 1
    ensures Covers(table, walk[1..]) && walk[0] in walk && walk[1] in walk
    ensures Linked(table, walk) <==> Linked(table, walk[1..]) && table[walk[0]].1 == table[walk[1]].0
  {
    var rest := walk[1..];
    if Linked(table, walk) {
      forall i | 0 <= i < |rest| - 1 ensures LinkedAt(table, rest, i) {
        assert LinkedAt(table, walk, i + 1) && rest[i] == walk[i + 1] && rest[i + 1] == walk[i + 2];
      }
      assert LinkedAt(table, walk, 0);
    }
    if Linked(table, rest) && table[walk[0]].1 == table[walk[1]].0 {
      forall i | 0 <= i < |walk| - 1 ensures LinkedAt(table, walk, i) {
        if i > 0 { assert LinkedAt(table, rest, i - 1) && rest[i - 1] == walk[i] && rest[i] == walk[i + 1]; }
      }
    }
  }

  ghost predicate WalkHolds(base: nat, post: nat, table: Table, walk: seq<nat>)
    requires Covers(table, walk)
  {
    if walk == [] then post == base
    else
      && walk[0] in walk && (table[walk[0]].0 == table[walk[0]].1 || table[walk[0]].0 == base)
      && Linked(table, walk) && walk[|walk| - 1] in walk && table[walk[|walk| - 1]].1 == post
  }

  lemma ChainIsWalk(base: nat, post: nat, table: Table, walk: seq<nat>)
    requires Covers(table, walk)
    ensures ChainHolds(base, post, table, walk) <==> WalkHolds(base, post, table, walk)
  {
    if walk != [] {
      assert walk[0] in walk;
      FollowIsLinked(table[walk[0]].1, table, walk[1..], post);
      if |walk| > 1 { LinkedCons(table, walk); }
    }
  }

  // ---- From the table to the files ----------------------------------------------------------------

  lemma PositionsTell(a: ObjectRef, b: ObjectRef)
    ensures EarlierBatch(a, b) <==> BatchPosition(a) < BatchPosition(b)
    ensures SameBatch(a, b) <==> BatchPosition(a) == BatchPosition(b)
  {
    BatchPositionOrders(a, b);
  }

  /** A file's place in the walk. */
  lemma PlaceOf(table: Table, files: set<ObjectRef>, walk: seq<nat>, o: ObjectRef) returns (i: nat)
    requires IsTable(table, files) && walk == Ascending(table.Keys) && o in files
    ensures i < |walk| && walk[i] == BatchPosition(o) && walk[i] in table && table[walk[i]] == (o.pre, o.post)
  {
    assert BatchPosition(o) in walk;
    i :| 0 <= i < |walk| && walk[i] == BatchPosition(o);
  }

  lemma FileAt(table: Table, files: set<ObjectRef>, walk: seq<nat>, i: nat) returns (o: ObjectRef)
    requires IsTable(table, files) && walk == Ascending(table.Keys) && i < |walk|
    ensures o in files && BatchPosition(o) == walk[i] && walk[i] in table && table[walk[i]] == (o.pre, o.post)
  {
    assert walk[i] in walk;
    o :| o in files && BatchPosition(o) == walk[i];
  }

  lemma EarliestByPosition(files: set<ObjectRef>, a: ObjectRef)
    ensures IsEarliest(files, a) <==> forall f :: f in files ==> BatchPosition(a) <= BatchPosition(f)
  {
    forall f | f in files ensures EarlierBatch(f, a) <==> BatchPosition(f) < BatchPosition(a) { PositionsTell(f, a); }
  }

  lemma LatestByPosition(files: set<ObjectRef>, a: ObjectRef)
    ensures IsLatest(files, a) <==> forall f :: f in files ==> BatchPosition(f) <= BatchPosition(a)
  {
    forall f | f in files ensures EarlierBatch(a, f) <==> BatchPosition(a) < BatchPosition(f) { PositionsTell(a, f); }
  }

  /** The walk visits exactly the positions of the files. */
  lemma WalkIsPositions(table: Table, files: set<ObjectRef>, walk: seq<nat>)
    requires IsTable(table, files) && walk == Ascending(table.Keys)
    ensures Increasing(walk)
    ensures forall f :: f in files ==> BatchPosition(f) in walk
    ensures forall x :: x in walk ==> exists f :: f in files && BatchPosition(f) == x
  {
  }

  lemma FirstOfWalk(walk: seq<nat>, p: nat)
    requires Increasing(walk) && p in walk
    ensures (forall x :: x in walk ==> p <= x) <==> p == walk[0]
  {
    assert walk[0] in walk;
  }

  lemma LastOfWalk(walk: seq<nat>, p: nat)
    requires Increasing(walk) && p in walk
    ensures (forall x :: x in walk ==> x <= p) <==> p == walk[|walk| - 1]
  {
    assert walk[|walk| - 1] in walk;
  }

  lemma FirstStands(table: Table, files: set<ObjectRef>, walk: seq<nat>, a: ObjectRef)
    requires IsTable(table, files) && walk == Ascending(table.Keys) && a in files && walk != []
    ensures IsEarliest(files, a) <==> BatchPosition(a) == walk[0]
  {
    EarliestByPosition(files, a);
    WalkIsPositions(table, files, walk);
    FirstOfWalk(walk, BatchPosition(a));
  }

  lemma LastStands(table: Table, files: set<ObjectRef>, walk: seq<nat>, a: ObjectRef)
    requires IsTable(table, files) && walk == Ascending(table.Keys) && a in files && walk != []
    ensures IsLatest(files, a) <==> BatchPosition(a) == walk[|walk| - 1]
  {
    LatestByPosition(files, a);
    WalkIsPositions(table, files, walk);
    LastOfWalk(walk, BatchPosition(a));
  }

  predicate NoneBetween(files: set<ObjectRef>, low: nat, high: nat) {
    forall f :: f in files ==> !(low < BatchPosition(f) < high)
  }

  lemma NextByPosition(files: set<ObjectRef>, a: ObjectRef, b: ObjectRef)
    ensures NextBatch(files, a, b) <==>
              BatchPosition(a) < BatchPosition(b) && NoneBetween(files, BatchPosition(a), BatchPosition(b))
  {
    PositionsTell(a, b);
    forall f | f in files
      ensures EarlierBatch(a, f) && EarlierBatch(f, b) <==> BatchPosition(a) < BatchPosition(f) < BatchPosition(b)
    {
      PositionsTell(a, f);
      PositionsTell(f, b);
    }
  }

  lemma WalkHasAll(table: Table, files: set<ObjectRef>, walk: seq<nat>, low: nat, high: nat)
    requires IsTable(table, files) && walk == Ascending(table.Keys)
    ensures NoneBetween(files, low, high) <==> forall x :: x in walk ==> !(low < x < high)
  {
    WalkIsPositions(table, files, walk);
  }

  lemma Neighbours(walk: seq<nat>, i: nat, j: nat)
    requires Increasing(walk) && i < |walk| && j < |walk|
    ensures walk[i] < walk[j] && (forall x :: x in walk ==> !(walk[i] < x < walk[j])) <==> j == i + 1
  {
    assert i + 1 < j ==> walk[i] < walk[i + 1] < walk[j] && walk[i + 1] in walk;
  }

  lemma PlacesStand(table: Table, files: set<ObjectRef>, walk: seq<nat>, i: nat, j: nat)
    requires IsTable(table, files) && walk == Ascending(table.Keys) && i < |walk| && j < |walk|
    ensures walk[i] < walk[j] && NoneBetween(files, walk[i], walk[j]) <==> j == i + 1
  {
    WalkHasAll(table, files, walk, walk[i], walk[j]);
    Neighbours(walk, i, j);
  }

  lemma NextStands(table: Table, files: set<ObjectRef>, walk: seq<nat>, a: ObjectRef, b: ObjectRef, i: nat, j: nat)
    requires IsTable(table, files) && walk == Ascending(table.Keys)
    requires i < |walk| && walk[i] == BatchPosition(a) && j < |walk| && walk[j] == BatchPosition(b)
    ensures NextBatch(files, a, b) <==> j == i + 1
  {
    NextByPosition(files, a, b);
    PlacesStand(table, files, walk, i, j);
  }

  lemma FirstIsRight(base: nat, post: nat, table: Table, files: set<ObjectRef>, walk: seq<nat>, a: ObjectRef)
    requires IsTable(table, files) && walk == Ascending(table.Keys) && WalkHolds(base, post, table, walk)
    requires a in files && IsEarliest(files, a)
    ensures a.pre == a.post || a.pre == base
  {
    var i := PlaceOf(table, files, walk, a);
    FirstStands(table, files, walk, a);
  }

  lemma LastIsRight(base: nat, post: nat, table: Table, files: set<ObjectRef>, walk: seq<nat>, a: ObjectRef)
    requires IsTable(table, files) && walk == Ascending(table.Keys) && WalkHolds(base, post, table, walk)
    requires a in files && IsLatest(files, a)
    ensures a.post == post
  {
    var i := PlaceOf(table, files, walk, a);
    LastStands(table, files, walk, a);
  }

  lemma NextIsRight(table: Table, files: set<ObjectRef>, walk: seq<nat>, a: ObjectRef, b: ObjectRef)
    requires IsTable(table, files) && walk == Ascending(table.Keys) && Covers(table, walk) && Linked(table, walk)
    requires a in files && b in files && NextBatch(files, a, b)
    ensures a.post == b.pre
  {
    var i := PlaceOf(table, files, walk, a);
    var j := PlaceOf(table, files, walk, b);
    NextStands(table, files, walk, a, b, i, j);
    assert LinkedAt(table, walk, i);
  }

  lemma WalkChainsUp(base: nat, post: nat, table: Table, files: set<ObjectRef>, walk: seq<nat>)
    requires IsTable(table, files) && walk == Ascending(table.Keys) && WalkHolds(base, post, table, walk)
    ensures ChainsUp(base, post, files)
  {
    forall a, b | a in files && b in files && SameBatch(a, b) ensures a.pre == b.pre && a.post == b.post {
      PositionsTell(a, b);
    }
    if walk != [] {
      var o := FileAt(table, files, walk, 0);
    }
    forall a | a in files && IsEarliest(files, a) ensures a.pre == a.post || a.pre == base {
      FirstIsRight(base, post, table, files, walk, a);
    }
    forall a | a in files && IsLatest(files, a) ensures a.post == post {
      LastIsRight(base, post, table, files, walk, a);
    }
    forall a, b | a in files && b in files && NextBatch(files, a, b) ensures a.post == b.pre {
      NextIsRight(table, files, walk, a, b);
    }
  }

  lemma FirstFile(table: Table, files: set<ObjectRef>, walk: seq<nat>) returns (o: ObjectRef)
    requires IsTable(table, files) && walk == Ascending(table.Keys) && walk != []
    ensures o in files && IsEarliest(files, o) && walk[0] in table && table[walk[0]] == (o.pre, o.post)
  {
    o := FileAt(table, files, walk, 0);
    FirstStands(table, files, walk, o);
  }

  lemma LastFile(table: Table, files: set<ObjectRef>, walk: seq<nat>) returns (o: ObjectRef)
    requires IsTable(table, files) && walk == Ascending(table.Keys) && walk != []
    ensures o in files && IsLatest(files, o) && walk[|walk| - 1] in table && table[walk[|walk| - 1]] == (o.pre, o.post)
  {
    o := FileAt(table, files, walk, |walk| - 1);
    LastStands(table, files, walk, o);
  }

  lemma EndsHold(base: nat, post: nat, table: Table, files: set<ObjectRef>, walk: seq<nat>)
    requires IsTable(table, files) && walk == Ascending(table.Keys) && walk != []
    requires forall a :: a in files && IsEarliest(files, a) ==> a.pre == a.post || a.pre == base
    requires forall a :: a in files && IsLatest(files, a) ==> a.post == post
    ensures walk[0] in table && (table[walk[0]].0 == table[walk[0]].1 || table[walk[0]].0 == base)
    ensures walk[|walk| - 1] in table && table[walk[|walk| - 1]].1 == post
  {
    var first := FirstFile(table, files, walk);
    var last := LastFile(table, files, walk);
  }

  lemma LinksHold(base: nat, post: nat, table: Table, files: set<ObjectRef>, walk: seq<nat>, i: nat)
    requires IsTable(table, files) && walk == Ascending(table.Keys) && ChainsUp(base, post, files) && i + 1 < |walk|
    ensures Covers(table, walk) && LinkedAt(table, walk, i)
  {
    var a := FileAt(table, files, walk, i);
    var b := FileAt(table, files, walk, i + 1);
    NextStands(table, files, walk, a, b, i, i + 1);
  }

  lemma ChainWalksUp(base: nat, post: nat, table: Table, files: set<ObjectRef>, walk: seq<nat>)
    requires IsTable(table, files) && walk == Ascending(table.Keys) && ChainsUp(base, post, files)
    ensures Covers(table, walk) && WalkHolds(base, post, table, walk)
  {
    if walk == [] {
      assert forall o :: o in files ==> BatchPosition(o) in walk;
    } else {
      EndsHold(base, post, table, files, walk);
      forall i | 0 <= i < |walk| - 1 ensures LinkedAt(table, walk, i) { LinksHold(base, post, table, files, walk, i); }
    }
  }

  // ---- The table of files that agree --------------------------------------------------------------------

  ghost function StateAt(files: set<ObjectRef>, p: nat): (nat, nat)
    requires exists o :: o in files && BatchPosition(o) == p
  {
    var o :| o in files && BatchPosition(o) == p;
    (o.pre, o.post)
  }

  lemma AgreeingFilesHaveATable(files: set<ObjectRef>) returns (table: Table)
    requires forall a, b :: a in files && b in files && SameBatch(a, b) ==> a.pre == b.pre && a.post == b.post
    ensures IsTable(table, files)
  {
    var positions := set o | o in files :: BatchPosition(o);
    table := map p | p in positions :: StateAt(files, p);
    forall o | o in files ensures BatchPosition(o) in table && table[BatchPosition(o)] == (o.pre, o.post) {
      var f :| f in files && BatchPosition(f) == BatchPosition(o)
        && StateAt(files, BatchPosition(o)) == (f.pre, f.post);
      PositionsTell(f, o);
    }
  }

  /** A set of files is accepted exactly when it chains up from the base to the final state. */
  lemma AcceptsMeansChainsUp(base: nat, post: nat, files: set<ObjectRef>)
    ensures Accepts(base, post, files) <==> ChainsUp(base, post, files)
  {
    if Accepts(base, post, files) {
      var table :| IsTable(table, files) && ChainHolds(base, post, table, Ascending(table.Keys));
      ChainIsWalk(base, post, table, Ascending(table.Keys));
      WalkChainsUp(base, post, table, files, Ascending(table.Keys));
    }
    if ChainsUp(base, post, files) {
      var table := AgreeingFilesHaveATable(files);
      ChainWalksUp(base, post, table, files, Ascending(table.Keys));
      ChainIsWalk(base, post, table, Ascending(table.Keys));
    }
  }
}
