/**
  The chain of state checksums over the batches of a file set: each batch starts from
  the state its predecessor left, and a materialized batch (equal pre and post) may
  start the chain anew.
 */
module StateChain {
  import opened Prelude
  import opened Ordered
  import opened ObjectRefs

  /** Batches sort by sequence number, then by batch number; both are 64-bit. */
  function BatchPosition(o: ObjectRef): nat {
    o.maxSeq * U64_LIMIT + o.batch
  }

  lemma BatchPositionOrders(a: ObjectRef, b: ObjectRef)
    ensures BatchPosition(a) < BatchPosition(b) <==> a.maxSeq < b.maxSeq || (a.maxSeq == b.maxSeq && a.batch < b.batch)
    ensures BatchPosition(a) == BatchPosition(b) <==> a.maxSeq == b.maxSeq && a.batch == b.batch
  {
  }

  type Table = map<nat, (nat, nat)>

  /** The table holds exactly the states of the files, which therefore agree per batch. */
  ghost predicate IsTable(table: Table, files: set<ObjectRef>) {
    && (forall o :: o in files ==> BatchPosition(o) in table && table[BatchPosition(o)] == (o.pre, o.post))
    && (forall p :: p in table ==> exists o :: o in files && BatchPosition(o) == p)
  }

  predicate Covers(table: Table, walk: seq<nat>) {
    forall p :: p in walk ==> p in table
  }

  /** Where the batches of a walk lead from a checksum. */
  function Follow(checksum: nat, table: Table, walk: seq<nat>): Option<nat>
    requires Covers(table, walk)
    decreases |walk|
  {
    if walk == [] then Some(checksum)
    else
      assert walk[0] in walk;
      if table[walk[0]].0 != checksum then None else Follow(table[walk[0]].1, table, walk[1..])
  }

  predicate ChainHolds(base: nat, post: nat, table: Table, walk: seq<nat>)
    requires Covers(table, walk)
  {
    if walk == [] then post == base
    else
      assert walk[0] in walk;
      var (first, after) := table[walk[0]];
      (first == after || first == base) && Follow(after, table, walk[1..]) == Some(post)
  }

  /** The verdict, as a property of the set of files alone. */
  ghost predicate Accepts(base: nat, post: nat, files: set<ObjectRef>) {
    exists table :: IsTable(table, files) && ChainHolds(base, post, table, Ascending(table.Keys))
  }

  function AsSet(files: seq<ObjectRef>): set<ObjectRef> {
    set o | o in files
  }

  lemma TableIsUnique(s: Table, t: Table, files: set<ObjectRef>)
    requires IsTable(s, files) && IsTable(t, files)
    ensures s == t
  {
    forall p ensures p in s <==> p in t {
    }
    forall p | p in s ensures s[p] == t[p] {
      var o :| o in files && BatchPosition(o) == p;
    }
  }

  lemma TableGrows(table: Table, files: set<ObjectRef>, o: ObjectRef)
    requires IsTable(table, files)
    requires BatchPosition(o) in table ==> table[BatchPosition(o)] == (o.pre, o.post)
    ensures IsTable(table[BatchPosition(o) := (o.pre, o.post)], files + {o})
  {
    var grown := table[BatchPosition(o) := (o.pre, o.post)];
    forall p | p in grown ensures exists f :: f in files + {o} && BatchPosition(f) == p {
      if p in table {
        var f :| f in files && BatchPosition(f) == p;
        assert f in files + {o};
      } else {
        assert o in files + {o};
      }
    }
  }

  lemma ConflictHasNoTable(table: Table, files: set<ObjectRef>, o: ObjectRef, more: set<ObjectRef>)
    requires IsTable(table, files) && BatchPosition(o) in table && table[BatchPosition(o)] != (o.pre, o.post)
    requires files <= more && o in more
    ensures forall t :: !IsTable(t, more)
  {
    var f :| f in files && BatchPosition(f) == BatchPosition(o);
    assert f in more;
  }

  /** Collect the batches' states, or find two files of one batch that disagree. */
  method CollectBatches(files: seq<ObjectRef>) returns (table: Option<Table>)
    ensures table.Some? ==> IsTable(table.value, AsSet(files))
    ensures table.None? ==> forall t :: !IsTable(t, AsSet(files))
  {
    var batches: Table := map[];
    for i := 0 to |files|
      invariant IsTable(batches, AsSet(files[..i]))
    {
      var o := files[i];
      if BatchPosition(o) in batches && batches[BatchPosition(o)] != (o.pre, o.post) {
        ConflictHasNoTable(batches, AsSet(files[..i]), o, AsSet(files));
        return None;
      }
      TableGrows(batches, AsSet(files[..i]), o);
      assert AsSet(files[..i + 1]) == AsSet(files[..i]) + {o};
      batches := batches[BatchPosition(o) := (o.pre, o.post)];
    }
    assert files[..|files|] == files;
    return Some(batches);
  }

  method WalkChain(base: nat, post: nat, table: Table, walk: seq<nat>) returns (ok: bool)
    requires Covers(table, walk)
    ensures ok <==> ChainHolds(base, post, table, walk)
  {
    if |walk| == 0 {
      return post == base;
    }
    assert walk[0] in walk;
    var (firstPre, firstPost) := table[walk[0]];
    if |walk| == 1 && firstPre == firstPost && firstPost == post {
      return true;
    }
    if firstPre != firstPost && firstPre != base {
      return false;
    }
    var checksum := firstPost;
    for i := 1 to |walk|
      invariant Follow(firstPost, table, walk[1..]) == Follow(checksum, table, walk[i..])
    {
      assert walk[i..][0] == walk[i] && walk[i] in walk;
      if table[walk[i]].0 != checksum {
        return false;
      }
      assert walk[i..][1..] == walk[i + 1..];
      checksum := table[walk[i]].1;
    }
    return checksum == post;
  }

  /** The verdict depends on the set of files only, not on their order or repetition. */
  method ValidateFileStateChain(base: nat, post: nat, files: seq<ObjectRef>) returns (ok: bool)
    ensures ok <==> Accepts(base, post, AsSet(files))
  {
    var table := CollectBatches(files);
    if table.None? {
      return false;
    }
    ok := WalkChain(base, post, table.value, Ascending(table.value.Keys));
    if Accepts(base, post, AsSet(files)) {
      var t :| IsTable(t, AsSet(files)) && ChainHolds(base, post, t, Ascending(t.Keys));
      TableIsUnique(t, table.value, AsSet(files));
    }
  }

  // ---- Replacing the head of the chain by a materialized batch --------------------------------

  lemma {:induction false} FollowSuffix(checksum: nat, table: Table, walk: seq<nat>, n: nat)
    requires Covers(table, walk) && n < |walk| && Follow(checksum, table, walk).Some?
    ensures walk[n] in table && Follow(table[walk[n]].1, table, walk[n + 1..]) == Follow(checksum, table, walk)
    decreases n
  {
    assert walk[n] in walk;
    if n > 0 {
      FollowSuffix(table[walk[0]].1, table, walk[1..], n - 1);
      assert walk[1..][n..] == walk[n + 1..];
    }
  }

  lemma ChainSuffix(base: nat, post: nat, table: Table, walk: seq<nat>, n: nat)
    requires Covers(table, walk) && n < |walk| && ChainHolds(base, post, table, walk)
    ensures walk[n] in table && Follow(table[walk[n]].1, table, walk[n + 1..]) == Some(post)
  {
    assert walk[n] in walk;
    if n > 0 {
      FollowSuffix(table[walk[0]].1, table, walk[1..], n - 1);
      assert walk[1..][n..] == walk[n + 1..];
    }
  }

  /** A walk sees only the entries it visits. */
  lemma {:induction false} FollowAgrees(checksum: nat, s: Table, t: Table, walk: seq<nat>)
    requires Covers(s, walk) && Covers(t, walk) && forall p :: p in walk ==> s[p] == t[p]
    ensures Follow(checksum, s, walk) == Follow(checksum, t, walk)
    decreases |walk|
  {
    if walk != [] {
      assert walk[0] in walk;
      FollowAgrees(s[walk[0]].1, s, t, walk[1..]);
    }
  }

  /** The files of batches after position `k`. */
  ghost function After(files: set<ObjectRef>, k: nat): set<ObjectRef> {
    set o | o in files && BatchPosition(o) > k
  }

  /** Every file of the materialized batch sits at position `at` with state (c, c). */
  ghost predicate Materializes(batch: set<ObjectRef>, at: nat, c: nat) {
    batch != {} && forall o :: o in batch ==> BatchPosition(o) == at && o.pre == c && o.post == c
  }

  function Above(table: Table, k: nat): set<nat> {
    set p | p in table && p > k
  }

  function TableAfter(table: Table, k: nat, at: nat, c: nat): (after: Table)
    ensures after.Keys == Above(table, k) + {at}
  {
    (map p | p in Above(table, k) :: table[p])[at := (c, c)]
  }

  lemma TableAfterIsTable(table: Table, files: set<ObjectRef>, k: nat, at: nat, c: nat, batch: set<ObjectRef>)
    requires IsTable(table, files) && Materializes(batch, at, c)
    requires forall o :: o in After(files, k) ==> at < BatchPosition(o)
    ensures IsTable(TableAfter(table, k, at, c), After(files, k) + batch)
  {
    var all := After(files, k) + batch;
    forall p | p in TableAfter(table, k, at, c) ensures exists o :: o in all && BatchPosition(o) == p {
      if p == at {
        var o :| o in batch;
        assert o in all;
      } else {
        var o :| o in files && BatchPosition(o) == p;
        assert o in all;
      }
    }
  }

  lemma AscendingAfter(keys: set<nat>, kept: set<nat>, n: nat, at: nat)
    requires n < |Ascending(keys)|
    requires forall p :: p in kept <==> p in keys && p > Ascending(keys)[n]
    requires forall p :: p in kept ==> at < p
    ensures Ascending(kept + {at}) == [at] + Ascending(keys)[n + 1..]
    ensures forall p :: p in Ascending(keys)[n + 1..] <==> p in kept
  {
    var walk := Ascending(keys);
    var rest := walk[n + 1..];
    forall p ensures p in rest <==> p in kept {
      TailIsAbove(walk, n, p);
    }
    ConsIncreasing(at, rest);
    AscendingIsThe([at] + rest, kept + {at});
  }

  lemma Restarts(base: nat, post: nat, table: Table, rest: seq<nat>, after: Table, at: nat, c: nat)
    requires Covers(table, rest) && Covers(after, [at] + rest) && at in after && after[at] == (c, c)
    requires forall p :: p in rest ==> p in after && after[p] == table[p]
    requires Follow(c, table, rest) == Some(post)
    ensures ChainHolds(base, post, after, [at] + rest)
  {
    assert ([at] + rest)[1..] == rest;
    FollowAgrees(c, table, after, rest);
  }

  lemma WalkAfter(table: Table, walk: seq<nat>, n: nat, at: nat, c: nat)
    requires walk == Ascending(table.Keys) && n < |walk|
    requires forall p :: p in table && p > walk[n] ==> at < p
    ensures Ascending(TableAfter(table, walk[n], at, c).Keys) == [at] + walk[n + 1..]
    ensures forall p :: p in walk[n + 1..] ==> p in table && p > walk[n]
  {
    AscendingAfter(table.Keys, Above(table, walk[n]), n, at);
  }

  lemma RestartedChainHolds(base: nat, post: nat, table: Table, walk: seq<nat>, n: nat, at: nat, c: nat)
    requires Covers(table, walk) && ChainHolds(base, post, table, walk)
    requires n < |walk| && walk[n] in table && table[walk[n]].1 == c
    requires forall p :: p in walk[n + 1..] ==> p in table && p > walk[n]
    requires forall p :: p in table && p > walk[n] ==> at < p
    ensures var after := TableAfter(table, walk[n], at, c);
            Covers(after, [at] + walk[n + 1..]) && ChainHolds(base, post, after, [at] + walk[n + 1..])
  {
    ChainSuffix(base, post, table, walk, n);
    Restarts(base, post, table, walk[n + 1..], TableAfter(table, walk[n], at, c), at, c);
  }

  /** Replacing the leading batches, up to the one of `o` that left checksum `c`, by one
      materialized batch (c, c) that sorts before the rest keeps the chain accepted. */
  lemma MaterializingKeepsTheChain(base: nat, post: nat, files: set<ObjectRef>, o: ObjectRef, batch: set<ObjectRef>,
                                   at: nat)
    requires Accepts(base, post, files) && o in files && Materializes(batch, at, o.post)
    requires forall f :: f in files && BatchPosition(f) > BatchPosition(o) ==> at < BatchPosition(f)
    ensures Accepts(base, post, After(files, BatchPosition(o)) + batch)
  {
    var table :| IsTable(table, files) && ChainHolds(base, post, table, Ascending(table.Keys));
    var k := BatchPosition(o);
    assert k in Ascending(table.Keys);
    var n :| 0 <= n < |Ascending(table.Keys)| && Ascending(table.Keys)[n] == k;
    TableAfterIsTable(table, files, k, at, o.post, batch);
    forall p | p in table && p > k ensures at < p {
      var f :| f in files && BatchPosition(f) == p;
    }
    WalkAfter(table, Ascending(table.Keys), n, at, o.post);
    RestartedChainHolds(base, post, table, Ascending(table.Keys), n, at, o.post);
  }
}
