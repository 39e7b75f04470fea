/**
  When two buckets have the same reachable objects: a view that lost no root against the
  whole bucket, and a bucket before and after a sweep.
 */
module GcSafety {
  import opened Prelude
  import opened Format
  import opened Manifests
  import opened Gc

  /** The objects whose bytes marking looks at. */
  predicate NeedsBody(k: StoreKey) {
    k.Head? || k.ArchiveManifest? || k.FileList? || k.Pending? || k.BaseRootKey? || k.BaseManifestKey?
  }

  predicate IsRoot(k: StoreKey) {
    k.Head? || k.Pending? || k.BaseRootKey?
  }

  /** `v` shows part of `b`, faithfully where bytes matter. */
  predicate Shows(v: Bucket, b: Bucket) {
    forall k :: k in v ==> k in b && (NeedsBody(k) ==> v[k] == b[k])
  }

  predicate SameHeads(v: Bucket, b: Bucket) {
    forall volume: U64 :: Head(volume) in v <==> Head(volume) in b
  }

  // ---- A view that lost no root ------------------------------------------------------------------------

  lemma BaseSeen(d: Decoders, v: Bucket, b: Bucket, root: BaseRoot)
    requires Shows(v, b) && BaseFiles(d, v, root).Some?
    ensures BaseFiles(d, b, root) == BaseFiles(d, v, root) && BaseClosure(d, b, root) == BaseClosure(d, v, root)
  {
  }

  lemma ManifestSeen(d: Decoders, v: Bucket, b: Bucket, m: Manifest)
    requires Shows(v, b) && ManifestReads(d, v, m)
    ensures ManifestReads(d, b, m) && ManifestClosure(d, b, m) == ManifestClosure(d, v, m)
  {
    assert CurrentOf(d, b, m) == CurrentOf(d, v, m);
    if m.base.Some? { BaseSeen(d, v, b, RootOf(m.base.value)); }
  }

  /** What reads in the view reads the same in the bucket. */
  lemma RootSeen(d: Decoders, v: Bucket, b: Bucket, key: StoreKey)
    requires Shows(v, b) && SameHeads(v, b) && key in v && key in b && Reads(d, v, key)
    ensures Reads(d, b, key) && Closure(d, b, key) == Closure(d, v, key)
  {
    match key {
      case Head(volume) =>
        var head := d.head(volume, v[key]).value;
        if head.Some? { ManifestSeen(d, v, b, PointedManifest(d, v, volume, head.value).value); }
      case BaseRootKey(base) => BaseSeen(d, v, b, d.baseRoot(base, v[key]).value.(base := base));
      case Pending(volume, _, _) =>
        var m := PendingManifest(d, v, key).value;
        assert HeadPtr(d, v, volume) == HeadPtr(d, b, volume);
        if !Published(d, v, volume, m) { ManifestSeen(d, v, b, m); }
      case _ =>
    }
  }

  /** A view that shows every root and reads all the way down has exactly the bucket's
      reachable objects. */
  lemma ViewKnowsLive(d: Decoders, v: Bucket, b: Bucket, k: StoreKey)
    requires Shows(v, b) && AllRead(d, v)
    requires forall r :: r in b && IsRoot(r) ==> r in v
    ensures Live(d, v, k) <==> Live(d, b, k)
  {
    assert SameHeads(v, b);
    if Live(d, v, k) {
      var key :| key in v && k in Closure(d, v, key);
      RootSeen(d, v, b, key);
    }
    if Live(d, b, k) {
      var key :| key in b && k in Closure(d, b, key);
      assert IsRoot(key);
      RootSeen(d, v, b, key);
    }
  }

  /** A root the view has read reaches there at least what it reaches in the bucket: a
      pending manifest may look unpublished when its head was missed, never the reverse. */
  lemma ReadRootReachesAll(d: Decoders, v: Bucket, b: Bucket, key: StoreKey)
    requires Shows(v, b) && key in v && key in b && Reads(d, v, key)
    ensures Closure(d, b, key) <= Closure(d, v, key)
  {
    match key {
      case Head(volume) =>
        var head := d.head(volume, v[key]).value;
        if head.Some? { ManifestSeen(d, v, b, PointedManifest(d, v, volume, head.value).value); }
      case BaseRootKey(base) => BaseSeen(d, v, b, d.baseRoot(base, v[key]).value.(base := base));
      case Pending(volume, _, _) =>
        var m := PendingManifest(d, v, key).value;
        if Published(d, v, volume, m) {
          assert HeadPtr(d, v, volume) == HeadPtr(d, b, volume);
        } else {
          ManifestSeen(d, v, b, m);
        }
      case _ =>
    }
  }

  /** Some root of the bucket that the view lacks reaches `k`. */
  predicate MissedRootReaches(d: Decoders, v: Bucket, b: Bucket, k: StoreKey) {
    exists r :: r in b && IsRoot(r) && r !in v && k in Closure(d, b, r)
  }

  /** What a view that reads all the way down takes for garbage is live after all exactly
      when a root it missed reaches it. */
  lemma OnlyMissedRootsUncover(d: Decoders, v: Bucket, b: Bucket, k: StoreKey)
    requires Shows(v, b) && AllRead(d, v) && !Live(d, v, k)
    ensures Live(d, b, k) <==> MissedRootReaches(d, v, b, k)
  {
    if Live(d, b, k) {
      var key :| key in b && k in Closure(d, b, key);
      assert IsRoot(key);
      if key in v {
        ReadRootReachesAll(d, v, b, key);
        assert false;
      }
    }
  }

  // ---- Before and after a sweep -----------------------------------------------------------------------------

  /** `v` is what a sweep left of `b`: everything reachable is still there. */
  predicate Swept(d: Decoders, b: Bucket, v: Bucket) {
    && (forall k :: k in v ==> k in b && v[k] == b[k])
    && (forall k :: k in b && Live(d, b, k) ==> k in v)
  }

  lemma BaseStays(d: Decoders, b: Bucket, v: Bucket, root: BaseRoot)
    requires (forall k :: k in v ==> k in b && v[k] == b[k]) && BaseFiles(d, b, root).Some? && BaseKey(root) in v
    ensures BaseFiles(d, v, root) == BaseFiles(d, b, root) && BaseClosure(d, v, root) == BaseClosure(d, b, root)
  {
  }

  lemma ManifestStays(d: Decoders, b: Bucket, v: Bucket, m: Manifest)
    requires (forall k :: k in v ==> k in b && v[k] == b[k]) && ManifestReads(d, b, m)
    requires forall k :: k in b && k in ManifestClosure(d, b, m) ==> k in v
    ensures ManifestReads(d, v, m) && ManifestClosure(d, v, m) == ManifestClosure(d, b, m)
  {
    assert CurrentOf(d, v, m) == CurrentOf(d, b, m);
    if m.base.Some? { BaseStays(d, b, v, RootOf(m.base.value)); }
  }

  lemma ClosureIsLive(d: Decoders, b: Bucket, key: StoreKey, k: StoreKey)
    requires key in b && k in Closure(d, b, key)
    ensures Live(d, b, k)
  {
  }

  lemma HeadsStay(d: Decoders, b: Bucket, v: Bucket)
    requires Swept(d, b, v)
    ensures SameHeads(v, b)
  {
    forall volume: U64 ensures Head(volume) in v <==> Head(volume) in b {
      if Head(volume) in b { ClosureIsLive(d, b, Head(volume), Head(volume)); }
    }
  }

  lemma RootStays(d: Decoders, b: Bucket, v: Bucket, key: StoreKey)
    requires Swept(d, b, v) && SameHeads(v, b) && key in v && key in b && Reads(d, b, key)
    ensures Reads(d, v, key) && Closure(d, v, key) == Closure(d, b, key)
  {
    forall k | k in b && k in Closure(d, b, key) ensures k in v {
      ClosureIsLive(d, b, key, k);
    }
    match key {
      case Head(volume) =>
        var head := d.head(volume, b[key]).value;
        if head.Some? { ManifestStays(d, b, v, PointedManifest(d, b, volume, head.value).value); }
      case BaseRootKey(base) => BaseStays(d, b, v, d.baseRoot(base, b[key]).value.(base := base));
      case Pending(volume, _, _) =>
        var m := PendingManifest(d, b, key).value;
        assert HeadPtr(d, v, volume) == HeadPtr(d, b, volume);
        if !Published(d, b, volume, m) { ManifestStays(d, b, v, m); }
      case _ =>
    }
  }

  /** A sweep changes neither what reads nor what is reachable. */
  lemma SweepKeepsLive(d: Decoders, b: Bucket, v: Bucket, k: StoreKey)
    requires AllRead(d, b) && Swept(d, b, v)
    ensures AllRead(d, v) && (Live(d, v, k) <==> Live(d, b, k))
  {
    HeadsStay(d, b, v);
    forall key | key in v ensures Reads(d, v, key) && Closure(d, v, key) == Closure(d, b, key) {
      RootStays(d, b, v, key);
    }
    if Live(d, b, k) {
      var key :| key in b && k in Closure(d, b, key);
      SweptKeepsRoot(d, b, v, key, k);
    }
  }

  /** A root with a closure is in its own closure, so a sweep leaves it. */
  lemma SweptKeepsRoot(d: Decoders, b: Bucket, v: Bucket, key: StoreKey, k: StoreKey)
    requires Swept(d, b, v) && key in b && k in Closure(d, b, key)
    ensures key in v
  {
    assert key in Closure(d, b, key);
    ClosureIsLive(d, b, key, key);
  }

  // ---- Planning again ------------------------------------------------------------------------------------------

  /** The listing without the objects that were deleted. */
  function Without(listing: seq<Listed>, doomed: seq<StoreKey>): seq<Listed> {
    if listing == [] then []
    else if Last(listing).key in doomed then Without(DropLast(listing), doomed)
    else Without(DropLast(listing), doomed) + [Last(listing)]
  }

  lemma {:induction false} WithoutIsPart(listing: seq<Listed>, doomed: seq<StoreKey>, o: Listed)
    ensures o in Without(listing, doomed) <==> o in listing && o.key !in doomed
  {
    if listing != [] {
      WithoutIsPart(DropLast(listing), doomed, o);
      assert listing == DropLast(listing) + [Last(listing)];
    }
  }

  lemma {:induction false} BucketWithout(listing: seq<Listed>, doomed: seq<StoreKey>)
    requires Complete(listing)
    ensures forall k :: k in BucketOf(Without(listing, doomed)) <==> k in BucketOf(listing) && k !in doomed
    ensures forall k :: k in BucketOf(Without(listing, doomed)) ==>
              BucketOf(Without(listing, doomed))[k] == BucketOf(listing)[k]
  {
    if listing != [] {
      BucketWithout(DropLast(listing), doomed);
      if Last(listing).key !in doomed {
        SnocParts(Without(DropLast(listing), doomed), Last(listing));
      }
      LastIsFirst(listing);
    }
  }

  lemma LastIsFirst(listing: seq<Listed>)
    requires Complete(listing) && listing != []
    ensures Last(listing).key !in BucketOf(DropLast(listing))
  {
  }

  lemma {:induction false} WithoutNothing(listing: seq<Listed>)
    ensures Without(listing, []) == listing
  {
    if listing != [] {
      WithoutNothing(DropLast(listing));
      assert listing == DropLast(listing) + [Last(listing)];
    }
  }

  predicate Expired(listing: seq<Listed>, now: nat, grace: nat, k: StoreKey) {
    exists i :: 0 <= i < |listing| && listing[i].key == k && PastGrace(now, grace, listing[i].putAt)
  }

  lemma WasExpired(listing: seq<Listed>, doomed: seq<StoreKey>, now: nat, grace: nat, k: StoreKey)
    requires Expired(Without(listing, doomed), now, grace, k)
    ensures Expired(listing, now, grace, k) && k !in doomed
  {
    var left := Without(listing, doomed);
    var i :| 0 <= i < |left| && left[i].key == k && PastGrace(now, grace, left[i].putAt);
    assert left[i] in left;
    WithoutIsPart(listing, doomed, left[i]);
    var j :| 0 <= j < |listing| && listing[j] == left[i];
  }

  /** Planning again after the deletions, at the same time, finds nothing. */
  lemma ReplanFindsNothing(d: Decoders, now: nat, grace: nat, listing: seq<Listed>, doomed: seq<StoreKey>, k: StoreKey)
    requires Complete(listing)
    requires forall x :: x in doomed <==> AllRead(d, BucketOf(listing)) && Collectable(d, listing, now, grace, x)
    ensures !(AllRead(d, BucketOf(Without(listing, doomed))) && Collectable(d, Without(listing, doomed), now, grace, k))
  {
    var b, v := BucketOf(listing), BucketOf(Without(listing, doomed));
    assert |doomed| > 0 ==> doomed[0] in doomed;
    if AllRead(d, b) {
      BucketWithout(listing, doomed);
      SweepKeepsLive(d, b, v, k);
      if Expired(Without(listing, doomed), now, grace, k) {
        WasExpired(listing, doomed, now, grace, k);
      }
    } else {
      WithoutNothing(listing);
    }
  }
}
