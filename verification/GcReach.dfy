/**
  What garbage collection keeps, told as a graph: the stored objects, the manifests and base
  manifests they hold, and which of them refers to which.
 */
module GcReach {
  import opened Prelude
  import opened Format
  import opened ObjectRefs
  import opened Manifests
  import opened Gc

  datatype Node = AKey(key: StoreKey) | AManifest(manifest: Manifest) | ABase(root: BaseRoot)

  function FileKey(id: ObjectIdentity): StoreKey {
    match id.kind
    case Volume => BlxFile(id.namespace, id.fence, id.objectId)
    case ImportedBase => ImportedBlx(id.namespace, id.fence, id.objectId)
  }

  /** The complete list a manifest refers to, as stored; None if it is not there or does not decode. */
  function StoredList(d: Decoders, b: Bucket, m: Manifest): Option<CompleteFileList>
    requires m.completeList.Some?
  {
    var key := FileList(m.volume, m.completeList.value.fence, m.completeList.value.list);
    if key in b then d.list(m.completeList.value, m.volume, b[key]) else None
  }

  /** The file is one that the manifest stands for, given its list. */
  predicate StandsFor(d: Decoders, b: Bucket, m: Manifest, o: ObjectRef) {
    if m.completeList.None? then d.files(m, None).Some? && o in d.files(m, None).value
    else
      var list := StoredList(d, b, m);
      list.Some? && d.files(m, list).Some? && o in d.files(m, list).value
  }

  predicate InBase(d: Decoders, b: Bucket, root: BaseRoot, o: ObjectRef) {
    var key := BaseManifestKey(root.base, root.manifest);
    key in b && d.baseManifest(root, b[key]).Some? && o in d.baseManifest(root, b[key]).value
  }

  /** What an object refers to. */
  predicate KeyRefers(d: Decoders, b: Bucket, key: StoreKey, y: Node)
    requires key in b
  {
    match key
    case Head(volume) =>
      var head := d.head(volume, b[key]);
      && head.Some? && head.value.Some?
      && var ptr := head.value.value;
         var target := ArchiveManifest(volume, ptr.fence, ptr.archiveSeq);
         || y == AKey(target)
         || (&& y.AManifest? && target in b && d.checksum(b[target]) == ptr.checksum
             && d.manifest(volume, b[target]) == Some(y.manifest))
    case BaseRootKey(base) =>
      var root := d.baseRoot(base, b[key]);
      root.Some? && y == ABase(BaseRoot(base, root.value.manifest, root.value.manifestChecksum, root.value.post))
    case Pending(volume, fence, archiveSeq) =>
      && y.AManifest? && d.manifest(volume, b[key]) == Some(y.manifest)
      && y.manifest.fence == fence && y.manifest.archiveSeq == archiveSeq
    case _ => false
  }

  ghost predicate Refers(d: Decoders, b: Bucket, x: Node, y: Node) {
    match x
    case AKey(key) => key in b && KeyRefers(d, b, key, y)
    case AManifest(m) =>
      || (m.completeList.Some? && y == AKey(FileList(m.volume, m.completeList.value.fence, m.completeList.value.list)))
      || (y.AKey? && exists o :: StandsFor(d, b, m, o) && y.key == FileKey(o.identity))
      || (m.base.Some? && y == ABase(BaseRoot(m.base.value.base, m.base.value.manifest,
                                              m.base.value.manifestChecksum, m.base.value.post)))
    case ABase(root) =>
      || y == AKey(BaseManifestKey(root.base, root.manifest))
      || (y.AKey? && exists o :: InBase(d, b, root, o) && y.key == FileKey(o.identity))
  }

  /** The volume's head points at this capture and archive or at later ones. */
  predicate HeadReached(d: Decoders, b: Bucket, volume: U64, captureSeq: nat, archiveSeq: nat) {
    && Head(volume) in b
    && var head := d.head(volume, b[Head(volume)]);
    && head.Some? && head.value.Some?
    && var ptr := head.value.value;
       ptr.captureSeq > captureSeq || (ptr.captureSeq == captureSeq && ptr.archiveSeq >= archiveSeq)
  }

  /** A marker that its volume's head has caught up with. */
  predicate CaughtUp(d: Decoders, b: Bucket, key: StoreKey)
    requires key in b && key.Pending?
  {
    var m := d.manifest(key.volume, b[key]);
    && m.Some? && m.value.fence == key.fence && m.value.archiveSeq == key.archiveSeq
    && HeadReached(d, b, key.volume, m.value.captureSeq, m.value.archiveSeq)
  }

  /** Heads, base roots, and the markers of publications still under way. */
  predicate IsSource(d: Decoders, b: Bucket, key: StoreKey) {
    key in b && (key.Head? || key.BaseRootKey? || (key.Pending? && !CaughtUp(d, b, key)))
  }

  ghost predicate IsPath(d: Decoders, b: Bucket, path: seq<Node>) {
    path != [] && forall i :: 0 <= i < |path| - 1 ==> Refers(d, b, path[i], path[i + 1])
  }

  ghost predicate Leads(d: Decoders, b: Bucket, key: StoreKey, path: seq<Node>, n: Node) {
    IsSource(d, b, key) && IsPath(d, b, path) && path[0] == AKey(key) && path[|path| - 1] == n
  }

  ghost predicate Reachable(d: Decoders, b: Bucket, n: Node) {
    exists key, path :: Leads(d, b, key, path, n)
  }

  // ---- From paths to closures --------------------------------------------------------------

  function Below(d: Decoders, b: Bucket, n: Node): set<StoreKey> {
    match n
    case AKey(key) => {key}
    case AManifest(m) => ManifestClosure(d, b, m)
    case ABase(root) => BaseClosure(d, b, root)
  }

  predicate IsLeaf(n: Node) {
    n.AKey? ==> !n.key.Head? && !n.key.BaseRootKey? && !n.key.Pending?
  }

  lemma ReferredIsBelow(d: Decoders, b: Bucket, x: Node, y: Node)
    requires Refers(d, b, x, y) && !x.AKey?
    ensures Below(d, b, y) <= Below(d, b, x) && IsLeaf(y)
  {
  }

  lemma KeyReferredIsBelow(d: Decoders, b: Bucket, key: StoreKey, y: Node)
    requires IsSource(d, b, key) && Refers(d, b, AKey(key), y)
    ensures Below(d, b, y) <= Closure(d, b, key) && IsLeaf(y)
  {
  }

  lemma {:induction false} PathStaysBelow(d: Decoders, b: Bucket, path: seq<Node>)
    requires IsPath(d, b, path) && IsLeaf(path[0])
    ensures Below(d, b, path[|path| - 1]) <= Below(d, b, path[0])
    decreases |path|
  {
    if |path| > 1 {
      assert Refers(d, b, path[0], path[1]);
      ReferredIsBelow(d, b, path[0], path[1]);
      var rest := path[1..];
      forall i | 0 <= i < |rest| - 1 ensures Refers(d, b, rest[i], rest[i + 1]) {
        assert Refers(d, b, path[i + 1], path[i + 2]);
      }
      PathStaysBelow(d, b, rest);
    }
  }

  lemma SourceIsItsOwn(d: Decoders, b: Bucket, key: StoreKey)
    requires IsSource(d, b, key)
    ensures key in Closure(d, b, key)
  {
  }

  lemma TailIsPath(d: Decoders, b: Bucket, path: seq<Node>)
    requires IsPath(d, b, path) && |path| > 1
    ensures IsPath(d, b, path[1..]) && Refers(d, b, path[0], path[1])
  {
    forall i | 0 <= i < |path[1..]| - 1 ensures Refers(d, b, path[1..][i], path[1..][i + 1]) {
      assert Refers(d, b, path[i + 1], path[i + 2]);
    }
  }

  lemma ReachableIsLive(d: Decoders, b: Bucket, k: StoreKey)
    requires Reachable(d, b, AKey(k))
    ensures Live(d, b, k)
  {
    var key, path :| Leads(d, b, key, path, AKey(k));
    if |path| == 1 {
      SourceIsItsOwn(d, b, key);
    } else {
      TailIsPath(d, b, path);
      KeyReferredIsBelow(d, b, key, path[1]);
      PathStaysBelow(d, b, path[1..]);
      assert path[1..][|path[1..]| - 1] == AKey(k);
    }
  }

  // ---- From closures to paths ---------------------------------------------------------------

  lemma Extend(d: Decoders, b: Bucket, x: Node, y: Node)
    requires Reachable(d, b, x) && Refers(d, b, x, y)
    ensures Reachable(d, b, y)
  {
    var key, path :| Leads(d, b, key, path, x);
    var longer := path + [y];
    forall i | 0 <= i < |longer| - 1 ensures Refers(d, b, longer[i], longer[i + 1]) {
      if i < |path| - 1 { assert Refers(d, b, path[i], path[i + 1]); }
    }
    assert Leads(d, b, key, longer, y);
  }

  lemma SourceIsReachable(d: Decoders, b: Bucket, key: StoreKey)
    requires IsSource(d, b, key)
    ensures Reachable(d, b, AKey(key))
  {
    assert Leads(d, b, key, [AKey(key)], AKey(key));
  }

  lemma BelowBase(d: Decoders, b: Bucket, root: BaseRoot, k: StoreKey)
    requires Reachable(d, b, ABase(root)) && k in BaseClosure(d, b, root)
    ensures Reachable(d, b, AKey(k))
  {
    if k != BaseKey(root) {
      var o :| o in BaseFiles(d, b, root).value && k == ObjectKey(o.identity);
      assert InBase(d, b, root, o);
    }
    Extend(d, b, ABase(root), AKey(k));
  }

  lemma BelowManifest(d: Decoders, b: Bucket, m: Manifest, k: StoreKey)
    requires Reachable(d, b, AManifest(m)) && k in ManifestClosure(d, b, m)
    ensures Reachable(d, b, AKey(k))
  {
    if m.base.Some? && k in BaseClosure(d, b, RootOf(m.base.value)) {
      Extend(d, b, AManifest(m), ABase(RootOf(m.base.value)));
      BelowBase(d, b, RootOf(m.base.value), k);
    } else {
      if !(m.completeList.Some? && k == ListKey(m)) {
        var o :| o in CurrentOf(d, b, m).value && k == ObjectKey(o.identity);
        assert StandsFor(d, b, m, o);
      }
      Extend(d, b, AManifest(m), AKey(k));
    }
  }

  lemma ClosureHasSource(d: Decoders, b: Bucket, key: StoreKey, k: StoreKey)
    requires key in b && k in Closure(d, b, key)
    ensures IsSource(d, b, key)
  {
  }

  lemma LiveIsReachable(d: Decoders, b: Bucket, k: StoreKey)
    requires Live(d, b, k)
    ensures Reachable(d, b, AKey(k))
  {
    var key :| key in b && k in Closure(d, b, key);
    ClosureHasSource(d, b, key, k);
    SourceIsReachable(d, b, key);
    if k != key {
      match key
      case Head(volume) =>
        var ptr := HeadPtr(d, b, volume).value;
        if k == PtrKey(volume, ptr) {
          Extend(d, b, AKey(key), AKey(k));
        } else {
          var m := PointedManifest(d, b, volume, ptr).value;
          Extend(d, b, AKey(key), AManifest(m));
          BelowManifest(d, b, m, k);
        }
      case BaseRootKey(base) =>
        var root := d.baseRoot(base, b[key]).value.(base := base);
        Extend(d, b, AKey(key), ABase(root));
        BelowBase(d, b, root, k);
      case Pending(volume, _, _) =>
        var m := PendingManifest(d, b, key).value;
        Extend(d, b, AKey(key), AManifest(m));
        BelowManifest(d, b, m, k);
    }
  }

  /** What the plan keeps is what can be reached from a head, a base root, or the marker of a
      publication under way. */
  lemma LiveMeansReachable(d: Decoders, b: Bucket, k: StoreKey)
    ensures Live(d, b, k) <==> Reachable(d, b, AKey(k))
  {
    if Live(d, b, k) { LiveIsReachable(d, b, k); }
    if Reachable(d, b, AKey(k)) { ReachableIsLive(d, b, k); }
  }

  // ---- Reading -------------------------------------------------------------------------------

  /** The node is there and decodes. */
  predicate NodeReads(d: Decoders, b: Bucket, n: Node) {
    match n
    case AKey(key) =>
      key in b ==>
        (match key
         case Head(volume) =>
           var head := d.head(volume, b[key]);
           && head.Some?
           && (head.value.Some? ==>
                 var ptr := head.value.value;
                 var target := ArchiveManifest(volume, ptr.fence, ptr.archiveSeq);
                 target in b && d.checksum(b[target]) == ptr.checksum && d.manifest(volume, b[target]).Some?)
         case BaseRootKey(base) => d.baseRoot(base, b[key]).Some?
         case Pending(volume, fence, archiveSeq) =>
           var m := d.manifest(volume, b[key]);
           m.Some? && m.value.fence == fence && m.value.archiveSeq == archiveSeq
         case _ => true)
    case AManifest(m) =>
      if m.completeList.None? then d.files(m, None).Some?
      else StoredList(d, b, m).Some? && d.files(m, StoredList(d, b, m)).Some?
    case ABase(root) =>
      var key := BaseManifestKey(root.base, root.manifest);
      key in b && d.baseManifest(root, b[key]).Some?
  }

  /** Everything from the node on down reads. */
  predicate ReadsDown(d: Decoders, b: Bucket, n: Node) {
    match n
    case AKey(_) => true
    case AManifest(m) => ManifestReads(d, b, m)
    case ABase(root) => BaseFiles(d, b, root).Some?
  }

  lemma ReferredReads(d: Decoders, b: Bucket, x: Node, y: Node)
    requires Refers(d, b, x, y) && !x.AKey? && ReadsDown(d, b, x)
    ensures ReadsDown(d, b, y) && IsLeaf(y)
  {
  }

  lemma LeafReads(d: Decoders, b: Bucket, n: Node)
    requires IsLeaf(n) && ReadsDown(d, b, n)
    ensures NodeReads(d, b, n)
  {
  }

  lemma {:induction false} PathReads(d: Decoders, b: Bucket, path: seq<Node>)
    requires IsPath(d, b, path) && IsLeaf(path[0]) && ReadsDown(d, b, path[0])
    ensures NodeReads(d, b, path[|path| - 1])
    decreases |path|
  {
    LeafReads(d, b, path[0]);
    if |path| > 1 {
      TailIsPath(d, b, path);
      ReferredReads(d, b, path[0], path[1]);
      PathReads(d, b, path[1..]);
    }
  }

  lemma SourceReads(d: Decoders, b: Bucket, key: StoreKey, y: Node)
    requires IsSource(d, b, key) && Reads(d, b, key)
    ensures NodeReads(d, b, AKey(key))
    ensures Refers(d, b, AKey(key), y) ==> ReadsDown(d, b, y) && IsLeaf(y)
  {
  }

  lemma ReachedReads(d: Decoders, b: Bucket, n: Node)
    requires AllRead(d, b) && Reachable(d, b, n)
    ensures NodeReads(d, b, n)
  {
    var key, path :| Leads(d, b, key, path, n);
    SourceReads(d, b, key, if |path| > 1 then path[1] else n);
    if |path| > 1 {
      TailIsPath(d, b, path);
      PathReads(d, b, path[1..]);
    }
  }

  lemma ManifestReadsDown(d: Decoders, b: Bucket, m: Manifest)
    requires Reachable(d, b, AManifest(m)) && forall n :: Reachable(d, b, n) ==> NodeReads(d, b, n)
    ensures ManifestReads(d, b, m)
  {
    assert NodeReads(d, b, AManifest(m));
    if m.base.Some? {
      Extend(d, b, AManifest(m), ABase(RootOf(m.base.value)));
      assert NodeReads(d, b, ABase(RootOf(m.base.value)));
    }
  }

  lemma RootReadsDown(d: Decoders, b: Bucket, key: StoreKey)
    requires key in b && forall n :: Reachable(d, b, n) ==> NodeReads(d, b, n)
    ensures Reads(d, b, key)
  {
    if IsSource(d, b, key) {
      SourceIsReachable(d, b, key);
      assert NodeReads(d, b, AKey(key));
      match key
      case Head(volume) =>
        var head := d.head(volume, b[key]).value;
        if head.Some? {
          var m := PointedManifest(d, b, volume, head.value).value;
          Extend(d, b, AKey(key), AManifest(m));
          ManifestReadsDown(d, b, m);
        }
      case BaseRootKey(base) =>
        var root := d.baseRoot(base, b[key]).value.(base := base);
        Extend(d, b, AKey(key), ABase(root));
        assert NodeReads(d, b, ABase(root));
      case Pending(volume, _, _) =>
        var m := PendingManifest(d, b, key).value;
        Extend(d, b, AKey(key), AManifest(m));
        ManifestReadsDown(d, b, m);
    }
  }

  /** The plan acts exactly when everything that can be reached is there and decodes. */
  lemma AllReadMeansReachedReads(d: Decoders, b: Bucket)
    ensures AllRead(d, b) <==> forall n :: Reachable(d, b, n) ==> NodeReads(d, b, n)
  {
    if AllRead(d, b) {
      forall n | Reachable(d, b, n) ensures NodeReads(d, b, n) { ReachedReads(d, b, n); }
    }
    if forall n :: Reachable(d, b, n) ==> NodeReads(d, b, n) {
      forall key | key in b ensures Reads(d, b, key) { RootReadsDown(d, b, key); }
    }
  }

  // ---- Publications under way ------------------------------------------------------------------

  /** What a plan names. */
  ghost predicate Names(d: Decoders, now: nat, grace: nat, listing: seq<Listed>, doomed: seq<StoreKey>) {
    forall k :: k in doomed <==> AllRead(d, BucketOf(listing)) && Collectable(d, listing, now, grace, k)
  }

  /** As long as no head of its volume has reached it, a pending manifest keeps its marker, its
      list, its files and its base. */
  lemma PublicationIsSpared(d: Decoders, now: nat, grace: nat, listing: seq<Listed>, doomed: seq<StoreKey>,
                            volume: U64, m: Manifest, k: StoreKey)
    requires Names(d, now, grace, listing, doomed)
    requires var b, key := BucketOf(listing), Pending(volume, m.fence, m.archiveSeq);
             key in b && d.manifest(volume, b[key]) == Some(m)
             && !HeadReached(d, b, volume, m.captureSeq, m.archiveSeq)
    requires k == Pending(volume, m.fence, m.archiveSeq) || k in ManifestClosure(d, BucketOf(listing), m)
    ensures k !in doomed
  {
    var b, key := BucketOf(listing), Pending(volume, m.fence, m.archiveSeq);
    SourceIsReachable(d, b, key);
    if k != key {
      Extend(d, b, AKey(key), AManifest(m));
      BelowManifest(d, b, m, k);
    }
    ReachableIsLive(d, b, k);
  }

  lemma MarkerKeepsOnlyItself(d: Decoders, b: Bucket, key: StoreKey)
    requires key.Pending? && Live(d, b, key)
    ensures IsSource(d, b, key)
  {
    var root :| root in b && key in Closure(d, b, root);
    ClosureHasSource(d, b, root, key);
    assert root == key;
  }

  /** Once the head has reached it, the marker is garbage like any other. */
  lemma PublishedMarkerGoes(d: Decoders, now: nat, grace: nat, listing: seq<Listed>, doomed: seq<StoreKey>,
                            i: nat, m: Manifest)
    requires Names(d, now, grace, listing, doomed) && Complete(listing) && AllRead(d, BucketOf(listing))
    requires i < |listing| && listing[i].key.Pending? && listing[i].putAt + grace < now
    requires var b, key := BucketOf(listing), listing[i].key;
             && key in b && d.manifest(key.volume, b[key]) == Some(m) && m.fence == key.fence
             && m.archiveSeq == key.archiveSeq && HeadReached(d, b, key.volume, m.captureSeq, m.archiveSeq)
    ensures listing[i].key in doomed
  {
    if Live(d, BucketOf(listing), listing[i].key) {
      MarkerKeepsOnlyItself(d, BucketOf(listing), listing[i].key);
    }
  }
}
