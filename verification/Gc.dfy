/**
  Cluster garbage collection: mark from head records, base roots and unpublished pending
  manifests, then sweep what nothing reachable refers to once it is past grace.
 */
module Gc {
  import opened Prelude
  import opened Format
  import opened ObjectRefs
  import opened Manifests

  datatype StoreKey =
    | Head(volume: U64)
    | ArchiveManifest(volume: U64, fence: U64, archiveSeq: U64)
    | FileList(volume: U64, fence: U64, list: U64)
    | BlxFile(volume: U64, fence: U64, objectId: U64)
    | Pending(volume: U64, fence: U64, archiveSeq: U64)
    | BaseRootKey(base: U64)
    | BaseManifestKey(base: U64, manifest: U64)
    | ImportedBlx(base: U64, fence: U64, objectId: U64)
    | Unparsed(name: nat)

  datatype ManifestPtr = ManifestPtr(fence: U64, journalSeq: U64, archiveSeq: U64, captureSeq: U64, checksum: U64)

  datatype BaseRoot = BaseRoot(base: U64, manifest: U64, manifestChecksum: U64, post: nat)

  /** The decoders of stored objects. `files` is the resolution of `Manifests.CurrentFiles`. */
  datatype Decoders = Decoders(
    head: (U64, Bytes) -> Option<Option<ManifestPtr>>,
    checksum: Bytes -> U64,
    manifest: (U64, Bytes) -> Option<Manifest>,
    list: (FileListRef, U64, Bytes) -> Option<CompleteFileList>,
    files: (Manifest, Option<CompleteFileList>) -> Option<seq<ObjectRef>>,
    baseRoot: (U64, Bytes) -> Option<BaseRoot>,
    baseManifest: (BaseRoot, Bytes) -> Option<seq<ObjectRef>>)

  /** The objects of a listing, by key. */
  type Bucket = map<StoreKey, Bytes>

  function ObjectKey(id: ObjectIdentity): StoreKey {
    if id.kind.Volume? then BlxFile(id.namespace, id.fence, id.objectId)
    else ImportedBlx(id.namespace, id.fence, id.objectId)
  }

  function KeysOf(files: seq<ObjectRef>): set<StoreKey> {
    set o | o in files :: ObjectKey(o.identity)
  }

  // ---- What a root keeps ---------------------------------------------------------------------------

  function BaseKey(root: BaseRoot): StoreKey { BaseManifestKey(root.base, root.manifest) }

  /** The files of a base manifest, if it is there and reads. */
  function BaseFiles(d: Decoders, b: Bucket, root: BaseRoot): Option<seq<ObjectRef>> {
    if BaseKey(root) in b then d.baseManifest(root, b[BaseKey(root)]) else None
  }

  function ListKey(m: Manifest): StoreKey
    requires m.completeList.Some?
  {
    FileList(m.volume, m.completeList.value.fence, m.completeList.value.list)
  }

  /** The current files of a manifest, if its list is there and everything reads. */
  function CurrentOf(d: Decoders, b: Bucket, m: Manifest): Option<seq<ObjectRef>> {
    if m.completeList.None? then d.files(m, None)
    else if ListKey(m) !in b then None
    else
      var list := d.list(m.completeList.value, m.volume, b[ListKey(m)]);
      if list.None? then None else d.files(m, list)
  }

  function RootOf(base: BaseRef): BaseRoot {
    BaseRoot(base.base, base.manifest, base.manifestChecksum, base.post)
  }

  predicate ManifestReads(d: Decoders, b: Bucket, m: Manifest) {
    CurrentOf(d, b, m).Some? && (m.base.Some? ==> BaseFiles(d, b, RootOf(m.base.value)).Some?)
  }

  /** A base manifest and its files. */
  function BaseClosure(d: Decoders, b: Bucket, root: BaseRoot): set<StoreKey> {
    var files := BaseFiles(d, b, root);
    {BaseKey(root)} + if files.Some? then KeysOf(files.value) else {}
  }

  /** Everything a manifest stands on: its list, its current files, its base. */
  function ManifestClosure(d: Decoders, b: Bucket, m: Manifest): set<StoreKey> {
    var files := CurrentOf(d, b, m);
    (if m.completeList.Some? then {ListKey(m)} else {})
    + (if files.Some? then KeysOf(files.value) else {})
    + (if m.base.Some? then BaseClosure(d, b, RootOf(m.base.value)) else {})
  }

  function PtrKey(volume: U64, ptr: ManifestPtr): StoreKey { ArchiveManifest(volume, ptr.fence, ptr.archiveSeq) }

  /** The manifest a head points at, if it is there, is the one meant, and decodes. */
  function PointedManifest(d: Decoders, b: Bucket, volume: U64, ptr: ManifestPtr): Option<Manifest> {
    var key := PtrKey(volume, ptr);
    if key !in b || d.checksum(b[key]) != ptr.checksum then None else d.manifest(volume, b[key])
  }

  function HeadPtr(d: Decoders, b: Bucket, volume: U64): Option<ManifestPtr> {
    if Head(volume) !in b then None
    else
      var head := d.head(volume, b[Head(volume)]);
      if head.None? then None else head.value
  }

  /** The head has reached this manifest or a newer one. */
  predicate Published(d: Decoders, b: Bucket, volume: U64, m: Manifest) {
    var ptr := HeadPtr(d, b, volume);
    ptr.Some? && (ptr.value.captureSeq > m.captureSeq
      || (ptr.value.captureSeq == m.captureSeq && ptr.value.archiveSeq >= m.archiveSeq))
  }

  function PendingManifest(d: Decoders, b: Bucket, key: StoreKey): Option<Manifest>
    requires key.Pending? && key in b
  {
    var m := d.manifest(key.volume, b[key]);
    if m.None? || m.value.fence != key.fence || m.value.archiveSeq != key.archiveSeq then None else m
  }

  /** Whether a key is a root that can be read all the way down. Other keys need no reading. */
  predicate Reads(d: Decoders, b: Bucket, key: StoreKey)
    requires key in b
  {
    match key
    case Head(volume) =>
      var head := d.head(volume, b[key]);
      && head.Some?
      && (head.value.Some? ==>
            var m := PointedManifest(d, b, volume, head.value.value);
            m.Some? && ManifestReads(d, b, m.value))
    case BaseRootKey(base) =>
      var root := d.baseRoot(base, b[key]);
      root.Some? && BaseFiles(d, b, root.value.(base := base)).Some?
    case Pending(volume, _, _) =>
      var m := PendingManifest(d, b, key);
      m.Some? && (Published(d, b, volume, m.value) || ManifestReads(d, b, m.value))
    case _ => true
  }

  /** The closure of one root; nothing for other keys. */
  function Closure(d: Decoders, b: Bucket, key: StoreKey): set<StoreKey>
    requires key in b
  {
    match key
    case Head(volume) =>
      var ptr := HeadPtr(d, b, volume);
      if ptr.None? then {key}
      else
        var m := PointedManifest(d, b, volume, ptr.value);
        {key, PtrKey(volume, ptr.value)} + if m.Some? then ManifestClosure(d, b, m.value) else {}
    case BaseRootKey(base) =>
      var root := d.baseRoot(base, b[key]);
      {key} + if root.Some? then BaseClosure(d, b, root.value.(base := base)) else {}
    case Pending(volume, _, _) =>
      var m := PendingManifest(d, b, key);
      if m.None? then {key} else if Published(d, b, volume, m.value) then {} else {key} + ManifestClosure(d, b, m.value)
    case _ => {}
  }

  predicate AllRead(d: Decoders, b: Bucket) {
    forall key :: key in b ==> Reads(d, b, key)
  }

  /** Reachable from some root. */
  predicate Live(d: Decoders, b: Bucket, k: StoreKey) {
    exists key :: key in b && k in Closure(d, b, key)
  }

  // ---- The plan ------------------------------------------------------------------------------------------

  datatype Listed = Listed(key: StoreKey, putAt: nat, bytes: Bytes)

  predicate Complete(listing: seq<Listed>) {
    forall i, j :: 0 <= i < j < |listing| ==> listing[i].key != listing[j].key
  }

  /** The bucket a listing describes. */
  function BucketOf(listing: seq<Listed>): (b: Bucket)
    ensures forall i :: 0 <= i < |listing| ==> listing[i].key in b
    ensures forall k :: k in b ==> exists i :: 0 <= i < |listing| && listing[i].key == k
  {
    if listing == [] then map[]
    else
      var b := BucketOf(DropLast(listing));
      assert listing == DropLast(listing) + [Last(listing)];
      b[Last(listing).key := Last(listing).bytes]
  }

  predicate PastGrace(now: nat, grace: nat, putAt: nat) {
    (if now < putAt then 0 else now - putAt) > grace
  }

  method MarkObjects(b: Bucket, keep: set<StoreKey>, files: seq<ObjectRef>) returns (kept: set<StoreKey>)
    ensures kept == keep + KeysOf(files) * b.Keys
  {
    kept := keep;
    for i := 0 to |files|
      invariant kept == keep + KeysOf(files[..i]) * b.Keys
    {
      var key := ObjectKey(files[i].identity);
      assert KeysOf(files[..i + 1]) == KeysOf(files[..i]) + {key};
      if key in b {
        kept := kept + {key};
      }
    }
    assert files[..|files|] == files;
  }

  method MarkBase(d: Decoders, b: Bucket, keep: set<StoreKey>, root: BaseRoot) returns (kept: set<StoreKey>, ok: bool)
    ensures ok <==> BaseFiles(d, b, root).Some?
    ensures ok ==> kept == keep + BaseClosure(d, b, root) * b.Keys
  {
    kept, ok := keep, false;
    if BaseKey(root) !in b {
      return;
    }
    kept := kept + {BaseKey(root)};
    var files := d.baseManifest(root, b[BaseKey(root)]);
    if files.None? {
      return;
    }
    kept := MarkObjects(b, kept, files.value);
    ok := true;
  }

  method MarkManifest(d: Decoders, b: Bucket, keep: set<StoreKey>, m: Manifest) returns (kept: set<StoreKey>, ok: bool)
    ensures ok <==> ManifestReads(d, b, m)
    ensures ok ==> kept == keep + ManifestClosure(d, b, m) * b.Keys
  {
    kept, ok := keep, false;
    var list: Option<CompleteFileList> := None;
    if m.completeList.Some? {
      if ListKey(m) !in b {
        return;
      }
      kept := kept + {ListKey(m)};
      list := d.list(m.completeList.value, m.volume, b[ListKey(m)]);
      if list.None? {
        return;
      }
    }
    var files := d.files(m, list);
    if files.None? {
      return;
    }
    kept := MarkObjects(b, kept, files.value);
    ok := true;
    if m.base.Some? {
      kept, ok := MarkBase(d, b, kept, RootOf(m.base.value));
    }
  }

  /** The first marking pass: heads and base roots. */
  method MarkRoot(d: Decoders, b: Bucket, keep: set<StoreKey>, key: StoreKey) returns (kept: set<StoreKey>, ok: bool)
    requires key in b && !key.Pending?
    ensures ok <==> Reads(d, b, key)
    ensures ok ==> kept == keep + Closure(d, b, key) * b.Keys
  {
    kept, ok := keep, true;
    match key {
      case Head(volume) =>
        kept := kept + {key};
        var head := d.head(volume, b[key]);
        if head.None? {
          return kept, false;
        }
        if head.value.None? {
          return;
        }
        var ptr := head.value.value;
        if PtrKey(volume, ptr) !in b {
          return kept, false;
        }
        kept := kept + {PtrKey(volume, ptr)};
        if d.checksum(b[PtrKey(volume, ptr)]) != ptr.checksum {
          return kept, false;
        }
        var m := d.manifest(volume, b[PtrKey(volume, ptr)]);
        if m.None? {
          return kept, false;
        }
        kept, ok := MarkManifest(d, b, kept, m.value);
      case BaseRootKey(base) =>
        kept := kept + {key};
        var root := d.baseRoot(base, b[key]);
        if root.None? {
          return kept, false;
        }
        kept, ok := MarkBase(d, b, kept, root.value.(base := base));
      case _ =>
    }
  }

  /** The second marking pass: pending manifests that no head has reached. */
  method MarkPending(d: Decoders, b: Bucket, keep: set<StoreKey>, key: StoreKey) returns (kept: set<StoreKey>, ok: bool)
    requires key in b && key.Pending?
    ensures ok <==> Reads(d, b, key)
    ensures ok ==> kept == keep + Closure(d, b, key) * b.Keys
  {
    kept, ok := keep, true;
    var m := PendingManifest(d, b, key);
    if m.None? {
      return kept + {key}, false;
    }
    if Published(d, b, key.volume, m.value) {
      return;
    }
    kept, ok := MarkManifest(d, b, keep + {key}, m.value);
  }

  /** What one pass over some keys marks. */
  function Marked(d: Decoders, b: Bucket, keys: seq<StoreKey>, pending: bool): set<StoreKey>
    requires forall k :: k in keys ==> k in b
  {
    if keys == [] then {}
    else
      assert Last(keys) in keys;
      Marked(d, b, DropLast(keys), pending) + if Last(keys).Pending? == pending then Closure(d, b, Last(keys)) else {}
  }

  lemma {:induction false} MarkedMeans(d: Decoders, b: Bucket, keys: seq<StoreKey>, pending: bool, k: StoreKey)
    requires forall key :: key in keys ==> key in b
    ensures k in Marked(d, b, keys, pending) <==>
            exists key :: key in keys && key in b && key.Pending? == pending && k in Closure(d, b, key)
  {
    if keys != [] {
      MarkedMeans(d, b, DropLast(keys), pending, k);
      assert Last(keys) in keys && keys == DropLast(keys) + [Last(keys)];
    }
  }

  function KeysIn(listing: seq<Listed>): (keys: seq<StoreKey>)
    ensures |keys| == |listing| && forall i :: 0 <= i < |listing| ==> keys[i] == listing[i].key
  {
    if listing == [] then [] else KeysIn(DropLast(listing)) + [Last(listing).key]
  }

  /** Every key that one of the two passes looks at can be read all the way down. */
  predicate PassReads(d: Decoders, b: Bucket, keys: seq<StoreKey>, pending: bool) {
    forall i :: 0 <= i < |keys| && keys[i].Pending? == pending ==> keys[i] in b && Reads(d, b, keys[i])
  }

  method MarkAll(d: Decoders, b: Bucket, keep: set<StoreKey>, keys: seq<StoreKey>, pending: bool)
    returns (kept: set<StoreKey>, safe: bool)
    requires forall k :: k in keys ==> k in b
    ensures safe <==> PassReads(d, b, keys, pending)
    ensures safe ==> kept == keep + Marked(d, b, keys, pending) * b.Keys
  {
    kept, safe := keep, true;
    assert keys[..0] == [];
    for i := 0 to |keys|
      invariant safe <==> forall j :: 0 <= j < i && keys[j].Pending? == pending ==> keys[j] in b && Reads(d, b, keys[j])
      invariant safe ==> kept == keep + Marked(d, b, keys[..i], pending) * b.Keys
    {
      assert keys[i] in keys;
      assert keys[..i + 1] == keys[..i] + [keys[i]];
      SnocParts(keys[..i], keys[i]);
      if keys[i].Pending? == pending {
        var ok;
        if pending {
          kept, ok := MarkPending(d, b, kept, keys[i]);
        } else {
          kept, ok := MarkRoot(d, b, kept, keys[i]);
        }
        safe := safe && ok;
      }
    }
    assert keys[..|keys|] == keys;
  }

  lemma MarkedIsLive(d: Decoders, b: Bucket, keys: seq<StoreKey>, k: StoreKey)
    requires forall key :: key in keys <==> key in b
    ensures k in Marked(d, b, keys, false) + Marked(d, b, keys, true) <==> Live(d, b, k)
  {
    MarkedMeans(d, b, keys, false, k);
    MarkedMeans(d, b, keys, true, k);
    if Live(d, b, k) {
      var key :| key in b && k in Closure(d, b, key);
      assert key in keys;
    }
  }

  /** The doomed keys of a listing, in its order. */
  function Doomed(listing: seq<Listed>, keep: set<StoreKey>, now: nat, grace: nat): seq<StoreKey> {
    if listing == [] then []
    else
      Doomed(DropLast(listing), keep, now, grace)
      + if Last(listing).key !in keep && PastGrace(now, grace, Last(listing).putAt) then [Last(listing).key] else []
  }

  lemma {:induction false} DoomedMeans(listing: seq<Listed>, keep: set<StoreKey>, now: nat, grace: nat, k: StoreKey)
    ensures k in Doomed(listing, keep, now, grace) <==>
            exists i :: 0 <= i < |listing| && listing[i].key == k && k !in keep
              && PastGrace(now, grace, listing[i].putAt)
  {
    if listing != [] {
      DoomedMeans(DropLast(listing), keep, now, grace, k);
      if k in Doomed(DropLast(listing), keep, now, grace) {
        var i :| 0 <= i < |listing| - 1 && listing[i].key == k && PastGrace(now, grace, listing[i].putAt);
        assert 0 <= i < |listing|;
      }
    }
  }

  /** The keys a plan may name: listed, reachable from no root, and past grace. */
  predicate Collectable(d: Decoders, listing: seq<Listed>, now: nat, grace: nat, k: StoreKey) {
    && !Live(d, BucketOf(listing), k)
    && exists i :: 0 <= i < |listing| && listing[i].key == k && PastGrace(now, grace, listing[i].putAt)
  }

  /** Mark from heads and base roots first and from pending manifests after them. */
  method MarkBoth(d: Decoders, b: Bucket, keys: seq<StoreKey>) returns (keep: set<StoreKey>, safe: bool)
    requires forall k :: k in keys <==> k in b
    ensures safe <==> AllRead(d, b)
    ensures safe ==> keep == Marked(d, b, keys, false) * b.Keys + Marked(d, b, keys, true) * b.Keys
  {
    BothPasses(d, b, keys);
    var roots, rootsSafe := MarkAll(d, b, {}, keys, false);
    var all, pendingSafe := MarkAll(d, b, roots, keys, true);
    keep, safe := all, rootsSafe && pendingSafe;
  }

  /** Of the listed objects, exactly those longer there than the grace and reachable from no
      root are named. */
  predicate NamesTheOld(d: Decoders, now: nat, grace: nat, listing: seq<Listed>, doomed: seq<StoreKey>) {
    forall i :: 0 <= i < |listing| ==>
      (listing[i].key in doomed <==> listing[i].putAt + grace < now && !Live(d, BucketOf(listing), listing[i].key))
  }

  lemma CollectableAreOld(d: Decoders, now: nat, grace: nat, listing: seq<Listed>, doomed: seq<StoreKey>)
    requires Complete(listing) && forall k :: k in doomed <==> Collectable(d, listing, now, grace, k)
    ensures NamesTheOld(d, now, grace, listing, doomed)
  {
    forall i | 0 <= i < |listing|
      ensures listing[i].key in doomed
              <==> listing[i].putAt + grace < now && !Live(d, BucketOf(listing), listing[i].key)
    {
      assert Collectable(d, listing, now, grace, listing[i].key) <==>
               !Live(d, BucketOf(listing), listing[i].key) && PastGrace(now, grace, listing[i].putAt);
    }
  }

  /** A plan is empty if any root cannot be read all the way down, and otherwise names
      exactly the collectable keys. */
  method Plan(d: Decoders, now: nat, grace: nat, listing: seq<Listed>) returns (doomed: seq<StoreKey>)
    requires Complete(listing)
    ensures forall k :: k in doomed <==> AllRead(d, BucketOf(listing)) && Collectable(d, listing, now, grace, k)
    ensures AllRead(d, BucketOf(listing)) ==> NamesTheOld(d, now, grace, listing, doomed)
  {
    var b, keys := BucketOf(listing), KeysIn(listing);
    KeysOfBucket(listing);
    var keep, safe := MarkBoth(d, b, keys);
    if !safe {
      return [];
    }
    doomed := Doomed(listing, keep, now, grace);
    DoomedAreCollectable(d, now, grace, listing, keep);
    CollectableAreOld(d, now, grace, listing, doomed);
  }

  lemma DoomedAreCollectable(d: Decoders, now: nat, grace: nat, listing: seq<Listed>, keep: set<StoreKey>)
    requires forall k :: k in KeysIn(listing) <==> k in BucketOf(listing)
    requires var b, keys := BucketOf(listing), KeysIn(listing);
             keep == Marked(d, b, keys, false) * b.Keys + Marked(d, b, keys, true) * b.Keys
    ensures forall k :: k in Doomed(listing, keep, now, grace) <==> Collectable(d, listing, now, grace, k)
  {
    forall k ensures k in Doomed(listing, keep, now, grace) <==> Collectable(d, listing, now, grace, k) {
      DoomedIsCollectable(d, now, grace, listing, keep, k);
    }
  }

  lemma DoomedIsCollectable(d: Decoders, now: nat, grace: nat, listing: seq<Listed>, keep: set<StoreKey>, k: StoreKey)
    requires forall x :: x in KeysIn(listing) <==> x in BucketOf(listing)
    requires var b, keys := BucketOf(listing), KeysIn(listing);
             keep == Marked(d, b, keys, false) * b.Keys + Marked(d, b, keys, true) * b.Keys
    ensures k in Doomed(listing, keep, now, grace) <==> Collectable(d, listing, now, grace, k)
  {
    DoomedMeans(listing, keep, now, grace, k);
    MarkedIsLive(d, BucketOf(listing), KeysIn(listing), k);
  }

  lemma KeysOfBucket(listing: seq<Listed>)
    ensures forall k :: k in KeysIn(listing) <==> k in BucketOf(listing)
  {
    forall k | k in KeysIn(listing) ensures k in BucketOf(listing) {
      var i :| 0 <= i < |listing| && KeysIn(listing)[i] == k;
      assert listing[i].key in BucketOf(listing);
    }
    forall k | k in BucketOf(listing) ensures k in KeysIn(listing) {
      var i :| 0 <= i < |listing| && listing[i].key == k;
      assert KeysIn(listing)[i] == k;
    }
  }

  lemma BothPasses(d: Decoders, b: Bucket, keys: seq<StoreKey>)
    requires forall k :: k in keys <==> k in b
    ensures AllRead(d, b) <==> PassReads(d, b, keys, false) && PassReads(d, b, keys, true)
  {
    forall k | k in b ensures exists i :: 0 <= i < |keys| && keys[i] == k {
      assert k in keys;
    }
  }
}
