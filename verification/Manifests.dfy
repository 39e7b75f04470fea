/**
  Archive manifests: a complete file list plus bounded changes, and the step that keeps
  the manifest within its size limit by folding the changes into a new list.
 */
module Manifests {
  import opened Prelude
  import opened Ordered
  import opened ObjectRefs
  import opened ObjectBatches
  import opened StateChain
  import Format

  const MAX_MANIFEST_BYTES: nat := 256 * 1024
  const MAX_METADATA_OBJECT_BYTES: nat := 64 * 1024 * 1024

  datatype BaseRef = BaseRef(base: U64, manifest: U64, manifestChecksum: U64, post: nat)

  datatype FileListRef = FileListRef(fence: U64, list: U64, checksum: nat)

  datatype RecoveryKind = Whole | DiskOnly

  datatype VolumeConfig = VolumeConfig(memory: bool, pages: U32)

  datatype CompleteFileList = CompleteFileList(volume: U64, fence: U64, list: U64, objects: seq<ObjectRef>)

  datatype Manifest = Manifest(
    volume: U64,
    fence: U64,
    journalSeq: U64,
    archiveSeq: U64,
    captureSeq: U64,
    syncCoveredThrough: U64,
    recoveryKind: RecoveryKind,
    checkpointEpoch: U64,
    config: VolumeConfig,
    vmstateLength: U64,
    base: Option<BaseRef>,
    completeList: Option<FileListRef>,
    post: nat,
    metadataChecksum: U64,
    added: seq<ObjectRef>,
    removed: seq<ObjectIdentity>)

  /** The checksum of an encoded file list. */
  type ListChecksum = CompleteFileList -> nat

  function Reference(sum: ListChecksum, list: CompleteFileList): FileListRef {
    FileListRef(list.fence, list.list, sum(list))
  }

  // ---- Encoded sizes, field by field --------------------------------------------------------

  const KEY_BYTES: nat := 1 + 1 + 2 + 4
  const IDENTITY_BYTES: nat := 1 + 8 * 3

  /** Identity, sequence interval and batch, chunk numbers, keys, checksums, sizes, checksum. */
  const REF_BYTES: nat := IDENTITY_BYTES + 8 * 3 + 4 * 2 + KEY_BYTES * 2 + 8 * 2 + 4 * 3 + 8

  /** Version, six numbers, kind, epoch, page size, config, vmstate length, base, list, checksums. */
  const PREFIX_BYTES: nat := 2 + 8 * 6 + 1 + 8 + 4 + (1 + 1 + 4) + 8 + (1 + 8 * 4) + (1 + 8 * 3) + 8 * 2

  function ManifestBytes(m: Manifest): nat {
    Format.FRAME_HEADER + PREFIX_BYTES + 4 + |m.added| * REF_BYTES + 4 + |m.removed| * IDENTITY_BYTES
  }

  /** Version, volume, fence, list id, count, objects, content checksum. */
  function ListBytes(list: CompleteFileList): nat {
    Format.FRAME_HEADER + (2 + 8 * 3 + 4) + |list.objects| * REF_BYTES + 8
  }

  // ---- What a manifest means -----------------------------------------------------------------

  predicate Repeats(ids: seq<ObjectIdentity>) {
    exists i, j :: 0 <= i < j < |ids| && ids[i] == ids[j]
  }

  ghost predicate ValidShape(m: Manifest) {
    && m.syncCoveredThrough <= m.captureSeq
    && (m.completeList.None? ==> m.removed == [])
    && ValidObjects(m.added, Some(MAX_OVERLAPPING_FILES))
    && !Repeats(m.removed)
    && (forall i :: 0 <= i < |m.added| ==> m.added[i].identity !in m.removed)
  }

  /** A list that can be referred to: its encoder refuses any other. */
  ghost predicate ValidList(list: Option<CompleteFileList>) {
    list.Some? ==> ValidObjects(list.value.objects, Some(MAX_OVERLAPPING_FILES)) && Ranges(list.value.objects)
  }

  predicate Matches(sum: ListChecksum, m: Manifest, list: Option<CompleteFileList>) {
    match (m.completeList, list)
    case (None, None) => true
    case (Some(expected), Some(given)) => Reference(sum, given) == expected
    case _ => false
  }

  function Objects(list: Option<CompleteFileList>): seq<ObjectRef> {
    if list.Some? then list.value.objects else []
  }

  /** Identities sort by kind, namespace, fence and object id. */
  function IdentityPosition(id: ObjectIdentity): nat {
    (((if id.kind.Volume? then 0 else 1) * U64_LIMIT + id.namespace) * U64_LIMIT + id.fence) * U64_LIMIT + id.objectId
  }

  /** The order of the source: its fields in turn. */
  predicate IdentityBelow(a: ObjectIdentity, b: ObjectIdentity) {
    || (a.kind.Volume? && !b.kind.Volume?)
    || (a.kind == b.kind
        && (|| a.namespace < b.namespace
            || (a.namespace == b.namespace
                && (a.fence < b.fence || (a.fence == b.fence && a.objectId < b.objectId)))))
  }

  lemma IdentityPositionOrders(a: ObjectIdentity, b: ObjectIdentity)
    ensures IdentityPosition(a) < IdentityPosition(b) <==> IdentityBelow(a, b)
    ensures IdentityPosition(a) == IdentityPosition(b) <==> a == b
  {
    if IdentityPosition(a) == IdentityPosition(b) {
      var ka, kb := if a.kind.Volume? then 0 else 1, if b.kind.Volume? then 0 else 1;
      var na, nb := ka * U64_LIMIT + a.namespace, kb * U64_LIMIT + b.namespace;
      LastDigit(na * U64_LIMIT + a.fence, a.objectId, nb * U64_LIMIT + b.fence, b.objectId);
      LastDigit(na, a.fence, nb, b.fence);
      LastDigit(ka, a.namespace, kb, b.namespace);
    }
  }

  lemma LastDigit(p: nat, x: U64, q: nat, y: U64)
    requires p * U64_LIMIT + x == q * U64_LIMIT + y
    ensures p == q && x == y
  {
  }

  ghost predicate InIdentityOrder(files: seq<ObjectRef>) {
    forall i, j :: 0 <= i < j < |files| ==> IdentityPosition(files[i].identity) < IdentityPosition(files[j].identity)
  }

  predicate DistinctIdentities(objects: seq<ObjectRef>) {
    forall i, j :: 0 <= i < j < |objects| ==> objects[i].identity != objects[j].identity
  }

  /** The change applies: it removes only listed files, each once, and adds only new identities. */
  predicate Applies(m: Manifest, objects: seq<ObjectRef>) {
    && !Repeats(m.removed) && DistinctIdentities(m.added)
    && (forall id :: id in m.removed ==> HasIdentity(objects, id))
    && (forall o :: o in m.added ==> o.identity in m.removed || !HasIdentity(objects, o.identity))
  }

  /** The file is current: listed and not removed, or added. */
  predicate IsCurrent(m: Manifest, objects: seq<ObjectRef>, o: ObjectRef) {
    (o in objects && o.identity !in m.removed) || o in m.added
  }

  function BaseChecksum(m: Manifest): nat {
    if m.base.Some? then m.base.value.post else 0
  }

  /** The files that survive the change, whether or not they form a valid set. */
  ghost predicate Candidates(sum: ListChecksum, m: Manifest, list: Option<CompleteFileList>, files: seq<ObjectRef>) {
    && Matches(sum, m, list) && Applies(m, Objects(list))
    && InIdentityOrder(files)
    && (forall o :: o in files <==> IsCurrent(m, Objects(list), o))
  }

  ghost predicate Checks(m: Manifest, files: seq<ObjectRef>) {
    ValidObjects(files, Some(MAX_OVERLAPPING_FILES)) && Accepts(BaseChecksum(m), m.post, AsSet(files))
  }

  /** The files a manifest and its list stand for, in identity order. */
  ghost predicate Resolves(sum: ListChecksum, m: Manifest, list: Option<CompleteFileList>, files: seq<ObjectRef>) {
    Candidates(sum, m, list, files) && Checks(m, files)
  }

  lemma {:induction false} OrderIsUnique(a: seq<ObjectRef>, b: seq<ObjectRef>)
    requires InIdentityOrder(a) && InIdentityOrder(b) && forall o :: o in a <==> o in b
    ensures a == b
    decreases |a|
  {
    assert |a| > 0 ==> a[0] in b;
    assert |b| > 0 ==> b[0] in a;
    if a != [] {
      FirstAgrees(a, b);
      forall o ensures o in a[1..] <==> o in b[1..] {
        RestOf(a, o);
        RestOf(b, o);
      }
      OrderIsUnique(a[1..], b[1..]);
      assert a == [a[0]] + a[1..] && b == [b[0]] + b[1..];
    }
  }

  lemma FirstAgrees(a: seq<ObjectRef>, b: seq<ObjectRef>)
    requires InIdentityOrder(a) && InIdentityOrder(b) && a != [] && b != [] && a[0] in b && b[0] in a
    ensures a[0] == b[0]
  {
    var i :| 0 <= i < |b| && b[i] == a[0];
    var j :| 0 <= j < |a| && a[j] == b[0];
    assert i > 0 ==> IdentityPosition(b[0].identity) < IdentityPosition(b[i].identity);
    assert j > 0 ==> IdentityPosition(a[0].identity) < IdentityPosition(a[j].identity);
  }

  lemma RestOf(a: seq<ObjectRef>, o: ObjectRef)
    requires InIdentityOrder(a) && a != []
    ensures o in a[1..] <==> o in a && o != a[0]
  {
    if o in a && o != a[0] {
      var i :| 0 <= i < |a| && a[i] == o;
      assert a[1..][i - 1] == o;
    }
    if o in a[1..] {
      var i :| 0 <= i < |a[1..]| && a[1..][i] == o;
      assert a[i + 1] == o;
      assert IdentityPosition(a[0].identity) < IdentityPosition(a[i + 1].identity);
    }
  }

  // ---- Computing the current files ---------------------------------------------------------------

  type Files = map<nat, ObjectRef>

  /** The table holds exactly the files of a set, under their identities. */
  ghost predicate Holds(files: Files, content: set<ObjectRef>) {
    && (forall p :: p in files ==> IdentityPosition(files[p].identity) == p && files[p] in content)
    && (forall o :: o in content ==> IdentityPosition(o.identity) in files && files[IdentityPosition(o.identity)] == o)
  }

  function Kept(objects: seq<ObjectRef>, removed: seq<ObjectIdentity>): set<ObjectRef> {
    set o | o in objects && o.identity !in removed
  }

  lemma HoldsOne(files: Files, content: set<ObjectRef>, id: ObjectIdentity)
    requires Holds(files, content)
    ensures IdentityPosition(id) in files <==> exists o :: o in content && o.identity == id
  {
    if IdentityPosition(id) in files {
      IdentityPositionOrders(files[IdentityPosition(id)].identity, id);
      assert files[IdentityPosition(id)] in content;
    }
  }

  lemma HoldsMore(files: Files, content: set<ObjectRef>, o: ObjectRef)
    requires Holds(files, content) && forall f :: f in content ==> f.identity != o.identity
    ensures Holds(files[IdentityPosition(o.identity) := o], content + {o})
  {
    forall f | f in content ensures IdentityPosition(f.identity) != IdentityPosition(o.identity) {
      IdentityPositionOrders(f.identity, o.identity);
    }
  }

  lemma HoldsLess(files: Files, content: set<ObjectRef>, id: ObjectIdentity)
    requires Holds(files, content)
    ensures Holds(files - {IdentityPosition(id)}, set o | o in content && o.identity != id)
  {
    forall o | o in content ensures IdentityPosition(o.identity) == IdentityPosition(id) <==> o.identity == id {
      IdentityPositionOrders(o.identity, id);
    }
  }

  method TableOfList(objects: seq<ObjectRef>) returns (files: Files)
    requires AllCompatible(objects)
    ensures Holds(files, AsSet(objects))
  {
    files := map[];
    for i := 0 to |objects|
      invariant Holds(files, AsSet(objects[..i]))
    {
      var o := objects[i];
      forall f | f in AsSet(objects[..i]) ensures f.identity != o.identity {
        var j :| 0 <= j < i && objects[j] == f;
        assert Compatible(objects[j], objects[i]);
      }
      HoldsMore(files, AsSet(objects[..i]), o);
      assert AsSet(objects[..i + 1]) == AsSet(objects[..i]) + {o};
      files := files[IdentityPosition(o.identity) := o];
    }
    assert objects[..|objects|] == objects;
  }

  lemma HasIdentityIn(objects: seq<ObjectRef>, id: ObjectIdentity)
    ensures HasIdentity(objects, id) <==> exists o :: o in objects && o.identity == id
  {
    if HasIdentity(objects, id) {
      var i :| 0 <= i < |objects| && objects[i].identity == id;
      assert objects[i] in objects;
    }
  }

  lemma StillKept(objects: seq<ObjectRef>, removed: seq<ObjectIdentity>, id: ObjectIdentity)
    requires id !in removed
    ensures (exists o :: o in Kept(objects, removed) && o.identity == id) <==> HasIdentity(objects, id)
  {
    HasIdentityIn(objects, id);
    if HasIdentity(objects, id) {
      var o :| o in objects && o.identity == id;
      assert o in Kept(objects, removed);
    }
  }

  lemma RemovedIsGone(objects: seq<ObjectRef>, removed: seq<ObjectIdentity>, id: ObjectIdentity)
    requires id in removed
    ensures !exists o :: o in Kept(objects, removed) && o.identity == id
  {
  }

  lemma RepeatsGrow(removed: seq<ObjectIdentity>, i: nat)
    requires i < |removed| && !Repeats(removed[..i])
    ensures Repeats(removed[..i + 1]) <==> removed[i] in removed[..i]
    ensures removed[i] in removed[..i] ==> Repeats(removed)
  {
    if removed[i] in removed[..i] {
      var j :| 0 <= j < i && removed[j] == removed[i];
      assert removed[..i + 1][j] == removed[..i + 1][i];
    }
    if Repeats(removed[..i + 1]) {
      var j, n :| 0 <= j < n < i + 1 && removed[..i + 1][j] == removed[..i + 1][n];
      assert n < i ==> removed[..i][j] == removed[..i][n];
    }
  }

  /** Removal fails exactly when an identity is not listed or is removed twice. */
  method RemoveAll(table: Files, objects: seq<ObjectRef>, removed: seq<ObjectIdentity>) returns (files: Option<Files>)
    requires Holds(table, AsSet(objects))
    ensures files.Some? <==> !Repeats(removed) && forall id :: id in removed ==> HasIdentity(objects, id)
    ensures files.Some? ==> Holds(files.value, Kept(objects, removed))
  {
    var left: Files := table;
    assert Kept(objects, removed[..0]) == AsSet(objects);
    for i := 0 to |removed|
      invariant Holds(left, Kept(objects, removed[..i])) && !Repeats(removed[..i])
      invariant forall id :: id in removed[..i] ==> HasIdentity(objects, id)
    {
      var id := removed[i];
      RepeatsGrow(removed, i);
      if id in removed[..i] { RemovedIsGone(objects, removed[..i], id); } else { StillKept(objects, removed[..i], id); }
      HoldsOne(left, Kept(objects, removed[..i]), id);
      if IdentityPosition(id) !in left {
        assert id in removed;
        return None;
      }
      HoldsLess(left, Kept(objects, removed[..i]), id);
      assert removed[..i + 1] == removed[..i] + [id];
      assert (set o | o in Kept(objects, removed[..i]) && o.identity != id) == Kept(objects, removed[..i + 1]);
      left := left - {IdentityPosition(id)};
    }
    assert removed[..|removed|] == removed;
    return Some(left);
  }

  ghost predicate Fresh(base: set<ObjectRef>, added: seq<ObjectRef>) {
    forall o, f :: o in added && f in base ==> o.identity != f.identity
  }

  predicate Clashes(base: set<ObjectRef>, added: seq<ObjectRef>, i: nat)
    requires i < |added|
  {
    (exists f :: f in base && f.identity == added[i].identity)
    || exists j :: 0 <= j < i && added[j].identity == added[i].identity
  }

  lemma NewAmong(base: set<ObjectRef>, added: seq<ObjectRef>, i: nat)
    requires i < |added|
    ensures (exists f :: f in base + AsSet(added[..i]) && f.identity == added[i].identity) <==> Clashes(base, added, i)
  {
    if exists f :: f in base && f.identity == added[i].identity {
      var f :| f in base && f.identity == added[i].identity;
      assert f in base + AsSet(added[..i]);
    }
    if exists j :: 0 <= j < i && added[j].identity == added[i].identity {
      var j :| 0 <= j < i && added[j].identity == added[i].identity;
      assert added[..i][j] == added[j];
      assert added[j] in base + AsSet(added[..i]);
    }
    if exists f :: f in AsSet(added[..i]) && f.identity == added[i].identity {
      var f :| f in AsSet(added[..i]) && f.identity == added[i].identity;
      var j :| 0 <= j < |added[..i]| && added[..i][j] == f;
      assert added[j].identity == added[i].identity;
    }
  }

  lemma ClashRefuses(base: set<ObjectRef>, added: seq<ObjectRef>, i: nat)
    requires i < |added| && Clashes(base, added, i)
    ensures !(Fresh(base, added) && DistinctIdentities(added))
  {
    assert added[i] in added;
  }

  lemma NoClashAdmits(base: set<ObjectRef>, added: seq<ObjectRef>)
    requires forall i :: 0 <= i < |added| ==> !Clashes(base, added, i)
    ensures Fresh(base, added) && DistinctIdentities(added)
  {
    forall o, f | o in added && f in base ensures o.identity != f.identity {
      var i :| 0 <= i < |added| && added[i] == o;
      assert !Clashes(base, added, i);
    }
    forall i, j | 0 <= i < j < |added| ensures added[i].identity != added[j].identity {
      assert !Clashes(base, added, j);
    }
  }

  /** Addition fails exactly when an identity is still present or is added twice. */
  method AddAll(table: Files, base: set<ObjectRef>, added: seq<ObjectRef>) returns (files: Option<Files>)
    requires Holds(table, base)
    ensures files.Some? <==> Fresh(base, added) && DistinctIdentities(added)
    ensures files.Some? ==> Holds(files.value, base + AsSet(added))
  {
    var left: Files := table;
    assert base + AsSet(added[..0]) == base;
    for i := 0 to |added|
      invariant Holds(left, base + AsSet(added[..i]))
      invariant forall j :: 0 <= j < i ==> !Clashes(base, added, j)
    {
      var o := added[i];
      NewAmong(base, added, i);
      HoldsOne(left, base + AsSet(added[..i]), o.identity);
      if IdentityPosition(o.identity) in left {
        ClashRefuses(base, added, i);
        return None;
      }
      HoldsMore(left, base + AsSet(added[..i]), o);
      assert base + AsSet(added[..i + 1]) == base + AsSet(added[..i]) + {o};
      left := left[IdentityPosition(o.identity) := o];
    }
    assert added[..|added|] == added;
    NoClashAdmits(base, added);
    return Some(left);
  }

  lemma FilesInOrder(files: Files, content: set<ObjectRef>, keys: seq<nat>)
    requires Holds(files, content) && Increasing(keys) && forall p :: p in keys ==> p in files
    ensures InIdentityOrder(ValuesAt(files, keys))
  {
  }

  lemma FilesAreAll(files: Files, content: set<ObjectRef>, keys: seq<nat>, o: ObjectRef)
    requires Holds(files, content) && forall p :: p in keys <==> p in files
    ensures o in ValuesAt(files, keys) <==> o in content
  {
    if o in content {
      var p := IdentityPosition(o.identity);
      assert p in keys;
      var i :| 0 <= i < |keys| && keys[i] == p;
      assert ValuesAt(files, keys)[i] == o;
    }
  }

  lemma ContentIsCurrent(m: Manifest, objects: seq<ObjectRef>, o: ObjectRef)
    ensures o in Kept(objects, m.removed) + AsSet(m.added) <==> IsCurrent(m, objects, o)
  {
  }

  lemma OrderedFiles(m: Manifest, objects: seq<ObjectRef>, files: Files)
    requires Holds(files, Kept(objects, m.removed) + AsSet(m.added))
    ensures InIdentityOrder(ValuesAt(files, Ascending(files.Keys)))
    ensures forall o :: o in ValuesAt(files, Ascending(files.Keys)) <==> IsCurrent(m, objects, o)
  {
    var content := Kept(objects, m.removed) + AsSet(m.added);
    FilesInOrder(files, content, Ascending(files.Keys));
    forall o ensures o in ValuesAt(files, Ascending(files.Keys)) <==> IsCurrent(m, objects, o) {
      FilesAreAll(files, content, Ascending(files.Keys), o);
      ContentIsCurrent(m, objects, o);
    }
  }

  /** Once everything removed is listed, `Fresh` and distinct additions are what the change needs. */
  lemma FreshMeansApplies(m: Manifest, objects: seq<ObjectRef>)
    requires !Repeats(m.removed) && forall id :: id in m.removed ==> HasIdentity(objects, id)
    ensures Fresh(Kept(objects, m.removed), m.added) && DistinctIdentities(m.added) <==> Applies(m, objects)
  {
    if Applies(m, objects) {
      forall o, f | o in m.added && f in Kept(objects, m.removed) ensures o.identity != f.identity {
        HasIdentityIn(objects, o.identity);
      }
    }
    if Fresh(Kept(objects, m.removed), m.added) {
      forall o | o in m.added ensures o.identity in m.removed || !HasIdentity(objects, o.identity) {
        if o.identity !in m.removed { StillKept(objects, m.removed, o.identity); }
      }
    }
  }

  lemma CurrentRanges(m: Manifest, objects: seq<ObjectRef>, files: seq<ObjectRef>)
    requires Ranges(objects) && Ranges(m.added) && forall o :: o in files ==> IsCurrent(m, objects, o)
    ensures Ranges(files)
  {
    forall i | 0 <= i < |files| ensures files[i].first <= files[i].last {
      assert files[i] in files;
    }
  }

  lemma OneCandidate(sum: ListChecksum, m: Manifest, list: Option<CompleteFileList>, a: seq<ObjectRef>,
                     b: seq<ObjectRef>)
    requires Candidates(sum, m, list, a) && Candidates(sum, m, list, b)
    ensures a == b
  {
    OrderIsUnique(a, b);
  }

  lemma CheckDecides(sum: ListChecksum, m: Manifest, list: Option<CompleteFileList>, files: seq<ObjectRef>)
    requires Candidates(sum, m, list, files)
    ensures if Checks(m, files) then Resolves(sum, m, list, files) else forall f :: !Resolves(sum, m, list, f)
  {
    forall f | Resolves(sum, m, list, f) ensures f == files {
      OneCandidate(sum, m, list, f, files);
    }
  }

  /** Resolving a manifest finds its files, or there are none to find. */
  method CurrentFiles(sum: ListChecksum, m: Manifest, list: Option<CompleteFileList>)
    returns (r: Option<seq<ObjectRef>>)
    requires Ranges(m.added) && (Matches(sum, m, list) ==> ValidList(list))
    ensures r.Some? ==> Resolves(sum, m, list, r.value)
    ensures r.None? ==> forall files :: !Resolves(sum, m, list, files)
  {
    var files := Candidate(sum, m, list);
    if files.None? {
      return None;
    }
    CurrentRanges(m, Objects(list), files.value);
    CheckDecides(sum, m, list, files.value);
    r := CheckFiles(m, files.value);
  }

  method Candidate(sum: ListChecksum, m: Manifest, list: Option<CompleteFileList>) returns (r: Option<seq<ObjectRef>>)
    requires Matches(sum, m, list) ==> ValidList(list)
    ensures r.Some? ==> Candidates(sum, m, list, r.value)
    ensures r.None? ==> !(Matches(sum, m, list) && Applies(m, Objects(list)))
  {
    if !Matches(sum, m, list) {
      return None;
    }
    var objects := Objects(list);
    var listed := TableOfList(objects);
    var kept := RemoveAll(listed, objects, m.removed);
    if kept.None? {
      return None;
    }
    FreshMeansApplies(m, objects);
    var table := AddAll(kept.value, Kept(objects, m.removed), m.added);
    if table.None? {
      return None;
    }
    OrderedFiles(m, objects, table.value);
    return Some(ValuesAt(table.value, Ascending(table.value.Keys)));
  }

  method CheckFiles(m: Manifest, files: seq<ObjectRef>) returns (r: Option<seq<ObjectRef>>)
    requires Ranges(files)
    ensures r == if Checks(m, files) then Some(files) else None
  {
    var valid := ValidateObjects(files, Some(MAX_OVERLAPPING_FILES));
    if !valid {
      return None;
    }
    var chained := ValidateFileStateChain(BaseChecksum(m), m.post, files);
    return if chained then Some(files) else None;
  }

  // ---- Bounding the manifest ------------------------------------------------------------------------

  /** A bounded manifest, a rejected one, or a list its own encoder asserts against. */
  datatype Outcome =
    | Bounded(manifest: Manifest, newList: Option<CompleteFileList>)
    | Rejected
    | ListTooLarge

  /** The manifest with its changes folded into `list`. */
  function Folded(sum: ListChecksum, m: Manifest, list: CompleteFileList): Manifest {
    m.(completeList := Some(Reference(sum, list)), added := [], removed := [])
  }

  /** A folded manifest stands for exactly the files of its list. */
  lemma FoldedStands(sum: ListChecksum, m: Manifest, list: CompleteFileList)
    requires InIdentityOrder(list.objects) && Checks(m, list.objects)
    ensures Resolves(sum, Folded(sum, m, list), Some(list), list.objects)
  {
    var folded := Folded(sum, m, list);
    assert forall o :: IsCurrent(folded, list.objects, o) <==> o in list.objects;
  }

  lemma FoldedResolves(sum: ListChecksum, m: Manifest, before: Option<CompleteFileList>, list: CompleteFileList,
                       f: seq<ObjectRef>)
    requires Resolves(sum, m, before, list.objects)
    ensures Resolves(sum, m, before, f) <==> Resolves(sum, Folded(sum, m, list), Some(list), f)
  {
    FoldedStands(sum, m, list);
    if Resolves(sum, m, before, f) {
      OneCandidate(sum, m, before, f, list.objects);
    }
    if Resolves(sum, Folded(sum, m, list), Some(list), f) {
      OneCandidate(sum, Folded(sum, m, list), Some(list), f, list.objects);
    }
  }

  ghost predicate SameMeaning(sum: ListChecksum, m: Manifest, l: Option<CompleteFileList>, n: Manifest,
                              k: Option<CompleteFileList>) {
    forall files :: Resolves(sum, m, l, files) <==> Resolves(sum, n, k, files)
  }

  lemma FoldedMeansTheSame(sum: ListChecksum, m: Manifest, before: Option<CompleteFileList>, list: CompleteFileList)
    requires Resolves(sum, m, before, list.objects)
    ensures SameMeaning(sum, m, before, Folded(sum, m, list), Some(list))
  {
    forall files ensures Resolves(sum, m, before, files) <==> Resolves(sum, Folded(sum, m, list), Some(list), files) {
      FoldedResolves(sum, m, before, list, files);
    }
  }

  /** Bounding keeps what the manifest stands for, and its result always fits; it is
      rejected only when the manifest is too large and stands for nothing. */
  method BoundManifest(sum: ListChecksum, m: Manifest, current: Option<CompleteFileList>, newList: U64)
    returns (r: Outcome)
    requires ValidShape(m)
    requires ManifestBytes(m) > MAX_MANIFEST_BYTES ==>
               Ranges(m.added) && (Matches(sum, m, current) ==> ValidList(current))
    ensures r.Bounded? ==> ManifestBytes(r.manifest) <= MAX_MANIFEST_BYTES
    ensures r.Bounded? ==> SameMeaning(sum, m, current, r.manifest, if r.newList.Some? then r.newList else current)
    ensures r.Bounded? && r.newList.None? ==> r.manifest == m
    ensures r.Bounded? && r.newList.Some? ==>
              && r.newList.value == CompleteFileList(m.volume, m.fence, newList, r.newList.value.objects)
              && r.manifest == Folded(sum, m, r.newList.value)
              && Resolves(sum, m, current, r.newList.value.objects)
              && ManifestBytes(m) > MAX_MANIFEST_BYTES && ListBytes(r.newList.value) <= MAX_METADATA_OBJECT_BYTES
    ensures r.Rejected? <==> ManifestBytes(m) > MAX_MANIFEST_BYTES && forall files :: !Resolves(sum, m, current, files)
    ensures r.ListTooLarge? ==> exists files ::
              && Resolves(sum, m, current, files)
              && ListBytes(CompleteFileList(m.volume, m.fence, newList, files)) > MAX_METADATA_OBJECT_BYTES
  {
    if ManifestBytes(m) <= MAX_MANIFEST_BYTES {
      return Bounded(m, None);
    }
    var objects := CurrentFiles(sum, m, current);
    if objects.None? {
      return Rejected;
    }
    var list := CompleteFileList(m.volume, m.fence, newList, objects.value);
    if ListBytes(list) > MAX_METADATA_OBJECT_BYTES {
      return ListTooLarge;
    }
    var folded := Folded(sum, m, list);
    if ManifestBytes(folded) > MAX_MANIFEST_BYTES {
      return Rejected;
    }
    FoldedMeansTheSame(sum, m, current, list);
    return Bounded(folded, Some(list));
  }
}
