/** What validation of references and resolution of a manifest decide, on the fields alone. */
module ManifestMeaning {
  import opened Prelude
  import opened Ordered
  import opened ObjectRefs
  import opened ObjectBatches
  import opened StateChain
  import opened StateChainMeaning
  import opened Manifests

  predicate OneBatch(a: ObjectRef, b: ObjectRef) {
    && a.identity.kind == b.identity.kind && a.identity.namespace == b.identity.namespace
    && a.identity.fence == b.identity.fence && a.batch == b.batch
  }

  predicate HoldsChunk(objects: seq<ObjectRef>, o: ObjectRef, index: nat) {
    exists j :: 0 <= j < |objects| && OneBatch(objects[j], o) && objects[j].chunkIndex == index
  }

  /** The objects whose range of keys contains `k`. */
  function Covering(objects: seq<ObjectRef>, k: nat): set<nat> {
    set i: nat | i < |objects| && objects[i].first <= k <= objects[i].last
  }

  lemma {:induction false} CoverIsCount(objects: seq<ObjectRef>, k: nat)
    ensures Cover(objects, k) == |Covering(objects, k)|
  {
    if objects == [] {
      assert Covering(objects, k) == {};
    } else {
      var front := DropLast(objects);
      CoverIsCount(front, k);
      var here: set<nat> := if Last(objects).first <= k <= Last(objects).last then {|front|} else {};
      forall i: nat ensures i in Covering(objects, k) <==> i in Covering(front, k) + here {
        if i < |front| { assert objects[i] == front[i]; }
      }
      assert Covering(objects, k) == Covering(front, k) + here;
    }
  }

  /** A chunk of a batch lies wholly before the next one. */
  predicate KeysRise(a: ObjectRef, b: ObjectRef) {
    OneBatch(a, b) && a.chunkIndex + 1 == b.chunkIndex ==> a.last < b.first
  }

  ghost predicate WellFormed(objects: seq<ObjectRef>, limit: Option<nat>) {
    && (forall i, j :: 0 <= i < j < |objects| ==>
          var a, b := objects[i], objects[j];
          && a.identity != b.identity
          && (OneBatch(a, b) ==>
                && a.chunkCount == b.chunkCount && a.minSeq == b.minSeq && a.maxSeq == b.maxSeq
                && a.pre == b.pre && a.post == b.post && a.chunkIndex != b.chunkIndex))
    && (forall i :: 0 <= i < |objects| ==>
          && objects[i].chunkIndex < objects[i].chunkCount
          && forall index: nat :: index < objects[i].chunkCount ==> HoldsChunk(objects, objects[i], index))
    && (forall i, j :: 0 <= i < |objects| && 0 <= j < |objects| ==> KeysRise(objects[i], objects[j]))
    && (limit.Some? ==> forall k: nat :: |Covering(objects, k)| <= limit.value)
  }

  lemma SameNameIsOneBatch(a: ObjectRef, b: ObjectRef)
    ensures NameOf(a) == NameOf(b) <==> OneBatch(a, b)
  {
  }

  lemma ChunkIsHeld(objects: seq<ObjectRef>, o: ObjectRef, index: nat)
    ensures HasChunk(objects, NameOf(o), index) <==> HoldsChunk(objects, o, index)
  {
    if HasChunk(objects, NameOf(o), index) {
      var j :| 0 <= j < |objects| && NameOf(objects[j]) == NameOf(o) && objects[j].chunkIndex == index;
      assert OneBatch(objects[j], o);
    }
    if HoldsChunk(objects, o, index) {
      var j :| 0 <= j < |objects| && OneBatch(objects[j], o) && objects[j].chunkIndex == index;
      assert NameOf(objects[j]) == NameOf(o);
    }
  }

  /** A list of references is valid exactly when identities are unique, the files of a batch
      agree and are all its chunks in key order, and no key lies in too many ranges. */
  lemma ValidMeansWellFormed(objects: seq<ObjectRef>, limit: Option<nat>)
    ensures ValidObjects(objects, limit) <==> WellFormed(objects, limit)
  {
    forall k: nat ensures Cover(objects, k) == |Covering(objects, k)| { CoverIsCount(objects, k); }
    forall i, index: nat | 0 <= i < |objects|
      ensures HasChunk(objects, NameOf(objects[i]), index) <==> HoldsChunk(objects, objects[i], index)
    {
      ChunkIsHeld(objects, objects[i], index);
    }
    CompatibleMeans(objects);
    CompleteMeans(objects);
    InOrderMeans(objects);
  }

  lemma CompatibleMeans(objects: seq<ObjectRef>)
    ensures AllCompatible(objects) <==>
            forall i, j :: 0 <= i < j < |objects| ==>
              var a, b := objects[i], objects[j];
              && a.identity != b.identity
              && (OneBatch(a, b) ==>
                    && a.chunkCount == b.chunkCount && a.minSeq == b.minSeq && a.maxSeq == b.maxSeq
                    && a.pre == b.pre && a.post == b.post && a.chunkIndex != b.chunkIndex)
  {
  }

  lemma CompleteMeans(objects: seq<ObjectRef>)
    requires forall i, index: nat :: 0 <= i < |objects| ==>
               (HasChunk(objects, NameOf(objects[i]), index) <==> HoldsChunk(objects, objects[i], index))
    ensures AllComplete(objects) <==>
            forall i :: 0 <= i < |objects| ==>
              && objects[i].chunkIndex < objects[i].chunkCount
              && forall index: nat :: index < objects[i].chunkCount ==> HoldsChunk(objects, objects[i], index)
  {
  }

  lemma InOrderMeans(objects: seq<ObjectRef>)
    ensures AllInOrder(objects) <==>
            forall i, j :: 0 <= i < |objects| && 0 <= j < |objects| ==> KeysRise(objects[i], objects[j])
  {
    forall i, j | 0 <= i < |objects| && 0 <= j < |objects|
      ensures InOrder(objects[i], objects[j]) <==> KeysRise(objects[i], objects[j])
    {
    }
  }

  // ---- Resolution ------------------------------------------------------------------------------

  /** The list is the one the manifest refers to, or neither has one. */
  predicate Names(sum: ListChecksum, m: Manifest, list: Option<CompleteFileList>) {
    && (m.completeList.Some? <==> list.Some?)
    && (list.Some? ==>
          var ref, l := m.completeList.value, list.value;
          ref.fence == l.fence && ref.list == l.list && ref.checksum == sum(l))
  }

  /** The change removes only listed files, each once, and adds only new identities. */
  ghost predicate ChangeFits(m: Manifest, listed: seq<ObjectRef>) {
    && (forall i, j :: 0 <= i < j < |m.removed| ==> m.removed[i] != m.removed[j])
    && (forall i, j :: 0 <= i < j < |m.added| ==> m.added[i].identity != m.added[j].identity)
    && (forall id :: id in m.removed ==> exists o :: o in listed && o.identity == id)
    && (forall a :: a in m.added && a.identity !in m.removed ==> forall o :: o in listed ==> o.identity != a.identity)
  }

  predicate InOwnOrder(files: seq<ObjectRef>) {
    forall i, j :: 0 <= i < j < |files| ==> IdentityBelow(files[i].identity, files[j].identity)
  }

  predicate AreLeft(m: Manifest, listed: seq<ObjectRef>, files: seq<ObjectRef>) {
    && (forall o :: o in files ==> (o in listed && o.identity !in m.removed) || o in m.added)
    && (forall o :: o in listed && o.identity !in m.removed ==> o in files)
    && (forall o :: o in m.added ==> o in files)
  }

  ghost predicate StandsFor(sum: ListChecksum, m: Manifest, list: Option<CompleteFileList>, files: seq<ObjectRef>) {
    var listed := if list.Some? then list.value.objects else [];
    && Names(sum, m, list) && ChangeFits(m, listed) && InOwnOrder(files) && AreLeft(m, listed, files)
    && WellFormed(files, Some(8))
    && ChainsUp(if m.base.Some? then m.base.value.post else 0, m.post, AsSet(files))
  }

  lemma OrderMeans(files: seq<ObjectRef>)
    ensures InIdentityOrder(files) <==> InOwnOrder(files)
  {
    forall i, j | 0 <= i < j < |files|
      ensures IdentityPosition(files[i].identity) < IdentityPosition(files[j].identity)
              <==> IdentityBelow(files[i].identity, files[j].identity)
    {
      IdentityPositionOrders(files[i].identity, files[j].identity);
    }
  }

  lemma ListedMeans(objects: seq<ObjectRef>, id: ObjectIdentity)
    ensures HasIdentity(objects, id) <==> exists o :: o in objects && o.identity == id
  {
    if o :| o in objects && o.identity == id {
      var i :| 0 <= i < |objects| && objects[i] == o;
    }
    if HasIdentity(objects, id) {
      var i :| 0 <= i < |objects| && objects[i].identity == id;
      assert objects[i] in objects;
    }
  }

  lemma AppliesMeans(m: Manifest, listed: seq<ObjectRef>)
    ensures Applies(m, listed) <==> ChangeFits(m, listed)
  {
    forall id ensures HasIdentity(listed, id) <==> exists o :: o in listed && o.identity == id {
      ListedMeans(listed, id);
    }
  }

  lemma MatchesMeans(sum: ListChecksum, m: Manifest, list: Option<CompleteFileList>)
    ensures Matches(sum, m, list) <==> Names(sum, m, list)
  {
  }

  lemma CurrentMeans(m: Manifest, listed: seq<ObjectRef>, files: seq<ObjectRef>)
    ensures (forall o :: o in files <==> IsCurrent(m, listed, o)) <==> AreLeft(m, listed, files)
  {
  }

  /** A manifest and its list resolve to exactly these files. */
  lemma ResolvesMeans(sum: ListChecksum, m: Manifest, list: Option<CompleteFileList>, files: seq<ObjectRef>)
    ensures Resolves(sum, m, list, files) <==> StandsFor(sum, m, list, files)
  {
    MatchesMeans(sum, m, list);
    OrderMeans(files);
    AppliesMeans(m, Objects(list));
    CurrentMeans(m, Objects(list), files);
    ValidMeansWellFormed(files, Some(8));
    AcceptsMeansChainsUp(BaseChecksum(m), m.post, AsSet(files));
  }
}
