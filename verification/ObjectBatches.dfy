/**
  Validation of a list of object references: unique identities, batches that agree on
  their description and hold every chunk once and in key order, and the overlap limit.
 */
module ObjectBatches {
  import opened Prelude
  import opened Ordered
  import opened ObjectRefs

  /** A batch is named by its writer and its number. */
  datatype BatchName = BatchName(kind: NamespaceKind, namespace: nat, fence: nat, batch: nat)

  function NameOf(o: ObjectRef): BatchName {
    BatchName(o.identity.kind, o.identity.namespace, o.identity.fence, o.batch)
  }

  datatype Description = Description(chunkCount: nat, minSeq: nat, maxSeq: nat, pre: nat, post: nat)

  function DescriptionOf(o: ObjectRef): Description {
    Description(o.chunkCount, o.minSeq, o.maxSeq, o.pre, o.post)
  }

  datatype Batch = Batch(description: Description, chunks: map<nat, (nat, nat)>)

  type Batches = map<BatchName, Batch>

  // ---- What the rules say ---------------------------------------------------------------

  /** Two references that may stand in one list. */
  predicate Compatible(a: ObjectRef, b: ObjectRef) {
    && a.identity != b.identity
    && (NameOf(a) == NameOf(b) ==> DescriptionOf(a) == DescriptionOf(b) && a.chunkIndex != b.chunkIndex)
  }

  predicate AllCompatible(objects: seq<ObjectRef>) {
    forall i, j :: 0 <= i < j < |objects| ==> Compatible(objects[i], objects[j])
  }

  predicate HasChunk(objects: seq<ObjectRef>, name: BatchName, index: nat) {
    exists j :: 0 <= j < |objects| && NameOf(objects[j]) == name && objects[j].chunkIndex == index
  }

  /** Every batch holds exactly the chunks it announces. */
  predicate AllComplete(objects: seq<ObjectRef>) {
    forall i :: 0 <= i < |objects| ==>
      && objects[i].chunkIndex < objects[i].chunkCount
      && forall index :: 0 <= index < objects[i].chunkCount ==> HasChunk(objects, NameOf(objects[i]), index)
  }

  /** Within a batch, a chunk starts after its predecessor ends. */
  predicate InOrder(a: ObjectRef, b: ObjectRef) {
    NameOf(a) == NameOf(b) && a.chunkIndex + 1 == b.chunkIndex ==> a.last < b.first
  }

  predicate AllInOrder(objects: seq<ObjectRef>) {
    forall i, j :: 0 <= i < |objects| && 0 <= j < |objects| ==> InOrder(objects[i], objects[j])
  }

  ghost predicate ValidObjects(objects: seq<ObjectRef>, limit: Option<nat>) {
    AllCompatible(objects) && AllComplete(objects) && AllInOrder(objects) && CoveredAtMost(objects, limit)
  }

  // ---- Grouping ---------------------------------------------------------------------------

  /** The object stands in the table as what it is. */
  predicate Listed(batches: Batches, o: ObjectRef) {
    && NameOf(o) in batches
    && batches[NameOf(o)].description == DescriptionOf(o)
    && o.chunkIndex in batches[NameOf(o)].chunks
    && batches[NameOf(o)].chunks[o.chunkIndex] == (o.first, o.last)
  }

  predicate IsNamed(objects: seq<ObjectRef>, name: BatchName) {
    exists i :: 0 <= i < |objects| && NameOf(objects[i]) == name
  }

  /** The table describes exactly the objects seen. */
  ghost predicate TableOf(batches: Batches, objects: seq<ObjectRef>) {
    && (forall i :: 0 <= i < |objects| ==> Listed(batches, objects[i]))
    && (forall name, index :: name in batches && index in batches[name].chunks ==> HasChunk(objects, name, index))
    && (forall name :: name in batches ==> IsNamed(objects, name))
  }

  predicate Admits(batches: Batches, o: ObjectRef) {
    NameOf(o) in batches ==>
      batches[NameOf(o)].description == DescriptionOf(o) && o.chunkIndex !in batches[NameOf(o)].chunks
  }

  function Insert(batches: Batches, o: ObjectRef): Batches {
    var chunks := if NameOf(o) in batches then batches[NameOf(o)].chunks else map[];
    batches[NameOf(o) := Batch(DescriptionOf(o), chunks[o.chunkIndex := (o.first, o.last)])]
  }

  predicate HasIdentity(objects: seq<ObjectRef>, id: ObjectIdentity) {
    exists i :: 0 <= i < |objects| && objects[i].identity == id
  }

  ghost predicate IdentitiesOf(identities: set<ObjectIdentity>, objects: seq<ObjectRef>) {
    forall id :: id in identities <==> HasIdentity(objects, id)
  }

  predicate Fits(objects: seq<ObjectRef>, o: ObjectRef) {
    forall i :: 0 <= i < |objects| ==> Compatible(objects[i], o)
  }

  lemma AdmitsMeansFits(batches: Batches, identities: set<ObjectIdentity>, objects: seq<ObjectRef>, o: ObjectRef)
    requires TableOf(batches, objects) && IdentitiesOf(identities, objects)
    requires o.identity !in identities && Admits(batches, o)
    ensures Fits(objects, o)
  {
    forall i | 0 <= i < |objects| ensures Compatible(objects[i], o) {
      assert HasIdentity(objects, objects[i].identity);
      assert Listed(batches, objects[i]);
    }
  }

  lemma FitsMeansAdmits(batches: Batches, identities: set<ObjectIdentity>, objects: seq<ObjectRef>, o: ObjectRef)
    requires TableOf(batches, objects) && IdentitiesOf(identities, objects) && Fits(objects, o)
    ensures o.identity !in identities && Admits(batches, o)
  {
    if NameOf(o) in batches {
      assert IsNamed(objects, NameOf(o));
      var i :| 0 <= i < |objects| && NameOf(objects[i]) == NameOf(o);
      assert Listed(batches, objects[i]);
      assert o.chunkIndex in batches[NameOf(o)].chunks ==> HasChunk(objects, NameOf(o), o.chunkIndex);
    }
  }

  lemma FitsExtends(objects: seq<ObjectRef>, o: ObjectRef)
    ensures AllCompatible(objects + [o]) <==> AllCompatible(objects) && Fits(objects, o)
  {
    var all := objects + [o];
    assert forall i :: 0 <= i < |objects| ==> all[i] == objects[i];
    assert all[|objects|] == o;
  }

  lemma HasChunkGrows(objects: seq<ObjectRef>, o: ObjectRef, name: BatchName, index: nat)
    requires HasChunk(objects, name, index) || (NameOf(o) == name && o.chunkIndex == index)
    ensures HasChunk(objects + [o], name, index)
  {
    if NameOf(o) == name && o.chunkIndex == index {
      assert (objects + [o])[|objects|] == o;
    } else {
      var j :| 0 <= j < |objects| && NameOf(objects[j]) == name && objects[j].chunkIndex == index;
      assert (objects + [o])[j] == objects[j];
    }
  }

  lemma IsNamedGrows(objects: seq<ObjectRef>, o: ObjectRef, name: BatchName)
    requires IsNamed(objects, name) || NameOf(o) == name
    ensures IsNamed(objects + [o], name)
  {
    if NameOf(o) == name {
      assert (objects + [o])[|objects|] == o;
    } else {
      var j :| 0 <= j < |objects| && NameOf(objects[j]) == name;
      assert (objects + [o])[j] == objects[j];
    }
  }

  lemma ListedGrows(batches: Batches, a: ObjectRef, o: ObjectRef)
    requires Listed(batches, a) && Admits(batches, o)
    ensures Listed(Insert(batches, o), a)
  {
  }

  lemma InsertKeepsTable(batches: Batches, objects: seq<ObjectRef>, o: ObjectRef)
    requires TableOf(batches, objects) && Admits(batches, o)
    ensures TableOf(Insert(batches, o), objects + [o])
  {
    var grown, all := Insert(batches, o), objects + [o];
    forall i | 0 <= i < |all| ensures Listed(grown, all[i]) {
      if i < |objects| {
        ListedGrows(batches, objects[i], o);
      }
    }
    forall name, index | name in grown && index in grown[name].chunks ensures HasChunk(all, name, index) {
      HasChunkGrows(objects, o, name, index);
    }
    forall name | name in grown ensures IsNamed(all, name) {
      IsNamedGrows(objects, o, name);
    }
  }

  lemma IdentitiesGrow(identities: set<ObjectIdentity>, objects: seq<ObjectRef>, o: ObjectRef)
    requires IdentitiesOf(identities, objects)
    ensures IdentitiesOf(identities + {o.identity}, objects + [o])
  {
    var all := objects + [o];
    assert forall i :: 0 <= i < |objects| ==> all[i] == objects[i];
    assert all[|objects|] == o;
    forall id ensures id in identities + {o.identity} <==> HasIdentity(all, id) {
      if HasIdentity(objects, id) {
        var i :| 0 <= i < |objects| && objects[i].identity == id;
        assert all[i].identity == id;
      }
    }
  }

  lemma PartOfCompatible(objects: seq<ObjectRef>, i: nat)
    requires i <= |objects| && AllCompatible(objects)
    ensures AllCompatible(objects[..i])
  {
  }

  method Group(objects: seq<ObjectRef>) returns (batches: Option<Batches>)
    ensures batches.Some? <==> AllCompatible(objects)
    ensures batches.Some? ==> TableOf(batches.value, objects)
  {
    var identities: set<ObjectIdentity> := {};
    var table: Batches := map[];
    for i := 0 to |objects|
      invariant AllCompatible(objects[..i]) && TableOf(table, objects[..i]) && IdentitiesOf(identities, objects[..i])
    {
      var o := objects[i];
      ghost var seen := objects[..i];
      assert objects[..i + 1] == seen + [o];
      FitsExtends(seen, o);
      if o.identity in identities || !Admits(table, o) {
        if Fits(seen, o) { FitsMeansAdmits(table, identities, seen, o); }
        if AllCompatible(objects) { PartOfCompatible(objects, i + 1); }
        return None;
      }
      AdmitsMeansFits(table, identities, seen, o);
      InsertKeepsTable(table, seen, o);
      IdentitiesGrow(identities, seen, o);
      identities := identities + {o.identity};
      table := Insert(table, o);
    }
    assert objects[..|objects|] == objects;
    return Some(table);
  }

  // ---- Completeness and order ---------------------------------------------------------------

  /** A batch holds exactly the chunks 0, 1, .. up to its count. */
  ghost predicate BatchComplete(b: Batch) {
    forall index :: index in b.chunks <==> 0 <= index < b.description.chunkCount
  }

  /** Counting the chunks and looking up each announced one is enough. */
  lemma CountingIsEnough(b: Batch)
    ensures (|b.chunks| == b.description.chunkCount && forall index: nat :: index < b.description.chunkCount ==>
              index in b.chunks)
            <==> BatchComplete(b)
  {
    var wanted := Below(b.description.chunkCount);
    if wanted <= b.chunks.Keys && |b.chunks| == b.description.chunkCount {
      SubsetOfSameSize(wanted, b.chunks.Keys);
    }
    if BatchComplete(b) {
      assert b.chunks.Keys == wanted;
    }
  }

  lemma SubsetOfSameSize<T>(a: set<T>, b: set<T>)
    requires a <= b && |a| == |b|
    ensures a == b
  {
    assert b == a + (b - a);
    assert |b| == |a| + |b - a|;
  }

  predicate ChunkInOrder(b: Batch, index: nat) {
    index in b.chunks && index + 1 in b.chunks ==> b.chunks[index].1 < b.chunks[index + 1].0
  }

  ghost predicate BatchInOrder(b: Batch) {
    forall index: nat :: ChunkInOrder(b, index)
  }

  lemma WalkOfComplete(b: Batch)
    requires BatchComplete(b)
    ensures Ascending(b.chunks.Keys) == UpTo(b.description.chunkCount)
  {
    AscendingIsThe(UpTo(b.description.chunkCount), b.chunks.Keys);
  }

  method CheckComplete(b: Batch) returns (ok: bool)
    ensures ok <==> BatchComplete(b)
  {
    CountingIsEnough(b);
    if |b.chunks| != b.description.chunkCount {
      return false;
    }
    for index := 0 to b.description.chunkCount
      invariant forall k: nat :: k < index ==> k in b.chunks
    {
      if index !in b.chunks {
        return false;
      }
    }
    return true;
  }

  method CheckInOrder(b: Batch) returns (ok: bool)
    requires BatchComplete(b)
    ensures ok <==> BatchInOrder(b)
  {
    WalkOfComplete(b);
    ok := WalkChunks(b, Ascending(b.chunks.Keys));
  }

  method WalkChunks(b: Batch, keys: seq<nat>) returns (ok: bool)
    requires forall i :: 0 <= i < |keys| ==> keys[i] == i
    requires forall index: nat :: index in b.chunks <==> index < |keys|
    ensures ok <==> BatchInOrder(b)
  {
    var previousLast: Option<nat> := None;
    for i := 0 to |keys|
      invariant previousLast == if i == 0 then None else Some(b.chunks[i - 1].1)
      invariant forall k: nat :: k + 1 < i ==> ChunkInOrder(b, k)
    {
      var (first, last) := b.chunks[keys[i]];
      if previousLast.Some? && previousLast.value >= first {
        assert !ChunkInOrder(b, i - 1);
        return false;
      }
      assert i > 0 ==> ChunkInOrder(b, i - 1);
      previousLast := Some(last);
    }
    return true;
  }

  ghost predicate BatchRight(b: Batch) {
    BatchComplete(b) && BatchInOrder(b)
  }

  ghost predicate BatchesRight(batches: Batches) {
    forall name :: name in batches ==> BatchRight(batches[name])
  }

  lemma ListedChunk(batches: Batches, objects: seq<ObjectRef>, name: BatchName, index: nat) returns (i: nat)
    requires TableOf(batches, objects) && HasChunk(objects, name, index)
    ensures i < |objects| && NameOf(objects[i]) == name && objects[i].chunkIndex == index && Listed(batches, objects[i])
  {
    i :| 0 <= i < |objects| && NameOf(objects[i]) == name && objects[i].chunkIndex == index;
  }

  lemma CompleteTable(batches: Batches, objects: seq<ObjectRef>)
    requires TableOf(batches, objects) && AllComplete(objects)
    ensures forall name :: name in batches ==> BatchComplete(batches[name])
  {
    forall name | name in batches ensures BatchComplete(batches[name]) {
      assert IsNamed(objects, name);
      var n :| 0 <= n < |objects| && NameOf(objects[n]) == name;
      assert Listed(batches, objects[n]);
      forall index: nat ensures index in batches[name].chunks <==> index < batches[name].description.chunkCount {
        if index in batches[name].chunks {
          var i := ListedChunk(batches, objects, name, index);
        }
        if index < batches[name].description.chunkCount {
          assert HasChunk(objects, NameOf(objects[n]), index);
          var i := ListedChunk(batches, objects, name, index);
        }
      }
    }
  }

  lemma TableComplete(batches: Batches, objects: seq<ObjectRef>)
    requires TableOf(batches, objects) && forall name :: name in batches ==> BatchComplete(batches[name])
    ensures AllComplete(objects)
  {
    forall i | 0 <= i < |objects|
      ensures objects[i].chunkIndex < objects[i].chunkCount
      ensures forall index :: 0 <= index < objects[i].chunkCount ==> HasChunk(objects, NameOf(objects[i]), index)
    {
      assert Listed(batches, objects[i]);
      assert BatchComplete(batches[NameOf(objects[i])]);
    }
  }

  lemma OrderOfTable(batches: Batches, objects: seq<ObjectRef>)
    requires TableOf(batches, objects)
    ensures (forall name :: name in batches ==> BatchInOrder(batches[name])) <==> AllInOrder(objects)
  {
    if forall name :: name in batches ==> BatchInOrder(batches[name]) {
      ObjectsInOrder(batches, objects);
    }
    if AllInOrder(objects) {
      forall name, index: nat | name in batches ensures ChunkInOrder(batches[name], index) {
        ChunkOfTable(batches, objects, name, index);
      }
    }
  }

  lemma ObjectsInOrder(batches: Batches, objects: seq<ObjectRef>)
    requires TableOf(batches, objects) && forall name :: name in batches ==> BatchInOrder(batches[name])
    ensures AllInOrder(objects)
  {
    forall i, j | 0 <= i < |objects| && 0 <= j < |objects| ensures InOrder(objects[i], objects[j]) {
      assert Listed(batches, objects[i]) && Listed(batches, objects[j]);
      assert ChunkInOrder(batches[NameOf(objects[i])], objects[i].chunkIndex);
    }
  }

  lemma ChunkOfTable(batches: Batches, objects: seq<ObjectRef>, name: BatchName, index: nat)
    requires TableOf(batches, objects) && AllInOrder(objects) && name in batches
    ensures ChunkInOrder(batches[name], index)
  {
    if index in batches[name].chunks && index + 1 in batches[name].chunks {
      var i := ListedChunk(batches, objects, name, index);
      var j := ListedChunk(batches, objects, name, index + 1);
      assert InOrder(objects[i], objects[j]);
    }
  }

  lemma TableDecides(batches: Batches, objects: seq<ObjectRef>)
    requires TableOf(batches, objects)
    ensures BatchesRight(batches) <==> AllComplete(objects) && AllInOrder(objects)
  {
    OrderOfTable(batches, objects);
    if AllComplete(objects) { CompleteTable(batches, objects); }
    if BatchesRight(batches) {
      assert forall name :: name in batches ==> BatchRight(batches[name]);
      TableComplete(batches, objects);
    }
  }

  method CheckBatches(batches: Batches) returns (ok: bool)
    ensures ok <==> BatchesRight(batches)
  {
    var todo := batches.Keys;
    while todo != {}
      invariant todo <= batches.Keys
      invariant forall name :: name in batches && name !in todo ==> BatchRight(batches[name])
    {
      var name :| name in todo;
      var right := CheckComplete(batches[name]);
      if right {
        right := CheckInOrder(batches[name]);
      }
      if !right {
        assert !BatchRight(batches[name]);
        return false;
      }
      todo := todo - {name};
    }
    return true;
  }

  /** Validation accepts exactly the lists the rules describe. */
  method ValidateObjects(objects: seq<ObjectRef>, limit: Option<nat>) returns (ok: bool)
    requires Ranges(objects)
    ensures ok <==> ValidObjects(objects, limit)
  {
    var batches := Group(objects);
    if batches.None? {
      return false;
    }
    TableDecides(batches.value, objects);
    var right := CheckBatches(batches.value);
    if !right {
      return false;
    }
    var verdict := CheckOverlap(objects, limit);
    return verdict.Fine?;
  }
}
