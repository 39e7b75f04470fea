/**
  References to archive objects and the rules a set of them must satisfy: every batch
  complete and in order, and no key covered by more objects than allowed. First and last
  keys are given by their position in the key order.
 */
module ObjectRefs {
  import opened Prelude
  import opened Ordered

  const MAX_OVERLAPPING_FILES: nat := 8

  datatype NamespaceKind = Volume | ImportedBase

  datatype ObjectIdentity = ObjectIdentity(kind: NamespaceKind, namespace: U64, fence: U64, objectId: U64)

  datatype ObjectRef = ObjectRef(
    identity: ObjectIdentity,
    minSeq: nat,
    maxSeq: nat,
    batch: U64,
    chunkIndex: nat,
    chunkCount: nat,
    first: nat,
    last: nat,
    pre: nat,
    post: nat,
    size: nat,
    footerOffset: nat,
    footerLength: nat,
    checksum: nat)

  // ---- How many objects cover a key --------------------------------------------------

  function Starts(objects: seq<ObjectRef>, k: nat): nat {
    if objects == [] then 0 else Starts(DropLast(objects), k) + if Last(objects).first == k then 1 else 0
  }

  function Ends(objects: seq<ObjectRef>, k: nat): nat {
    if objects == [] then 0 else Ends(DropLast(objects), k) + if Last(objects).last == k then 1 else 0
  }

  /** The objects whose key range contains `k`. */
  function Cover(objects: seq<ObjectRef>, k: nat): nat {
    if objects == [] then 0
    else Cover(DropLast(objects), k) + if Last(objects).first <= k <= Last(objects).last then 1 else 0
  }

  /** The objects that reach beyond `t` after starting at or before it. */
  function Open(objects: seq<ObjectRef>, t: int): nat {
    if objects == [] then 0
    else Open(DropLast(objects), t) + if Last(objects).first <= t < Last(objects).last then 1 else 0
  }

  predicate Ranges(objects: seq<ObjectRef>) {
    forall i :: 0 <= i < |objects| ==> objects[i].first <= objects[i].last
  }

  /** No range starts or ends strictly between `t` and `k`. */
  predicate QuietBetween(objects: seq<ObjectRef>, t: int, k: nat) {
    forall i :: 0 <= i < |objects| ==>
      (objects[i].first <= t || k <= objects[i].first) && (objects[i].last <= t || k <= objects[i].last)
  }

  lemma {:induction false} CoverAtNextPoint(objects: seq<ObjectRef>, t: int, k: nat)
    requires Ranges(objects) && t < k && QuietBetween(objects, t, k)
    ensures Open(objects, t) + Starts(objects, k) == Cover(objects, k)
  {
    if objects != [] {
      CoverAtNextPoint(DropLast(objects), t, k);
      assert Last(objects) == objects[|objects| - 1];
    }
  }

  lemma {:induction false} CoverSplits(objects: seq<ObjectRef>, k: nat)
    requires Ranges(objects)
    ensures Cover(objects, k) == Open(objects, k) + Ends(objects, k)
  {
    if objects != [] {
      CoverSplits(DropLast(objects), k);
      assert Last(objects) == objects[|objects| - 1];
    }
  }

  lemma {:induction false} CoverBetweenPoints(objects: seq<ObjectRef>, t: int, r: nat, k: nat)
    requires Ranges(objects) && t < r < k && QuietBetween(objects, t, k)
    ensures Cover(objects, r) == Open(objects, t)
  {
    if objects != [] {
      CoverBetweenPoints(DropLast(objects), t, r, k);
      assert Last(objects) == objects[|objects| - 1];
    }
  }

  lemma {:induction false} NothingOpen(objects: seq<ObjectRef>, t: int)
    requires forall i :: 0 <= i < |objects| ==> objects[i].last <= t || t < objects[i].first
    ensures Open(objects, t) == 0
  {
    if objects != [] {
      NothingOpen(DropLast(objects), t);
      assert Last(objects) == objects[|objects| - 1];
    }
  }

  // ---- The sweep -----------------------------------------------------------------------

  type Events = map<nat, (nat, nat)>

  ghost predicate EventsOf(events: Events, objects: seq<ObjectRef>) {
    && (forall i :: 0 <= i < |objects| ==> objects[i].first in events && objects[i].last in events)
    && (forall k :: k in events ==> events[k] == (Starts(objects, k), Ends(objects, k)))
    && (forall k :: k !in events ==> Starts(objects, k) == 0 && Ends(objects, k) == 0)
  }

  function AddStart(events: Events, k: nat): Events {
    events[k := if k in events then (events[k].0 + 1, events[k].1) else (1, 0)]
  }

  function AddEnd(events: Events, k: nat): Events {
    events[k := if k in events then (events[k].0, events[k].1 + 1) else (0, 1)]
  }

  lemma EventsGrow(events: Events, objects: seq<ObjectRef>, o: ObjectRef)
    requires EventsOf(events, objects)
    ensures EventsOf(AddEnd(AddStart(events, o.first), o.last), objects + [o])
  {
    SnocParts(objects, o);
  }

  method CollectEvents(objects: seq<ObjectRef>) returns (events: Events)
    ensures EventsOf(events, objects)
  {
    events := map[];
    for i := 0 to |objects|
      invariant EventsOf(events, objects[..i])
    {
      assert objects[..i + 1] == objects[..i] + [objects[i]];
      EventsGrow(events, objects[..i], objects[i]);
      events := AddEnd(AddStart(events, objects[i].first), objects[i].last);
    }
    assert objects[..|objects|] == objects;
  }

  /** The last key swept before step `i`. */
  function Swept(keys: seq<nat>, i: nat): int
    requires i <= |keys|
  {
    if i == 0 then -1 else keys[i - 1]
  }

  lemma QuietUpToNext(objects: seq<ObjectRef>, events: Events, keys: seq<nat>, i: nat)
    requires EventsOf(events, objects) && keys == Ascending(events.Keys) && i < |keys|
    ensures Swept(keys, i) < keys[i] && QuietBetween(objects, Swept(keys, i), keys[i])
  {
    forall n | 0 <= n < |objects|
      ensures objects[n].first <= Swept(keys, i) || keys[i] <= objects[n].first
      ensures objects[n].last <= Swept(keys, i) || keys[i] <= objects[n].last
    {
      NoneBetween(keys, i, objects[n].first);
      NoneBetween(keys, i, objects[n].last);
    }
  }

  /** At every swept key the running count is exact before and after its ends. */
  predicate Exact(objects: seq<ObjectRef>, events: Events, keys: seq<nat>, i: nat)
    requires i < |keys|
  {
    && keys[i] in events
    && Open(objects, Swept(keys, i)) + events[keys[i]].0 == Cover(objects, keys[i])
    && Cover(objects, keys[i]) - events[keys[i]].1 == Open(objects, keys[i])
  }

  lemma ExactAt(objects: seq<ObjectRef>, events: Events, keys: seq<nat>, i: nat)
    requires Ranges(objects) && EventsOf(events, objects) && keys == Ascending(events.Keys) && i < |keys|
    ensures Exact(objects, events, keys, i)
  {
    QuietUpToNext(objects, events, keys, i);
    CoverAtNextPoint(objects, Swept(keys, i), keys[i]);
    CoverSplits(objects, keys[i]);
  }

  lemma AllSwept(objects: seq<ObjectRef>, events: Events, keys: seq<nat>)
    requires EventsOf(events, objects) && keys == Ascending(events.Keys)
    ensures forall n :: 0 <= n < |objects| ==>
              objects[n].first <= Swept(keys, |keys|) && objects[n].last <= Swept(keys, |keys|)
  {
    forall n | 0 <= n < |objects|
      ensures objects[n].first <= Swept(keys, |keys|) && objects[n].last <= Swept(keys, |keys|)
    {
      LastIsGreatest(keys, objects[n].first);
      LastIsGreatest(keys, objects[n].last);
    }
  }

  lemma SweepIsExact(objects: seq<ObjectRef>, events: Events, keys: seq<nat>)
    requires Ranges(objects) && EventsOf(events, objects) && keys == Ascending(events.Keys)
    ensures forall i :: 0 <= i < |keys| ==> Exact(objects, events, keys, i)
    ensures Open(objects, -1) == 0 && Open(objects, Swept(keys, |keys|)) == 0
  {
    forall i | 0 <= i < |keys| ensures Exact(objects, events, keys, i) {
      ExactAt(objects, events, keys, i);
    }
    NothingOpen(objects, -1);
    AllSwept(objects, events, keys);
    NothingOpen(objects, Swept(keys, |keys|));
  }

  /** The first key that is at or after `k`, as an index into the sweep. */
  lemma {:induction false} NextPoint(keys: seq<nat>, k: nat) returns (i: nat)
    requires Increasing(keys)
    ensures i <= |keys| && Swept(keys, i) < k && (i < |keys| ==> k <= keys[i])
  {
    i := 0;
    while i < |keys| && keys[i] < k
      invariant i <= |keys| && Swept(keys, i) < k
    {
      i := i + 1;
    }
  }

  /** Between two swept keys the cover is what the earlier one left open. */
  lemma CoverInGap(objects: seq<ObjectRef>, events: Events, keys: seq<nat>, i: nat, k: nat)
    requires Ranges(objects) && EventsOf(events, objects) && keys == Ascending(events.Keys)
    requires i <= |keys| && Swept(keys, i) < k && (i < |keys| ==> k < keys[i])
    ensures Cover(objects, k) == Open(objects, Swept(keys, i))
  {
    if i < |keys| {
      QuietUpToNext(objects, events, keys, i);
      CoverBetweenPoints(objects, Swept(keys, i), k, keys[i]);
    } else {
      AllSwept(objects, events, keys);
      CoverBetweenPoints(objects, Swept(keys, i), k, k + 1);
    }
  }

  lemma OpenAtMost(objects: seq<ObjectRef>, keys: seq<nat>, i: nat, m: nat)
    requires Ranges(objects) && i <= |keys| && (i > 0 ==> Cover(objects, keys[i - 1]) <= m)
    ensures Open(objects, Swept(keys, i)) <= m
  {
    if i > 0 { CoverSplits(objects, keys[i - 1]); } else { NothingOpen(objects, -1); }
  }

  predicate PointsAtMost(objects: seq<ObjectRef>, keys: seq<nat>, m: nat) {
    forall i :: 0 <= i < |keys| ==> Cover(objects, keys[i]) <= m
  }

  /** No key is covered more often than some swept key near it. */
  lemma DeepestNear(objects: seq<ObjectRef>, events: Events, keys: seq<nat>, m: nat, k: nat, i: nat)
    requires Ranges(objects) && EventsOf(events, objects) && keys == Ascending(events.Keys)
    requires i <= |keys| && Swept(keys, i) < k && (i < |keys| ==> k <= keys[i])
    requires i > 0 ==> Cover(objects, keys[i - 1]) <= m
    requires i < |keys| ==> Cover(objects, keys[i]) <= m
    ensures Cover(objects, k) <= m
  {
    if i == |keys| || k < keys[i] {
      CoverInGap(objects, events, keys, i, k);
      OpenAtMost(objects, keys, i, m);
    }
  }

  lemma DeepestAtAPoint(objects: seq<ObjectRef>, events: Events, keys: seq<nat>, m: nat, k: nat)
    requires Ranges(objects) && EventsOf(events, objects) && keys == Ascending(events.Keys)
    requires PointsAtMost(objects, keys, m)
    ensures Cover(objects, k) <= m
  {
    var i := NextPoint(keys, k);
    DeepestNear(objects, events, keys, m, k, i);
  }

  datatype Verdict = Fine | TooDeep | EndsBeforeStart | NeverEnds

  /** Every key, endpoint or not, is covered at most `limit` times. */
  ghost predicate CoveredAtMost(objects: seq<ObjectRef>, limit: Option<nat>) {
    limit.Some? ==> forall k: nat :: Cover(objects, k) <= limit.value
  }

  lemma PointsDecide(objects: seq<ObjectRef>, events: Events, keys: seq<nat>, m: nat)
    requires Ranges(objects) && EventsOf(events, objects) && keys == Ascending(events.Keys)
    ensures PointsAtMost(objects, keys, m) <==> CoveredAtMost(objects, Some(m))
  {
    if PointsAtMost(objects, keys, m) {
      forall k: nat ensures Cover(objects, k) <= m {
        DeepestAtAPoint(objects, events, keys, m, k);
      }
    }
  }

  /** The overlap test is exact, and its two other rejections never happen. */
  method CheckOverlap(objects: seq<ObjectRef>, limit: Option<nat>) returns (verdict: Verdict)
    requires Ranges(objects)
    ensures verdict == if CoveredAtMost(objects, limit) then Fine else TooDeep
  {
    var events := CollectEvents(objects);
    var keys := Ascending(events.Keys);
    SweepIsExact(objects, events, keys);
    verdict := Sweep(objects, limit, events, keys);
    if limit.Some? {
      PointsDecide(objects, events, keys, limit.value);
      assert limit == Some(limit.value);
    }
  }

  method Sweep(objects: seq<ObjectRef>, limit: Option<nat>, events: Events, keys: seq<nat>) returns (verdict: Verdict)
    requires forall i :: 0 <= i < |keys| ==> Exact(objects, events, keys, i)
    requires Open(objects, -1) == 0 && Open(objects, Swept(keys, |keys|)) == 0
    ensures verdict == if limit.Some? && !PointsAtMost(objects, keys, limit.value) then TooDeep else Fine
  {
    var overlapping: nat := 0;
    for i := 0 to |keys|
      invariant overlapping == Open(objects, Swept(keys, i))
      invariant limit.Some? ==> forall j :: 0 <= j < i ==> Cover(objects, keys[j]) <= limit.value
    {
      assert Exact(objects, events, keys, i);
      var (starts, ends) := events[keys[i]];
      overlapping := overlapping + starts;
      if limit.Some? && overlapping > limit.value {
        return TooDeep;
      }
      if ends > overlapping {
        return EndsBeforeStart;
      }
      overlapping := overlapping - ends;
    }
    if overlapping != 0 {
      return NeverEnds;
    }
    return Fine;
  }

  /** The greatest number of objects that cover any one key. */
  method MaxObjectOverlap(objects: seq<ObjectRef>) returns (maximum: nat)
    requires Ranges(objects)
    ensures forall k: nat :: Cover(objects, k) <= maximum
    ensures maximum == 0 || exists k: nat :: Cover(objects, k) == maximum
  {
    var events := CollectEvents(objects);
    var keys := Ascending(events.Keys);
    SweepIsExact(objects, events, keys);
    maximum := DeepestSwept(objects, events, keys);
    PointsDecide(objects, events, keys, maximum);
  }

  function SaturatingSub(a: nat, b: nat): nat {
    if a < b then 0 else a - b
  }

  method DeepestSwept(objects: seq<ObjectRef>, events: Events, keys: seq<nat>) returns (maximum: nat)
    requires forall i :: 0 <= i < |keys| ==> Exact(objects, events, keys, i)
    requires Open(objects, -1) == 0
    ensures PointsAtMost(objects, keys, maximum)
    ensures maximum == 0 || exists k: nat :: Cover(objects, k) == maximum
  {
    var overlapping: nat := 0;
    maximum := 0;
    for i := 0 to |keys|
      invariant overlapping == Open(objects, Swept(keys, i))
      invariant forall j :: 0 <= j < i ==> Cover(objects, keys[j]) <= maximum
      invariant maximum == 0 || exists k: nat :: Cover(objects, k) == maximum
    {
      assert Exact(objects, events, keys, i);
      var (starts, ends) := events[keys[i]];
      overlapping := overlapping + starts;
      maximum := if maximum < overlapping then overlapping else maximum;
      overlapping := SaturatingSub(overlapping, ends);
    }
  }

  /** Validation with limit m passes its overlap test exactly when the maximum is at most m. */
  lemma LimitIsOnTheMaximum(objects: seq<ObjectRef>, maximum: nat, m: nat)
    requires forall k: nat :: Cover(objects, k) <= maximum
    requires maximum == 0 || exists k: nat :: Cover(objects, k) == maximum
    ensures CoveredAtMost(objects, Some(m)) <==> maximum <= m
  {
  }
}
