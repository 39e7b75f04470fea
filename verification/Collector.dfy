/**
  The collector that runs a plan against a live object store: it remembers since when it
  has seen each object at its present generation, and deletes only under that generation.
 */
module Collector {
  import opened Prelude
  import opened Format
  import opened Gc
  import opened GcSafety

  datatype Observation = Observation(generation: nat, firstSeen: nat)

  datatype Seen = Seen(key: StoreKey, generation: nat)

  datatype GetResult = Found(generation: nat, bytes: Bytes) | Missing | GetFault

  datatype DeleteResult = Deleted | AlreadyGone | Conflict | DeleteFault

  /** What the collector learned about the store, in order. */
  datatype Event =
    | Listing(present: set<StoreKey>)
    | Saw(key: StoreKey, generation: nat, now: nat)
    | Lost(key: StoreKey)

  datatype Log = Empty | Snoc(earlier: Log, event: Event)

  /** Ever since time `t` the object was in every listing, was never lost, and was seen
      only at this generation. */
  predicate StableSince(log: Log, key: StoreKey, generation: nat, t: nat) {
    match log
    case Empty => false
    case Snoc(earlier, event) =>
      match event
      case Listing(present) => key in present && StableSince(earlier, key, generation, t)
      case Lost(k) => k != key && StableSince(earlier, key, generation, t)
      case Saw(k, g, now) =>
        if k == key then g == generation && (now == t || StableSince(earlier, key, generation, t))
        else StableSince(earlier, key, generation, t)
  }

  type Observed = map<StoreKey, Observation>

  predicate AllStable(observed: Observed, log: Log) {
    forall k :: k in observed ==> StableSince(log, k, observed[k].generation, observed[k].firstSeen)
  }

  /** The body could not be read at the generation that was listed. */
  predicate Skipped(get: StoreKey -> GetResult, s: Seen) {
    NeedsBody(s.key) && !(get(s.key).Found? && get(s.key).generation == s.generation)
  }

  function BodyOf(get: StoreKey -> GetResult, s: Seen): Bytes
    requires !Skipped(get, s)
  {
    if NeedsBody(s.key) then get(s.key).bytes else []
  }

  function Retained(observed: Observed, present: set<StoreKey>): Observed {
    map k | k in observed && k in present :: observed[k]
  }

  /** The observation after one listed object was read or skipped. */
  function Observe(observed: Observed, get: StoreKey -> GetResult, s: Seen, now: nat): Observed {
    if Skipped(get, s) then observed - {s.key}
    else if s.key in observed && observed[s.key].generation == s.generation then observed
    else observed[s.key := Observation(s.generation, now)]
  }

  function EventFor(get: StoreKey -> GetResult, s: Seen, now: nat): Event {
    if Skipped(get, s) then Lost(s.key) else Saw(s.key, s.generation, now)
  }

  lemma RetainedIsStable(observed: Observed, log: Log, present: set<StoreKey>)
    requires AllStable(observed, log)
    ensures AllStable(Retained(observed, present), Snoc(log, Listing(present)))
  {
  }

  lemma ObserveIsStable(observed: Observed, log: Log, get: StoreKey -> GetResult, s: Seen, now: nat)
    requires AllStable(observed, log)
    ensures AllStable(Observe(observed, get, s, now), Snoc(log, EventFor(get, s, now)))
  {
  }

  predicate DistinctKeys(listed: seq<Seen>) {
    forall i, j :: 0 <= i < j < |listed| ==> listed[i].key != listed[j].key
  }

  function KeysListed(listed: seq<Seen>): set<StoreKey> {
    set s | s in listed :: s.key
  }

  /** Drop what is not a store key and every repetition. */
  function Clean(raw: seq<Seen>): seq<Seen> {
    if raw == [] then []
    else
      var front := Clean(DropLast(raw));
      if Last(raw).key.Unparsed? || Last(raw).key in KeysListed(front) then front else front + [Last(raw)]
  }

  lemma {:induction false} CleanIsDistinct(raw: seq<Seen>)
    ensures DistinctKeys(Clean(raw)) && (forall s :: s in Clean(raw) ==> s in raw && !s.key.Unparsed?)
    ensures KeysListed(Clean(raw)) == set s | s in raw && !s.key.Unparsed? :: s.key
  {
    if raw != [] {
      CleanIsDistinct(DropLast(raw));
      var front, s := Clean(DropLast(raw)), Last(raw);
      assert raw == DropLast(raw) + [s];
      if !s.key.Unparsed? && s.key !in KeysListed(front) {
        forall i | 0 <= i < |front| ensures front[i].key != s.key {
          assert front[i] in front;
        }
        assert KeysListed(front + [s]) == KeysListed(front) + {s.key};
      }
    }
  }

  /** The bucket as far as the pass could read it. */
  function View(get: StoreKey -> GetResult, listed: seq<Seen>): Bucket {
    if listed == [] then map[]
    else
      var v, s := View(get, DropLast(listed)), Last(listed);
      if Skipped(get, s) then v else v[s.key := BodyOf(get, s)]
  }

  predicate Mature(o: Observation, now: nat, grace: nat) {
    now - o.firstSeen >= grace
  }

  /** An object handed to the plan: its key as observed, its age as 0 or 2. */
  predicate Handed(listed: seq<Seen>, observed: Observed, now: nat, grace: nat, o: Listed) {
    && o.key in observed
    && Seen(o.key, observed[o.key].generation) in listed
    && o.putAt == if Mature(observed[o.key], now, grace) then 0 else 2
  }

  lemma HandedStays(listed: seq<Seen>, observed: Observed, get: StoreKey -> GetResult, s: Seen, now: nat, grace: nat,
                    o: Listed)
    requires Handed(listed, observed, now, grace, o) && o.key != s.key
    ensures Handed(listed, Observe(observed, get, s, now), now, grace, o)
  {
  }

  predicate AllHanded(listed: seq<Seen>, observed: Observed, now: nat, grace: nat, objects: seq<Listed>) {
    forall i :: 0 <= i < |objects| ==> Handed(listed, observed, now, grace, objects[i])
  }

  predicate Visited(listed: seq<Seen>, n: nat, key: StoreKey)
    requires n <= |listed|
  {
    exists j :: 0 <= j < n && listed[j].key == key
  }

  /** The keys handed over so far are among those already visited. */
  predicate VisitedOnly(listed: seq<Seen>, n: nat, objects: seq<Listed>)
    requires n <= |listed|
  {
    forall i :: 0 <= i < |objects| ==> Visited(listed, n, objects[i].key)
  }

  lemma NewKey(listed: seq<Seen>, n: nat, objects: seq<Listed>)
    requires DistinctKeys(listed) && n < |listed| && VisitedOnly(listed, n, objects)
    ensures forall i :: 0 <= i < |objects| ==> objects[i].key != listed[n].key
  {
  }

  lemma CompleteGrows(objects: seq<Listed>, o: Listed)
    requires Complete(objects) && forall i :: 0 <= i < |objects| ==> objects[i].key != o.key
    ensures Complete(objects + [o])
  {
  }

  /** The objects read off the first `n` listed ones. */
  ghost predicate ReadUpTo(get: StoreKey -> GetResult, listed: seq<Seen>, n: nat, observed: Observed,
                           now: nat, grace: nat, handed: seq<Listed>) {
    && n <= |listed| && Complete(handed) && VisitedOnly(listed, n, handed)
    && BucketOf(handed) == View(get, listed[..n])
    && AllHanded(listed, observed, now, grace, handed)
  }

  /** What reading one object hands over. */
  ghost predicate HandsOver(get: StoreKey -> GetResult, s: Seen, observed: Observed, now: nat, grace: nat,
                            o: Option<Listed>) {
    && (o.None? <==> Skipped(get, s))
    && (o.Some? ==>
          && s.key in observed && observed[s.key].generation == s.generation
          && o.value == Listed(s.key, if Mature(observed[s.key], now, grace) then 0 else 2, BodyOf(get, s)))
  }

  lemma ViewGrows(get: StoreKey -> GetResult, listed: seq<Seen>, n: nat, handed: seq<Listed>, o: Option<Listed>)
    requires n < |listed| && BucketOf(handed) == View(get, listed[..n])
    requires o.None? <==> Skipped(get, listed[n])
    requires o.Some? ==> o.value.key == listed[n].key && o.value.bytes == BodyOf(get, listed[n])
    ensures BucketOf(if o.Some? then handed + [o.value] else handed) == View(get, listed[..n + 1])
  {
    assert listed[..n + 1] == listed[..n] + [listed[n]];
    SnocParts(listed[..n], listed[n]);
    if o.Some? { SnocParts(handed, o.value); }
  }

  lemma ReadNothing(get: StoreKey -> GetResult, listed: seq<Seen>, n: nat, observed: Observed, now: nat, grace: nat,
                    handed: seq<Listed>)
    requires n < |listed| && DistinctKeys(listed) && ReadUpTo(get, listed, n, observed, now, grace, handed)
    requires Skipped(get, listed[n])
    ensures ReadUpTo(get, listed, n + 1, Observe(observed, get, listed[n], now), now, grace, handed)
  {
    NewKey(listed, n, handed);
    ViewGrows(get, listed, n, handed, None);
    AllHandedStay(listed, n, observed, get, now, grace, handed);
    VisitedStays(listed, n, handed);
  }

  lemma ReadOne(get: StoreKey -> GetResult, listed: seq<Seen>, n: nat, observed: Observed, now: nat, grace: nat,
                handed: seq<Listed>, o: Listed)
    requires n < |listed| && DistinctKeys(listed) && ReadUpTo(get, listed, n, observed, now, grace, handed)
    requires HandsOver(get, listed[n], Observe(observed, get, listed[n], now), now, grace, Some(o))
    ensures ReadUpTo(get, listed, n + 1, Observe(observed, get, listed[n], now), now, grace, handed + [o])
  {
    NewKey(listed, n, handed);
    AllHandedStay(listed, n, observed, get, now, grace, handed);
    HandOver(get, listed, n, Observe(observed, get, listed[n], now), now, grace, handed, o);
  }

  lemma HandOver(get: StoreKey -> GetResult, listed: seq<Seen>, n: nat, observed: Observed, now: nat, grace: nat,
                 handed: seq<Listed>, o: Listed)
    requires n < |listed| && DistinctKeys(listed) && ReadUpTo(get, listed, n, observed, now, grace, handed)
    requires HandsOver(get, listed[n], observed, now, grace, Some(o))
    ensures ReadUpTo(get, listed, n + 1, observed, now, grace, handed + [o])
  {
    NewKey(listed, n, handed);
    ViewGrows(get, listed, n, handed, Some(o));
    HandedOne(get, listed, n, observed, now, grace, o);
    AllHandedGrows(listed, observed, now, grace, handed, o);
    CompleteGrows(handed, o);
    VisitedGrows(listed, n, handed, o);
  }

  lemma AllHandedGrows(listed: seq<Seen>, observed: Observed, now: nat, grace: nat, handed: seq<Listed>, o: Listed)
    requires AllHanded(listed, observed, now, grace, handed) && Handed(listed, observed, now, grace, o)
    ensures AllHanded(listed, observed, now, grace, handed + [o])
  {
  }

  lemma HandedOne(get: StoreKey -> GetResult, listed: seq<Seen>, n: nat, observed: Observed, now: nat, grace: nat,
                  o: Listed)
    requires n < |listed| && HandsOver(get, listed[n], observed, now, grace, Some(o))
    ensures Handed(listed, observed, now, grace, o)
  {
    assert listed[n] in listed;
  }

  lemma AllHandedStay(listed: seq<Seen>, n: nat, observed: Observed, get: StoreKey -> GetResult, now: nat, grace: nat,
                      handed: seq<Listed>)
    requires n < |listed| && AllHanded(listed, observed, now, grace, handed)
    requires forall i :: 0 <= i < |handed| ==> handed[i].key != listed[n].key
    ensures AllHanded(listed, Observe(observed, get, listed[n], now), now, grace, handed)
  {
    forall i | 0 <= i < |handed| ensures Handed(listed, Observe(observed, get, listed[n], now), now, grace, handed[i]) {
      HandedStays(listed, observed, get, listed[n], now, grace, handed[i]);
    }
  }

  lemma VisitedStays(listed: seq<Seen>, n: nat, handed: seq<Listed>)
    requires n < |listed| && VisitedOnly(listed, n, handed)
    ensures VisitedOnly(listed, n + 1, handed)
  {
    forall i | 0 <= i < |handed| ensures Visited(listed, n + 1, handed[i].key) {
      assert Visited(listed, n, handed[i].key);
    }
  }

  lemma VisitedGrows(listed: seq<Seen>, n: nat, handed: seq<Listed>, o: Listed)
    requires n < |listed| && VisitedOnly(listed, n, handed) && o.key == listed[n].key
    ensures VisitedOnly(listed, n + 1, handed + [o])
  {
    forall i | 0 <= i < |handed + [o]| ensures Visited(listed, n + 1, (handed + [o])[i].key) {
      if i < |handed| {
        assert Visited(listed, n, handed[i].key);
      }
    }
  }

  /** The observations after reading several listed objects. */
  function ObserveAll(observed: Observed, get: StoreKey -> GetResult, listed: seq<Seen>, now: nat): Observed {
    if listed == [] then observed else Observe(ObserveAll(observed, get, DropLast(listed), now), get, Last(listed), now)
  }

  /** Reading an object at the generation it was observed at leaves its observation. */
  lemma {:induction false} ObservationStays(observed: Observed, get: StoreKey -> GetResult, listed: seq<Seen>,
                                            now: nat, x: Seen)
    requires DistinctKeys(listed) && x.key in observed && observed[x.key].generation == x.generation
    requires forall i :: 0 <= i < |listed| && listed[i].key == x.key ==> listed[i] == x && !Skipped(get, x)
    ensures x.key in ObserveAll(observed, get, listed, now)
            && ObserveAll(observed, get, listed, now)[x.key] == observed[x.key]
  {
    if listed != [] {
      assert Last(listed) == listed[|listed| - 1];
      ObservationStays(observed, get, DropLast(listed), now, x);
    }
  }

  /** A delete is due: the object is listed and readable, unreachable, and has been
      observed at this generation for the whole grace. */
  predicate Due(d: Decoders, get: StoreKey -> GetResult, listed: seq<Seen>, observed: Observed, now: nat, grace: nat,
                x: Seen) {
    && x in listed && !Skipped(get, x)
    && AllRead(d, View(get, listed)) && !Live(d, View(get, listed), x.key)
    && x.key in observed && observed[x.key].generation == x.generation && observed[x.key].firstSeen + grace <= now
  }

  function CountDeleted(deletes: StoreKey -> DeleteResult, issued: seq<Seen>): nat {
    if issued == [] then 0
    else CountDeleted(deletes, DropLast(issued)) + if deletes(Last(issued).key).Deleted? then 1 else 0
  }

  /** The deletes that found their object and removed it. */
  function TookEffect(deletes: StoreKey -> DeleteResult, issued: seq<Seen>): set<nat> {
    set i: nat | i < |issued| && deletes(issued[i].key) == Deleted
  }

  lemma {:induction false} CountsWhatTookEffect(deletes: StoreKey -> DeleteResult, issued: seq<Seen>)
    ensures CountDeleted(deletes, issued) == |TookEffect(deletes, issued)|
  {
    if issued == [] {
      assert TookEffect(deletes, issued) == {};
    } else {
      var front := DropLast(issued);
      CountsWhatTookEffect(deletes, front);
      var here: set<nat> := if deletes(Last(issued).key) == Deleted then {|front|} else {};
      forall i: nat ensures i in TookEffect(deletes, issued) <==> i in TookEffect(deletes, front) + here {
        if i < |front| { assert issued[i] == front[i]; }
      }
      assert TookEffect(deletes, issued) == TookEffect(deletes, front) + here;
    }
  }

  /** Why a delete may be issued: the object is listed and readable, no root of what was
      read reaches it, and it has been stable for the whole grace. */
  ghost predicate Justified(d: Decoders, get: StoreKey -> GetResult, listed: seq<Seen>, log: Log, now: nat,
                            grace: nat, x: Seen) {
    && x in listed && !Skipped(get, x)
    && AllRead(d, View(get, listed)) && !Live(d, View(get, listed), x.key)
    && exists t: nat :: t + grace <= now && StableSince(log, x.key, x.generation, t)
  }

  class StoreCollector {
    var observed: Observed
    ghost var log: Log

    ghost predicate Valid()
      reads this
    {
      AllStable(observed, log)
    }

    constructor ()
      ensures Valid() && observed == map[] && log == Empty
    {
      observed, log := map[], Empty;
    }

    /** Read one listed object and hand it to the plan, unless it was skipped. */
    method Read(get: StoreKey -> GetResult, s: Seen, now: nat, grace: nat) returns (o: Option<Listed>)
      requires Valid()
      modifies this
      ensures Valid() && observed == Observe(old(observed), get, s, now)
      ensures log == Snoc(old(log), EventFor(get, s, now))
      ensures HandsOver(get, s, observed, now, grace, o)
    {
      ObserveIsStable(observed, log, get, s, now);
      log := Snoc(log, EventFor(get, s, now));
      if Skipped(get, s) {
        observed := observed - {s.key};
        return None;
      }
      if s.key !in observed || observed[s.key].generation != s.generation {
        observed := observed[s.key := Observation(s.generation, now)];
      }
      var mature := now - observed[s.key].firstSeen >= grace;
      return Some(Listed(s.key, if mature then 0 else 2, BodyOf(get, s)));
    }

    /** Read everything listed; None when a read failed. */
    method ReadAll(get: StoreKey -> GetResult, listed: seq<Seen>, now: nat, grace: nat)
      returns (objects: Option<seq<Listed>>)
      requires Valid() && DistinctKeys(listed)
      modifies this
      ensures Valid()
      ensures objects.Some? ==> observed == ObserveAll(old(observed), get, listed, now)
      ensures objects.Some? ==>
                && BucketOf(objects.value) == View(get, listed) && Complete(objects.value)
                && AllHanded(listed, observed, now, grace, objects.value)
    {
      var handed: seq<Listed> := [];
      assert listed[..0] == [];
      for i := 0 to |listed|
        invariant Valid() && ReadUpTo(get, listed, i, observed, now, grace, handed)
        invariant observed == ObserveAll(old(observed), get, listed[..i], now)
      {
        assert listed[..i + 1] == listed[..i] + [listed[i]];
        SnocParts(listed[..i], listed[i]);
        if NeedsBody(listed[i].key) && get(listed[i].key).GetFault? {
          return None;
        }
        ghost var before := observed;
        var o := Read(get, listed[i], now, grace);
        if o.Some? {
          ReadOne(get, listed, i, before, now, grace, handed, o.value);
          handed := handed + [o.value];
        } else {
          ReadNothing(get, listed, i, before, now, grace, handed);
        }
      }
      assert listed[..|listed|] == listed;
      return Some(handed);
    }

    /** Delete the planned keys, each under the generation it was observed at. */
    method Sweep(deletes: StoreKey -> DeleteResult, planned: seq<StoreKey>)
      returns (count: Option<nat>, issued: seq<Seen>)
      requires Valid()
      modifies this
      ensures Valid() && log == old(log)
      ensures forall x :: x in issued ==>
                x.key in planned && x.key in old(observed) && x.generation == old(observed)[x.key].generation
      ensures forall k :: k in observed ==> k in old(observed) && observed[k] == old(observed)[k]
      ensures count.Some? ==> count.value == CountDeleted(deletes, issued)
      ensures count.Some? ==> forall k :: k in planned && k in old(observed) ==>
                Seen(k, old(observed)[k].generation) in issued && k !in observed
    {
      issued := [];
      var deleted: nat := 0;
      for i := 0 to |planned|
        invariant Valid() && log == old(log)
        invariant forall x :: x in issued ==>
                    x.key in planned && x.key in old(observed) && x.generation == old(observed)[x.key].generation
        invariant forall k :: k in observed ==> k in old(observed) && observed[k] == old(observed)[k]
        invariant forall k :: k in old(observed) && k !in observed ==> Seen(k, old(observed)[k].generation) in issued
        invariant forall j :: 0 <= j < i ==> planned[j] !in observed
        invariant deleted == CountDeleted(deletes, issued)
      {
        var key := planned[i];
        if key in observed {
          SnocParts(issued, Seen(key, observed[key].generation));
          issued := issued + [Seen(key, observed[key].generation)];
          match deletes(key) {
            case Deleted =>
              deleted := deleted + 1;
              observed := observed - {key};
            case AlreadyGone => observed := observed - {key};
            case Conflict => observed := observed - {key};
            case DeleteFault => return None, issued;
          }
        }
      }
      return Some(deleted), issued;
    }

    method PassOver(d: Decoders, grace: nat, listed: seq<Seen>, now: nat, get: StoreKey -> GetResult,
                    deletes: StoreKey -> DeleteResult)
      returns (count: Option<nat>, issued: seq<Seen>)
      requires Valid() && DistinctKeys(listed)
      modifies this
      ensures Valid() && forall x :: x in issued ==> Justified(d, get, listed, log, now, grace, x)
      ensures count.Some? ==> count.value == CountDeleted(deletes, issued)
      ensures count.Some? ==> forall x :: Due(d, get, listed, old(observed), now, grace, x) ==> x in issued
    {
      count, issued := None, [];
      var present := KeysListed(listed);
      RetainedIsStable(observed, log, present);
      observed, log := Retained(observed, present), Snoc(log, Listing(present));
      var objects := ReadAll(get, listed, now, grace);
      if objects.None? {
        return;
      }
      var planned := Plan(d, 2, 1, objects.value);
      ghost var known, seen := observed, log;
      count, issued := Sweep(deletes, planned);
      forall x | x in issued ensures Justified(d, get, listed, seen, now, grace, x) {
        DoomedIsJustified(d, get, listed, known, seen, now, grace, objects.value, x);
      }
      forall x | Due(d, get, listed, old(observed), now, grace, x)
        ensures x.key in planned && x.key in known && x.generation == known[x.key].generation
      {
        DueIsPlanned(d, get, listed, old(observed), now, grace, objects.value, known, x);
      }
    }

    /** One pass over the store. Every delete it issues names an object that no root of the
        view reaches, under the generation at which it has been seen for the whole grace. */
    method Pass(d: Decoders, grace: nat, raw: Option<seq<Seen>>, now: nat, get: StoreKey -> GetResult,
                deletes: StoreKey -> DeleteResult)
      returns (count: Option<nat>, issued: seq<Seen>)
      requires Valid()
      modifies this
      ensures Valid()
      ensures grace == 0 || raw.None? ==> count.None? && issued == [] && observed == old(observed)
      ensures raw.Some? ==> forall x :: x in issued ==> Justified(d, get, Clean(raw.value), log, now, grace, x)
      ensures raw.Some? && count.Some? ==>
                && count.value == CountDeleted(deletes, issued)
                && forall x :: Due(d, get, Clean(raw.value), old(observed), now, grace, x) ==> x in issued
      ensures raw.Some? ==>
                LosesOnlyToSkips(d, get, Clean(raw.value), issued) && SparesLive(d, get, Clean(raw.value), issued)
    {
      if grace == 0 || raw.None? {
        return None, [];
      }
      CleanIsDistinct(raw.value);
      count, issued := PassOver(d, grace, Clean(raw.value), now, get, deletes);
      JustifiedLosesOnlyToSkips(d, get, Clean(raw.value), log, now, grace, issued);
    }
  }

  lemma DoomedIsJustified(d: Decoders, get: StoreKey -> GetResult, listed: seq<Seen>, observed: Observed, log: Log,
                          now: nat, grace: nat, objects: seq<Listed>, x: Seen)
    requires AllStable(observed, log) && AllHanded(listed, observed, now, grace, objects)
    requires AllRead(d, BucketOf(objects)) && Collectable(d, objects, 2, 1, x.key)
    requires x.key in observed && x.generation == observed[x.key].generation && DistinctKeys(listed)
    requires BucketOf(objects) == View(get, listed)
    ensures Justified(d, get, listed, log, now, grace, x)
  {
    DoomedIsMature(d, get, listed, observed, now, grace, objects, x);
    assert StableSince(log, x.key, x.generation, observed[x.key].firstSeen);
  }

  /** What is due is handed over as mature, and so is planned. */
  lemma DueIsPlanned(d: Decoders, get: StoreKey -> GetResult, listed: seq<Seen>, before: Observed,
                     now: nat, grace: nat, objects: seq<Listed>, known: Observed, x: Seen)
    requires DistinctKeys(listed) && Due(d, get, listed, before, now, grace, x)
    requires known == ObserveAll(Retained(before, KeysListed(listed)), get, listed, now)
    requires AllHanded(listed, known, now, grace, objects) && BucketOf(objects) == View(get, listed)
    ensures x.key in known && known[x.key] == before[x.key]
    ensures Collectable(d, objects, 2, 1, x.key)
  {
    assert x.key in KeysListed(listed);
    OnlyListing(listed, x);
    ObservationStays(Retained(before, KeysListed(listed)), get, listed, now, x);
    ReadableIsViewed(get, listed, x);
    var i :| 0 <= i < |objects| && objects[i].key == x.key;
    assert Handed(listed, known, now, grace, objects[i]);
  }

  lemma OnlyListing(listed: seq<Seen>, x: Seen)
    requires DistinctKeys(listed) && x in listed
    ensures forall i :: 0 <= i < |listed| && listed[i].key == x.key ==> listed[i] == x
  {
    var n :| 0 <= n < |listed| && listed[n] == x;
  }

  lemma {:induction false} ReadableIsViewed(get: StoreKey -> GetResult, listed: seq<Seen>, x: Seen)
    requires x in listed && !Skipped(get, x)
    ensures x.key in View(get, listed)
  {
    if x != Last(listed) {
      assert listed == DropLast(listed) + [Last(listed)];
      ReadableIsViewed(get, DropLast(listed), x);
    }
  }

  /** Handing mature objects over with age 0 and others with age 2 makes the plan at time
      2 with grace 1 ask exactly for maturity. */
  lemma DoomedIsMature(d: Decoders, get: StoreKey -> GetResult, listed: seq<Seen>, observed: Observed,
                       now: nat, grace: nat, objects: seq<Listed>, x: Seen)
    requires Collectable(d, objects, 2, 1, x.key) && AllHanded(listed, observed, now, grace, objects)
    requires x.key in observed && x.generation == observed[x.key].generation && DistinctKeys(listed)
    requires BucketOf(objects) == View(get, listed)
    ensures x in listed && !Skipped(get, x) && observed[x.key].firstSeen + grace <= now
  {
    var i :| 0 <= i < |objects| && objects[i].key == x.key && PastGrace(2, 1, objects[i].putAt);
    assert Handed(listed, observed, now, grace, objects[i]);
    assert x.key in BucketOf(objects);
    InView(get, listed, x);
  }

  lemma {:induction false} InView(get: StoreKey -> GetResult, listed: seq<Seen>, x: Seen)
    requires DistinctKeys(listed) && x in listed && x.key in View(get, listed)
    ensures !Skipped(get, x)
  {
    var last := Last(listed);
    assert listed == DropLast(listed) + [last];
    NotYetViewed(get, listed);
    if x != last {
      InView(get, DropLast(listed), x);
    }
  }

  lemma NotYetViewed(get: StoreKey -> GetResult, listed: seq<Seen>)
    requires DistinctKeys(listed) && listed != []
    ensures Last(listed).key !in View(get, DropLast(listed))
  {
    if Last(listed).key in View(get, DropLast(listed)) {
      ViewIsListed(get, DropLast(listed), Last(listed).key);
    }
  }

  lemma {:induction false} ViewIsListed(get: StoreKey -> GetResult, listed: seq<Seen>, k: StoreKey)
    requires k in View(get, listed)
    ensures exists j :: 0 <= j < |listed| && listed[j].key == k
  {
    if Last(listed).key == k {
      assert listed[|listed| - 1].key == k;
    } else {
      ViewIsListed(get, DropLast(listed), k);
      var j :| 0 <= j < |DropLast(listed)| && DropLast(listed)[j].key == k;
      assert listed[j].key == k;
    }
  }

  /** A read finds the object at the generation it was listed at. */
  predicate ReadAsListed(get: StoreKey -> GetResult, s: Seen) {
    get(s.key).Found? && get(s.key).generation == s.generation
  }

  /** The store as it was when listed: the listed keys at the listed generations, and
      bytes that a read at the same generation returns. */
  predicate Snapshot(b: Bucket, get: StoreKey -> GetResult, listed: seq<Seen>) {
    && (forall k :: k in b ==> exists i :: 0 <= i < |listed| && listed[i].key == k)
    && (forall i :: 0 <= i < |listed| ==>
          && listed[i].key in b
          && (NeedsBody(listed[i].key) && ReadAsListed(get, listed[i]) ==>
              get(listed[i].key).bytes == b[listed[i].key]))
  }

  predicate SkippedNoRoot(get: StoreKey -> GetResult, listed: seq<Seen>) {
    forall i :: 0 <= i < |listed| && IsRoot(listed[i].key) ==> ReadAsListed(get, listed[i])
  }

  lemma {:induction false} ViewShows(b: Bucket, get: StoreKey -> GetResult, listed: seq<Seen>)
    requires forall i :: 0 <= i < |listed| ==>
               && listed[i].key in b
               && (NeedsBody(listed[i].key) && ReadAsListed(get, listed[i]) ==>
                   get(listed[i].key).bytes == b[listed[i].key])
    ensures Shows(View(get, listed), b)
    ensures forall i :: 0 <= i < |listed| && !Skipped(get, listed[i]) ==> listed[i].key in View(get, listed)
  {
    if listed != [] {
      ViewShows(b, get, DropLast(listed));
      assert Last(listed) == listed[|listed| - 1];
      forall i | 0 <= i < |listed| && !Skipped(get, listed[i]) ensures listed[i].key in View(get, listed) {
        if i < |listed| - 1 { assert DropLast(listed)[i] == listed[i]; }
      }
    }
  }

  /** A pass that skipped no root takes nothing for garbage that the listed store's roots reach. */
  lemma PassSparesLiveObjects(d: Decoders, b: Bucket, get: StoreKey -> GetResult, listed: seq<Seen>, x: Seen)
    requires Snapshot(b, get, listed) && SkippedNoRoot(get, listed)
    requires AllRead(d, View(get, listed)) && !Live(d, View(get, listed), x.key)
    ensures !Live(d, b, x.key)
  {
    var v := View(get, listed);
    ViewShows(b, get, listed);
    forall r | r in b && IsRoot(r) ensures r in v {
      var i :| 0 <= i < |listed| && listed[i].key == r;
    }
    ViewKnowsLive(d, v, b, x.key);
  }

  /** The key is listed at a generation at which it could not be read. */
  predicate SkippedKey(get: StoreKey -> GetResult, listed: seq<Seen>, r: StoreKey) {
    exists i :: 0 <= i < |listed| && listed[i].key == r && !ReadAsListed(get, listed[i])
  }

  /** Some root that the pass had to skip reaches `k`. */
  predicate SkippedRootReaches(d: Decoders, b: Bucket, get: StoreKey -> GetResult, listed: seq<Seen>, k: StoreKey) {
    exists r :: r in b && IsRoot(r) && SkippedKey(get, listed, r) && k in Closure(d, b, r)
  }

  lemma UnseenIsSkipped(b: Bucket, get: StoreKey -> GetResult, listed: seq<Seen>, r: StoreKey)
    requires Snapshot(b, get, listed) && DistinctKeys(listed) && r in b && IsRoot(r)
    ensures r !in View(get, listed) <==> SkippedKey(get, listed, r)
  {
    ViewShows(b, get, listed);
    var i :| 0 <= i < |listed| && listed[i].key == r;
    if r in View(get, listed) {
      InView(get, listed, listed[i]);
    }
  }

  lemma MissedIsSkipped(d: Decoders, b: Bucket, get: StoreKey -> GetResult, listed: seq<Seen>, k: StoreKey)
    requires Snapshot(b, get, listed) && DistinctKeys(listed)
    ensures MissedRootReaches(d, View(get, listed), b, k) <==> SkippedRootReaches(d, b, get, listed, k)
  {
    forall r | r in b && IsRoot(r) ensures r !in View(get, listed) <==> SkippedKey(get, listed, r) {
      UnseenIsSkipped(b, get, listed, r);
    }
  }

  /** What a pass takes for garbage was reachable in the listed store exactly when a root
      that the pass had to skip reaches it. */
  lemma OnlySkippedRootsLoseData(d: Decoders, b: Bucket, get: StoreKey -> GetResult, listed: seq<Seen>, k: StoreKey)
    requires Snapshot(b, get, listed) && DistinctKeys(listed)
    requires AllRead(d, View(get, listed)) && !Live(d, View(get, listed), k)
    ensures Live(d, b, k) <==> SkippedRootReaches(d, b, get, listed, k)
  {
    ViewShows(b, get, listed);
    OnlyMissedRootsUncover(d, View(get, listed), b, k);
    MissedIsSkipped(d, b, get, listed, k);
  }

  /** In whatever store the listing was taken of, the deletes hit live objects exactly
      where a skipped root reaches them. */
  ghost predicate LosesOnlyToSkips(d: Decoders, get: StoreKey -> GetResult, listed: seq<Seen>, issued: seq<Seen>) {
    forall b: Bucket, x :: Snapshot(b, get, listed) && x in issued ==>
      (Live(d, b, x.key) <==> SkippedRootReaches(d, b, get, listed, x.key))
  }

  /** A pass that skipped no root deletes nothing that the store's roots reached when it
      was listed. */
  ghost predicate SparesLive(d: Decoders, get: StoreKey -> GetResult, listed: seq<Seen>, issued: seq<Seen>) {
    SkippedNoRoot(get, listed) ==> forall b: Bucket, x :: Snapshot(b, get, listed) && x in issued ==> !Live(d, b, x.key)
  }

  lemma JustifiedLosesOnlyToSkips(d: Decoders, get: StoreKey -> GetResult, listed: seq<Seen>, log: Log,
                                  now: nat, grace: nat, issued: seq<Seen>)
    requires DistinctKeys(listed) && forall x :: x in issued ==> Justified(d, get, listed, log, now, grace, x)
    ensures LosesOnlyToSkips(d, get, listed, issued) && SparesLive(d, get, listed, issued)
  {
    forall b: Bucket, x | Snapshot(b, get, listed) && x in issued
      ensures Live(d, b, x.key) <==> SkippedRootReaches(d, b, get, listed, x.key)
    {
      OnlySkippedRootsLoseData(d, b, get, listed, x.key);
    }
  }

  /** Reads of a store in which a head has moved on since it was listed. */
  function MovedHead(volume: U64, head: Bytes, manifest: Bytes): StoreKey -> GetResult {
    k => if k == Head(volume) then Found(2, head) else Found(1, manifest)
  }

  lemma TwoListed(get: StoreKey -> GetResult, s: Seen, x: Seen)
    requires s.key != x.key && !s.key.Unparsed? && !x.key.Unparsed? && Skipped(get, s) && !Skipped(get, x)
    ensures Clean([s, x]) == [s, x] && View(get, [s, x]) == map[x.key := BodyOf(get, x)]
  {
    assert DropLast([s]) == [] && DropLast([s, x]) == [s];
    assert Clean([s]) == [s] && View(get, [s]) == map[];
  }

  /** Such a pass does lose live data: a manifest whose head was rewritten between LIST and
      read is reachable in the listed store and in the one after, and due for deletion. */
  lemma SkippedHeadLosesItsManifest(d: Decoders, volume: U64, ptr: ManifestPtr, head: Bytes, next: Bytes,
                                    manifest: Bytes, grace: nat)
    requires d.head(volume, head) == Some(Some(ptr)) && d.head(volume, next) == Some(Some(ptr))
    ensures var x, get := Seen(PtrKey(volume, ptr), 1), MovedHead(volume, next, manifest);
            var listed := [Seen(Head(volume), 1), x];
            var b := map[Head(volume) := head, x.key := manifest];
            && DistinctKeys(listed) && Clean(listed) == listed && Snapshot(b, get, listed)
            && Live(d, b, x.key) && Live(d, b[Head(volume) := next], x.key)
            && Due(d, get, listed, map[x.key := Observation(1, 0)], grace, grace, x)
  {
    var x, get := Seen(PtrKey(volume, ptr), 1), MovedHead(volume, next, manifest);
    var listed := [Seen(Head(volume), 1), x];
    var b := map[Head(volume) := head, x.key := manifest];
    assert x.key in Closure(d, b, Head(volume));
    assert x.key in Closure(d, b[Head(volume) := next], Head(volume));
    TwoListed(get, listed[0], x);
  }
}
