/** Which spools a scan accepts and what it makes of them, told from the frames alone. */
module SpoolMeaning {
  import opened Prelude
  import opened Format
  import opened Spool

  datatype Item = AnArtifact(frame: ArtifactFrame) | ACommit(commit: CommitFrame)

  /** What a frame holds, by its magic. */
  function ItemOf(o: Openers, frame: Bytes): Option<Item> {
    if |frame| < FRAME_HEADER then None
    else if FromLe(frame[..4]) == MAGIC_REPLICA_ARTIFACT then
      match o.artifact(frame) case None => None case Some(a) => Some(AnArtifact(a))
    else if FromLe(frame[..4]) == MAGIC_REPLICA_COMMIT then
      match o.commit(frame) case None => None case Some(c) => Some(ACommit(c))
    else None
  }

  function Origin(x: Item): (U32, U64, U64) {
    match x
    case AnArtifact(a) => (a.source, a.volume, a.epoch)
    case ACommit(c) => (c.source, c.volume, c.epoch)
  }

  predicate Earlier(a: CommitInfo, b: CommitInfo) {
    a.syncCoveredThrough < b.syncCoveredThrough
    || (a.syncCoveredThrough == b.syncCoveredThrough && a.journalSeq < b.journalSeq)
  }

  predicate HasArtifact(items: seq<Item>, a: Artifact) {
    exists i :: 0 <= i < |items| && items[i].AnArtifact? && items[i].frame.artifact == a
  }

  /** What may come next: of one origin; an artifact only with the bytes it already had; a
      commit only after everything it requires and not before an earlier commit. */
  predicate MayFollow(items: seq<Item>, x: Item) {
    && (items != [] ==> Origin(x) == Origin(items[0]))
    && (x.AnArtifact? ==>
          forall i :: 0 <= i < |items| && items[i].AnArtifact? && items[i].frame.artifact == x.frame.artifact ==>
            items[i].frame.checksum == x.frame.checksum && items[i].frame.bytes == x.frame.bytes)
    && (x.ACommit? ==>
          && (forall a :: a in x.commit.required ==> HasArtifact(items, a))
          && (forall i :: 0 <= i < |items| && items[i].ACommit? ==> !Earlier(x.commit.info, items[i].commit.info)))
  }

  predicate Follows(items: seq<Item>) {
    forall n :: 0 <= n < |items| ==> MayFollow(items[..n], items[n])
  }

  /** The commits, a repetition of the one before left out. */
  function CommitsOf(items: seq<Item>): seq<CommitFrame> {
    if items == [] then []
    else
      var before := CommitsOf(DropLast(items));
      match Last(items)
      case AnArtifact(_) => before
      case ACommit(c) => if before != [] && Last(before) == c then before else before + [c]
  }

  predicate IsFirst(items: seq<Item>, i: nat) {
    i < |items| && items[i].AnArtifact? && !HasArtifact(items[..i], items[i].frame.artifact)
  }

  predicate IsRequired(items: seq<Item>, a: Artifact) {
    exists i :: 0 <= i < |items| && items[i].ACommit? && a in items[i].commit.required
  }

  /** The state says what the items say: one origin, the first frame of every artifact, the
      commits, and as uncommitted the artifacts that no commit requires. */
  ghost predicate Tells(items: seq<Item>, st: State) {
    && st.identity == (if items == [] then None else Some(Origin(items[0])))
    && TellsArtifacts(items, st.artifacts) && TellsFirsts(items, st.artifacts)
    && st.commits == CommitsOf(items)
    && TellsUncommitted(items, st.uncommitted)
  }

  ghost predicate TellsArtifacts(items: seq<Item>, artifacts: map<Artifact, ArtifactFrame>) {
    forall a :: a in artifacts <==> HasArtifact(items, a)
  }

  ghost predicate TellsFirsts(items: seq<Item>, artifacts: map<Artifact, ArtifactFrame>) {
    forall a :: a in artifacts ==>
      exists i: nat :: IsFirst(items, i) && items[i].frame == artifacts[a] && items[i].frame.artifact == a
  }

  ghost predicate TellsUncommitted(items: seq<Item>, uncommitted: set<Artifact>) {
    forall a :: a in uncommitted <==> HasArtifact(items, a) && !IsRequired(items, a)
  }

  // ---- One more item ------------------------------------------------------------------------

  function Taken(st: State, x: Item): Outcome {
    match x
    case AnArtifact(a) => TakeArtifact(st, a)
    case ACommit(c) => TakeCommit(st, c)
  }

  lemma StepTakes(o: Openers, st: State, frame: Bytes)
    ensures ItemOf(o, frame).Some? ==> Step(o, st, frame) == Taken(st, ItemOf(o, frame).value)
    ensures ItemOf(o, frame).None? ==> !Step(o, st, frame).Took?
  {
  }

  lemma HasGrows(items: seq<Item>, x: Item, a: Artifact)
    ensures HasArtifact(items + [x], a) <==> HasArtifact(items, a) || (x.AnArtifact? && x.frame.artifact == a)
  {
    if HasArtifact(items, a) {
      var i :| 0 <= i < |items| && items[i].AnArtifact? && items[i].frame.artifact == a;
      assert (items + [x])[i] == items[i];
    }
    if x.AnArtifact? && x.frame.artifact == a { assert (items + [x])[|items|] == x; }
  }

  lemma RequiredGrows(items: seq<Item>, x: Item, a: Artifact)
    ensures IsRequired(items + [x], a) <==> IsRequired(items, a) || (x.ACommit? && a in x.commit.required)
  {
    if IsRequired(items, a) {
      var i :| 0 <= i < |items| && items[i].ACommit? && a in items[i].commit.required;
      assert (items + [x])[i] == items[i];
    }
    if x.ACommit? && a in x.commit.required { assert (items + [x])[|items|] == x; }
  }

  lemma FirstStays(items: seq<Item>, x: Item, i: nat)
    requires IsFirst(items, i)
    ensures IsFirst(items + [x], i) && (items + [x])[i] == items[i]
  {
    assert (items + [x])[..i] == items[..i];
  }

  lemma NewIsFirst(items: seq<Item>, a: ArtifactFrame)
    requires !HasArtifact(items, a.artifact)
    ensures IsFirst(items + [AnArtifact(a)], |items|)
  {
    assert (items + [AnArtifact(a)])[..|items|] == items;
  }

  /** All frames of an artifact hold the same checksum and bytes as the first. */
  lemma {:induction false} SameAsFirst(items: seq<Item>, i: nat, j: nat)
    requires Follows(items) && i < |items| && j < |items| && items[i].AnArtifact? && items[j].AnArtifact?
    requires items[i].frame.artifact == items[j].frame.artifact
    ensures items[i].frame.checksum == items[j].frame.checksum && items[i].frame.bytes == items[j].frame.bytes
  {
    if i < j {
      assert MayFollow(items[..j], items[j]) && items[..j][i] == items[i];
    } else if j < i {
      assert MayFollow(items[..i], items[i]) && items[..i][j] == items[j];
    }
  }

  lemma ArtifactTakes(items: seq<Item>, st: State, a: ArtifactFrame)
    requires Follows(items) && Tells(items, st)
    ensures TakeArtifact(st, a).Took? <==> MayFollow(items, AnArtifact(a))
  {
    if a.artifact in st.artifacts {
      var i: nat :| IsFirst(items, i) && items[i].frame == st.artifacts[a.artifact]
        && items[i].frame.artifact == a.artifact;
      forall j | 0 <= j < |items| && items[j].AnArtifact? && items[j].frame.artifact == a.artifact
        ensures items[j].frame.checksum == items[i].frame.checksum && items[j].frame.bytes == items[i].frame.bytes
      {
        SameAsFirst(items, i, j);
      }
    } else {
      assert !HasArtifact(items, a.artifact);
    }
  }

  lemma {:induction false} LastCommitIs(items: seq<Item>)
    ensures CommitsOf(items) != [] <==> exists i :: 0 <= i < |items| && items[i].ACommit?
    ensures CommitsOf(items) != [] ==>
              exists i: nat :: i < |items| && items[i] == ACommit(Last(CommitsOf(items)))
                               && forall j :: i < j < |items| ==> !items[j].ACommit?
  {
    if items != [] {
      var front := DropLast(items);
      LastCommitIs(front);
      assert items == front + [Last(items)] && Last(items) == items[|items| - 1];
      if Last(items).AnArtifact? && CommitsOf(front) != [] {
        var i: nat :| i < |front| && front[i] == ACommit(Last(CommitsOf(front)))
                      && forall j :: i < j < |front| ==> !front[j].ACommit?;
        assert items[i] == front[i];
        forall j | i < j < |items| ensures !items[j].ACommit? {
          if j < |front| { assert items[j] == front[j]; }
        }
      }
      if Last(items).ACommit? { assert items[|items| - 1] == ACommit(Last(CommitsOf(items))); }
    }
  }

  /** Not before the last commit means not before any. */
  lemma RanksRise(items: seq<Item>, c: CommitFrame)
    requires Follows(items)
    ensures (forall i :: 0 <= i < |items| && items[i].ACommit? ==> !Earlier(c.info, items[i].commit.info)) <==>
            (CommitsOf(items) != [] ==> !Earlier(c.info, Last(CommitsOf(items)).info))
  {
    LastCommitIs(items);
    if CommitsOf(items) != [] && !Earlier(c.info, Last(CommitsOf(items)).info) {
      var n: nat :| n < |items| && items[n] == ACommit(Last(CommitsOf(items)))
                    && forall j :: n < j < |items| ==> !items[j].ACommit?;
      forall i | 0 <= i < |items| && items[i].ACommit? ensures !Earlier(c.info, items[i].commit.info) {
        if i < n { assert MayFollow(items[..n], items[n]) && items[..n][i] == items[i]; }
      }
    }
  }

  lemma CommitTakes(items: seq<Item>, st: State, c: CommitFrame)
    requires Follows(items) && Tells(items, st)
    ensures TakeCommit(st, c).Took? <==> MayFollow(items, ACommit(c))
  {
    RanksRise(items, c);
    assert RequiredBy(c) <= st.artifacts.Keys <==> forall a :: a in c.required ==> HasArtifact(items, a);
  }

  lemma IdentityTells(items: seq<Item>, st: State, x: Item)
    requires Tells(items, st) && Taken(st, x).Took?
    ensures (items + [x])[0] == if items == [] then x else items[0]
    ensures Taken(st, x).state.identity == Some(Origin((items + [x])[0]))
  {
  }

  lemma FirstsTell(items: seq<Item>, st: State, x: Item, a: Artifact)
    requires Tells(items, st) && Taken(st, x).Took? && a in Taken(st, x).state.artifacts
    ensures exists i: nat :: IsFirst(items + [x], i) && (items + [x])[i].frame == Taken(st, x).state.artifacts[a]
                             && (items + [x])[i].frame.artifact == a
  {
    if a in st.artifacts {
      var i: nat :| IsFirst(items, i) && items[i].frame == st.artifacts[a] && items[i].frame.artifact == a;
      FirstStays(items, x, i);
    } else {
      NewIsFirst(items, x.frame);
      assert (items + [x])[|items|] == x;
    }
  }

  /** Whatever is required is there. */
  lemma RequiredAreThere(items: seq<Item>, a: Artifact)
    requires Follows(items) && IsRequired(items, a)
    ensures HasArtifact(items, a)
  {
    var i :| 0 <= i < |items| && items[i].ACommit? && a in items[i].commit.required;
    assert MayFollow(items[..i], items[i]);
    var j :| 0 <= j < |items[..i]| && items[..i][j].AnArtifact? && items[..i][j].frame.artifact == a;
    assert items[j] == items[..i][j];
  }

  lemma RepeatedRequiresNothing(items: seq<Item>, c: CommitFrame, a: Artifact)
    requires CommitsOf(items) != [] && Last(CommitsOf(items)) == c && a in c.required
    ensures IsRequired(items, a)
  {
    LastCommitIs(items);
    var i: nat :| i < |items| && items[i] == ACommit(Last(CommitsOf(items)))
                  && forall j :: i < j < |items| ==> !items[j].ACommit?;
    assert items[i].ACommit? && a in items[i].commit.required;
  }

  lemma UncommittedTells(items: seq<Item>, st: State, x: Item, a: Artifact)
    requires Follows(items) && Tells(items, st) && Taken(st, x).Took?
    ensures a in Taken(st, x).state.uncommitted <==> HasArtifact(items + [x], a) && !IsRequired(items + [x], a)
  {
    HasGrows(items, x, a);
    RequiredGrows(items, x, a);
    if IsRequired(items, a) { RequiredAreThere(items, a); }
    if x.ACommit? && CommitsOf(items) != [] && Last(CommitsOf(items)) == x.commit && a in x.commit.required {
      RepeatedRequiresNothing(items, x.commit, a);
    }
  }

  lemma TakenTells(items: seq<Item>, st: State, x: Item)
    requires Follows(items) && Tells(items, st) && MayFollow(items, x) && Taken(st, x).Took?
    ensures Tells(items + [x], Taken(st, x).state)
  {
    var all, next := items + [x], Taken(st, x).state;
    SnocParts(items, x);
    IdentityTells(items, st, x);
    assert TellsArtifacts(all, next.artifacts) by {
      forall a ensures a in next.artifacts <==> HasArtifact(all, a) { HasGrows(items, x, a); }
    }
    assert TellsFirsts(all, next.artifacts) by {
      forall a | a in next.artifacts
        ensures exists i: nat :: IsFirst(all, i) && all[i].frame == next.artifacts[a] && all[i].frame.artifact == a
      {
        FirstsTell(items, st, x, a);
      }
    }
    assert TellsUncommitted(all, next.uncommitted) by {
      forall a ensures a in next.uncommitted <==> HasArtifact(all, a) && !IsRequired(all, a) {
        UncommittedTells(items, st, x, a);
      }
    }
    assert next.commits == CommitsOf(all);
  }

  // ---- Whole spools -----------------------------------------------------------------------------

  predicate AllOpen(o: Openers, frames: seq<Bytes>) {
    forall i :: 0 <= i < |frames| ==> ItemOf(o, frames[i]).Some?
  }

  function ItemsOf(o: Openers, frames: seq<Bytes>): (items: seq<Item>)
    requires AllOpen(o, frames)
    ensures |items| == |frames|
  {
    if frames == [] then [] else ItemsOf(o, DropLast(frames)) + [ItemOf(o, Last(frames)).value]
  }

  lemma {:induction false} FoldSnoc(step: Stepper, st: State, frames: seq<Bytes>, f: Bytes)
    requires AllWhole(frames) && Whole(f)
    ensures AllWhole(frames + [f])
    ensures Fold(step, st, frames + [f]) ==
            match Fold(step, st, frames)
            case None => None
            case Some(mid) => (match step(mid, f) case Took(next) => Some(next) case _ => None)
    decreases |frames|
  {
    var all := frames + [f];
    if frames == [] {
      assert all[0] == f && all[1..] == [];
    } else {
      assert all[0] == frames[0] && all[1..] == frames[1..] + [f];
      match step(st, frames[0])
      case Took(next) => FoldSnoc(step, next, frames[1..], f);
      case _ =>
    }
  }

  lemma FollowsSnoc(items: seq<Item>, x: Item)
    ensures Follows(items + [x]) <==> Follows(items) && MayFollow(items, x)
  {
    var all := items + [x];
    assert all[..|items|] == items;
    forall n | 0 <= n < |items| ensures all[..n] == items[..n] && all[n] == items[n] {}
    if Follows(all) {
      forall n | 0 <= n < |items| ensures MayFollow(items[..n], items[n]) { assert MayFollow(all[..n], all[n]); }
      assert MayFollow(all[..|items|], all[|items|]);
    }
  }

  lemma StepMeans(o: Openers, items: seq<Item>, st: State, frame: Bytes)
    requires Follows(items) && Tells(items, st)
    ensures Step(o, st, frame).Took? <==> ItemOf(o, frame).Some? && MayFollow(items, ItemOf(o, frame).value)
    ensures Step(o, st, frame).Took? ==> Tells(items + [ItemOf(o, frame).value], Step(o, st, frame).state)
  {
    StepTakes(o, st, frame);
    if ItemOf(o, frame).Some? {
      var x := ItemOf(o, frame).value;
      if x.AnArtifact? { ArtifactTakes(items, st, x.frame); } else { CommitTakes(items, st, x.commit); }
      if MayFollow(items, x) { TakenTells(items, st, x); }
    }
  }

  /** A spool of whole frames is accepted exactly when every frame opens and may follow those
      before it, and the state then says what the frames say. */
  lemma {:induction false} AcceptedSpoolsAreThese(o: Openers, frames: seq<Bytes>)
    requires AllWhole(frames)
    ensures Fold(StepperOf(o), START, frames).Some? <==> AllOpen(o, frames) && Follows(ItemsOf(o, frames))
    ensures Fold(StepperOf(o), START, frames).Some? ==>
              Tells(ItemsOf(o, frames), Fold(StepperOf(o), START, frames).value)
    decreases |frames|
  {
    if frames != [] {
      var front, f := DropLast(frames), Last(frames);
      assert frames == front + [f];
      AcceptedSpoolsAreThese(o, front);
      FoldSnoc(StepperOf(o), START, front, f);
      if Fold(StepperOf(o), START, front).Some? {
        StepMeans(o, ItemsOf(o, front), Fold(StepperOf(o), START, front).value, f);
      }
      if AllOpen(o, frames) {
        assert AllOpen(o, front);
        FollowsSnoc(ItemsOf(o, front), ItemOf(o, f).value);
      }
    }
  }

  // ---- Any bytes ------------------------------------------------------------------------------------

  /** Where a scan of some bytes stops: after whole frames that it took, at the end, at a frame
      not all there or of unknown magic, or at one it rejects. */
  predicate StopsAfter(step: Stepper, st: State, bytes: Bytes, frames: seq<Bytes>) {
    && AllWhole(frames) && Fold(step, st, frames).Some?
    && Concat(frames) <= bytes
    && var rest := bytes[|Concat(frames)|..];
       FramedLen(rest).Some? ==> !step(Fold(step, st, frames).value, rest[..FramedLen(rest).value]).Took?
  }

  predicate Rejects(step: Stepper, st: State, rest: Bytes) {
    FramedLen(rest).Some? && step(st, rest[..FramedLen(rest).value]).Bad?
  }

  lemma FrontIsWhole(bytes: Bytes)
    requires FramedLen(bytes).Some?
    ensures Whole(bytes[..FramedLen(bytes).value])
  {
    var n := FramedLen(bytes).value;
    assert bytes[..n][4..8] == bytes[4..8];
  }

  /** Every scan takes whole frames as long as it can. What is left is nothing, a torn or
      unknown frame, at which it stops, or one that makes it reject the spool. */
  lemma {:induction false} EveryScanStopsAfter(step: Stepper, st: State, bytes: Bytes, at: nat)
    returns (frames: seq<Bytes>)
    ensures StopsAfter(step, st, bytes, frames)
    ensures var n := |Concat(frames)|;
            ScanFrom(step, st, bytes, at) ==
            if Rejects(step, Fold(step, st, frames).value, bytes[n..]) then None
            else Some(Scan(at + n, n < |bytes|, Fold(step, st, frames).value))
    decreases |bytes|
  {
    frames := [];
    if FramedLen(bytes).Some? {
      var n := FramedLen(bytes).value;
      var front, rest := bytes[..n], bytes[n..];
      FrontIsWhole(bytes);
      match step(st, front)
      case Took(next) =>
        var more := EveryScanStopsAfter(step, next, rest, at + n);
        frames := [front] + more;
        assert frames[1..] == more && bytes == front + rest;
        assert Concat(frames) == front + Concat(more);
        assert bytes[|Concat(frames)|..] == rest[|Concat(more)|..];
      case _ => assert bytes[0..] == bytes;
    } else {
      assert bytes[0..] == bytes;
    }
  }
}
