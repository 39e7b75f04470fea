/** What every spool scan can rely on. */
module SpoolProofs {
  import opened Prelude
  import opened Format
  import opened Spool

  function AllRequired(commits: seq<CommitFrame>): set<Artifact> {
    if commits == [] then {} else AllRequired(DropLast(commits)) + RequiredBy(Last(commits))
  }

  predicate NeverFalls(commits: seq<CommitFrame>) {
    forall i, j :: 0 <= i < j < |commits| ==> !RankBelow(commits[j].info, commits[i].info)
  }

  predicate FromHere(st: State, source: U32, volume: U64, epoch: U64) {
    st.identity == Some((source, volume, epoch))
  }

  /** Artifacts under their own names, all required ones present, exactly the rest
      uncommitted, ranks that never fall, and one identity throughout. */
  predicate Inv(st: State) {
    && (forall a :: a in st.artifacts ==>
          && st.artifacts[a].artifact == a
          && FromHere(st, st.artifacts[a].source, st.artifacts[a].volume, st.artifacts[a].epoch))
    && (forall i :: 0 <= i < |st.commits| ==>
          FromHere(st, st.commits[i].source, st.commits[i].volume, st.commits[i].epoch))
    && AllRequired(st.commits) <= st.artifacts.Keys
    && st.uncommitted == st.artifacts.Keys - AllRequired(st.commits)
    && NeverFalls(st.commits)
  }

  lemma ArtifactKeeps(st: State, a: ArtifactFrame)
    requires Inv(st) && TakeArtifact(st, a).Took?
    ensures Inv(TakeArtifact(st, a).state)
  {
  }

  lemma NeverFallsGrows(commits: seq<CommitFrame>, c: CommitFrame)
    requires NeverFalls(commits) && (commits != [] ==> !RankBelow(c.info, Last(commits).info))
    ensures NeverFalls(commits + [c])
  {
    var all := commits + [c];
    forall i, j | 0 <= i < j < |all| ensures !RankBelow(all[j].info, all[i].info) {
      if j == |commits| {
        assert i < |commits| - 1 ==> !RankBelow(Last(commits).info, commits[i].info);
      }
    }
  }

  lemma CommitKeeps(st: State, c: CommitFrame)
    requires Inv(st) && TakeCommit(st, c).Took?
    ensures Inv(TakeCommit(st, c).state)
  {
    if !(st.commits != [] && Last(st.commits) == c) {
      NeverFallsGrows(st.commits, c);
      SnocParts(st.commits, c);
    }
  }

  lemma StepKeeps(o: Openers, st: State, frame: Bytes)
    requires Inv(st) && Step(o, st, frame).Took?
    ensures Inv(Step(o, st, frame).state)
  {
    var magic := if |frame| < FRAME_HEADER then 0 else FromLe(frame[..4]);
    if magic == MAGIC_REPLICA_ARTIFACT {
      ArtifactKeeps(st, o.artifact(frame).value);
    } else {
      CommitKeeps(st, o.commit(frame).value);
    }
  }

  lemma {:induction false} ScanKeeps(o: Openers, st: State, rest: Bytes, at: nat)
    requires Inv(st) && ScanFrom(StepperOf(o), st, rest, at).Some?
    ensures Inv(ScanFrom(StepperOf(o), st, rest, at).value.state)
    decreases |rest|
  {
    if rest != [] && FramedLen(rest).Some? {
      var n := FramedLen(rest).value;
      var next := StepperOf(o)(st, rest[..n]);
      if next.Took? {
        StepKeeps(o, st, rest[..n]);
        ScanKeeps(o, next.state, rest[n..], at + n);
      }
    }
  }

  /** Whatever the bytes, an accepted scan is consistent: the uncommitted artifacts are
      exactly those no commit requires, and commit ranks never fall. */
  lemma EveryScanIsConsistent(o: Openers, bytes: Bytes)
    requires Scanned(StepperOf(o), bytes).Some?
    ensures Inv(Scanned(StepperOf(o), bytes).value.state)
  {
    ScanKeeps(o, START, bytes, 0);
  }

  // ---- Commits come after what they require --------------------------------------------------------------

  /** One of the first `n` frames is this artifact's. */
  predicate HasArtifact(o: Openers, frames: seq<Bytes>, n: nat, a: Artifact)
    requires n <= |frames|
  {
    exists m :: 0 <= m < n && o.artifact(frames[m]).Some? && o.artifact(frames[m]).value.artifact == a
  }

  /** Some frame is this commit's, and everything it requires came before it. */
  predicate Backed(o: Openers, frames: seq<Bytes>, c: CommitFrame) {
    exists n :: 0 <= n < |frames| && BackedAt(o, frames, n, c)
  }

  predicate BackedAt(o: Openers, frames: seq<Bytes>, n: nat, c: CommitFrame)
    requires n < |frames|
  {
    o.commit(frames[n]) == Some(c) && forall a :: a in c.required ==> HasArtifact(o, frames, n, a)
  }

  ghost predicate Traced(o: Openers, frames: seq<Bytes>, st: State) {
    && (forall a :: a in st.artifacts ==> HasArtifact(o, frames, |frames|, a))
    && (forall i :: 0 <= i < |st.commits| ==> Backed(o, frames, st.commits[i]))
  }

  lemma HasArtifactGrows(o: Openers, frames: seq<Bytes>, f: Bytes, n: nat, a: Artifact)
    requires n <= |frames| && HasArtifact(o, frames, n, a)
    ensures HasArtifact(o, frames + [f], n, a) && HasArtifact(o, frames + [f], |frames| + 1, a)
  {
    var m :| 0 <= m < n && o.artifact(frames[m]).Some? && o.artifact(frames[m]).value.artifact == a;
    assert (frames + [f])[m] == frames[m];
  }

  lemma BackedGrows(o: Openers, frames: seq<Bytes>, f: Bytes, c: CommitFrame)
    requires Backed(o, frames, c)
    ensures Backed(o, frames + [f], c)
  {
    var n :| 0 <= n < |frames| && BackedAt(o, frames, n, c);
    forall a | a in c.required ensures HasArtifact(o, frames + [f], n, a) {
      HasArtifactGrows(o, frames, f, n, a);
    }
    assert BackedAt(o, frames + [f], n, c);
  }

  lemma TracedGrows(o: Openers, frames: seq<Bytes>, f: Bytes, st: State)
    requires Traced(o, frames, st)
    ensures Traced(o, frames + [f], st)
  {
    forall a | a in st.artifacts ensures HasArtifact(o, frames + [f], |frames + [f]|, a) {
      HasArtifactGrows(o, frames, f, |frames|, a);
    }
    forall i | 0 <= i < |st.commits| ensures Backed(o, frames + [f], st.commits[i]) {
      BackedGrows(o, frames, f, st.commits[i]);
    }
  }

  lemma ArtifactTraced(o: Openers, frames: seq<Bytes>, f: Bytes, st: State, a: ArtifactFrame)
    requires Traced(o, frames + [f], st) && o.artifact(f) == Some(a) && TakeArtifact(st, a).Took?
    ensures Traced(o, frames + [f], TakeArtifact(st, a).state)
  {
    var all := frames + [f];
    assert all[|frames|] == f;
    assert HasArtifact(o, all, |all|, a.artifact);
  }

  lemma CommitTraced(o: Openers, frames: seq<Bytes>, f: Bytes, st: State, c: CommitFrame)
    requires Traced(o, frames, st) && o.commit(f) == Some(c) && TakeCommit(st, c).Took?
    ensures Traced(o, frames + [f], TakeCommit(st, c).state)
  {
    var all := frames + [f];
    TracedGrows(o, frames, f, st);
    assert all[|frames|] == f;
    forall a | a in c.required ensures HasArtifact(o, all, |frames|, a) {
      assert a in RequiredBy(c);
      HasArtifactGrows(o, frames, f, |frames|, a);
    }
    assert BackedAt(o, all, |frames|, c);
  }

  lemma StepTraced(o: Openers, frames: seq<Bytes>, f: Bytes, st: State)
    requires Traced(o, frames, st) && Step(o, st, f).Took?
    ensures Traced(o, frames + [f], Step(o, st, f).state)
  {
    var magic := if |f| < FRAME_HEADER then 0 else FromLe(f[..4]);
    if magic == MAGIC_REPLICA_ARTIFACT {
      TracedGrows(o, frames, f, st);
      ArtifactTraced(o, frames, f, st, o.artifact(f).value);
    } else {
      CommitTraced(o, frames, f, st, o.commit(f).value);
    }
  }

  lemma {:induction false} FoldTraced(o: Openers, before: seq<Bytes>, st: State, frames: seq<Bytes>)
    requires AllWhole(frames) && Traced(o, before, st) && Fold(StepperOf(o), st, frames).Some?
    ensures Traced(o, before + frames, Fold(StepperOf(o), st, frames).value)
    decreases |frames|
  {
    if frames == [] {
      assert before + frames == before;
    } else {
      StepTraced(o, before, frames[0], st);
      FoldTraced(o, before + [frames[0]], Step(o, st, frames[0]).state, frames[1..]);
      assert before + [frames[0]] + frames[1..] == before + frames;
    }
  }

  /** Every commit of an accepted spool has a frame, and frames of all the artifacts it
      requires come before that one. */
  lemma CommitsFollowTheirArtifacts(o: Openers, frames: seq<Bytes>, i: nat)
    requires AllWhole(frames) && Fold(StepperOf(o), START, frames).Some?
    requires i < |Fold(StepperOf(o), START, frames).value.commits|
    ensures Backed(o, frames, Fold(StepperOf(o), START, frames).value.commits[i])
  {
    FoldTraced(o, [], START, frames);
    assert [] + frames == frames;
  }
}
