/**
  The append-only passive-replica spool: artifact frames followed by commit footers, and
  a restart scan that stops at an invalid tail and never makes a commit of partial bytes.
 */
module Spool {
  import opened Prelude
  import opened Format

  const MAGIC_REPLICA_ARTIFACT: U32 := 0x31415242
  const MAGIC_REPLICA_COMMIT: U32 := 0x31435242

  datatype Artifact = Blx(fence: U64, objectId: U64)

  datatype CommitInfo = CommitInfo(fence: U64, journalSeq: U64, syncCoveredThrough: U64)

  datatype ArtifactFrame = ArtifactFrame(
    source: U32, volume: U64, epoch: U64, artifact: Artifact, checksum: U32, bytes: Bytes)

  datatype CommitFrame = CommitFrame(
    source: U32, volume: U64, epoch: U64, info: CommitInfo, required: seq<Artifact>, record: Bytes)

  /** How the two kinds of frame open; `SpoolWire.OpenersOf` is the format's own. */
  datatype Openers = Openers(artifact: Bytes -> Option<ArtifactFrame>, commit: Bytes -> Option<CommitFrame>)

  datatype State = State(
    identity: Option<(U32, U64, U64)>,
    artifacts: map<Artifact, ArtifactFrame>,
    uncommitted: set<Artifact>,
    commits: seq<CommitFrame>)

  const START: State := State(None, map[], {}, [])

  datatype Outcome = Took(state: State) | UnknownMagic | Bad

  function Identified(st: State, source: U32, volume: U64, epoch: U64): Option<State> {
    if st.identity.None? then Some(st.(identity := Some((source, volume, epoch))))
    else if st.identity.value == (source, volume, epoch) then Some(st)
    else None
  }

  function TakeArtifact(before: State, a: ArtifactFrame): Outcome {
    match Identified(before, a.source, a.volume, a.epoch)
    case None => Bad
    case Some(st) =>
      if a.artifact !in st.artifacts then
        Took(st.(artifacts := st.artifacts[a.artifact := a], uncommitted := st.uncommitted + {a.artifact}))
      else if st.artifacts[a.artifact].checksum == a.checksum && st.artifacts[a.artifact].bytes == a.bytes then Took(st)
      else Bad
  }

  /** Commits rank by sync watermark, then by journal sequence. */
  predicate RankBelow(a: CommitInfo, b: CommitInfo) {
    a.syncCoveredThrough < b.syncCoveredThrough
    || (a.syncCoveredThrough == b.syncCoveredThrough && a.journalSeq < b.journalSeq)
  }

  function RequiredBy(c: CommitFrame): set<Artifact> {
    set a | a in c.required
  }

  function TakeCommit(before: State, c: CommitFrame): Outcome {
    match Identified(before, c.source, c.volume, c.epoch)
    case None => Bad
    case Some(st) =>
      if !(RequiredBy(c) <= st.artifacts.Keys) then Bad
      else if st.commits != [] && RankBelow(c.info, Last(st.commits).info) then Bad
      else if st.commits != [] && Last(st.commits) == c then Took(st)
      else Took(st.(uncommitted := st.uncommitted - RequiredBy(c), commits := st.commits + [c]))
  }

  function Step(o: Openers, st: State, frame: Bytes): Outcome {
    var magic := if |frame| < FRAME_HEADER then 0 else FromLe(frame[..4]);
    if magic == MAGIC_REPLICA_ARTIFACT then
      match o.artifact(frame) case None => Bad case Some(a) => TakeArtifact(st, a)
    else if magic == MAGIC_REPLICA_COMMIT then
      match o.commit(frame) case None => Bad case Some(c) => TakeCommit(st, c)
    else UnknownMagic
  }

  /** The length of the frame at the front of some bytes, if all of it is there. */
  function FramedLen(bytes: Bytes): (n: Option<nat>)
    ensures n.Some? ==> FRAME_HEADER <= n.value <= |bytes|
  {
    if |bytes| < FRAME_HEADER then None
    else
      var n := FRAME_HEADER + FromLe(bytes[4..8]);
      if n <= |bytes| then Some(n) else None
  }

  /** What taking one frame does. */
  type Stepper = (State, Bytes) -> Outcome

  function StepperOf(o: Openers): Stepper {
    (st: State, frame: Bytes) => Step(o, st, frame)
  }

  datatype Scan = Scan(validLen: nat, truncatedTail: bool, state: State)

  /** Scanning on from a state with `at` bytes behind it. */
  function ScanFrom(step: Stepper, st: State, rest: Bytes, at: nat): Option<Scan>
    decreases |rest|
  {
    if rest == [] then Some(Scan(at, false, st))
    else
      match FramedLen(rest)
      case None => Some(Scan(at, true, st))
      case Some(n) =>
        match step(st, rest[..n])
        case Bad => None
        case UnknownMagic => Some(Scan(at, true, st))
        case Took(next) => ScanFrom(step, next, rest[n..], at + n)
  }

  function Scanned(step: Stepper, bytes: Bytes): Option<Scan> {
    ScanFrom(step, START, bytes, 0)
  }

  method ScanReplicaSpool(step: Stepper, bytes: Bytes) returns (r: Option<Scan>)
    ensures r == Scanned(step, bytes)
  {
    var scan := Scan(0, false, START);
    assert bytes[0..] == bytes;
    while scan.validLen < |bytes|
      invariant scan.validLen <= |bytes| && !scan.truncatedTail
      invariant Scanned(step, bytes) == ScanFrom(step, scan.state, bytes[scan.validLen..], scan.validLen)
    {
      var rest := bytes[scan.validLen..];
      var length := FramedLen(rest);
      if length.None? {
        return Some(scan.(truncatedTail := true));
      }
      match step(scan.state, rest[..length.value]) {
        case Bad => return None;
        case UnknownMagic => return Some(scan.(truncatedTail := true));
        case Took(next) =>
          assert rest[length.value..] == bytes[scan.validLen + length.value..];
          scan := Scan(scan.validLen + length.value, false, next);
      }
    }
    return Some(scan);
  }

  // ---- Whole frames and a torn one -------------------------------------------------------------------

  predicate Whole(frame: Bytes) {
    FramedLen(frame) == Some(|frame|)
  }

  predicate AllWhole(frames: seq<Bytes>) {
    forall i :: 0 <= i < |frames| ==> Whole(frames[i])
  }

  function Concat(frames: seq<Bytes>): Bytes {
    if frames == [] then [] else frames[0] + Concat(frames[1..])
  }

  /** Taking whole frames one by one; None if one of them is not accepted. */
  function Fold(step: Stepper, st: State, frames: seq<Bytes>): Option<State>
    requires AllWhole(frames)
    decreases |frames|
  {
    if frames == [] then Some(st)
    else
      match step(st, frames[0])
      case Took(next) => Fold(step, next, frames[1..])
      case _ => None
  }

  lemma FrontFrame(frame: Bytes, more: Bytes)
    requires Whole(frame)
    ensures FramedLen(frame + more) == Some(|frame|) && (frame + more)[..|frame|] == frame
            && (frame + more)[|frame|..] == more
  {
    assert (frame + more)[4..8] == frame[4..8];
  }

  lemma {:induction false} ScanOfFrames(step: Stepper, st: State, frames: seq<Bytes>, tail: Bytes, at: nat)
    requires AllWhole(frames) && Fold(step, st, frames).Some?
    ensures ScanFrom(step, st, Concat(frames) + tail, at)
            == ScanFrom(step, Fold(step, st, frames).value, tail, at + |Concat(frames)|)
    decreases |frames|
  {
    if frames == [] {
      assert Concat(frames) + tail == tail;
    } else {
      var more := Concat(frames[1..]) + tail;
      assert Concat(frames) + tail == frames[0] + more;
      FrontFrame(frames[0], more);
      ScanOfFrames(step, step(st, frames[0]).state, frames[1..], tail, at + |frames[0]|);
    }
  }

  /** A proper prefix of a whole frame has no length to go by. */
  lemma TornFrame(frame: Bytes, n: nat)
    requires Whole(frame) && n < |frame|
    ensures FramedLen(frame[..n]).None?
  {
    if n >= FRAME_HEADER {
      assert frame[..n][4..8] == frame[4..8];
    }
  }

  /** For accepted frames followed by a proper prefix of one more, the scan is the fold
      over the whole frames and its valid length is theirs. */
  lemma ScanIsFold(step: Stepper, frames: seq<Bytes>, torn: Bytes, n: nat)
    requires AllWhole(frames) && Fold(step, START, frames).Some? && Whole(torn) && n < |torn|
    ensures Scanned(step, Concat(frames) + torn[..n])
            == Some(Scan(|Concat(frames)|, n > 0, Fold(step, START, frames).value))
  {
    ScanOfFrames(step, START, frames, torn[..n], 0);
    TornFrame(torn, n);
  }

  lemma KeptFront(rest: Bytes, n: nat, m: nat)
    requires FRAME_HEADER <= n <= m <= |rest|
    ensures rest[..m][4..8] == rest[4..8] && rest[..m][..n] == rest[..n] && rest[..m][n..] == rest[n..][..m - n]
  {
  }

  /** Truncating to the valid length and scanning again gives the same, untruncated. */
  lemma {:induction false} ScanTruncates(step: Stepper, st: State, rest: Bytes, at: nat)
    requires ScanFrom(step, st, rest, at).Some?
    ensures var s := ScanFrom(step, st, rest, at).value;
            && at <= s.validLen <= at + |rest|
            && (!s.truncatedTail ==> s.validLen == at + |rest|)
            && ScanFrom(step, st, rest[..s.validLen - at], at) == Some(s.(truncatedTail := false))
    decreases |rest|
  {
    var s := ScanFrom(step, st, rest, at).value;
    if rest != [] && FramedLen(rest).Some? {
      var n := FramedLen(rest).value;
      var next := step(st, rest[..n]);
      if next.Took? {
        ScanTruncates(step, next.state, rest[n..], at + n);
        KeptFront(rest, n, s.validLen - at);
      }
    }
  }

  lemma RescanIsIdempotent(step: Stepper, bytes: Bytes)
    requires Scanned(step, bytes).Some?
    ensures var s := Scanned(step, bytes).value;
            s.validLen <= |bytes| && Scanned(step, bytes[..s.validLen]) == Some(s.(truncatedTail := false))
  {
    ScanTruncates(step, START, bytes, 0);
  }

  lemma {:induction false} ScanContinues(step: Stepper, st: State, rest: Bytes, more: Bytes, at: nat)
    requires ScanFrom(step, st, rest, at).Some? && !ScanFrom(step, st, rest, at).value.truncatedTail
    ensures var s := ScanFrom(step, st, rest, at).value;
            ScanFrom(step, st, rest + more, at) == ScanFrom(step, s.state, more, s.validLen)
    decreases |rest|
  {
    if rest == [] {
      assert rest + more == more;
    } else {
      var n := FramedLen(rest).value;
      var both := rest + more;
      assert both[4..8] == rest[4..8] && both[..n] == rest[..n] && both[n..] == rest[n..] + more;
      ScanContinues(step, step(st, rest[..n]).state, rest[n..], more, at + n);
    }
  }

  /** Appending a frame at the valid length is one step of the fold. */
  lemma AppendIsOneStep(step: Stepper, bytes: Bytes, frame: Bytes)
    requires Scanned(step, bytes).Some? && Whole(frame)
    ensures var s := Scanned(step, bytes).value;
            && s.validLen <= |bytes|
            && Scanned(step, bytes[..s.validLen] + frame) ==
               match step(s.state, frame)
               case Took(next) => Some(Scan(s.validLen + |frame|, false, next))
               case UnknownMagic => Some(Scan(s.validLen, true, s.state))
               case Bad => None
  {
    var s := Scanned(step, bytes).value;
    RescanIsIdempotent(step, bytes);
    ScanContinues(step, START, bytes[..s.validLen], frame, 0);
    assert frame[..|frame|] == frame && frame[|frame|..] == [];
  }
}
