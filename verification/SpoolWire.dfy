/** The bytes of spool frames: sealing and opening artifacts and commits. */
module SpoolWire {
  import opened Prelude
  import opened Format
  import opened Spool

  const WIRE_VERSION: nat := 2
  const MAX_REQUIRED: nat := 1_000_000

  /** The checksum, and the validity of artifact and journal-record bytes. */
  datatype Verifier = Verifier(
    crc: Crc,
    artifact: (U64, Artifact, Bytes) -> bool,
    record: (U64, CommitInfo, Bytes) -> bool)

  // ---- Artifacts --------------------------------------------------------------------------------------

  /** Version, source, volume, epoch, kind, fence, object, checksum, length. */
  const ARTIFACT_WIDTHS: seq<nat> := [2, 4, 8] + [8, 1, 8] + [8, 4, 4]

  function ArtifactValues(a: ArtifactFrame): seq<nat> {
    [WIRE_VERSION, a.source, a.volume, a.epoch, 0, a.artifact.fence, a.artifact.objectId, a.checksum, |a.bytes|]
  }

  /** A frame fits when its payload has a 32-bit length. */
  predicate ArtifactFits(a: ArtifactFrame) {
    Width(ARTIFACT_WIDTHS) + |a.bytes| < U32_LIMIT
  }

  function SealedArtifact(v: Verifier, a: ArtifactFrame): Bytes
    requires ArtifactFits(a)
  {
    Sealed(v.crc, MAGIC_REPLICA_ARTIFACT, Pack(ARTIFACT_WIDTHS, ArtifactValues(a)) + a.bytes)
  }

  /** Sealing refuses bytes that are not a valid artifact of that name. */
  function SealArtifact(v: Verifier, a: ArtifactFrame): Option<Bytes>
    requires ArtifactFits(a)
  {
    if v.artifact(a.volume, a.artifact, a.bytes) then Some(SealedArtifact(v, a)) else None
  }

  function ArtifactOf(v: Verifier, values: seq<nat>, bytes: Bytes): Option<ArtifactFrame>
    requires Fit(ARTIFACT_WIDTHS, values)
  {
    ArtifactValuesFit(values);
    if values[0] != WIRE_VERSION || values[4] != 0 || values[8] != |bytes| || v.crc(bytes) != values[7] then None
    else
      var artifact := Blx(values[5], values[6]);
      if !v.artifact(values[2], artifact, bytes) then None
      else Some(ArtifactFrame(values[1], values[2], values[3], artifact, values[7], bytes))
  }

  lemma ArtifactValuesFit(values: seq<nat>)
    requires Fit(ARTIFACT_WIDTHS, values)
    ensures |values| == 9 && values[1] < U32_LIMIT && values[2] < U64_LIMIT && values[3] < U64_LIMIT
    ensures values[5] < U64_LIMIT && values[6] < U64_LIMIT && values[7] < U32_LIMIT
  {
    Limits();
    assert ARTIFACT_WIDTHS[1] == 4 && ARTIFACT_WIDTHS[2] == 8 && ARTIFACT_WIDTHS[3] == 8;
    assert ARTIFACT_WIDTHS[5] == 8 && ARTIFACT_WIDTHS[6] == 8 && ARTIFACT_WIDTHS[7] == 4;
  }

  function OpenedArtifact(v: Verifier, frame: Bytes): Option<ArtifactFrame> {
    match Opened(v.crc, MAGIC_REPLICA_ARTIFACT, frame)
    case None => None
    case Some(payload) =>
      match Unpack(ARTIFACT_WIDTHS, payload)
      case None => None
      case Some((values, bytes)) =>
        UnpackFits(ARTIFACT_WIDTHS, payload);
        ArtifactOf(v, values, bytes)
  }

  lemma ArtifactOfInverse(v: Verifier, a: ArtifactFrame)
    requires ArtifactFits(a)
    ensures Fit(ARTIFACT_WIDTHS, ArtifactValues(a))
    ensures ArtifactOf(v, ArtifactValues(a), a.bytes)
            == if a.checksum == v.crc(a.bytes) && v.artifact(a.volume, a.artifact, a.bytes) then Some(a) else None
  {
    Limits();
  }

  /** Opening a sealed artifact gives it back exactly when the checksum it was sealed with is
      that of its bytes: sealing takes the checksum on trust, opening does not. */
  lemma OpenSealedArtifact(v: Verifier, a: ArtifactFrame)
    requires ArtifactFits(a) && SealArtifact(v, a).Some?
    ensures OpenedArtifact(v, SealArtifact(v, a).value) == if a.checksum == v.crc(a.bytes) then Some(a) else None
  {
    OpenSealed(v.crc, MAGIC_REPLICA_ARTIFACT, Pack(ARTIFACT_WIDTHS, ArtifactValues(a)) + a.bytes);
    ArtifactOfInverse(v, a);
    UnpackInverse(ARTIFACT_WIDTHS, ArtifactValues(a), a.bytes);
  }

  // ---- Commits ----------------------------------------------------------------------------------------

  /** Version, source, volume, epoch, writer fence, sequence, watermark, count. */
  const COMMIT_WIDTHS: seq<nat> := [2, 4, 8] + [8, 8, 8] + [8, 4]

  /** Kind, fence, object. */
  const REQUIRED_WIDTHS: seq<nat> := [1, 8, 8]

  const LENGTH_WIDTHS: seq<nat> := [4]

  function CommitValues(c: CommitFrame): seq<nat> {
    [WIRE_VERSION, c.source, c.volume, c.epoch, c.info.fence, c.info.journalSeq, c.info.syncCoveredThrough,
      |c.required|]
  }

  predicate ArtifactBelow(a: Artifact, b: Artifact) {
    a.fence < b.fence || (a.fence == b.fence && a.objectId < b.objectId)
  }

  predicate StrictlySorted(required: seq<Artifact>) {
    forall i :: 0 <= i < |required| - 1 ==> ArtifactBelow(required[i], required[i + 1])
  }

  function RequiredBytes(required: seq<Artifact>): Bytes {
    if required == [] then []
    else Pack(REQUIRED_WIDTHS, [0, required[0].fence, required[0].objectId]) + RequiredBytes(required[1..])
  }

  function RecordBytes(record: Bytes): Bytes {
    Pack(LENGTH_WIDTHS, [|record|]) + record
  }

  function CommitPayload(c: CommitFrame): Bytes {
    Pack(COMMIT_WIDTHS, CommitValues(c)) + (RequiredBytes(c.required) + RecordBytes(c.record))
  }

  predicate CommitFits(c: CommitFrame) {
    |CommitPayload(c)| < U32_LIMIT && |c.required| < U32_LIMIT && |c.record| < U32_LIMIT
  }

  function SealCommit(v: Verifier, c: CommitFrame): Option<Bytes>
    requires CommitFits(c)
  {
    if StrictlySorted(c.required) && v.record(c.volume, c.info, c.record)
    then Some(Sealed(v.crc, MAGIC_REPLICA_COMMIT, CommitPayload(c))) else None
  }

  /** `count` artifacts off the front of some bytes. */
  function RequiredOf(count: nat, bytes: Bytes): Option<(seq<Artifact>, Bytes)> {
    if count == 0 then Some(([], bytes))
    else
      match Unpack(REQUIRED_WIDTHS, bytes)
      case None => None
      case Some((values, rest)) =>
        Limits();
        UnpackFits(REQUIRED_WIDTHS, bytes);
        assert values[1] < Limit(REQUIRED_WIDTHS[1]) && values[2] < Limit(REQUIRED_WIDTHS[2]);
        if values[0] != 0 then None
        else
          match RequiredOf(count - 1, rest)
          case None => None
          case Some((more, left)) => Some(([Blx(values[1], values[2])] + more, left))
  }

  /** A length-prefixed record and nothing after it. */
  function RecordOf(bytes: Bytes): Option<Bytes> {
    match Unpack(LENGTH_WIDTHS, bytes)
    case None => None
    case Some((values, record)) => if values[0] == |record| then Some(record) else None
  }

  function CommitOf(v: Verifier, values: seq<nat>, rest: Bytes): Option<CommitFrame>
    requires Fit(COMMIT_WIDTHS, values)
  {
    CommitValuesFit(values);
    if values[0] != WIRE_VERSION || values[7] > MAX_REQUIRED then None
    else
      match RequiredOf(values[7], rest)
      case None => None
      case Some((required, more)) =>
        var record := RecordOf(more);
        var info := CommitInfo(values[4], values[5], values[6]);
        if !StrictlySorted(required) || record.None? || !v.record(values[2], info, record.value) then None
        else Some(CommitFrame(values[1], values[2], values[3], info, required, record.value))
  }

  lemma CommitValuesFit(values: seq<nat>)
    requires Fit(COMMIT_WIDTHS, values)
    ensures |values| == 8 && values[1] < U32_LIMIT && values[7] < U32_LIMIT
    ensures forall i :: 2 <= i < 7 ==> values[i] < U64_LIMIT
  {
    Limits();
    assert COMMIT_WIDTHS[1] == 4 && COMMIT_WIDTHS[7] == 4;
    assert forall i :: 2 <= i < 7 ==> COMMIT_WIDTHS[i] == 8;
  }

  function OpenedCommit(v: Verifier, frame: Bytes): Option<CommitFrame> {
    match Opened(v.crc, MAGIC_REPLICA_COMMIT, frame)
    case None => None
    case Some(payload) =>
      match Unpack(COMMIT_WIDTHS, payload)
      case None => None
      case Some((values, rest)) =>
        UnpackFits(COMMIT_WIDTHS, payload);
        CommitOf(v, values, rest)
  }

  lemma RequiredFits(a: Artifact)
    ensures Fit(REQUIRED_WIDTHS, [0, a.fence, a.objectId])
  {
    Limits();
  }

  lemma OneRequired(a: Artifact, count: nat, more: Bytes)
    requires RequiredOf(count, more).Some?
    ensures RequiredOf(count + 1, Pack(REQUIRED_WIDTHS, [0, a.fence, a.objectId]) + more)
            == Some(([a] + RequiredOf(count, more).value.0, RequiredOf(count, more).value.1))
  {
    RequiredFits(a);
    UnpackInverse(REQUIRED_WIDTHS, [0, a.fence, a.objectId], more);
  }

  lemma {:induction false} RequiredInverse(required: seq<Artifact>, rest: Bytes)
    ensures RequiredOf(|required|, RequiredBytes(required) + rest) == Some((required, rest))
    decreases |required|
  {
    if required == [] {
      assert RequiredBytes(required) + rest == rest;
    } else {
      RequiredInverse(required[1..], rest);
      OneRequired(required[0], |required| - 1, RequiredBytes(required[1..]) + rest);
      RequiredBytesSplit(required, rest);
      assert required == [required[0]] + required[1..];
    }
  }

  lemma RequiredBytesSplit(required: seq<Artifact>, rest: Bytes)
    requires required != []
    ensures RequiredBytes(required) + rest
            == Pack(REQUIRED_WIDTHS, [0, required[0].fence, required[0].objectId])
               + (RequiredBytes(required[1..]) + rest)
  {
    Associate(Pack(REQUIRED_WIDTHS, [0, required[0].fence, required[0].objectId]), RequiredBytes(required[1..]), rest);
  }

  lemma RecordInverse(record: Bytes)
    requires |record| < U32_LIMIT
    ensures RecordOf(RecordBytes(record)) == Some(record)
  {
    Limits();
    assert Fit(LENGTH_WIDTHS, [|record|]);
    UnpackInverse(LENGTH_WIDTHS, [|record|], record);
  }

  lemma CommitValuesAreFit(c: CommitFrame)
    requires |c.required| < U32_LIMIT
    ensures Fit(COMMIT_WIDTHS, CommitValues(c))
  {
    Limits();
  }

  lemma CommitOfInverse(v: Verifier, c: CommitFrame)
    requires CommitFits(c) && Fit(COMMIT_WIDTHS, CommitValues(c))
    requires StrictlySorted(c.required) && v.record(c.volume, c.info, c.record)
    ensures CommitOf(v, CommitValues(c), RequiredBytes(c.required) + RecordBytes(c.record))
            == if |c.required| <= MAX_REQUIRED then Some(c) else None
  {
    RequiredInverse(c.required, RecordBytes(c.record));
    RecordInverse(c.record);
  }

  /** A sealed commit opens again exactly when it requires at most a million artifacts:
      sealing does not check that limit, opening does. */
  lemma OpenSealedCommit(v: Verifier, c: CommitFrame)
    requires CommitFits(c) && SealCommit(v, c).Some?
    ensures OpenedCommit(v, SealCommit(v, c).value) == if |c.required| <= MAX_REQUIRED then Some(c) else None
  {
    OpenSealed(v.crc, MAGIC_REPLICA_COMMIT, CommitPayload(c));
    CommitValuesAreFit(c);
    CommitOfInverse(v, c);
    UnpackInverse(COMMIT_WIDTHS, CommitValues(c), RequiredBytes(c.required) + RecordBytes(c.record));
  }

  /** The first `n` artifacts of fence 0. */
  function ManyRequired(n: nat): seq<Artifact>
    requires n < U64_LIMIT
  {
    seq(n, i requires 0 <= i < n => Blx(0, i))
  }

  lemma CommitWidths()
    ensures Width(COMMIT_WIDTHS) == 50 && Width(REQUIRED_WIDTHS) == 17 && Width(LENGTH_WIDTHS) == 4
  {
    assert REQUIRED_WIDTHS[1..] == [8, 8] && [8, 8][1..] == [8] && [8][1..] == [] && LENGTH_WIDTHS[1..] == [];
    var late: seq<nat>, mid: seq<nat>, more: seq<nat> := [8, 4], [8, 8, 8, 4], [8, 8, 8, 8, 8, 4];
    assert late[1..] == [4] && [4][1..] == [] && Width(late) == 12;
    assert mid[1..][1..] == late && Width(mid) == 28;
    assert more[1..][1..] == mid && Width(more) == 44;
    assert COMMIT_WIDTHS[1..][1..] == more;
  }

  lemma {:induction false} RequiredLength(required: seq<Artifact>)
    ensures |RequiredBytes(required)| == 17 * |required|
    decreases |required|
  {
    if required != [] {
      CommitWidths();
      RequiredLength(required[1..]);
    }
  }

  /** A commit over one artifact too many seals and never opens. */
  lemma OneTooManySealsAndNeverOpens(v: Verifier, c: CommitFrame)
    requires c.required == ManyRequired(MAX_REQUIRED + 1) && |c.record| < U32_LIMIT / 2
    requires v.record(c.volume, c.info, c.record)
    ensures CommitFits(c) && SealCommit(v, c).Some? && OpenedCommit(v, SealCommit(v, c).value) == None
  {
    RequiredLength(c.required);
    CommitWidths();
    OpenSealedCommit(v, c);
  }

  // ---- Sealed frames in a spool ------------------------------------------------------------------------

  function OpenersOf(v: Verifier): Openers {
    Openers((frame: Bytes) => OpenedArtifact(v, frame), (frame: Bytes) => OpenedCommit(v, frame))
  }

  /** A sealed frame is whole and shows its magic. */
  lemma SealedIsWhole(crc: Crc, magic: U32, payload: Bytes)
    requires |payload| < U32_LIMIT
    ensures Whole(Sealed(crc, magic, payload)) && FromLe(Sealed(crc, magic, payload)[..4]) == magic
  {
    Limits();
    var frame := Sealed(crc, magic, payload);
    var values := [magic, |payload|, crc(payload)];
    PackOfThree(values);
    assert frame[..4] == Le(4, magic);
    assert frame[4..8] == Le(4, |payload|);
    LeInverse(4, magic);
    LeInverse(4, |payload|);
  }

  lemma PackOfThree(values: seq<nat>)
    requires |values| == 3
    ensures Pack(FRAME_WIDTHS, values) == Le(4, values[0]) + Le(4, values[1]) + Le(4, values[2])
  {
    var one, two := values[2..], values[1..];
    assert FRAME_WIDTHS[1..] == [4, 4] && [4, 4][1..] == [4] && [4][1..] == [];
    assert two[1..] == one;
    assert Pack([4], one) == Le(4, values[2]) + Pack([], one[1..]);
    assert Pack([4, 4], two) == Le(4, values[1]) + Pack([4], one);
  }

  /** Scanning a freshly sealed artifact takes exactly that artifact, if its checksum is right. */
  lemma StepOfSealedArtifact(v: Verifier, st: State, a: ArtifactFrame)
    requires ArtifactFits(a) && SealArtifact(v, a).Some?
    ensures Whole(SealArtifact(v, a).value)
    ensures Step(OpenersOf(v), st, SealArtifact(v, a).value)
            == if a.checksum == v.crc(a.bytes) then TakeArtifact(st, a) else Bad
  {
    SealedIsWhole(v.crc, MAGIC_REPLICA_ARTIFACT, Pack(ARTIFACT_WIDTHS, ArtifactValues(a)) + a.bytes);
    OpenSealedArtifact(v, a);
  }

  lemma StepOfSealedCommit(v: Verifier, st: State, c: CommitFrame)
    requires CommitFits(c) && SealCommit(v, c).Some?
    ensures Whole(SealCommit(v, c).value)
    ensures Step(OpenersOf(v), st, SealCommit(v, c).value)
            == if |c.required| <= MAX_REQUIRED then TakeCommit(st, c) else Bad
  {
    SealedIsWhole(v.crc, MAGIC_REPLICA_COMMIT, CommitPayload(c));
    OpenSealedCommit(v, c);
  }
}
