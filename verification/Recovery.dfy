/**
  Recovery of a lost primary from the passive spools its head names: choosing the newest
  committed residue, exporting its whole closure, and refencing the export for a new owner.
 */
module Recovery {
  import opened Prelude
  import opened Format
  import opened ObjectRefs
  import opened Manifests
  import opened Gc
  import opened Spool
  import opened SpoolProofs

  datatype StashAssignment = StashAssignment(
    assignmentEpoch: U64, activePeer: U32, activeEpoch: U64, transitionPeer: Option<U32>, membershipEpoch: U64)

  datatype RetiredStash = RetiredStash(peer: U32, epoch: U64, through: CommitInfo)

  datatype HeadRecord = HeadRecord(
    volume: U64, holder: U32, fence: U64, manifest: Option<ManifestPtr>, stash: Option<StashAssignment>,
    retired: seq<RetiredStash>)

  /** A journal record; `rest` is everything recovery only carries along. */
  datatype JournalRecord = JournalRecord(
    journalSeq: U64, fence: U64, captureSeq: U64, syncCoveredThrough: U64, files: seq<ObjectRef>, rest: nat)

  datatype Residue = Residue(source: U32, peer: U32, epoch: U64, bytes: Bytes)

  datatype BlobName =
    | JournalBlob(volume: U64, fence: U64, journalSeq: U64)
    | JournalMirror(volume: U64, fence: U64, journalSeq: U64)
    | BlxBlob(volume: U64, fence: U64, objectId: U64)

  datatype Export = Export(
    sourcePeer: U32, epoch: U64, info: CommitInfo, syncCoveredThrough: U64, blobs: map<BlobName, Bytes>)

  datatype Error =
    | NoAssignment
    | UnnamedPeer(peer: U32)
    | StaleAssignment(peer: U32, epoch: U64)
    | CorruptSpool(peer: U32)
    | NoCommit
    | StoreRecoveryPointNewer
    | MissingObject(key: StoreKey)
    | CorruptObject(key: StoreKey)
    | CorruptJournal

  datatype Codecs = Codecs(
    openers: Openers,
    record: (U64, Bytes) -> Option<JournalRecord>,
    encodeRecord: (U64, JournalRecord) -> Bytes,
    pageFile: Bytes -> Option<(U64, U64, U64)>,
    manifest: (U64, Bytes) -> Option<Manifest>,
    checksum: Bytes -> U64)

  // ---- Which peers and epochs the head names ----------------------------------------------------------

  predicate Retires(head: HeadRecord, peer: U32, epoch: U64) {
    exists i :: 0 <= i < |head.retired| && head.retired[i].peer == peer && head.retired[i].epoch == epoch
  }

  predicate Named(head: HeadRecord, a: StashAssignment, peer: U32, epoch: U64) {
    || (peer == a.activePeer && epoch == a.activeEpoch)
    || (a.transitionPeer == Some(peer) && epoch == a.assignmentEpoch)
    || Retires(head, peer, epoch)
  }

  type Epochs = map<U32, set<U64>>

  predicate Allows(allowed: Epochs, peer: U32, epoch: U64) {
    peer in allowed && epoch in allowed[peer]
  }

  function Allow(allowed: Epochs, peer: U32, epoch: U64): Epochs {
    allowed[peer := (if peer in allowed then allowed[peer] else {}) + {epoch}]
  }

  lemma AllowAdds(allowed: Epochs, peer: U32, epoch: U64, p: U32, e: U64)
    ensures Allows(Allow(allowed, peer, epoch), p, e) <==> Allows(allowed, p, e) || (p == peer && e == epoch)
  {
  }

  predicate RetiresUpTo(head: HeadRecord, n: nat, peer: U32, epoch: U64)
    requires n <= |head.retired|
  {
    exists i :: 0 <= i < n && head.retired[i].peer == peer && head.retired[i].epoch == epoch
  }

  /** The table holds exactly what the head names. */
  method AllowedReplicaEpochs(head: HeadRecord, a: StashAssignment) returns (allowed: Epochs)
    ensures forall peer: U32, epoch: U64 :: Allows(allowed, peer, epoch) <==> Named(head, a, peer, epoch)
  {
    allowed := Allow(map[], a.activePeer, a.activeEpoch);
    if a.transitionPeer.Some? {
      allowed := Allow(allowed, a.transitionPeer.value, a.assignmentEpoch);
    }
    for i := 0 to |head.retired|
      invariant forall peer: U32, epoch: U64 :: Allows(allowed, peer, epoch) <==>
                  || (peer == a.activePeer && epoch == a.activeEpoch)
                  || (a.transitionPeer == Some(peer) && epoch == a.assignmentEpoch)
                  || RetiresUpTo(head, i, peer, epoch)
    {
      var r := head.retired[i];
      forall peer: U32, epoch: U64
        ensures Allows(Allow(allowed, r.peer, r.epoch), peer, epoch)
                <==> Allows(allowed, peer, epoch) || (peer == r.peer && epoch == r.epoch)
        ensures RetiresUpTo(head, i + 1, peer, epoch)
                <==> RetiresUpTo(head, i, peer, epoch) || (peer == r.peer && epoch == r.epoch)
      {
        AllowAdds(allowed, r.peer, r.epoch, peer, epoch);
      }
      allowed := Allow(allowed, r.peer, r.epoch);
    }
  }

  // ---- One residue ---------------------------------------------------------------------------------------

  /** What the recovery is about: the lost host, its volume, and the head as read. */
  datatype Case = Case(source: U32, volume: U64, headVersion: U64, head: HeadRecord, assignment: StashAssignment)

  function StateOf(c: Codecs, r: Residue): Option<State> {
    var scan := Scanned(StepperOf(c.openers), r.bytes);
    if scan.None? then None else Some(scan.value.state)
  }

  predicate OwnScan(k: Case, r: Residue, st: State) {
    && r.source == k.source
    && (forall a :: a in st.artifacts ==>
          st.artifacts[a].source == r.source && st.artifacts[a].volume == k.volume && st.artifacts[a].epoch == r.epoch)
    && (forall i :: 0 <= i < |st.commits| ==>
          st.commits[i].source == r.source && st.commits[i].volume == k.volume && st.commits[i].epoch == r.epoch)
  }

  /** A newer epoch than the head knows, whose commit the current holder wrote at the
      current fence. */
  predicate OfflineReplacement(k: Case, r: Residue, commit: CommitFrame, record: JournalRecord) {
    && r.epoch > k.assignment.assignmentEpoch
    && k.head.holder == k.source && commit.info.fence == k.headVersion && record.fence == k.headVersion
    && record.journalSeq == commit.info.journalSeq && record.syncCoveredThrough == commit.info.syncCoveredThrough
  }

  datatype Candidate = Candidate(residue: Residue, state: State, record: JournalRecord)

  function CommitOf(x: Candidate): CommitFrame
    requires x.state.commits != []
  {
    Last(x.state.commits)
  }

  /** The residue scans, is this volume's, ends in a commit whose record decodes, and is
      one the head vouches for. */
  predicate Sound(c: Codecs, k: Case, x: Candidate) {
    && StateOf(c, x.residue) == Some(x.state) && OwnScan(k, x.residue, x.state) && x.state.commits != []
    && c.record(k.volume, CommitOf(x).record) == Some(x.record)
    && (Named(k.head, k.assignment, x.residue.peer, x.residue.epoch)
      || OfflineReplacement(k, x.residue, CommitOf(x), x.record))
  }

  /** What is demanded of every residue: it scans as this volume's, and the head names its
      peer and epoch or its last commit proves an offline replacement. */
  predicate Acceptable(c: Codecs, k: Case, r: Residue) {
    var st := StateOf(c, r);
    && st.Some? && OwnScan(k, r, st.value)
    && if st.value.commits == [] then Named(k.head, k.assignment, r.peer, r.epoch)
       else
         var commit := Last(st.value.commits);
         var record := c.record(k.volume, commit.record);
         record.Some? && (Named(k.head, k.assignment, r.peer, r.epoch)
           || OfflineReplacement(k, r, commit, record.value))
  }

  predicate HasCommit(c: Codecs, r: Residue) {
    StateOf(c, r).Some? && StateOf(c, r).value.commits != []
  }

  function CandidateOf(c: Codecs, k: Case, r: Residue): (x: Candidate)
    requires Acceptable(c, k, r) && HasCommit(c, r)
    ensures Sound(c, k, x) && x.residue == r
  {
    var st := StateOf(c, r).value;
    Candidate(r, st, c.record(k.volume, Last(st.commits).record).value)
  }

  /** An error that one residue causes. */
  predicate OfResidue(e: Error) { e.UnnamedPeer? || e.StaleAssignment? || e.CorruptSpool? }

  /** Acceptance, on the fields of the head and of the residue. */
  lemma AcceptableMeans(c: Codecs, k: Case, r: Residue)
    ensures Acceptable(c, k, r) <==>
            && r.source == k.source && StateOf(c, r).Some?
            && var st := StateOf(c, r).value;
            && (forall a :: a in st.artifacts ==>
                  var f := st.artifacts[a]; f.source == k.source && f.volume == k.volume && f.epoch == r.epoch)
            && (forall i :: 0 <= i < |st.commits| ==>
                  var f := st.commits[i]; f.source == k.source && f.volume == k.volume && f.epoch == r.epoch)
            && (st.commits != [] ==> c.record(k.volume, Last(st.commits).record).Some?)
            && (|| (r.peer == k.assignment.activePeer && r.epoch == k.assignment.activeEpoch)
                || (k.assignment.transitionPeer == Some(r.peer) && r.epoch == k.assignment.assignmentEpoch)
                || (exists i :: 0 <= i < |k.head.retired| && k.head.retired[i].peer == r.peer
                                && k.head.retired[i].epoch == r.epoch)
                || (&& st.commits != [] && r.epoch > k.assignment.assignmentEpoch && k.head.holder == k.source
                    && var info, record := Last(st.commits).info, c.record(k.volume, Last(st.commits).record).value;
                    && info.fence == k.headVersion && record.fence == k.headVersion
                    && info.journalSeq == record.journalSeq && info.syncCoveredThrough == record.syncCoveredThrough))
  {
  }

  /** Judge one residue: an error, nothing committed, or a candidate. */
  method Vet(c: Codecs, k: Case, allowed: Epochs, r: Residue) returns (x: Result<Option<Candidate>, Error>)
    requires Allows(allowed, r.peer, r.epoch) <==> Named(k.head, k.assignment, r.peer, r.epoch)
    ensures x.Ok? <==> Acceptable(c, k, r)
    ensures x.Err? ==> OfResidue(x.error)
    ensures x.Ok? ==> x.value == if HasCommit(c, r) then Some(CandidateOf(c, k, r)) else None
    ensures r.epoch <= k.assignment.assignmentEpoch && !Named(k.head, k.assignment, r.peer, r.epoch) ==>
              x == Err(if r.peer in allowed then StaleAssignment(r.peer, r.epoch) else UnnamedPeer(r.peer))
  {
    var named := Allows(allowed, r.peer, r.epoch);
    if !named && r.epoch <= k.assignment.assignmentEpoch {
      return Err(if r.peer in allowed then StaleAssignment(r.peer, r.epoch) else UnnamedPeer(r.peer));
    }
    var scan := ScanReplicaSpool(StepperOf(c.openers), r.bytes);
    if scan.None? || !OwnScan(k, r, scan.value.state) {
      return Err(CorruptSpool(r.peer));
    }
    var st := scan.value.state;
    if |st.commits| == 0 {
      return if named then Ok(None) else Err(StaleAssignment(r.peer, r.epoch));
    }
    var commit := Last(st.commits);
    var record := c.record(k.volume, commit.record);
    if record.None? {
      return Err(CorruptSpool(r.peer));
    }
    if !named && !OfflineReplacement(k, r, commit, record.value) {
      return Err(StaleAssignment(r.peer, r.epoch));
    }
    return Ok(Some(Candidate(r, st, record.value)));
  }

  // ---- Choosing the newest --------------------------------------------------------------------------------

  /** Watermark, capture instant, sequence. */
  datatype Rank = Rank(sync: nat, capture: nat, journalSeq: nat)

  predicate Below(a: Rank, b: Rank) {
    || a.sync < b.sync
    || (a.sync == b.sync && (a.capture < b.capture || (a.capture == b.capture && a.journalSeq < b.journalSeq)))
  }

  function RankOf(x: Candidate): Rank
    requires x.state.commits != []
  {
    Rank(CommitOf(x).info.syncCoveredThrough, x.record.captureSeq, CommitOf(x).info.journalSeq)
  }

  predicate AllAcceptable(c: Codecs, k: Case, residues: seq<Residue>) {
    forall i :: 0 <= i < |residues| ==> Acceptable(c, k, residues[i])
  }

  /** The candidates among the residues, in their order. */
  function Committed(c: Codecs, k: Case, residues: seq<Residue>): seq<Candidate>
    requires AllAcceptable(c, k, residues)
  {
    if residues == [] then []
    else
      var earlier := Committed(c, k, DropLast(residues));
      if HasCommit(c, Last(residues)) then earlier + [CandidateOf(c, k, Last(residues))] else earlier
  }

  lemma {:induction false} CommittedAreSound(c: Codecs, k: Case, residues: seq<Residue>)
    requires AllAcceptable(c, k, residues)
    ensures forall i :: 0 <= i < |Committed(c, k, residues)| ==>
              Sound(c, k, Committed(c, k, residues)[i]) && Committed(c, k, residues)[i].residue in residues
  {
    if residues != [] {
      CommittedAreSound(c, k, DropLast(residues));
      assert residues == DropLast(residues) + [Last(residues)];
    }
  }

  lemma {:induction false} CommittedAreAll(c: Codecs, k: Case, residues: seq<Residue>, j: nat) returns (i: nat)
    requires AllAcceptable(c, k, residues) && j < |residues| && HasCommit(c, residues[j])
    ensures i < |Committed(c, k, residues)| && Committed(c, k, residues)[i] == CandidateOf(c, k, residues[j])
  {
    if j == |residues| - 1 {
      i := |Committed(c, k, residues)| - 1;
    } else {
      i := CommittedAreAll(c, k, DropLast(residues), j);
    }
  }

  lemma CommittedSnoc(c: Codecs, k: Case, residues: seq<Residue>, i: nat)
    requires i < |residues| && AllAcceptable(c, k, residues[..i]) && Acceptable(c, k, residues[i])
    ensures AllAcceptable(c, k, residues[..i + 1])
    ensures Committed(c, k, residues[..i + 1])
            == if HasCommit(c, residues[i]) then Committed(c, k, residues[..i]) + [CandidateOf(c, k, residues[i])]
               else Committed(c, k, residues[..i])
  {
    assert residues[..i + 1] == residues[..i] + [residues[i]];
    SnocParts(residues[..i], residues[i]);
  }

  /** One unacceptable residue fails the whole; otherwise all candidates are kept. */
  method VetAll(c: Codecs, k: Case, residues: seq<Residue>) returns (r: Result<seq<Candidate>, Error>)
    ensures r.Ok? <==> AllAcceptable(c, k, residues)
    ensures r.Ok? ==> r.value == Committed(c, k, residues)
    ensures r.Err? ==> OfResidue(r.error)
  {
    var allowed := AllowedReplicaEpochs(k.head, k.assignment);
    var xs: seq<Candidate> := [];
    assert residues[..0] == [];
    for i := 0 to |residues|
      invariant AllAcceptable(c, k, residues[..i]) && xs == Committed(c, k, residues[..i])
    {
      var x := Vet(c, k, allowed, residues[i]);
      if x.Err? {
        return Err(x.error);
      }
      CommittedSnoc(c, k, residues, i);
      if x.value.Some? {
        xs := xs + [x.value.value];
      }
    }
    assert residues[..|residues|] == residues;
    return Ok(xs);
  }

  function RanksOf(xs: seq<Candidate>): (ranks: seq<Rank>)
    requires forall i :: 0 <= i < |xs| ==> xs[i].state.commits != []
    ensures |ranks| == |xs| && forall i :: 0 <= i < |xs| ==> ranks[i] == RankOf(xs[i])
  {
    if xs == [] then [] else [RankOf(xs[0])] + RanksOf(xs[1..])
  }

  /** The last of the greatest ranks. */
  method PickNewest(ranks: seq<Rank>) returns (best: nat)
    requires ranks != []
    ensures IsNewest(ranks, best)
  {
    best := 0;
    for n := 1 to |ranks|
      invariant best < n <= |ranks| && forall i :: 0 <= i < n ==> !Below(ranks[best], ranks[i])
      invariant forall i :: best < i < n ==> Below(ranks[i], ranks[best])
    {
      if !Below(ranks[n], ranks[best]) {
        best := n;
      }
    }
  }

  // ---- The store's own recovery point --------------------------------------------------------------------

  /** The manifest the head points at, if the store has it intact. */
  function StoreManifest(c: Codecs, volume: U64, ptr: ManifestPtr, store: Bucket): Result<Manifest, Error> {
    var key := PtrKey(volume, ptr);
    if key !in store then Err(MissingObject(key))
    else if c.checksum(store[key]) != ptr.checksum then Err(CorruptObject(key))
    else
      match c.manifest(volume, store[key])
      case None => Err(CorruptObject(key))
      case Some(m) =>
        if m.fence != ptr.fence || m.archiveSeq != ptr.archiveSeq || m.captureSeq != ptr.captureSeq
        then Err(CorruptObject(key)) else Ok(m)
  }

  function StoreRank(m: Manifest): Rank { Rank(m.syncCoveredThrough, m.captureSeq, m.archiveSeq) }

  // ---- The closure of a commit ------------------------------------------------------------------------------

  predicate OfVolume(volume: U64, id: ObjectIdentity) {
    id.kind.Volume? && id.namespace == volume
  }

  /** The BLX files of the volume that the record names. */
  function Needed(volume: U64, record: JournalRecord): set<ObjectIdentity> {
    set f | f in record.files && OfVolume(volume, f.identity) :: f.identity
  }

  /** An artifact's bytes: from the spool, else from the store. */
  function ArtifactBytes(st: State, store: Bucket, id: ObjectIdentity): Option<Bytes> {
    var artifact := Blx(id.fence, id.objectId);
    if artifact in st.artifacts then Some(st.artifacts[artifact].bytes)
    else if BlxFile(id.namespace, id.fence, id.objectId) in store
      then Some(store[BlxFile(id.namespace, id.fence, id.objectId)])
    else None
  }

  predicate Intact(c: Codecs, id: ObjectIdentity, bytes: Bytes) {
    c.pageFile(bytes) == Some((id.namespace, id.fence, id.objectId))
  }

  /** The file is at hand and is what its name says. */
  predicate AtHand(c: Codecs, st: State, store: Bucket, id: ObjectIdentity) {
    var bytes := ArtifactBytes(st, store, id);
    bytes.Some? && Intact(c, id, bytes.value)
  }

  function BlobOf(id: ObjectIdentity): BlobName { BlxBlob(id.namespace, id.fence, id.objectId) }

  /** Exactly the files of a set, each intact under its own name. */
  predicate Gathered(c: Codecs, st: State, store: Bucket, ids: set<ObjectIdentity>, blobs: map<BlobName, Bytes>) {
    && (forall id :: id in ids ==>
          BlobOf(id) in blobs && Some(blobs[BlobOf(id)]) == ArtifactBytes(st, store, id)
            && Intact(c, id, blobs[BlobOf(id)]))
    && (forall name :: name in blobs ==> exists id :: id in ids && BlobOf(id) == name)
  }

  lemma GatherOne(c: Codecs, st: State, store: Bucket, volume: U64, ids: set<ObjectIdentity>,
                  blobs: map<BlobName, Bytes>, id: ObjectIdentity, bytes: Bytes)
    requires Gathered(c, st, store, ids, blobs) && OfVolume(volume, id) && forall x :: x in ids ==> OfVolume(volume, x)
    requires ArtifactBytes(st, store, id) == Some(bytes) && Intact(c, id, bytes)
    ensures Gathered(c, st, store, ids + {id}, blobs[BlobOf(id) := bytes])
  {
    var all := blobs[BlobOf(id) := bytes];
    forall x | x in ids + {id}
      ensures BlobOf(x) in all && Some(all[BlobOf(x)]) == ArtifactBytes(st, store, x) && Intact(c, x, all[BlobOf(x)])
    {
      if BlobOf(x) == BlobOf(id) { assert x == id; }
    }
    forall name | name in all ensures exists x :: x in ids + {id} && BlobOf(x) == name {
      if name in blobs {
        var x :| x in ids && BlobOf(x) == name;
        assert x in ids + {id};
      } else {
        assert id in ids + {id};
      }
    }
  }

  /** Gathering succeeds exactly when every needed file is at hand. */
  method GatherFiles(c: Codecs, volume: U64, st: State, store: Bucket, needed: set<ObjectIdentity>)
    returns (r: Result<map<BlobName, Bytes>, Error>)
    requires forall id :: id in needed ==> OfVolume(volume, id)
    ensures r.Ok? <==> forall id :: id in needed ==> AtHand(c, st, store, id)
    ensures r.Err? ==> r.error.MissingObject? || r.error.CorruptObject?
    ensures r.Ok? ==> Gathered(c, st, store, needed, r.value)
  {
    var blobs: map<BlobName, Bytes> := map[];
    var todo := needed;
    while todo != {}
      invariant todo <= needed && Gathered(c, st, store, needed - todo, blobs)
      invariant forall id :: id in needed - todo ==> AtHand(c, st, store, id)
    {
      var id :| id in todo;
      var bytes := ArtifactBytes(st, store, id);
      if bytes.None? {
        return Err(MissingObject(BlxFile(id.namespace, id.fence, id.objectId)));
      }
      if !Intact(c, id, bytes.value) {
        return Err(CorruptObject(BlxFile(id.namespace, id.fence, id.objectId)));
      }
      GatherOne(c, st, store, volume, needed - todo, blobs, id, bytes.value);
      blobs := blobs[BlobOf(id) := bytes.value];
      assert needed - (todo - {id}) == needed - todo + {id};
      todo := todo - {id};
    }
    assert needed - todo == needed;
    return Ok(blobs);
  }

  function JournalOf(volume: U64, record: JournalRecord): BlobName {
    JournalBlob(volume, record.fence, record.journalSeq)
  }

  function MirrorOf(volume: U64, record: JournalRecord): BlobName {
    JournalMirror(volume, record.fence, record.journalSeq)
  }

  /** The export of a candidate: its commit, its files, and both copies of its record. */
  predicate Exports(c: Codecs, k: Case, store: Bucket, x: Candidate, e: Export) {
    && x.state.commits != []
    && e.sourcePeer == x.residue.peer && e.epoch == x.residue.epoch
    && e.info == CommitOf(x).info && e.syncCoveredThrough == e.info.syncCoveredThrough
    && JournalOf(k.volume, x.record) in e.blobs && e.blobs[JournalOf(k.volume, x.record)] == CommitOf(x).record
    && MirrorOf(k.volume, x.record) in e.blobs && e.blobs[MirrorOf(k.volume, x.record)] == CommitOf(x).record
    && Gathered(c, x.state, store, Needed(k.volume, x.record),
                e.blobs - {JournalOf(k.volume, x.record), MirrorOf(k.volume, x.record)})
  }

  lemma WithRecords(blobs: map<BlobName, Bytes>, a: BlobName, b: BlobName, bytes: Bytes)
    requires a !in blobs && b !in blobs
    ensures blobs[a := bytes][b := bytes] - {a, b} == blobs
  {
  }

  method ExportCommit(c: Codecs, k: Case, store: Bucket, x: Candidate) returns (r: Result<Export, Error>)
    requires Sound(c, k, x)
    ensures r.Ok? <==> forall id :: id in Needed(k.volume, x.record) ==> AtHand(c, x.state, store, id)
    ensures r.Err? ==> r.error.MissingObject? || r.error.CorruptObject?
    ensures r.Ok? ==> Exports(c, k, store, x, r.value)
  {
    var files := GatherFiles(c, k.volume, x.state, store, Needed(k.volume, x.record));
    if files.Err? {
      return Err(files.error);
    }
    var commit := CommitOf(x);
    var journal, mirror := JournalOf(k.volume, x.record), MirrorOf(k.volume, x.record);
    WithRecords(files.value, journal, mirror, commit.record);
    var blobs := files.value[journal := commit.record][mirror := commit.record];
    return Ok(Export(x.residue.peer, x.residue.epoch, commit.info, commit.info.syncCoveredThrough, blobs));
  }

  // ---- The whole recovery --------------------------------------------------------------------------------

  /** The watermark is at least that of every commit in every residue. */
  predicate CoversResidues(c: Codecs, residues: seq<Residue>, watermark: nat) {
    forall j, i ::
      0 <= j < |residues| && StateOf(c, residues[j]).Some? && 0 <= i < |StateOf(c, residues[j]).value.commits| ==>
      StateOf(c, residues[j]).value.commits[i].info.syncCoveredThrough <= watermark
  }

  lemma LastCommitCovers(c: Codecs, r: Residue, i: nat)
    requires StateOf(c, r).Some? && i < |StateOf(c, r).value.commits|
    ensures var commits := StateOf(c, r).value.commits;
            commits[i].info.syncCoveredThrough <= Last(commits).info.syncCoveredThrough
  {
    EveryScanIsConsistent(c.openers, r.bytes);
    var commits := StateOf(c, r).value.commits;
    assert i < |commits| - 1 ==> !RankBelow(Last(commits).info, commits[i].info);
  }

  /** No candidate ranks above it, and every later one below it. */
  predicate IsNewest(ranks: seq<Rank>, best: nat) {
    && best < |ranks|
    && (forall i :: 0 <= i < |ranks| ==> !Below(ranks[best], ranks[i]))
    && (forall i :: best < i < |ranks| ==> Below(ranks[i], ranks[best]))
  }

  lemma NewestIsUnique(ranks: seq<Rank>, a: nat, b: nat)
    requires IsNewest(ranks, a) && IsNewest(ranks, b)
    ensures a == b
  {
    assert !Below(ranks[a], ranks[b]) && !Below(ranks[b], ranks[a]);
  }

  lemma NewestCovers(c: Codecs, k: Case, residues: seq<Residue>, xs: seq<Candidate>, best: nat)
    requires AllAcceptable(c, k, residues) && xs == Committed(c, k, residues)
    requires forall i :: 0 <= i < |xs| ==> xs[i].state.commits != []
    requires IsNewest(RanksOf(xs), best)
    ensures CoversResidues(c, residues, RankOf(xs[best]).sync)
  {
    forall j, i | 0 <= j < |residues| && StateOf(c, residues[j]).Some?
      && 0 <= i < |StateOf(c, residues[j]).value.commits|
      ensures StateOf(c, residues[j]).value.commits[i].info.syncCoveredThrough <= RankOf(xs[best]).sync
    {
      LastCommitCovers(c, residues[j], i);
      var n := CommittedAreAll(c, k, residues, j);
      assert !Below(RanksOf(xs)[best], RanksOf(xs)[n]);
    }
  }

  // ---- Which residue it is, on the fields ----------------------------------------------------------------

  /** The rank of a residue's last commit: watermark, capture, sequence. */
  function LastRank(c: Codecs, volume: U64, r: Residue): (nat, nat, nat)
    requires HasCommit(c, r)
  {
    var commit := Last(StateOf(c, r).value.commits);
    var record := c.record(volume, commit.record);
    (commit.info.syncCoveredThrough, if record.Some? then record.value.captureSeq else 0, commit.info.journalSeq)
  }

  predicate LexBelow(a: (nat, nat, nat), b: (nat, nat, nat)) {
    a.0 < b.0 || (a.0 == b.0 && (a.1 < b.1 || (a.1 == b.1 && a.2 < b.2)))
  }

  /** The last of the residues whose last commit no other's exceeds. */
  predicate IsChosen(c: Codecs, volume: U64, residues: seq<Residue>, j: nat) {
    && j < |residues| && HasCommit(c, residues[j])
    && forall i :: 0 <= i < |residues| && HasCommit(c, residues[i]) ==>
         && !LexBelow(LastRank(c, volume, residues[j]), LastRank(c, volume, residues[i]))
         && (i > j ==> LexBelow(LastRank(c, volume, residues[i]), LastRank(c, volume, residues[j])))
  }

  lemma ChosenIsUnique(c: Codecs, volume: U64, residues: seq<Residue>, i: nat, j: nat)
    requires IsChosen(c, volume, residues, i) && IsChosen(c, volume, residues, j)
    ensures i == j
  {
  }

  lemma CandidateRank(c: Codecs, k: Case, r: Residue)
    requires Acceptable(c, k, r) && HasCommit(c, r)
    ensures var rank := RankOf(CandidateOf(c, k, r));
            LastRank(c, k.volume, r) == (rank.sync, rank.capture, rank.journalSeq)
  {
  }

  lemma PrefixAcceptable(c: Codecs, k: Case, residues: seq<Residue>, n: nat)
    requires AllAcceptable(c, k, residues) && n <= |residues|
    ensures AllAcceptable(c, k, residues[..n])
  {
  }

  /** How many candidates come before residue `j`. */
  function CandidatesBefore(c: Codecs, k: Case, residues: seq<Residue>, j: nat): nat
    requires AllAcceptable(c, k, residues) && j <= |residues|
  {
    PrefixAcceptable(c, k, residues, j);
    |Committed(c, k, residues[..j])|
  }

  lemma {:induction false} BeforeRises(c: Codecs, k: Case, residues: seq<Residue>, i: nat, j: nat)
    requires AllAcceptable(c, k, residues) && i < j <= |residues|
    ensures CandidatesBefore(c, k, residues, i) + (if HasCommit(c, residues[i]) then 1 else 0)
            <= CandidatesBefore(c, k, residues, j)
    decreases j
  {
    PrefixAcceptable(c, k, residues, j - 1);
    CommittedSnoc(c, k, residues, j - 1);
    if i < j - 1 { BeforeRises(c, k, residues, i, j - 1); }
  }

  lemma {:induction false} CandidateAt(c: Codecs, k: Case, residues: seq<Residue>, n: nat, i: nat)
    requires AllAcceptable(c, k, residues) && i < n <= |residues| && HasCommit(c, residues[i])
    ensures AllAcceptable(c, k, residues[..n])
    ensures var xs := Committed(c, k, residues[..n]);
            CandidatesBefore(c, k, residues, i) < |xs|
            && xs[CandidatesBefore(c, k, residues, i)] == CandidateOf(c, k, residues[i])
    decreases n
  {
    PrefixAcceptable(c, k, residues, n - 1);
    CommittedSnoc(c, k, residues, n - 1);
    if i < n - 1 { CandidateAt(c, k, residues, n - 1, i); }
  }

  lemma {:induction false} ResidueOf(c: Codecs, k: Case, residues: seq<Residue>, n: nat, best: nat) returns (j: nat)
    requires AllAcceptable(c, k, residues) && n <= |residues| && best < CandidatesBefore(c, k, residues, n)
    ensures j < n && HasCommit(c, residues[j]) && CandidatesBefore(c, k, residues, j) == best
    decreases n
  {
    assert residues[..0] == [];
    PrefixAcceptable(c, k, residues, n - 1);
    CommittedSnoc(c, k, residues, n - 1);
    if best < CandidatesBefore(c, k, residues, n - 1) {
      j := ResidueOf(c, k, residues, n - 1, best);
    } else {
      j := n - 1;
    }
  }

  /** The newest candidate is that of the chosen residue. */
  lemma NewestIsChosen(c: Codecs, k: Case, residues: seq<Residue>, xs: seq<Candidate>, best: nat) returns (j: nat)
    requires AllAcceptable(c, k, residues) && xs == Committed(c, k, residues) && Newest(xs, best)
    ensures IsChosen(c, k.volume, residues, j) && xs[best] == CandidateOf(c, k, residues[j])
  {
    assert residues[..|residues|] == residues;
    j := ResidueOf(c, k, residues, |residues|, best);
    CandidateAt(c, k, residues, |residues|, j);
    CandidateRank(c, k, residues[j]);
    forall i | 0 <= i < |residues| && HasCommit(c, residues[i])
      ensures && !LexBelow(LastRank(c, k.volume, residues[j]), LastRank(c, k.volume, residues[i]))
              && (i > j ==> LexBelow(LastRank(c, k.volume, residues[i]), LastRank(c, k.volume, residues[j])))
    {
      CandidateAt(c, k, residues, |residues|, i);
      CandidateRank(c, k, residues[i]);
      var n := CandidatesBefore(c, k, residues, i);
      assert !Below(RanksOf(xs)[best], RanksOf(xs)[n]);
      if i > j { BeforeRises(c, k, residues, j, i); }
    }
  }

  /** The store holds the manifest the head points at, whole and the one meant. */
  predicate StoreIntact(c: Codecs, volume: U64, ptr: ManifestPtr, store: Bucket, m: Manifest) {
    var key := ArchiveManifest(volume, ptr.fence, ptr.archiveSeq);
    && key in store && c.checksum(store[key]) == ptr.checksum && c.manifest(volume, store[key]) == Some(m)
    && m.fence == ptr.fence && m.archiveSeq == ptr.archiveSeq && m.captureSeq == ptr.captureSeq
  }

  lemma IntactIsStored(c: Codecs, volume: U64, ptr: ManifestPtr, store: Bucket, m: Manifest)
    ensures StoreIntact(c, volume, ptr, store, m) <==> StoreManifest(c, volume, ptr, store) == Ok(m)
  {
  }

  /** The head's manifest in the store is intact and ahead of the chosen residue. */
  predicate StoreIsAhead(c: Codecs, volume: U64, head: HeadRecord, residues: seq<Residue>, store: Bucket, j: nat,
                         m: Manifest) {
    && IsChosen(c, volume, residues, j) && head.manifest.Some?
    && StoreIntact(c, volume, head.manifest.value, store, m)
    && LexBelow(LastRank(c, volume, residues[j]), (m.syncCoveredThrough, m.captureSeq, m.archiveSeq))
  }

  /** Where a needed file is taken from: the spool first, then the store. */
  predicate TakenFrom(st: State, store: Bucket, volume: U64, id: ObjectIdentity, bytes: Bytes) {
    var artifact, key := Blx(id.fence, id.objectId), BlxFile(volume, id.fence, id.objectId);
    if artifact in st.artifacts then bytes == st.artifacts[artifact].bytes else key in store && bytes == store[key]
  }

  /** The export is the residue's last commit: its peer, epoch and info, both copies of its
      record, and exactly the volume's files that the record names, each intact. */
  predicate ComesFrom(c: Codecs, volume: U64, r: Residue, store: Bucket, e: Export) {
    && HasCommit(c, r)
    && var st := StateOf(c, r).value;
    && var commit := Last(st.commits);
    && c.record(volume, commit.record).Some?
    && var record := c.record(volume, commit.record).value;
    && e.sourcePeer == r.peer && e.epoch == r.epoch && e.info == commit.info
    && e.syncCoveredThrough == commit.info.syncCoveredThrough
    && var journal := JournalBlob(volume, record.fence, record.journalSeq);
    && var mirror := JournalMirror(volume, record.fence, record.journalSeq);
    && journal in e.blobs && e.blobs[journal] == commit.record && mirror in e.blobs && e.blobs[mirror] == commit.record
    && (forall f :: f in record.files && f.identity.kind.Volume? && f.identity.namespace == volume ==>
          HoldsFile(c, st, store, volume, f.identity, e.blobs))
    && (forall name :: name in e.blobs && name != journal && name != mirror ==>
          exists f :: f in record.files && f.identity.kind.Volume? && f.identity.namespace == volume
                      && name == BlxBlob(volume, f.identity.fence, f.identity.objectId))
  }

  predicate HoldsFile(c: Codecs, st: State, store: Bucket, volume: U64, id: ObjectIdentity,
                      blobs: map<BlobName, Bytes>) {
    var name := BlxBlob(volume, id.fence, id.objectId);
    && name in blobs && TakenFrom(st, store, volume, id, blobs[name])
    && c.pageFile(blobs[name]) == Some((volume, id.fence, id.objectId))
  }

  lemma FilesAreHeld(c: Codecs, st: State, store: Bucket, volume: U64, record: JournalRecord,
                     rest: map<BlobName, Bytes>)
    requires Gathered(c, st, store, Needed(volume, record), rest)
    ensures forall f :: f in record.files && f.identity.kind.Volume? && f.identity.namespace == volume ==>
              HoldsFile(c, st, store, volume, f.identity, rest)
    ensures forall name :: name in rest ==>
              exists f :: f in record.files && f.identity.kind.Volume? && f.identity.namespace == volume
                          && name == BlxBlob(volume, f.identity.fence, f.identity.objectId)
  {
    forall f | f in record.files && f.identity.kind.Volume? && f.identity.namespace == volume
      ensures HoldsFile(c, st, store, volume, f.identity, rest)
    {
      assert f.identity in Needed(volume, record);
    }
    forall name | name in rest
      ensures exists f :: f in record.files && f.identity.kind.Volume? && f.identity.namespace == volume
                          && name == BlxBlob(volume, f.identity.fence, f.identity.objectId)
    {
      var id :| id in Needed(volume, record) && BlobOf(id) == name;
      var f :| f in record.files && OfVolume(volume, f.identity) && f.identity == id;
    }
  }

  lemma ExportComesFrom(c: Codecs, k: Case, store: Bucket, r: Residue, e: Export)
    requires Acceptable(c, k, r) && HasCommit(c, r) && Exports(c, k, store, CandidateOf(c, k, r), e)
    ensures ComesFrom(c, k.volume, r, store, e)
  {
    var x := CandidateOf(c, k, r);
    var rest := e.blobs - {JournalOf(k.volume, x.record), MirrorOf(k.volume, x.record)};
    FilesAreHeld(c, x.state, store, k.volume, x.record, rest);
    forall f | f in x.record.files && f.identity.kind.Volume? && f.identity.namespace == k.volume
      ensures HoldsFile(c, x.state, store, k.volume, f.identity, e.blobs)
    {
      assert HoldsFile(c, x.state, store, k.volume, f.identity, rest);
    }
    forall name | name in e.blobs && name != JournalOf(k.volume, x.record) && name != MirrorOf(k.volume, x.record)
      ensures exists f :: f in x.record.files && f.identity.kind.Volume? && f.identity.namespace == k.volume
                          && name == BlxBlob(k.volume, f.identity.fence, f.identity.objectId)
    {
      assert name in rest;
    }
  }

  /** The export comes from this candidate, one of the residues. */
  predicate RecoveredFrom(c: Codecs, k: Case, residues: seq<Residue>, store: Bucket, e: Export, x: Candidate) {
    Sound(c, k, x) && x.residue in residues && Exports(c, k, store, x, e)
  }

  /** The store's own manifest, if the head has one, is intact and not ahead. */
  predicate NotBehindStore(c: Codecs, k: Case, store: Bucket, rank: Rank) {
    k.head.manifest.Some? ==>
      var m := StoreManifest(c, k.volume, k.head.manifest.value, store);
      m.Ok? && !Below(rank, StoreRank(m.value))
  }

  /** This candidate can be exported: not behind the store, and its files are at hand. */
  predicate Exportable(c: Codecs, k: Case, store: Bucket, x: Candidate) {
    && x.state.commits != [] && NotBehindStore(c, k, store, RankOf(x))
    && forall id :: id in Needed(k.volume, x.record) ==> AtHand(c, x.state, store, id)
  }

  /** Recovery is possible: every residue is acceptable, and the newest commit among them
      can be exported. */
  predicate Recoverable(c: Codecs, k: Case, residues: seq<Residue>, store: Bucket) {
    && AllAcceptable(c, k, residues)
    && var xs := Committed(c, k, residues);
       exists best :: 0 <= best < |xs| && Newest(xs, best) && Exportable(c, k, store, xs[best])
  }

  predicate Newest(xs: seq<Candidate>, best: nat) {
    (forall i :: 0 <= i < |xs| ==> xs[i].state.commits != []) && IsNewest(RanksOf(xs), best)
  }

  /** A successful recovery exports the whole closure of a commit that the head vouches
      for, whose watermark is at least that of every commit readable in any residue and
      of the store's manifest. It succeeds exactly when recovery is possible. */
  method ExportReplicaRecovery(c: Codecs, source: U32, volume: U64, headVersion: U64, head: HeadRecord,
                               residues: seq<Residue>, store: Bucket) returns (r: Result<Export, Error>)
    ensures head.stash.None? <==> r == Err(NoAssignment)
    ensures head.stash.Some? ==>
              (r.Ok? <==> Recoverable(c, Case(source, volume, headVersion, head, head.stash.value), residues, store))
    ensures r.Ok? ==>
              var k := Case(source, volume, headVersion, head, head.stash.value);
              && (exists x :: RecoveredFrom(c, k, residues, store, r.value, x))
              && CoversResidues(c, residues, r.value.syncCoveredThrough)
              && (head.manifest.Some? ==>
                    var m := StoreManifest(c, volume, head.manifest.value, store);
                    m.Ok? && m.value.syncCoveredThrough <= r.value.syncCoveredThrough)
    ensures r.Ok? ==>
              exists j: nat :: IsChosen(c, volume, residues, j) && ComesFrom(c, volume, residues[j], store, r.value)
    ensures r.Ok? <==>
              && head.stash.Some?
              && AllAcceptable(c, Case(source, volume, headVersion, head, head.stash.value), residues)
              && exists j: nat :: IsChosen(c, volume, residues, j) && IsReady(c, volume, head, residues[j], store)
    ensures r == Err(StoreRecoveryPointNewer) <==>
              && head.stash.Some?
              && AllAcceptable(c, Case(source, volume, headVersion, head, head.stash.value), residues)
              && exists j: nat, m :: StoreIsAhead(c, volume, head, residues, store, j, m)
  {
    if head.stash.None? {
      return Err(NoAssignment);
    }
    var k := Case(source, volume, headVersion, head, head.stash.value);
    var vetted := VetAll(c, k, residues);
    if vetted.Err? {
      return Err(vetted.error);
    }
    var xs := vetted.value;
    CommittedAreSound(c, k, residues);
    if |xs| == 0 {
      NobodyIsChosen(c, k, residues);
      return Err(NoCommit);
    }
    var best := PickNewest(RanksOf(xs));
    assert Newest(xs, best);
    OnlyNewest(c, k, residues, store, xs, best);
    NewestCovers(c, k, residues, xs, best);
    r := ExportNotBehind(c, k, store, xs[best]);
    ghost var j := NewestIsChosen(c, k, residues, xs, best);
    AheadOfChosen(c, k, residues, store, j);
    ChosenIsReady(c, k, residues, store, j);
    if r.Ok? {
      ExportComesFrom(c, k, store, residues[j], r.value);
      assert RecoveredFrom(c, k, residues, store, r.value, xs[best]);
    }
  }

  /** The residue can be exported: the head's manifest, if it has one, is in the store, intact and
      not ahead, and every file of the volume that the last commit's record names is at hand. */
  ghost predicate IsReady(c: Codecs, volume: U64, head: HeadRecord, r: Residue, store: Bucket) {
    && HasCommit(c, r)
    && (head.manifest.Some? ==>
          exists m :: StoreIntact(c, volume, head.manifest.value, store, m)
                      && !LexBelow(LastRank(c, volume, r), (m.syncCoveredThrough, m.captureSeq, m.archiveSeq)))
    && var st := StateOf(c, r).value;
    && c.record(volume, Last(st.commits).record).Some?
    && forall f :: f in c.record(volume, Last(st.commits).record).value.files
                   && f.identity.kind.Volume? && f.identity.namespace == volume ==>
         exists bytes :: TakenFrom(st, store, volume, f.identity, bytes)
                         && c.pageFile(bytes) == Some((volume, f.identity.fence, f.identity.objectId))
  }

  lemma AtHandMeans(c: Codecs, st: State, store: Bucket, volume: U64, id: ObjectIdentity)
    requires id.namespace == volume
    ensures AtHand(c, st, store, id) <==>
              exists bytes :: TakenFrom(st, store, volume, id, bytes)
                              && c.pageFile(bytes) == Some((volume, id.fence, id.objectId))
  {
    if AtHand(c, st, store, id) { assert TakenFrom(st, store, volume, id, ArtifactBytes(st, store, id).value); }
  }

  lemma NeededAtHand(c: Codecs, st: State, store: Bucket, volume: U64, record: JournalRecord)
    ensures (forall id :: id in Needed(volume, record) ==> AtHand(c, st, store, id)) <==>
            forall f :: f in record.files && f.identity.kind.Volume? && f.identity.namespace == volume ==>
              exists bytes :: TakenFrom(st, store, volume, f.identity, bytes)
                              && c.pageFile(bytes) == Some((volume, f.identity.fence, f.identity.objectId))
  {
    forall f | f in record.files && f.identity.kind.Volume? && f.identity.namespace == volume
      ensures f.identity in Needed(volume, record)
      ensures AtHand(c, st, store, f.identity) <==>
                exists bytes :: TakenFrom(st, store, volume, f.identity, bytes)
                                && c.pageFile(bytes) == Some((volume, f.identity.fence, f.identity.objectId))
    {
      AtHandMeans(c, st, store, volume, f.identity);
    }
  }

  lemma StoreNotAhead(c: Codecs, k: Case, store: Bucket, r: Residue)
    requires Acceptable(c, k, r) && HasCommit(c, r)
    ensures NotBehindStore(c, k, store, RankOf(CandidateOf(c, k, r))) <==>
            (k.head.manifest.Some? ==>
               exists m :: StoreIntact(c, k.volume, k.head.manifest.value, store, m)
                 && !LexBelow(LastRank(c, k.volume, r), (m.syncCoveredThrough, m.captureSeq, m.archiveSeq)))
  {
    CandidateRank(c, k, r);
    if k.head.manifest.Some? {
      var ptr := k.head.manifest.value;
      forall m ensures StoreIntact(c, k.volume, ptr, store, m) <==> StoreManifest(c, k.volume, ptr, store) == Ok(m) {
        IntactIsStored(c, k.volume, ptr, store, m);
      }
      if StoreManifest(c, k.volume, ptr, store).Ok? {
        assert StoreIntact(c, k.volume, ptr, store, StoreManifest(c, k.volume, ptr, store).value);
      }
    }
  }

  lemma ChosenIsReady(c: Codecs, k: Case, residues: seq<Residue>, store: Bucket, j: nat)
    requires AllAcceptable(c, k, residues) && IsChosen(c, k.volume, residues, j)
    ensures (exists i: nat :: IsChosen(c, k.volume, residues, i) && IsReady(c, k.volume, k.head, residues[i], store))
            <==> Exportable(c, k, store, CandidateOf(c, k, residues[j]))
  {
    var x := CandidateOf(c, k, residues[j]);
    StoreNotAhead(c, k, store, residues[j]);
    NeededAtHand(c, x.state, store, k.volume, x.record);
    if i: nat :| IsChosen(c, k.volume, residues, i) && IsReady(c, k.volume, k.head, residues[i], store) {
      ChosenIsUnique(c, k.volume, residues, i, j);
    }
  }

  lemma NobodyIsChosen(c: Codecs, k: Case, residues: seq<Residue>)
    requires AllAcceptable(c, k, residues) && Committed(c, k, residues) == []
    ensures forall j: nat :: !IsChosen(c, k.volume, residues, j)
  {
    forall j: nat ensures !IsChosen(c, k.volume, residues, j) {
      if j < |residues| && HasCommit(c, residues[j]) {
        var i := CommittedAreAll(c, k, residues, j);
      }
    }
  }

  /** The store is ahead of the chosen residue exactly when its rank is above the candidate's. */
  lemma AheadOfChosen(c: Codecs, k: Case, residues: seq<Residue>, store: Bucket, j: nat)
    requires AllAcceptable(c, k, residues) && IsChosen(c, k.volume, residues, j)
    ensures (exists i: nat, m :: StoreIsAhead(c, k.volume, k.head, residues, store, i, m)) <==>
              StoreRanksAbove(c, k, store, RankOf(CandidateOf(c, k, residues[j])))
  {
    CandidateRank(c, k, residues[j]);
    if i: nat, m :| StoreIsAhead(c, k.volume, k.head, residues, store, i, m) {
      ChosenIsUnique(c, k.volume, residues, i, j);
      IntactIsStored(c, k.volume, k.head.manifest.value, store, m);
    }
    if StoreRanksAbove(c, k, store, RankOf(CandidateOf(c, k, residues[j]))) {
      var m := StoreManifest(c, k.volume, k.head.manifest.value, store).value;
      IntactIsStored(c, k.volume, k.head.manifest.value, store, m);
      assert StoreIsAhead(c, k.volume, k.head, residues, store, j, m);
    }
  }

  predicate StoreRanksAbove(c: Codecs, k: Case, store: Bucket, rank: Rank) {
    && k.head.manifest.Some? && StoreManifest(c, k.volume, k.head.manifest.value, store).Ok?
    && Below(rank, StoreRank(StoreManifest(c, k.volume, k.head.manifest.value, store).value))
  }

  lemma OnlyNewest(c: Codecs, k: Case, residues: seq<Residue>, store: Bucket, xs: seq<Candidate>, best: nat)
    requires AllAcceptable(c, k, residues) && xs == Committed(c, k, residues) && best < |xs| && Newest(xs, best)
    ensures Recoverable(c, k, residues, store) <==> Exportable(c, k, store, xs[best])
  {
    forall other: nat | other < |xs| && Newest(xs, other) ensures other == best {
      NewestIsUnique(RanksOf(xs), other, best);
    }
  }

  method ExportNotBehind(c: Codecs, k: Case, store: Bucket, x: Candidate) returns (r: Result<Export, Error>)
    requires Sound(c, k, x)
    ensures r.Ok? <==> Exportable(c, k, store, x)
    ensures r.Ok? ==> Exports(c, k, store, x, r.value)
    ensures r.Err? ==> !r.error.NoAssignment?
    ensures r == Err(StoreRecoveryPointNewer) <==> StoreRanksAbove(c, k, store, RankOf(x))
  {
    if k.head.manifest.Some? {
      var m := StoreManifest(c, k.volume, k.head.manifest.value, store);
      if m.Err? {
        return Err(m.error);
      }
      if Below(RankOf(x), StoreRank(m.value)) {
        return Err(StoreRecoveryPointNewer);
      }
    }
    r := ExportCommit(c, k, store, x);
  }

  // ---- Refencing -----------------------------------------------------------------------------------------------

  predicate IsJournal(name: BlobName) { name.JournalBlob? || name.JournalMirror? }

  function WithoutJournal(blobs: map<BlobName, Bytes>): map<BlobName, Bytes> {
    map name | name in blobs && !IsJournal(name) :: blobs[name]
  }

  /** An export with its record rewritten under another fence. */
  function Refenced(c: Codecs, volume: U64, e: Export, record: JournalRecord, fence: U64): Export {
    var moved := record.(fence := fence);
    var bytes := c.encodeRecord(volume, moved);
    e.(info := e.info.(fence := fence),
       blobs := WithoutJournal(e.blobs)[JournalOf(volume, moved) := bytes][MirrorOf(volume, moved) := bytes])
  }

  /** Refencing fails exactly without a journal blob, or on one that does not decode. */
  method RefenceReplicaExport(c: Codecs, volume: U64, e: Export, fence: U64) returns (r: Result<Export, Error>)
    ensures r == Err(NoCommit) <==> forall name :: name in e.blobs ==> !IsJournal(name)
    ensures r.Ok? ==> exists name :: name in e.blobs && IsJournal(name) && c.record(volume, e.blobs[name]).Some?
                        && r.value == Refenced(c, volume, e, c.record(volume, e.blobs[name]).value, fence)
    ensures r.Err? && r != Err(NoCommit) ==>
              && r == Err(CorruptJournal)
              && exists name :: name in e.blobs && IsJournal(name) && c.record(volume, e.blobs[name]).None?
  {
    var journals := set name | name in e.blobs && IsJournal(name);
    assert forall name :: name in e.blobs && IsJournal(name) ==> name in journals;
    if journals == {} {
      return Err(NoCommit);
    }
    var name :| name in journals;
    var record := c.record(volume, e.blobs[name]);
    if record.None? {
      return Err(CorruptJournal);
    }
    return Ok(Refenced(c, volume, e, record.value, fence));
  }

  ghost predicate RecordsInvert(c: Codecs) {
    forall volume: U64, record: JournalRecord :: c.record(volume, c.encodeRecord(volume, record)) == Some(record)
  }

  /** Both journal copies of a recovered export hold the same record. */
  lemma OneRecord(c: Codecs, k: Case, store: Bucket, x: Candidate, e: Export, name: BlobName)
    requires Exports(c, k, store, x, e) && name in e.blobs && IsJournal(name)
    ensures e.blobs[name] == CommitOf(x).record
  {
    var rest := e.blobs - {JournalOf(k.volume, x.record), MirrorOf(k.volume, x.record)};
    assert name in rest ==> name.BlxBlob?;
  }

  /** Refencing a recovered export changes the fence and nothing else: the files, the peer,
      the epoch, the watermark and every other field of the record stay. */
  lemma RefencingChangesOnlyTheFence(c: Codecs, k: Case, store: Bucket, x: Candidate, e: Export, name: BlobName,
                                     fence: U64)
    requires RecordsInvert(c) && Sound(c, k, x) && Exports(c, k, store, x, e) && name in e.blobs && IsJournal(name)
    ensures c.record(k.volume, e.blobs[name]) == Some(x.record)
    ensures var r := Refenced(c, k.volume, e, x.record, fence);
            var moved := x.record.(fence := fence);
            && r == e.(info := e.info.(fence := fence), blobs := r.blobs)
            && (forall n :: !IsJournal(n) ==>
                  (n in r.blobs <==> n in e.blobs) && (n in r.blobs ==> r.blobs[n] == e.blobs[n]))
            && (forall n :: IsJournal(n) ==>
                (n in r.blobs <==> n == JournalOf(k.volume, moved) || n == MirrorOf(k.volume, moved)))
            && c.record(k.volume, r.blobs[JournalOf(k.volume, moved)]) == Some(moved)
            && r.blobs[MirrorOf(k.volume, moved)] == r.blobs[JournalOf(k.volume, moved)]
  {
    OneRecord(c, k, store, x, e, name);
  }
}
