/**
  Cutting a key-sorted run of entries into chunks that stay within the target file size
  and, when asked, within one file partition.
 */
module BlxChunks {
  import opened Prelude
  import opened Format
  import opened BlockKeys
  import opened Blx
  import opened BlxObjects
  import opened BlxCodec

  function UpperBound(env: Env, e: Entry): nat {
    if e.DataEntry? then FRAME_HEADER + 1 + 8 + 8 + 4 + 4 + env.maxOutput(|e.bytes|) else FRAME_HEADER + 1 + 8 + 8
  }

  const EMPTY_ESTIMATE: nat := HEADER_BYTES + TRAILER_BYTES

  /** The running size estimate of a chunk: everything but the footer's own frame. */
  function Estimate(env: Env, chunk: seq<Entry>): nat {
    if chunk == [] then EMPTY_ESTIMATE
    else Estimate(env, DropLast(chunk)) + UpperBound(env, Last(chunk)) + FOOTER_ENTRY_BYTES
  }

  predicate ShouldSplit(env: Env, currentEmpty: bool, estimated: nat, partition: Option<(nat, nat)>, e: Entry,
                        atPartitions: bool)
    requires env.page > 0
  {
    !currentEmpty
    && ((atPartitions && partition != Some(FilePartition(env.page, e.key)))
        || estimated + UpperBound(env, e) + FOOTER_ENTRY_BYTES + FRAME_HEADER + FOOTER_PREFIX_BYTES > TARGET_FILE_BYTES)
  }

  /** The chunks finished so far and the one being filled. */
  datatype Cut = Cut(done: seq<seq<Entry>>, current: seq<Entry>)

  function PartitionOf(env: Env, current: seq<Entry>): Option<(nat, nat)>
    requires env.page > 0
  {
    if current == [] then None else Some(FilePartition(env.page, Last(current).key))
  }

  predicate Splits(env: Env, current: seq<Entry>, e: Entry, atPartitions: bool)
    requires env.page > 0
  {
    ShouldSplit(env, current == [], Estimate(env, current), PartitionOf(env, current), e, atPartitions)
  }

  function Add(env: Env, cut: Cut, e: Entry, atPartitions: bool): Cut
    requires env.page > 0
  {
    if Splits(env, cut.current, e, atPartitions) then Cut(cut.done + [cut.current], [e])
    else Cut(cut.done, cut.current + [e])
  }

  function CutUp(env: Env, entries: seq<Entry>, atPartitions: bool): Cut
    requires env.page > 0
  {
    if entries == [] then Cut([], [])
    else Add(env, CutUp(env, DropLast(entries), atPartitions), Last(entries), atPartitions)
  }

  /** The chunks an object is made of, one each. */
  function ChunksOf(env: Env, entries: seq<Entry>, atPartitions: bool): seq<seq<Entry>>
    requires env.page > 0
  {
    var cut := CutUp(env, entries, atPartitions);
    if cut.current == [] then cut.done else cut.done + [cut.current]
  }

  // ---- What the chunks are -------------------------------------------------------------------------

  function Flatten(chunks: seq<seq<Entry>>): seq<Entry> {
    if chunks == [] then [] else Flatten(DropLast(chunks)) + Last(chunks)
  }

  lemma FlattenSnoc(chunks: seq<seq<Entry>>, chunk: seq<Entry>)
    ensures Flatten(chunks + [chunk]) == Flatten(chunks) + chunk
  {
    SnocParts(chunks, chunk);
  }

  predicate OnePartition(env: Env, chunk: seq<Entry>)
    requires env.page > 0
  {
    forall i, j :: 0 <= i < |chunk| && 0 <= j < |chunk| ==>
      FilePartition(env.page, chunk[i].key) == FilePartition(env.page, chunk[j].key)
  }

  /** A chunk is not empty, fits the target unless it is a single entry, and stays in its partition. */
  predicate GoodChunk(env: Env, chunk: seq<Entry>, atPartitions: bool)
    requires env.page > 0
  {
    && chunk != []
    && (|chunk| >= 2 ==> Estimate(env, chunk) + FRAME_HEADER + FOOTER_PREFIX_BYTES <= TARGET_FILE_BYTES)
    && (atPartitions ==> OnePartition(env, chunk))
  }

  predicate GoodCut(env: Env, cut: Cut, atPartitions: bool)
    requires env.page > 0
  {
    && (forall i :: 0 <= i < |cut.done| ==> GoodChunk(env, cut.done[i], atPartitions))
    && (cut.current != [] ==> GoodChunk(env, cut.current, atPartitions))
    && (cut.current == [] ==> cut.done == [])
  }

  lemma GrownChunkIsGood(env: Env, current: seq<Entry>, e: Entry, atPartitions: bool)
    requires env.page > 0 && (current != [] ==> GoodChunk(env, current, atPartitions))
    requires !Splits(env, current, e, atPartitions)
    ensures GoodChunk(env, current + [e], atPartitions)
  {
    SnocParts(current, e);
    if atPartitions && current != [] {
      var grown := current + [e];
      forall i | 0 <= i < |grown| ensures FilePartition(env.page, grown[i].key) == FilePartition(env.page, e.key) {
        if i < |current| { assert grown[i] == current[i]; }
      }
    }
  }

  lemma SingleIsGood(env: Env, e: Entry, atPartitions: bool)
    requires env.page > 0
    ensures GoodChunk(env, [e], atPartitions)
  {
  }

  /** A good cut of exactly these entries. */
  predicate CutsTo(env: Env, cut: Cut, entries: seq<Entry>, atPartitions: bool)
    requires env.page > 0
  {
    GoodCut(env, cut, atPartitions) && Flatten(cut.done) + cut.current == entries
      && (entries != [] ==> cut.current != [])
  }

  lemma AddIsGood(env: Env, cut: Cut, e: Entry, atPartitions: bool)
    requires env.page > 0 && GoodCut(env, cut, atPartitions)
    ensures GoodCut(env, Add(env, cut, e, atPartitions), atPartitions)
  {
    if Splits(env, cut.current, e, atPartitions) {
      SingleIsGood(env, e, atPartitions);
    } else {
      GrownChunkIsGood(env, cut.current, e, atPartitions);
    }
  }

  lemma AddLosesNothing(env: Env, cut: Cut, e: Entry, atPartitions: bool)
    requires env.page > 0
    ensures var grown := Add(env, cut, e, atPartitions);
            Flatten(grown.done) + grown.current == Flatten(cut.done) + cut.current + [e] && grown.current != []
  {
    FlattenSnoc(cut.done, cut.current);
  }

  lemma AddCuts(env: Env, cut: Cut, entries: seq<Entry>, e: Entry, atPartitions: bool)
    requires env.page > 0 && CutsTo(env, cut, entries, atPartitions)
    ensures CutsTo(env, Add(env, cut, e, atPartitions), entries + [e], atPartitions)
  {
    AddIsGood(env, cut, e, atPartitions);
    AddLosesNothing(env, cut, e, atPartitions);
  }

  lemma {:induction false} CutUpIsGood(env: Env, entries: seq<Entry>, atPartitions: bool)
    requires env.page > 0
    ensures CutsTo(env, CutUp(env, entries, atPartitions), entries, atPartitions)
  {
    if entries != [] {
      CutUpIsGood(env, DropLast(entries), atPartitions);
      AddCuts(env, CutUp(env, DropLast(entries), atPartitions), DropLast(entries), Last(entries), atPartitions);
      assert entries == DropLast(entries) + [Last(entries)];
    }
  }

  // ---- No cut without need ---------------------------------------------------------------------------

  /** The most bytes that an object of these entries can take. */
  function UpperBytes(env: Env, chunk: seq<Entry>): nat {
    if chunk == [] then HEADER_BYTES + FRAME_HEADER + FOOTER_PREFIX_BYTES + TRAILER_BYTES
    else UpperBytes(env, DropLast(chunk)) + UpperBound(env, Last(chunk)) + FOOTER_ENTRY_BYTES
  }

  lemma {:induction false} UpperBytesEstimate(env: Env, chunk: seq<Entry>)
    ensures UpperBytes(env, chunk) == Estimate(env, chunk) + FRAME_HEADER + FOOTER_PREFIX_BYTES
  {
    if chunk != [] { UpperBytesEstimate(env, DropLast(chunk)); }
  }

  /** The next entry does not belong in the chunk: it lies in another partition, when that
      matters, or would take the object over the target. */
  predicate NoRoomFor(env: Env, chunk: seq<Entry>, e: Entry, atPartitions: bool)
    requires env.page > 0 && chunk != []
  {
    || (atPartitions && FilePartition(env.page, Last(chunk).key) != FilePartition(env.page, e.key))
    || UpperBytes(env, chunk + [e]) > TARGET_FILE_BYTES
  }

  predicate NoRoomAfter(env: Env, chunks: seq<seq<Entry>>, k: nat, atPartitions: bool)
    requires env.page > 0 && k + 1 < |chunks|
  {
    chunks[k] != [] && chunks[k + 1] != [] && NoRoomFor(env, chunks[k], chunks[k + 1][0], atPartitions)
  }

  predicate CutsOnlyWhenFull(env: Env, chunks: seq<seq<Entry>>, atPartitions: bool)
    requires env.page > 0
  {
    forall k :: 0 <= k < |chunks| - 1 ==> NoRoomAfter(env, chunks, k, atPartitions)
  }

  lemma SplitMeansNoRoom(env: Env, current: seq<Entry>, e: Entry, atPartitions: bool)
    requires env.page > 0 && Splits(env, current, e, atPartitions)
    ensures current != [] && NoRoomFor(env, current, e, atPartitions)
  {
    UpperBytesEstimate(env, current);
    SnocParts(current, e);
  }

  lemma AddCutsWhenFull(env: Env, cut: Cut, e: Entry, atPartitions: bool)
    requires env.page > 0 && (cut.current == [] ==> cut.done == [])
    requires CutsOnlyWhenFull(env, cut.done + [cut.current], atPartitions)
    ensures var grown := Add(env, cut, e, atPartitions);
            CutsOnlyWhenFull(env, grown.done + [grown.current], atPartitions)
  {
    var before, grown := cut.done + [cut.current], Add(env, cut, e, atPartitions);
    var after := grown.done + [grown.current];
    if Splits(env, cut.current, e, atPartitions) { SplitMeansNoRoom(env, cut.current, e, atPartitions); }
    forall k | 0 <= k < |after| - 1 ensures NoRoomAfter(env, after, k, atPartitions) {
      if k < |before| - 1 {
        assert NoRoomAfter(env, before, k, atPartitions);
        assert after[k] == before[k] && after[k + 1][0] == before[k + 1][0];
      }
    }
  }

  lemma {:induction false} CutUpCutsWhenFull(env: Env, entries: seq<Entry>, atPartitions: bool)
    requires env.page > 0
    ensures var cut := CutUp(env, entries, atPartitions);
            (cut.current == [] ==> cut.done == []) && CutsOnlyWhenFull(env, cut.done + [cut.current], atPartitions)
  {
    if entries != [] {
      CutUpCutsWhenFull(env, DropLast(entries), atPartitions);
      AddCutsWhenFull(env, CutUp(env, DropLast(entries), atPartitions), Last(entries), atPartitions);
    }
  }

  /** The chunks of a run of entries: all of it in order, none empty, none over the target
      unless of one entry, none across partitions when that matters, and none cut short. */
  predicate WellCut(env: Env, entries: seq<Entry>, atPartitions: bool, chunks: seq<seq<Entry>>)
    requires env.page > 0
  {
    && Flatten(chunks) == entries
    && (forall k :: 0 <= k < |chunks| ==>
          && chunks[k] != [] && (|chunks[k]| >= 2 ==> UpperBytes(env, chunks[k]) <= TARGET_FILE_BYTES)
          && (atPartitions ==> OnePartition(env, chunks[k])))
    && CutsOnlyWhenFull(env, chunks, atPartitions)
  }

  lemma ChunksAreWellCut(env: Env, entries: seq<Entry>, atPartitions: bool)
    requires env.page > 0
    ensures WellCut(env, entries, atPartitions, ChunksOf(env, entries, atPartitions))
  {
    var chunks := ChunksOf(env, entries, atPartitions);
    ChunksAreGood(env, entries, atPartitions);
    CutUpCutsWhenFull(env, entries, atPartitions);
    forall k | 0 <= k < |chunks|
      ensures && chunks[k] != [] && (|chunks[k]| >= 2 ==> UpperBytes(env, chunks[k]) <= TARGET_FILE_BYTES)
              && (atPartitions ==> OnePartition(env, chunks[k]))
    {
      assert GoodChunk(env, chunks[k], atPartitions);
      UpperBytesEstimate(env, chunks[k]);
    }
  }

  /** The bound on an entry is its encoded size with the worst compression. */
  lemma UpperBoundIsExact(env: Env, e: Entry)
    requires ValidEntry(env, e) && (e.DataEntry? ==> |env.compress(e.bytes)| <= env.maxOutput(|e.bytes|))
    ensures UpperBound(env, e) == |EncodedEntry(env, e)|
              + if e.DataEntry? then env.maxOutput(|e.bytes|) - |env.compress(e.bytes)| else 0
  {
    BlockLength(env, e);
  }

  /** Chunking loses nothing, makes no empty chunk, and bounds every chunk. */
  lemma ChunksAreGood(env: Env, entries: seq<Entry>, atPartitions: bool)
    requires env.page > 0
    ensures Flatten(ChunksOf(env, entries, atPartitions)) == entries
    ensures forall i :: 0 <= i < |ChunksOf(env, entries, atPartitions)| ==>
              GoodChunk(env, ChunksOf(env, entries, atPartitions)[i], atPartitions)
  {
    var cut := CutUp(env, entries, atPartitions);
    CutUpIsGood(env, entries, atPartitions);
    FlattenSnoc(cut.done, cut.current);
  }

  // ---- Key ranges -----------------------------------------------------------------------------------

  /** Where a chunk's entries stand in the whole run. */
  lemma {:induction false} FlattenAt(chunks: seq<seq<Entry>>, k: nat, i: nat)
    requires k < |chunks| && i < |chunks[k]|
    ensures |Flatten(chunks[..k])| + |chunks[k]| <= |Flatten(chunks)|
    ensures Flatten(chunks)[|Flatten(chunks[..k])| + i] == chunks[k][i]
    decreases |chunks|
  {
    var front := DropLast(chunks);
    if k == |chunks| - 1 {
      assert chunks[..k] == front;
    } else {
      FlattenAt(front, k, i);
      assert front[..k] == chunks[..k] && front[k] == chunks[k];
    }
  }

  lemma {:induction false} FlattenGrows(chunks: seq<seq<Entry>>, k: nat, l: nat)
    requires k < l <= |chunks|
    ensures |Flatten(chunks[..k])| + |chunks[k]| <= |Flatten(chunks[..l])|
    decreases l
  {
    assert chunks[..l] == chunks[..l - 1] + [chunks[l - 1]];
    FlattenSnoc(chunks[..l - 1], chunks[l - 1]);
    if k < l - 1 { FlattenGrows(chunks, k, l - 1); }
  }

  /** In sorted input, every key of a chunk precedes every key of a later one, and each
      chunk is sorted itself. */
  lemma ChunkRangesIncrease(page: nat, chunks: seq<seq<Entry>>, k: nat, l: nat, i: nat, j: nat)
    requires page > 0 && Sorted(page, Flatten(chunks))
    requires k <= l < |chunks| && i < |chunks[k]| && j < |chunks[l]| && (k == l ==> i < j)
    ensures Position(page, chunks[k][i].key) < Position(page, chunks[l][j].key)
  {
    FlattenAt(chunks, k, i);
    FlattenAt(chunks, l, j);
    if k < l { FlattenGrows(chunks, k, l); }
  }

  /** The whole key interval of a partitioned chunk lies in one file partition. */
  lemma ChunkIntervalInOnePartition(env: Env, chunk: seq<Entry>, key: BlockKey)
    requires env.page > 0 && GoodChunk(env, chunk, true)
    requires Position(env.page, chunk[0].key) <= Position(env.page, key) <= Position(env.page, Last(chunk).key)
    ensures FilePartition(env.page, key) == FilePartition(env.page, chunk[0].key)
  {
    PartitionIsAnInterval(env.page, chunk[0].key, key, Last(chunk).key);
  }

  // ---- Sizes ------------------------------------------------------------------------------------------

  /** Data entries hold one page. */
  predicate Paged(env: Env, entries: seq<Entry>) {
    forall i :: 0 <= i < |entries| ==> entries[i].DataEntry? ==> |entries[i].bytes| == env.page
  }

  /** One page, however badly it compresses, fits an object of its own. */
  predicate PageFits(env: Env) {
    EMPTY_ESTIMATE + FRAME_HEADER + 1 + 8 + 8 + 4 + 4 + env.maxOutput(env.page)
      + FOOTER_ENTRY_BYTES + FRAME_HEADER + FOOTER_PREFIX_BYTES <= MAX_FILE_BYTES
  }

  /** The encoder never exceeds the bound the estimate counts with. */
  ghost predicate WithinBound(env: Env, c: Codec) {
    forall e: Entry :: (e.DataEntry? ==> |e.bytes| == env.page) ==> c.valid(e) && |c.entry(e)| <= UpperBound(env, e)
  }

  lemma EntryWithinBound(env: Env, e: Entry)
    requires Good(env) && PageFits(env) && (e.DataEntry? ==> |e.bytes| == env.page)
    ensures ValidEntry(env, e) && |CodecOf(env).entry(e)| <= UpperBound(env, e)
  {
    if e.DataEntry? { assert |env.compress(e.bytes)| <= env.maxOutput(|e.bytes|); }
    BlockLength(env, e);
  }

  lemma CodecWithinBound(env: Env)
    requires Good(env) && PageFits(env)
    ensures WithinBound(env, CodecOf(env))
  {
    var c := CodecOf(env);
    forall e: Entry | e.DataEntry? ==> |e.bytes| == env.page ensures c.valid(e) && |c.entry(e)| <= UpperBound(env, e) {
      EntryWithinBound(env, e);
    }
  }

  lemma {:induction false} ChunkWithinEstimate(env: Env, c: Codec, chunk: seq<Entry>)
    requires WithinBound(env, c) && Paged(env, chunk)
    ensures AllValid(c, chunk)
    ensures EMPTY_ESTIMATE + |EntriesBytes(c, chunk)| + |chunk| * FOOTER_ENTRY_BYTES <= Estimate(env, chunk)
  {
    if chunk != [] {
      ChunkWithinEstimate(env, c, DropLast(chunk));
      EntriesBytesSnoc(c, DropLast(chunk), Last(chunk));
      assert chunk == DropLast(chunk) + [Last(chunk)];
      assert Last(chunk) == chunk[|chunk| - 1];
    }
  }

  /** A chunk of two or more entries encodes to at most 32 MiB, and every chunk encodes. */
  lemma ChunkEncodes(env: Env, c: Codec, chunk: seq<Entry>, atPartitions: bool)
    requires env.page > 0 && WithinBound(env, c) && PageFits(env)
    requires Paged(env, chunk) && GoodChunk(env, chunk, atPartitions)
    ensures Encodable(c, chunk)
    ensures |chunk| >= 2 ==> ObjectLength(c, chunk) <= TARGET_FILE_BYTES
  {
    ChunkWithinEstimate(env, c, chunk);
    if |chunk| == 1 {
      SingleEstimate(env, chunk[0]);
      assert chunk == [chunk[0]];
    }
  }

  lemma SingleEstimate(env: Env, e: Entry)
    requires PageFits(env) && (e.DataEntry? ==> |e.bytes| == env.page)
    ensures Estimate(env, [e]) + FRAME_HEADER + FOOTER_PREFIX_BYTES <= MAX_FILE_BYTES
  {
    assert DropLast([e]) == [] && Last([e]) == e;
    assert Estimate(env, []) == EMPTY_ESTIMATE;
  }
}
