/** The batch builder and the compactor, which keep the newest entry of every key. */
module BlxBuilder {
  import opened Prelude
  import opened Ordered
  import opened Format
  import opened BlockKeys
  import opened Blx
  import opened BlxObjects
  import opened BlxCodec
  import opened BlxChunks
  import opened Compaction

  /** Whether the ids of `chunks` objects, counted from the first, are all 64-bit. */
  predicate IdsFit(meta: BatchMeta, chunks: nat) {
    chunks == 0 || meta.firstObjectId + (chunks - 1) < U64_LIMIT
  }

  predicate PagedTable(env: Env, table: Table) {
    forall p :: p in table ==> table[p].DataEntry? ==> |table[p].bytes| == env.page
  }

  lemma PagedInOrder(env: Env, table: Table)
    requires PagedTable(env, table)
    ensures Paged(env, InOrder(table))
  {
  }

  lemma CutUpSnoc(env: Env, entries: seq<Entry>, i: nat, atPartitions: bool)
    requires env.page > 0 && i < |entries|
    ensures CutUp(env, entries[..i + 1], atPartitions)
            == Add(env, CutUp(env, entries[..i], atPartitions), entries[i], atPartitions)
  {
    assert entries[..i + 1] == entries[..i] + [entries[i]];
    SnocParts(entries[..i], entries[i]);
  }

  lemma GrowChunk(env: Env, chunk: seq<Entry>, e: Entry)
    requires env.page > 0
    ensures Estimate(env, chunk + [e]) == Estimate(env, chunk) + UpperBound(env, e) + FOOTER_ENTRY_BYTES
    ensures PartitionOf(env, chunk + [e]) == Some(FilePartition(env.page, e.key))
  {
    SnocParts(chunk, e);
  }

  /** The walk has reached `cut`, with its running estimate and partition. */
  predicate CutAt(env: Env, entries: seq<Entry>, i: nat, atPartitions: bool, cut: Cut, estimated: nat,
                  partition: Option<(nat, nat)>)
    requires env.page > 0 && i <= |entries|
  {
    cut == CutUp(env, entries[..i], atPartitions)
    && estimated == Estimate(env, cut.current) && partition == PartitionOf(env, cut.current)
  }

  lemma CutOn(env: Env, entries: seq<Entry>, i: nat, atPartitions: bool, cut: Cut, estimated: nat,
              partition: Option<(nat, nat)>)
    requires env.page > 0 && i < |entries| && CutAt(env, entries, i, atPartitions, cut, estimated, partition)
    ensures var e := entries[i];
            var next := if ShouldSplit(env, cut.current == [], estimated, partition, e, atPartitions)
                        then Cut(cut.done + [cut.current], []) else cut;
            CutAt(env, entries, i + 1, atPartitions, Cut(next.done, next.current + [e]),
                  Estimate(env, next.current) + UpperBound(env, e) + FOOTER_ENTRY_BYTES,
                  Some(FilePartition(env.page, e.key)))
  {
    CutUpSnoc(env, entries, i, atPartitions);
    GrowChunk(env, cut.current, entries[i]);
    GrowChunk(env, [], entries[i]);
    assert [] + [entries[i]] == [entries[i]];
  }

  method CutEntries(env: Env, entries: seq<Entry>, atPartitions: bool) returns (chunks: seq<seq<Entry>>)
    requires env.page > 0
    ensures chunks == ChunksOf(env, entries, atPartitions)
  {
    chunks := [];
    var current: seq<Entry> := [];
    var estimated: nat := EMPTY_ESTIMATE;
    var partition: Option<(nat, nat)> := None;
    assert entries[..0] == [];
    for i := 0 to |entries|
      invariant CutAt(env, entries, i, atPartitions, Cut(chunks, current), estimated, partition)
    {
      var e := entries[i];
      CutOn(env, entries, i, atPartitions, Cut(chunks, current), estimated, partition);
      if ShouldSplit(env, |current| == 0, estimated, partition, e, atPartitions) {
        chunks := chunks + [current];
        current, estimated := [], EMPTY_ESTIMATE;
      }
      partition := Some(FilePartition(env.page, e.key));
      estimated := estimated + UpperBound(env, e) + FOOTER_ENTRY_BYTES;
      current := current + [e];
    }
    assert entries[..|entries|] == entries;
    if |current| != 0 {
      chunks := chunks + [current];
    }
  }

  /** The same walk without building anything: how many chunks there will be. */
  method CountChunks(env: Env, entries: seq<Entry>, atPartitions: bool) returns (chunks: nat)
    requires env.page > 0
    ensures chunks == |ChunksOf(env, entries, atPartitions)|
  {
    chunks := if |entries| == 0 then 0 else 1;
    var currentEmpty := true;
    var estimated: nat := EMPTY_ESTIMATE;
    var partition: Option<(nat, nat)> := None;
    assert entries[..0] == [];
    for i := 0 to |entries|
      invariant CutAt(env, entries, i, atPartitions, CutUp(env, entries[..i], atPartitions), estimated, partition)
      invariant currentEmpty <==> CutUp(env, entries[..i], atPartitions).current == []
      invariant currentEmpty <==> i == 0
      invariant chunks == |CutUp(env, entries[..i], atPartitions).done| + if |entries| == 0 then 0 else 1
    {
      var e := entries[i];
      CutOn(env, entries, i, atPartitions, CutUp(env, entries[..i], atPartitions), estimated, partition);
      if ShouldSplit(env, currentEmpty, estimated, partition, e, atPartitions) {
        chunks := chunks + 1;
        estimated := EMPTY_ESTIMATE;
      }
      currentEmpty := false;
      partition := Some(FilePartition(env.page, e.key));
      estimated := estimated + UpperBound(env, e) + FOOTER_ENTRY_BYTES;
    }
    assert entries[..|entries|] == entries;
  }

  predicate AllEncodable(c: Codec, chunks: seq<seq<Entry>>) {
    forall i :: 0 <= i < |chunks| ==> Encodable(c, chunks[i])
  }

  /** The `i`-th object of a batch of `count`. */
  function ObjectFor(c: Codec, meta: BatchMeta, i: nat, count: nat, chunk: seq<Entry>): BlxObject
    requires c.page < U32_LIMIT && i < count < U32_LIMIT && IdsFit(meta, count) && Encodable(c, chunk)
  {
    Encoded(c, HeaderFor(c, meta, meta.firstObjectId + i, i, count, chunk), chunk)
  }

  /** One object per chunk, with consecutive ids. */
  predicate AreObjects(c: Codec, meta: BatchMeta, chunks: seq<seq<Entry>>, objects: seq<BlxObject>)
    requires c.page < U32_LIMIT && |chunks| < U32_LIMIT && IdsFit(meta, |chunks|) && AllEncodable(c, chunks)
  {
    |objects| == |chunks| && forall i :: 0 <= i < |chunks| ==> objects[i] == ObjectFor(c, meta, i, |chunks|, chunks[i])
  }

  /** What the objects say of themselves: the batch's own fields, consecutive ids and chunk
      numbers, the keys and number of their entries, and where and what their bytes are. */
  predicate Labelled(c: Codec, meta: BatchMeta, chunks: seq<seq<Entry>>, objects: seq<BlxObject>) {
    |objects| == |chunks| && forall i :: 0 <= i < |chunks| ==> LabelledAs(c, meta, i, |chunks|, chunks[i], objects[i])
  }

  predicate LabelledAs(c: Codec, meta: BatchMeta, i: nat, count: nat, chunk: seq<Entry>, o: BlxObject) {
    var h := o.header;
    && h.blockSize == c.page && h.kind == meta.kind && h.namespace == meta.namespace && h.fence == meta.fence
    && h.objectId == meta.firstObjectId + i && h.chunkIndex == i && h.chunkCount == count
    && h.minSeq == meta.minSeq && h.maxSeq == meta.maxSeq && h.batch == meta.batch
    && h.pre == meta.pre && h.post == meta.post
    && chunk != [] && h.entryCount == |chunk| && h.firstKey == chunk[0].key && h.lastKey == chunk[|chunk| - 1].key
    && o.checksum == c.checksum(o.bytes) && o.footerOffset + o.footerLength + TRAILER_BYTES == |o.bytes|
    && |o.footer| == |chunk|
  }

  lemma ObjectIsLabelled(c: Codec, meta: BatchMeta, i: nat, count: nat, chunk: seq<Entry>)
    requires Inverts(c) && i < count < U32_LIMIT && IdsFit(meta, count) && Encodable(c, chunk)
    ensures LabelledAs(c, meta, i, count, chunk, ObjectFor(c, meta, i, count, chunk))
  {
    ObjectBytesLength(c, HeaderFor(c, meta, meta.firstObjectId + i, i, count, chunk), chunk);
  }

  lemma ObjectsAreLabelled(c: Codec, meta: BatchMeta, chunks: seq<seq<Entry>>, objects: seq<BlxObject>)
    requires Inverts(c) && |chunks| < U32_LIMIT && IdsFit(meta, |chunks|) && AllEncodable(c, chunks)
    requires AreObjects(c, meta, chunks, objects)
    ensures Labelled(c, meta, chunks, objects)
  {
    forall i | 0 <= i < |chunks| ensures LabelledAs(c, meta, i, |chunks|, chunks[i], objects[i]) {
      ObjectIsLabelled(c, meta, i, |chunks|, chunks[i]);
    }
  }

  method EncodeChunk(c: Codec, meta: BatchMeta, i: nat, count: nat, chunk: seq<Entry>) returns (o: BlxObject)
    requires Inverts(c) && i < count < U32_LIMIT && IdsFit(meta, count) && Encodable(c, chunk)
    ensures o == ObjectFor(c, meta, i, count, chunk)
  {
    o := EncodeObject(c, meta, meta.firstObjectId + i, i, count, chunk);
  }

  method EncodeChunks(c: Codec, meta: BatchMeta, chunks: seq<seq<Entry>>) returns (objects: seq<BlxObject>)
    requires Inverts(c) && |chunks| < U32_LIMIT && IdsFit(meta, |chunks|) && AllEncodable(c, chunks)
    ensures AreObjects(c, meta, chunks, objects)
  {
    objects := [];
    for i := 0 to |chunks|
      invariant |objects| == i
      invariant forall k :: 0 <= k < i ==> objects[k] == ObjectFor(c, meta, k, |chunks|, chunks[k])
    {
      var o := EncodeChunk(c, meta, i, |chunks|, chunks[i]);
      objects := objects + [o];
    }
  }

  lemma {:induction false} PartsArePaged(env: Env, chunks: seq<seq<Entry>>, k: nat)
    requires Paged(env, Flatten(chunks)) && k < |chunks|
    ensures Paged(env, chunks[k])
  {
    forall i | 0 <= i < |chunks[k]| ensures chunks[k][i].DataEntry? ==> |chunks[k][i].bytes| == env.page {
      FlattenAt(chunks, k, i);
    }
  }

  lemma ChunksEncode(env: Env, c: Codec, entries: seq<Entry>, atPartitions: bool)
    requires env.page > 0 && WithinBound(env, c) && PageFits(env) && Paged(env, entries)
    ensures AllEncodable(c, ChunksOf(env, entries, atPartitions))
  {
    var chunks := ChunksOf(env, entries, atPartitions);
    ChunksAreGood(env, entries, atPartitions);
    forall k | 0 <= k < |chunks| ensures Encodable(c, chunks[k]) {
      PartsArePaged(env, chunks, k);
      ChunkEncodes(env, c, chunks[k], atPartitions);
    }
  }

  /** Encode a table's entries as the objects of its chunks. */
  method EncodeTable(env: Env, meta: BatchMeta, table: Table, atPartitions: bool) returns (objects: seq<BlxObject>)
    requires Good(env) && PageFits(env) && PagedTable(env, table)
    requires var n := |ChunksOf(env, InOrder(table), atPartitions)|; n < U32_LIMIT && IdsFit(meta, n)
    ensures var chunks := ChunksOf(env, InOrder(table), atPartitions);
            && AllEncodable(CodecOf(env), chunks) && AreObjects(CodecOf(env), meta, chunks, objects)
            && WellCut(env, InOrder(table), atPartitions, chunks) && Labelled(CodecOf(env), meta, chunks, objects)
  {
    CodecInverts(env);
    CodecWithinBound(env);
    PagedInOrder(env, table);
    ChunksEncode(env, CodecOf(env), InOrder(table), atPartitions);
    var chunks := CutEntries(env, InOrder(table), atPartitions);
    objects := EncodeChunks(CodecOf(env), meta, chunks);
    ChunksAreWellCut(env, InOrder(table), atPartitions);
    ObjectsAreLabelled(CodecOf(env), meta, chunks, objects);
  }

  method KeepNewest(page: nat, table: Table, e: Entry) returns (r: Table)
    requires page > 0
    ensures r == Newest(page, table, e)
  {
    var p := Position(page, e.key);
    r := table;
    if p !in table || table[p].generation <= e.generation {
      r := table[p := e];
    }
  }

  lemma NewestKeeps(env: Env, table: Table, e: Entry)
    requires env.page > 0 && WellKeyed(env.page, table) && PagedTable(env, table)
    requires e.DataEntry? ==> |e.bytes| == env.page
    ensures WellKeyed(env.page, Newest(env.page, table, e)) && PagedTable(env, Newest(env.page, table, e))
  {
  }

  class BlxBatchBuilder {
    const env: Env
    const meta: BatchMeta
    const atPartitions: bool
    var entries: Table

    ghost predicate Valid()
      reads this
    {
      Good(env) && WellKeyed(env.page, entries) && PagedTable(env, entries)
    }

    constructor (env: Env, meta: BatchMeta, atPartitions: bool)
      requires Good(env) && meta.minSeq <= meta.maxSeq
      ensures Valid() && entries == map[]
      ensures this.env == env && this.meta == meta && this.atPartitions == atPartitions
    {
      this.env, this.meta, this.atPartitions := env, meta, atPartitions;
      entries := map[];
    }

    /** Keep the entry unless a newer one is there already. */
    method Insert(e: Entry)
      requires Valid() && (e.DataEntry? ==> |e.bytes| == env.page)
      modifies this
      ensures Valid() && entries == Newest(env.page, old(entries), e)
    {
      NewestKeeps(env, entries, e);
      entries := KeepNewest(env.page, entries, e);
    }

    /** True exactly when no object id that Finish assigns overflows. */
    method ObjectIdsFit() returns (fit: bool)
      requires Valid()
      ensures fit <==> IdsFit(meta, |ChunksOf(env, InOrder(entries), atPartitions)|)
    {
      var chunks := CountChunks(env, InOrder(entries), atPartitions);
      fit := chunks == 0 || meta.firstObjectId + (chunks - 1) < U64_LIMIT;
    }

    /** One object per chunk of the key-sorted entries, well cut and labelled. */
    method Finish() returns (objects: seq<BlxObject>)
      requires Valid() && PageFits(env)
      requires var n := |ChunksOf(env, InOrder(entries), atPartitions)|; n < U32_LIMIT && IdsFit(meta, n)
      ensures var chunks := ChunksOf(env, InOrder(entries), atPartitions);
              && AllEncodable(CodecOf(env), chunks) && AreObjects(CodecOf(env), meta, chunks, objects)
              && WellCut(env, InOrder(entries), atPartitions, chunks) && Labelled(CodecOf(env), meta, chunks, objects)
    {
      objects := EncodeTable(env, meta, entries, atPartitions);
    }
  }

  // ---- Compaction -----------------------------------------------------------------------------------------

  /** The entry at an indexed span. */
  function EntryIn(c: Codec, bytes: Bytes, f: FooterEntry): Option<Entry> {
    if FrameEnd(f) > |bytes| then None else c.openEntry(bytes[f.offset..FrameEnd(f)])
  }

  /** The entries at the indexed spans, in order. */
  function EntriesIn(c: Codec, bytes: Bytes, footer: seq<FooterEntry>): Option<seq<Entry>> {
    if footer == [] then Some([])
    else
      var earlier, last := EntriesIn(c, bytes, DropLast(footer)), EntryIn(c, bytes, Last(footer));
      if earlier.None? || last.None? then None else Some(earlier.value + [last.value])
  }

  /** The entries of an object, if its bytes scan. */
  function Decoded(c: Codec, bytes: Bytes): Option<seq<Entry>> {
    var scanned := Scanned(c, bytes);
    if scanned.None? then None else EntriesIn(c, bytes, scanned.value.1)
  }

  lemma {:induction false} EntriesInSpans(c: Codec, bytes: Bytes, footer: seq<FooterEntry>, entries: seq<Entry>)
    requires |footer| == |entries|
    requires forall i :: 0 <= i < |entries| ==> EntryIn(c, bytes, footer[i]) == Some(entries[i])
    ensures EntriesIn(c, bytes, footer) == Some(entries)
    decreases |footer|
  {
    if footer != [] {
      EntriesInSpans(c, bytes, DropLast(footer), DropLast(entries));
      assert entries == DropLast(entries) + [Last(entries)];
      assert Last(footer) == footer[|entries| - 1];
    }
  }

  /** An encoded object decodes to its entries. */
  lemma DecodeInverts(c: Codec, h: Header, entries: seq<Entry>)
    requires Inverts(c) && Encodable(c, entries) && Sorted(c.page, entries) && GoodHeader(c.page, h)
             && Describes(h, entries)
    ensures Decoded(c, ObjectBytes(c, h, entries)) == Some(entries)
  {
    ScanInverts(c, h, entries);
    forall i | 0 <= i < |entries|
      ensures EntryIn(c, ObjectBytes(c, h, entries), FooterFor(c, entries, HEADER_BYTES)[i]) == Some(entries[i])
    {
      SpanHoldsEntry(c, h, entries, i);
    }
    EntriesInSpans(c, ObjectBytes(c, h, entries), FooterFor(c, entries, HEADER_BYTES), entries);
  }

  lemma {:induction false} PrefixReads(c: Codec, bytes: Bytes, footer: seq<FooterEntry>, i: nat)
    requires i <= |footer| && EntriesIn(c, bytes, footer[..i]).None?
    ensures EntriesIn(c, bytes, footer).None?
    decreases |footer| - i
  {
    if i == |footer| {
      assert footer[..i] == footer;
    } else {
      assert footer[..i + 1] == footer[..i] + [footer[i]];
      SnocParts(footer[..i], footer[i]);
      PrefixReads(c, bytes, footer, i + 1);
    }
  }

  lemma InsertAllSnoc(page: nat, table: Table, entries: seq<Entry>, e: Entry)
    requires page > 0
    ensures InsertAll(page, table, entries + [e]) == Newest(page, InsertAll(page, table, entries), e)
  {
    SnocParts(entries, e);
  }

  class BlxCompactor {
    const page: nat
    const c: Codec
    var newest: Table

    constructor (c: Codec)
      ensures newest == map[] && this.c == c && page == c.page
    {
      this.c, page := c, c.page;
      newest := map[];
    }

    method InsertSpans(bytes: Bytes, footer: seq<FooterEntry>) returns (ok: bool)
      requires page > 0
      modifies this
      ensures ok <==> EntriesIn(c, bytes, footer).Some?
      ensures ok ==> newest == InsertAll(page, old(newest), EntriesIn(c, bytes, footer).value)
    {
      assert footer[..0] == [];
      for i := 0 to |footer|
        invariant EntriesIn(c, bytes, footer[..i]).Some?
        invariant newest == InsertAll(page, old(newest), EntriesIn(c, bytes, footer[..i]).value)
      {
        assert footer[..i + 1] == footer[..i] + [footer[i]];
        SnocParts(footer[..i], footer[i]);
        var e := EntryIn(c, bytes, footer[i]);
        if e.None? {
          PrefixReads(c, bytes, footer, i + 1);
          return false;
        }
        InsertAllSnoc(page, old(newest), EntriesIn(c, bytes, footer[..i]).value, e.value);
        newest := KeepNewest(page, newest, e.value);
      }
      assert footer[..|footer|] == footer;
      return true;
    }

    /** Merge an object's entries into the newest ones, if its bytes scan. */
    method AddObject(bytes: Bytes) returns (ok: bool)
      requires page > 0
      modifies this
      ensures ok <==> Decoded(c, bytes).Some?
      ensures ok ==> newest == InsertAll(page, old(newest), Decoded(c, bytes).value)
    {
      var scanned := Scan(c, bytes);
      if scanned.None? {
        return false;
      }
      ok := InsertSpans(bytes, scanned.value.1);
    }
  }

  /** The entries of several objects, in order. */
  function DecodedAll(c: Codec, inputs: seq<Bytes>): Option<seq<Entry>> {
    if inputs == [] then Some([])
    else
      var earlier, last := DecodedAll(c, DropLast(inputs)), Decoded(c, Last(inputs));
      if earlier.None? || last.None? then None else Some(earlier.value + last.value)
  }

  lemma DecodedOne(c: Codec, input: Bytes)
    ensures DecodedAll(c, [input]) == Decoded(c, input)
  {
    assert DropLast([input]) == [] && Last([input]) == input;
    if Decoded(c, input).Some? { assert [] + Decoded(c, input).value == Decoded(c, input).value; }
  }

  lemma {:induction false} PrefixDecodes(c: Codec, inputs: seq<Bytes>, i: nat)
    requires i <= |inputs| && DecodedAll(c, inputs[..i]).None?
    ensures DecodedAll(c, inputs).None?
    decreases |inputs| - i
  {
    if i == |inputs| {
      assert inputs[..i] == inputs;
    } else {
      assert inputs[..i + 1] == inputs[..i] + [inputs[i]];
      SnocParts(inputs[..i], inputs[i]);
      PrefixDecodes(c, inputs, i + 1);
    }
  }

  /** What compaction keeps of a table. */
  function Retained(table: Table, retain: bool): Table {
    if retain then table else WithoutTombstones(table)
  }

  method MergeInputs(c: Codec, inputs: seq<Bytes>) returns (newest: Option<Table>)
    requires c.page > 0
    ensures newest == match DecodedAll(c, inputs)
                      case None => None
                      case Some(run) => Some(NewestOf(c.page, run))
  {
    var compactor := new BlxCompactor(c);
    assert inputs[..0] == [];
    for i := 0 to |inputs|
      invariant compactor.page == c.page && compactor.c == c && fresh(compactor)
      invariant DecodedAll(c, inputs[..i]).Some?
      invariant compactor.newest == NewestOf(c.page, DecodedAll(c, inputs[..i]).value)
    {
      assert inputs[..i + 1] == inputs[..i] + [inputs[i]];
      SnocParts(inputs[..i], inputs[i]);
      var ok := compactor.AddObject(inputs[i]);
      if !ok {
        PrefixDecodes(c, inputs, i + 1);
        return None;
      }
      InsertAllBoth(c.page, map[], DecodedAll(c, inputs[..i]).value, Decoded(c, inputs[i]).value);
    }
    assert inputs[..|inputs|] == inputs;
    return Some(compactor.newest);
  }

  /** What the assertions along the way ask of a run of entries: ordered sequence numbers,
      whole pages, a chunk count of 32 bits and object ids of 64 bits. */
  predicate Compactable(env: Env, meta: BatchMeta, run: seq<Entry>, retain: bool)
    requires env.page > 0
  {
    var n := |ChunksOf(env, Compacted(env.page, run, retain), true)|;
    meta.minSeq <= meta.maxSeq && PagedTable(env, NewestOf(env.page, run)) && n < U32_LIMIT && IdsFit(meta, n)
  }

  datatype CompactOutcome = Wrote(objects: seq<BlxObject>) | Malformed | Asserts

  /** Write out what compaction keeps of a table, unless an assertion fails. */
  method WriteCompacted(env: Env, meta: BatchMeta, newest: Table, retain: bool) returns (r: CompactOutcome)
    requires Good(env) && PageFits(env)
    ensures !r.Malformed?
    ensures r.Asserts? <==>
              var n := |ChunksOf(env, InOrder(Retained(newest, retain)), true)|;
              !(meta.minSeq <= meta.maxSeq && PagedTable(env, newest) && n < U32_LIMIT && IdsFit(meta, n))
    ensures r.Wrote? ==>
              var chunks := ChunksOf(env, InOrder(Retained(newest, retain)), true);
              && AllEncodable(CodecOf(env), chunks) && AreObjects(CodecOf(env), meta, chunks, r.objects)
              && WellCut(env, InOrder(Retained(newest, retain)), true, chunks)
              && Labelled(CodecOf(env), meta, chunks, r.objects)
  {
    if meta.minSeq > meta.maxSeq || !PagedTable(env, newest) {
      return Asserts;
    }
    var kept := Retained(newest, retain);
    var chunks := CountChunks(env, InOrder(kept), true);
    if chunks >= U32_LIMIT || !IdsFit(meta, chunks) {
      return Asserts;
    }
    var objects := EncodeTable(env, meta, kept, true);
    return Wrote(objects);
  }

  /** Compaction reports an input that does not scan, and asserts exactly when the inputs'
      entries are not compactable. Otherwise its objects hold the compacted run of the
      entries, cut at file partitions. */
  method CompactObjects(env: Env, meta: BatchMeta, inputs: seq<Bytes>, retain: bool) returns (r: CompactOutcome)
    requires Good(env) && PageFits(env)
    ensures r.Malformed? <==> DecodedAll(CodecOf(env), inputs).None?
    ensures r.Asserts? <==>
              && DecodedAll(CodecOf(env), inputs).Some?
              && !Compactable(env, meta, DecodedAll(CodecOf(env), inputs).value, retain)
    ensures r.Wrote? ==>
              var chunks := ChunksOf(env, Compacted(env.page, DecodedAll(CodecOf(env), inputs).value, retain), true);
              && AllEncodable(CodecOf(env), chunks) && AreObjects(CodecOf(env), meta, chunks, r.objects)
              && WellCut(env, Compacted(env.page, DecodedAll(CodecOf(env), inputs).value, retain), true, chunks)
              && Labelled(CodecOf(env), meta, chunks, r.objects)
  {
    var c := CodecOf(env);
    var newest := MergeInputs(c, inputs);
    if newest.None? {
      return Malformed;
    }
    r := WriteCompacted(env, meta, newest.value, retain);
  }

  // ---- Reading the output back ----------------------------------------------------------------------------

  lemma ChunkIsSorted(page: nat, chunks: seq<seq<Entry>>, k: nat)
    requires page > 0 && Sorted(page, Flatten(chunks)) && k < |chunks|
    ensures Sorted(page, chunks[k])
  {
    forall i, j | 0 <= i < j < |chunks[k]| ensures Position(page, chunks[k][i].key) < Position(page, chunks[k][j].key) {
      ChunkRangesIncrease(page, chunks, k, k, i, j);
    }
  }

  lemma ObjectDecodes(c: Codec, meta: BatchMeta, i: nat, count: nat, chunk: seq<Entry>)
    requires Inverts(c) && meta.minSeq <= meta.maxSeq && i < count < U32_LIMIT && IdsFit(meta, count)
    requires Encodable(c, chunk) && Sorted(c.page, chunk)
    ensures Decoded(c, ObjectFor(c, meta, i, count, chunk).bytes) == Some(chunk)
  {
    HeaderIsGood(c, meta, meta.firstObjectId + i, i, count, chunk);
    DecodeInverts(c, HeaderFor(c, meta, meta.firstObjectId + i, i, count, chunk), chunk);
  }

  function BytesOf(objects: seq<BlxObject>): seq<Bytes> {
    if objects == [] then [] else BytesOf(DropLast(objects)) + [Last(objects).bytes]
  }

  lemma {:induction false} ChunksDecode(c: Codec, objects: seq<BlxObject>, chunks: seq<seq<Entry>>)
    requires |objects| == |chunks|
    requires forall i :: 0 <= i < |chunks| ==> Decoded(c, objects[i].bytes) == Some(chunks[i])
    ensures DecodedAll(c, BytesOf(objects)) == Some(Flatten(chunks))
  {
    if objects != [] {
      ChunksDecode(c, DropLast(objects), DropLast(chunks));
      SnocParts(BytesOf(DropLast(objects)), Last(objects).bytes);
      assert Last(objects) == objects[|objects| - 1];
    }
  }

  lemma ObjectsDecode(c: Codec, meta: BatchMeta, chunks: seq<seq<Entry>>, objects: seq<BlxObject>)
    requires Inverts(c) && meta.minSeq <= meta.maxSeq && |chunks| < U32_LIMIT && IdsFit(meta, |chunks|)
    requires AllEncodable(c, chunks) && Sorted(c.page, Flatten(chunks)) && AreObjects(c, meta, chunks, objects)
    ensures DecodedAll(c, BytesOf(objects)) == Some(Flatten(chunks))
  {
    forall i | 0 <= i < |chunks| ensures Decoded(c, objects[i].bytes) == Some(chunks[i]) {
      ChunkIsSorted(c.page, chunks, i);
      ObjectDecodes(c, meta, i, |chunks|, chunks[i]);
    }
    ChunksDecode(c, objects, chunks);
  }

  lemma CompactedIsSorted(page: nat, run: seq<Entry>, retain: bool)
    requires page > 0
    ensures Sorted(page, Compacted(page, run, retain))
  {
    InsertAllWellKeyed(page, map[], run);
    InOrderIsSorted(page, Retained(NewestOf(page, run), retain));
  }

  /** Read back, the objects a compaction wrote are exactly the compacted run. */
  lemma CompactedObjectsDecode(env: Env, meta: BatchMeta, run: seq<Entry>, retain: bool, objects: seq<BlxObject>)
    requires Good(env) && meta.minSeq <= meta.maxSeq
    requires var chunks := ChunksOf(env, Compacted(env.page, run, retain), true);
             && |chunks| < U32_LIMIT && IdsFit(meta, |chunks|) && AllEncodable(CodecOf(env), chunks)
             && AreObjects(CodecOf(env), meta, chunks, objects)
    ensures DecodedAll(CodecOf(env), BytesOf(objects)) == Some(Compacted(env.page, run, retain))
  {
    CodecInverts(env);
    ChunksAreGood(env, Compacted(env.page, run, retain), true);
    CompactedIsSorted(env.page, run, retain);
    ObjectsDecode(CodecOf(env), meta, ChunksOf(env, Compacted(env.page, run, retain), true), objects);
  }

  /** From bytes to bytes: files before, the output of a compaction that retains tombstones,
      and files after give every key the same newest entry as the files they came from. */
  lemma CompactionKeepsMeaning(env: Env, meta: BatchMeta, inputs: seq<Bytes>, objects: seq<BlxObject>,
                               before: seq<Entry>, after: seq<Entry>)
    requires Good(env) && meta.minSeq <= meta.maxSeq && DecodedAll(CodecOf(env), inputs).Some?
    requires var chunks := ChunksOf(env, Compacted(env.page, DecodedAll(CodecOf(env), inputs).value, true), true);
             && |chunks| < U32_LIMIT && IdsFit(meta, |chunks|) && AllEncodable(CodecOf(env), chunks)
             && AreObjects(CodecOf(env), meta, chunks, objects)
    ensures DecodedAll(CodecOf(env), BytesOf(objects)).Some?
    ensures NewestOf(env.page, before + DecodedAll(CodecOf(env), BytesOf(objects)).value + after)
            == NewestOf(env.page, before + DecodedAll(CodecOf(env), inputs).value + after)
  {
    CompactedObjectsDecode(env, meta, DecodedAll(CodecOf(env), inputs).value, true, objects);
    CompactionKeepsNewest(env.page, before, DecodedAll(CodecOf(env), inputs).value, after);
  }

  /** And with tombstones dropped, the same files show the same data exactly when no dropped
      tombstone is the newest entry of a key for which the other files still hold data. */
  lemma DroppingKeepsMeaning(env: Env, meta: BatchMeta, inputs: seq<Bytes>, objects: seq<BlxObject>,
                             before: seq<Entry>, after: seq<Entry>, sum: Bytes -> U64)
    requires Good(env) && meta.minSeq <= meta.maxSeq && DecodedAll(CodecOf(env), inputs).Some?
    requires var chunks := ChunksOf(env, Compacted(env.page, DecodedAll(CodecOf(env), inputs).value, false), true);
             && |chunks| < U32_LIMIT && IdsFit(meta, |chunks|) && AllEncodable(CodecOf(env), chunks)
             && AreObjects(CodecOf(env), meta, chunks, objects)
    ensures DecodedAll(CodecOf(env), BytesOf(objects)).Some?
    ensures var run := DecodedAll(CodecOf(env), inputs).value;
            Visible(sum, NewestOf(env.page, before + DecodedAll(CodecOf(env), BytesOf(objects)).value + after))
            == Visible(sum, NewestOf(env.page, before + run + after))
            <==> forall p :: p in NewestOf(env.page, run) ==>
                   !Hides(NewestOf(env.page, before), NewestOf(env.page, run), NewestOf(env.page, after), p)
  {
    CompactedObjectsDecode(env, meta, DecodedAll(CodecOf(env), inputs).value, false, objects);
    CompactionKeepsVisible(env.page, sum, before, DecodedAll(CodecOf(env), inputs).value, after);
  }
}
