/**
  Stored blocks that decompress to less than a page. Opening checks the length a block
  declares and not the one it decompresses to, so an object can hold such a block, scan,
  and make its compaction assert.
 */
module ShortBlocks {
  import opened Prelude
  import opened Format
  import opened BlockKeys
  import opened ObjectRefs
  import opened Blx
  import opened BlxObjects
  import opened BlxCodec
  import opened BlxChunks
  import opened Compaction
  import opened BlxBuilder

  /** `stored` declares a page and decompresses to the entry's bytes, however many. */
  predicate Stores(env: Env, e: Entry, stored: Bytes) {
    e.DataEntry? && |stored| < TARGET_FILE_BYTES && env.decompress(stored, env.page) == Some(e.bytes)
  }

  function StoredBlock(env: Env, stored: Bytes): (bytes: Bytes)
    ensures |bytes| == 8 + |stored|
  {
    EntryWidths();
    Pack(BLOCK_WIDTHS, [env.page, |stored|]) + stored
  }

  function StoredPayload(env: Env, e: Entry, stored: Bytes): (bytes: Bytes)
    ensures |bytes| == 25 + |stored|
  {
    EntryWidths();
    Pack(ENTRY_WIDTHS, EntryValues(e)) + StoredBlock(env, stored)
  }

  function StoredEntry(env: Env, e: Entry, stored: Bytes): (frame: Bytes)
    requires |stored| < TARGET_FILE_BYTES
    ensures |frame| == FRAME_HEADER + 25 + |stored|
  {
    Sealed(env.crc, MAGIC_ENTRY, StoredPayload(env, e, stored))
  }

  lemma OpenStoredBlock(env: Env, e: Entry, stored: Bytes)
    requires env.page < U32_LIMIT && Stores(env, e, stored)
    ensures OpenedBlock(env, e.key, e.generation, StoredBlock(env, stored)) == Some(e)
  {
    Limits();
    PairFits(4, 4, env.page, |stored|);
    UnpackInverse(BLOCK_WIDTHS, [env.page, |stored|], stored);
  }

  /** Such an entry opens, whatever the length of its bytes. */
  lemma OpenStoredEntry(env: Env, e: Entry, stored: Bytes)
    requires env.page < U32_LIMIT && Stores(env, e, stored)
    ensures OpenedEntry(env, StoredEntry(env, e, stored)) == Some(e)
  {
    OpenSealed(env.crc, MAGIC_ENTRY, StoredPayload(env, e, stored));
    EntryFits(0, e.key, e.generation);
    EntryOfParts(env, 0, e.key, e.generation, StoredBlock(env, stored));
    OpenStoredBlock(env, e, stored);
    UnpackInverse(ENTRY_WIDTHS, EntryValues(e), StoredBlock(env, stored));
  }

  /** The format's codec, writing this one entry as stored. */
  function StoringCodec(env: Env, e: Entry, stored: Bytes): Codec
    requires env.page > 0 && |stored| < TARGET_FILE_BYTES
  {
    CodecOf(env).(valid := (x: Entry) => x == e, entry := (x: Entry) => StoredEntry(env, e, stored))
  }

  lemma StoringCodecInverts(env: Env, e: Entry, stored: Bytes)
    requires 0 < env.page < U32_LIMIT && Stores(env, e, stored)
    ensures Inverts(StoringCodec(env, e, stored))
  {
    OpenStoredEntry(env, e, stored);
    CodecHeaders(env);
    CodecFooters(env);
    CodecTrailers(env);
  }

  // ---- Decoding does not look at how entries are written ------------------------------------------

  ghost predicate OpensAlike(c: Codec, d: Codec) {
    d == c.(valid := d.valid, entry := d.entry)
  }

  lemma {:induction false} FramesMatchAlike(c: Codec, d: Codec, bytes: Bytes, footer: seq<FooterEntry>, expected: nat,
                                            end: nat)
    requires OpensAlike(c, d) && end <= |bytes|
    ensures FramesMatch(c, bytes, footer, expected, end) == FramesMatch(d, bytes, footer, expected, end)
    decreases |footer|
  {
    if footer != [] { FramesMatchAlike(c, d, bytes, footer[1..], FrameEnd(footer[0]), end); }
  }

  lemma ScannedAlike(c: Codec, d: Codec, bytes: Bytes)
    requires OpensAlike(c, d)
    ensures Scanned(c, bytes) == Scanned(d, bytes)
  {
    forall footer, end: nat | end <= |bytes|
      ensures FramesMatch(c, bytes, footer, HEADER_BYTES, end) == FramesMatch(d, bytes, footer, HEADER_BYTES, end)
    {
      FramesMatchAlike(c, d, bytes, footer, HEADER_BYTES, end);
    }
  }

  lemma {:induction false} EntriesInAlike(c: Codec, d: Codec, bytes: Bytes, footer: seq<FooterEntry>)
    requires OpensAlike(c, d)
    ensures EntriesIn(c, bytes, footer) == EntriesIn(d, bytes, footer)
  {
    if footer != [] { EntriesInAlike(c, d, bytes, DropLast(footer)); }
  }

  lemma DecodedAlike(c: Codec, d: Codec, bytes: Bytes)
    requires OpensAlike(c, d)
    ensures Decoded(c, bytes) == Decoded(d, bytes)
  {
    ScannedAlike(c, d, bytes);
    var scanned := Scanned(c, bytes);
    if scanned.Some? { EntriesInAlike(c, d, bytes, scanned.value.1); }
  }

  // ---- The failing input ---------------------------------------------------------------------------

  const PLAIN_META: BatchMeta := BatchMeta(Volume, 0, 0, 0, 0, 0, 0, 0, 0)

  function StoringObject(env: Env, e: Entry, stored: Bytes): Bytes
    requires 0 < env.page < U32_LIMIT && |stored| < TARGET_FILE_BYTES
  {
    StoringEncodes(env, e, stored);
    ObjectFor(StoringCodec(env, e, stored), PLAIN_META, 0, 1, [e]).bytes
  }

  lemma StoringEncodes(env: Env, e: Entry, stored: Bytes)
    requires 0 < env.page < U32_LIMIT && |stored| < TARGET_FILE_BYTES
    ensures Encodable(StoringCodec(env, e, stored), [e])
  {
    var c := StoringCodec(env, e, stored);
    assert EntriesBytes(c, [e]) == c.entry(e) + EntriesBytes(c, [e][1..]);
    assert |EntriesBytes(c, [e])| == FRAME_HEADER + 25 + |stored|;
  }

  /** An object that holds the entry so stored decodes to it. */
  lemma StoringObjectDecodes(env: Env, e: Entry, stored: Bytes)
    requires 0 < env.page < U32_LIMIT && Stores(env, e, stored)
    ensures Decoded(CodecOf(env), StoringObject(env, e, stored)) == Some([e])
  {
    var c := StoringCodec(env, e, stored);
    StoringCodecInverts(env, e, stored);
    StoringEncodes(env, e, stored);
    ObjectDecodes(c, PLAIN_META, 0, 1, [e]);
    DecodedAlike(CodecOf(env), c, StoringObject(env, e, stored));
  }

  lemma ShortBlockIsNoPage(env: Env, e: Entry)
    requires env.page > 0 && e.DataEntry? && |e.bytes| != env.page
    ensures !PagedTable(env, NewestOf(env.page, [e]))
  {
    NewestIsUnique(env.page, [e], Position(env.page, e.key), 0);
  }

  /** Wherever some stored block decompresses to a length other than a page, an object with
      that block decodes and its compaction asserts. */
  lemma ShortBlockStopsCompaction(env: Env, meta: BatchMeta, e: Entry, stored: Bytes, retain: bool)
    requires 0 < env.page < U32_LIMIT && Stores(env, e, stored) && |e.bytes| != env.page
    ensures DecodedAll(CodecOf(env), [StoringObject(env, e, stored)]) == Some([e])
    ensures !Compactable(env, meta, [e], retain)
  {
    StoringObjectDecodes(env, e, stored);
    DecodedOne(CodecOf(env), StoringObject(env, e, stored));
    ShortBlockIsNoPage(env, e);
  }
}
