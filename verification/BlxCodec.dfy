/** The BLX format's own encoders and decoders, as the codec objects are built from. */
module BlxCodec {
  import opened Prelude
  import opened Format
  import opened BlockKeys
  import opened Blx
  import opened BlxObjects

  function CodecOf(env: Env): Codec
    requires env.page > 0
  {
    Codec(
      env.page,
      (e: Entry) => ValidEntry(env, e),
      (e: Entry) => if ValidEntry(env, e) then EncodedEntry(env, e) else [],
      (b: Bytes) => OpenedEntry(env, b),
      (h: Header) => EncodedHeader(env, h),
      (b: Bytes) => OpenedHeader(env, b),
      (f: seq<FooterEntry>) => if |f| * FOOTER_ENTRY_BYTES < MAX_FILE_BYTES then EncodedFooter(env, f) else [],
      (b: Bytes) => OpenedFooter(env, b),
      (o: U32, l: U32) => EncodedTrailer(env, o, l),
      (b: Bytes) => OpenedTrailer(env, b),
      (b: Bytes) => Checksum64(env.crc, b))
  }

  lemma CodecEntries(env: Env)
    requires Good(env)
    ensures EntriesInvert(CodecOf(env))
  {
    var c := CodecOf(env);
    forall e: Entry | c.valid(e) ensures c.openEntry(c.entry(e)) == Some(e) {
      OpenEntry(env, e);
    }
  }

  lemma CodecHeaders(env: Env)
    requires env.page > 0
    ensures HeadersInvert(CodecOf(env))
  {
    var c := CodecOf(env);
    forall h: Header, rest: Bytes | GoodHeader(c.page, h) ensures c.openHeader(c.header(h) + rest) == Some(h) {
      OpenHeader(env, h, rest);
    }
  }

  lemma CodecFooters(env: Env)
    requires env.page > 0
    ensures FootersInvert(CodecOf(env))
  {
    var c := CodecOf(env);
    forall f: seq<FooterEntry> | GoodFooter(c.page, f) ensures c.openFooter(c.footer(f)) == Some(f) {
      OpenFooter(env, f);
    }
  }

  lemma CodecTrailers(env: Env)
    requires env.page > 0
    ensures TrailersInvert(CodecOf(env))
  {
    var c := CodecOf(env);
    forall o: U32, l: U32 ensures |c.trailer(o, l)| == TRAILER_BYTES && c.openTrailer(c.trailer(o, l)) == Some((o, l)) {
      OpenTrailer(env, o, l);
    }
  }

  /** Every part of the format decodes to what was encoded. */
  lemma CodecInverts(env: Env)
    requires Good(env)
    ensures Inverts(CodecOf(env))
  {
    CodecEntries(env);
    CodecHeaders(env);
    CodecFooters(env);
    CodecTrailers(env);
  }

  /** For every sorted chunk within the size limit, scanning the bytes of its object
      returns the same header and index. */
  lemma ScanOfEncodedObject(env: Env, meta: BatchMeta, objectId: U64, index: U32, count: U32, entries: seq<Entry>)
    requires Good(env) && Encodable(CodecOf(env), entries) && Sorted(env.page, entries)
    requires meta.minSeq <= meta.maxSeq && index < count
    ensures var c := CodecOf(env);
            var o := Encoded(c, HeaderFor(c, meta, objectId, index, count, entries), entries);
            Scanned(c, o.bytes) == Some((o.header, o.footer)) && |o.bytes| == ObjectLength(c, entries)
  {
    var c := CodecOf(env);
    CodecInverts(env);
    var h := HeaderFor(c, meta, objectId, index, count, entries);
    HeaderIsGood(c, meta, objectId, index, count, entries);
    ScanInverts(c, h, entries);
    ObjectBytesLength(c, h, entries);
  }

  lemma HeaderIsGood(c: Codec, meta: BatchMeta, objectId: U64, index: U32, count: U32, entries: seq<Entry>)
    requires 0 < c.page < U32_LIMIT && entries != [] && |entries| < U32_LIMIT && Sorted(c.page, entries)
    requires meta.minSeq <= meta.maxSeq && index < count
    ensures var h := HeaderFor(c, meta, objectId, index, count, entries); GoodHeader(c.page, h) && Describes(h, entries)
  {
  }

  /** The assumptions on checksum and compression can be met, also by a decompressor that
      returns less than it was asked for. */
  lemma SomeEnvironmentIsGood()
    ensures exists env: Env :: Good(env) && env.page == 4096 && env.maxOutput(4096) == 4096
                               && env.decompress([], 4096) == Some([])
  {
    var env := Env(4096, (b: Bytes) => 0, (b: Bytes) => b, (b: Bytes, n: nat) => Some(b), (n: nat) => n);
    assert Good(env) && env.page == 4096 && env.maxOutput(4096) == 4096 && env.decompress([], 4096) == Some([]);
  }
}
