/**
  Whole BLX objects: encoding a sorted chunk of entries, scanning it back, and looking
  a key up in the footer.
 */
module BlxObjects {
  import opened Prelude
  import opened Format
  import opened BlockKeys
  import opened ObjectRefs
  import opened Blx

  datatype BatchMeta = BatchMeta(
    kind: NamespaceKind,
    namespace: U64,
    fence: U64,
    firstObjectId: U64,
    minSeq: U64,
    maxSeq: U64,
    batch: U64,
    pre: U64,
    post: U64)

  datatype BlxObject = BlxObject(
    header: Header,
    footer: seq<FooterEntry>,
    footerOffset: U32,
    footerLength: U32,
    checksum: U64,
    bytes: Bytes)

  /** Encoders and decoders of the parts of an object. The format's own are `BlxCodec.CodecOf`. */
  datatype Codec = Codec(
    page: nat,
    valid: Entry -> bool,
    entry: Entry -> Bytes,
    openEntry: Bytes -> Option<Entry>,
    header: Header -> Bytes,
    openHeader: Bytes -> Option<Header>,
    footer: seq<FooterEntry> -> Bytes,
    openFooter: Bytes -> Option<seq<FooterEntry>>,
    trailer: (U32, U32) -> Bytes,
    openTrailer: Bytes -> Option<(U32, U32)>,
    checksum: Bytes -> U64)

  predicate GoodFooter(page: nat, footer: seq<FooterEntry>)
    requires page > 0
  {
    && SortedAfter(page, None, footer) && |footer| * FOOTER_ENTRY_BYTES < MAX_FILE_BYTES
    && forall i :: 0 <= i < |footer| ==> ValidFooterEntry(footer[i])
  }

  ghost predicate EntriesInvert(c: Codec) {
    forall e: Entry :: c.valid(e) ==> c.openEntry(c.entry(e)) == Some(e)
  }

  ghost predicate HeadersInvert(c: Codec)
    requires c.page > 0
  {
    && (forall h: Header :: |c.header(h)| == HEADER_BYTES)
    && (forall h: Header, rest: Bytes :: GoodHeader(c.page, h) ==> c.openHeader(c.header(h) + rest) == Some(h))
  }

  ghost predicate FootersInvert(c: Codec)
    requires c.page > 0
  {
    && (forall f: seq<FooterEntry> :: |f| * FOOTER_ENTRY_BYTES < MAX_FILE_BYTES ==>
          |c.footer(f)| == FRAME_HEADER + FOOTER_PREFIX_BYTES + |f| * FOOTER_ENTRY_BYTES)
    && (forall f: seq<FooterEntry> :: GoodFooter(c.page, f) ==> c.openFooter(c.footer(f)) == Some(f))
  }

  ghost predicate TrailersInvert(c: Codec) {
    forall o: U32, l: U32 :: |c.trailer(o, l)| == TRAILER_BYTES && c.openTrailer(c.trailer(o, l)) == Some((o, l))
  }

  /** Every part has its fixed size and decodes to what was encoded. */
  ghost predicate Inverts(c: Codec) {
    0 < c.page < U32_LIMIT && EntriesInvert(c) && HeadersInvert(c) && FootersInvert(c) && TrailersInvert(c)
  }

  predicate AllValid(c: Codec, entries: seq<Entry>) {
    forall i :: 0 <= i < |entries| ==> c.valid(entries[i])
  }

  predicate Sorted(page: nat, entries: seq<Entry>)
    requires page > 0
  {
    forall i, j :: 0 <= i < j < |entries| ==> Position(page, entries[i].key) < Position(page, entries[j].key)
  }

  /** The entry frames, one after the other. */
  function EntriesBytes(c: Codec, entries: seq<Entry>): Bytes {
    if entries == [] then [] else c.entry(entries[0]) + EntriesBytes(c, entries[1..])
  }

  function ValueChecksum(c: Codec, e: Entry): U64 {
    if e.DataEntry? then c.checksum(e.bytes) else 0
  }

  function FooterEntryFor(c: Codec, e: Entry, offset: nat): FooterEntry
    requires offset + |c.entry(e)| < U32_LIMIT
  {
    FooterEntry(e.key, offset, |c.entry(e)|, e.generation, KindOf(e), ValueChecksum(c, e))
  }

  /** The index of entries whose frames start at `offset`. */
  function FooterFor(c: Codec, entries: seq<Entry>, offset: nat): (footer: seq<FooterEntry>)
    requires offset + |EntriesBytes(c, entries)| < U32_LIMIT
    ensures |footer| == |entries|
  {
    if entries == [] then []
    else [FooterEntryFor(c, entries[0], offset)] + FooterFor(c, entries[1..], offset + |c.entry(entries[0])|)
  }

  function FooterLength(entries: seq<Entry>): nat {
    FRAME_HEADER + FOOTER_PREFIX_BYTES + |entries| * FOOTER_ENTRY_BYTES
  }

  function ObjectLength(c: Codec, entries: seq<Entry>): nat {
    HEADER_BYTES + |EntriesBytes(c, entries)| + FooterLength(entries) + TRAILER_BYTES
  }

  /** What the encoder asserts of its entries. */
  predicate Encodable(c: Codec, entries: seq<Entry>) {
    entries != [] && AllValid(c, entries) && ObjectLength(c, entries) <= MAX_FILE_BYTES
  }

  function HeaderFor(c: Codec, meta: BatchMeta, objectId: U64, index: U32, count: U32, entries: seq<Entry>): Header
    requires entries != [] && |entries| < U32_LIMIT && c.page < U32_LIMIT
  {
    Header(c.page, meta.kind, meta.namespace, meta.fence, objectId, meta.minSeq, meta.maxSeq, meta.batch,
           index, count, |entries|, entries[0].key, entries[|entries| - 1].key, meta.pre, meta.post)
  }

  function BodyBytes(c: Codec, h: Header, entries: seq<Entry>): Bytes {
    c.header(h) + EntriesBytes(c, entries)
  }

  /** Where the footer starts. */
  function FooterOffset(c: Codec, entries: seq<Entry>): nat {
    HEADER_BYTES + |EntriesBytes(c, entries)|
  }

  /** Body, footer and trailer. */
  function ObjectBytes(c: Codec, h: Header, entries: seq<Entry>): Bytes
    requires Encodable(c, entries)
  {
    BodyBytes(c, h, entries)
    + c.footer(FooterFor(c, entries, HEADER_BYTES))
    + c.trailer(FooterOffset(c, entries), FooterLength(entries))
  }

  lemma ObjectBytesLength(c: Codec, h: Header, entries: seq<Entry>)
    requires Inverts(c) && Encodable(c, entries)
    ensures |ObjectBytes(c, h, entries)| == ObjectLength(c, entries)
  {
  }

  function Encoded(c: Codec, h: Header, entries: seq<Entry>): BlxObject
    requires Encodable(c, entries)
  {
    BlxObject(h, FooterFor(c, entries, HEADER_BYTES), FooterOffset(c, entries), FooterLength(entries),
              c.checksum(ObjectBytes(c, h, entries)), ObjectBytes(c, h, entries))
  }

  // ---- Encoding, entry by entry -----------------------------------------------------------------

  lemma {:induction false} EntriesBytesSnoc(c: Codec, entries: seq<Entry>, e: Entry)
    ensures EntriesBytes(c, entries + [e]) == EntriesBytes(c, entries) + c.entry(e)
  {
    if entries == [] {
      assert entries + [e] == [e] && [e][1..] == [];
    } else {
      EntriesBytesSnoc(c, entries[1..], e);
      assert (entries + [e])[1..] == entries[1..] + [e];
    }
  }

  lemma {:induction false} FooterForSnoc(c: Codec, entries: seq<Entry>, e: Entry, offset: nat)
    requires EntriesBytes(c, entries + [e]) == EntriesBytes(c, entries) + c.entry(e)
    requires offset + |EntriesBytes(c, entries + [e])| < U32_LIMIT
    ensures FooterFor(c, entries + [e], offset)
            == FooterFor(c, entries, offset) + [FooterEntryFor(c, e, offset + |EntriesBytes(c, entries)|)]
  {
    if entries == [] {
      assert entries + [e] == [e] && [e][1..] == [];
    } else {
      assert (entries + [e])[1..] == entries[1..] + [e];
      EntriesBytesSnoc(c, entries[1..], e);
      FooterForSnoc(c, entries[1..], e, offset + |c.entry(entries[0])|);
      assert (entries + [e])[0] == entries[0];
    }
  }

  lemma {:induction false} EntriesBytesGrow(c: Codec, entries: seq<Entry>, i: nat)
    requires i <= |entries|
    ensures |EntriesBytes(c, entries[..i])| <= |EntriesBytes(c, entries)|
    decreases |entries| - i
  {
    if i < |entries| {
      assert entries[..i + 1] == entries[..i] + [entries[i]];
      EntriesBytesSnoc(c, entries[..i], entries[i]);
      EntriesBytesGrow(c, entries, i + 1);
    } else {
      assert entries[..i] == entries;
    }
  }

  method EncodeEntries(c: Codec, entries: seq<Entry>, header: Bytes) returns (bytes: Bytes, footer: seq<FooterEntry>)
    requires |header| + |EntriesBytes(c, entries)| < U32_LIMIT
    ensures bytes == header + EntriesBytes(c, entries) && footer == FooterFor(c, entries, |header|)
  {
    bytes, footer := header, [];
    assert EntriesBytes(c, entries[..0]) == [];
    for i := 0 to |entries|
      invariant |EntriesBytes(c, entries[..i])| <= |EntriesBytes(c, entries)|
      invariant bytes == header + EntriesBytes(c, entries[..i])
      invariant footer == FooterFor(c, entries[..i], |header|)
    {
      assert entries[..i + 1] == entries[..i] + [entries[i]];
      EntriesBytesSnoc(c, entries[..i], entries[i]);
      EntriesBytesGrow(c, entries, i + 1);
      FooterForSnoc(c, entries[..i], entries[i], |header|);
      footer := footer + [FooterEntryFor(c, entries[i], |bytes|)];
      bytes := bytes + c.entry(entries[i]);
    }
    assert entries[..|entries|] == entries;
  }

  method EncodeObject(c: Codec, meta: BatchMeta, objectId: U64, index: U32, count: U32, entries: seq<Entry>)
    returns (o: BlxObject)
    requires Inverts(c) && Encodable(c, entries)
    ensures o == Encoded(c, HeaderFor(c, meta, objectId, index, count, entries), entries)
  {
    var header := HeaderFor(c, meta, objectId, index, count, entries);
    var bytes, footer := EncodeEntries(c, entries, c.header(header));
    var footerOffset := |bytes|;
    var encodedFooter := c.footer(footer);
    bytes := bytes + encodedFooter + c.trailer(footerOffset, |encodedFooter|);
    o := BlxObject(header, footer, footerOffset, |encodedFooter|, c.checksum(bytes), bytes);
  }

  // ---- Scanning --------------------------------------------------------------------------------------

  /** An entry is what its index entry says. */
  predicate Agrees(c: Codec, e: Entry, f: FooterEntry) {
    e.key == f.key && e.generation == f.generation && KindOf(e) == f.kind && ValueChecksum(c, e) == f.checksum
  }

  /** The end of an indexed frame. */
  function FrameEnd(f: FooterEntry): nat { f.offset + f.length }

  /** The indexed frame is there, in its place, and holds what the index says. */
  predicate FrameMatches(c: Codec, bytes: Bytes, f: FooterEntry, expected: nat, end: nat)
    requires end <= |bytes|
  {
    && f.offset == expected && FrameEnd(f) <= end
    && var e := c.openEntry(bytes[f.offset..FrameEnd(f)]);
       e.Some? && Agrees(c, e.value, f)
  }

  /** The indexed frames tile the bytes from `expected` to `end`, and each holds its entry. */
  predicate FramesMatch(c: Codec, bytes: Bytes, footer: seq<FooterEntry>, expected: nat, end: nat)
    requires end <= |bytes|
    decreases |footer|
  {
    if footer == [] then expected == end
    else
      && FrameMatches(c, bytes, footer[0], expected, end)
      && FramesMatch(c, bytes, footer[1..], FrameEnd(footer[0]), end)
  }

  /** Whether the footer sits between the header and the trailer. */
  predicate Located(bytes: Bytes, offset: nat, length: nat) {
    offset >= HEADER_BYTES && offset + length + TRAILER_BYTES == |bytes|
  }

  predicate IndexFits(h: Header, footer: seq<FooterEntry>) {
    && |footer| == h.entryCount && footer != []
    && footer[0].key == h.firstKey && footer[|footer| - 1].key == h.lastKey
  }

  function ScannedFooter(c: Codec, bytes: Bytes, h: Header, offset: nat, length: nat)
    : Option<(Header, seq<FooterEntry>)>
  {
    if !Located(bytes, offset, length) then None
    else
      var footer := c.openFooter(bytes[offset..offset + length]);
      if footer.None? || !IndexFits(h, footer.value) then None
      else if !FramesMatch(c, bytes, footer.value, HEADER_BYTES, offset) then None
      else Some((h, footer.value))
  }

  /** The header and index of an object, if every byte of it is as it should be. */
  function Scanned(c: Codec, bytes: Bytes): Option<(Header, seq<FooterEntry>)> {
    var header := c.openHeader(bytes);
    if header.None? || |bytes| < HEADER_BYTES + TRAILER_BYTES then None
    else
      var located := c.openTrailer(bytes[|bytes| - TRAILER_BYTES..]);
      if located.None? then None else ScannedFooter(c, bytes, header.value, located.value.0, located.value.1)
  }

  method CheckFrames(c: Codec, bytes: Bytes, footer: seq<FooterEntry>, end: nat) returns (ok: bool)
    requires end <= |bytes|
    ensures ok <==> FramesMatch(c, bytes, footer, HEADER_BYTES, end)
  {
    var expected: nat := HEADER_BYTES;
    for i := 0 to |footer|
      invariant FramesMatch(c, bytes, footer, HEADER_BYTES, end) <==> FramesMatch(c, bytes, footer[i..], expected, end)
    {
      var f := footer[i];
      assert footer[i..][0] == f && footer[i..][1..] == footer[i + 1..];
      if f.offset != expected || FrameEnd(f) > end {
        return false;
      }
      var e := c.openEntry(bytes[f.offset..FrameEnd(f)]);
      if e.None? || !Agrees(c, e.value, f) {
        return false;
      }
      expected := FrameEnd(f);
    }
    return expected == end;
  }

  method Scan(c: Codec, bytes: Bytes) returns (r: Option<(Header, seq<FooterEntry>)>)
    ensures r == Scanned(c, bytes)
  {
    var header := c.openHeader(bytes);
    if header.None? || |bytes| < HEADER_BYTES + TRAILER_BYTES {
      return None;
    }
    var located := c.openTrailer(bytes[|bytes| - TRAILER_BYTES..]);
    if located.None? {
      return None;
    }
    var offset: nat, length: nat := located.value.0, located.value.1;
    if !Located(bytes, offset, length) {
      return None;
    }
    var footer := c.openFooter(bytes[offset..offset + length]);
    if footer.None? || !IndexFits(header.value, footer.value) {
      return None;
    }
    var ok := CheckFrames(c, bytes, footer.value, offset);
    return if ok then Some((header.value, footer.value)) else None;
  }

  // ---- Scanning what was encoded ---------------------------------------------------------------------

  lemma FrameOfEntry(c: Codec, before: Bytes, e: Entry, after: Bytes, end: nat)
    requires c.openEntry(c.entry(e)) == Some(e)
    requires |before| + |c.entry(e)| <= end <= |before + c.entry(e) + after|
    requires |before| + |c.entry(e)| < U32_LIMIT
    ensures FrameMatches(c, before + c.entry(e) + after, FooterEntryFor(c, e, |before|), |before|, end)
  {
    var bytes := before + c.entry(e) + after;
    assert bytes[|before|..|before| + |c.entry(e)|] == c.entry(e);
  }

  lemma {:induction false} FramesOfEntries(c: Codec, before: Bytes, entries: seq<Entry>, after: Bytes)
    requires Inverts(c) && AllValid(c, entries) && |before| + |EntriesBytes(c, entries)| < U32_LIMIT
    ensures FramesMatch(c, before + EntriesBytes(c, entries) + after, FooterFor(c, entries, |before|),
                        |before|, |before| + |EntriesBytes(c, entries)|)
    decreases |entries|
  {
    if entries != [] {
      var first, more := c.entry(entries[0]), EntriesBytes(c, entries[1..]);
      var bytes := before + EntriesBytes(c, entries) + after;
      assert bytes == before + first + (more + after);
      assert bytes == (before + first) + more + after;
      FrameOfEntry(c, before, entries[0], more + after, |before| + |EntriesBytes(c, entries)|);
      FramesOfEntries(c, before + first, entries[1..], after);
    }
  }

  lemma {:induction false} FooterIsSorted(c: Codec, previous: Option<BlockKey>, entries: seq<Entry>, offset: nat)
    requires c.page > 0 && Sorted(c.page, entries) && offset + |EntriesBytes(c, entries)| < U32_LIMIT
    requires entries != [] ==> Follows(c.page, previous, entries[0].key)
    ensures SortedAfter(c.page, previous, FooterFor(c, entries, offset))
    decreases |entries|
  {
    if entries != [] {
      FooterIsSorted(c, Some(entries[0].key), entries[1..], offset + |c.entry(entries[0])|);
    }
  }

  /** What the index says of each entry. */
  lemma {:induction false} FooterAt(c: Codec, entries: seq<Entry>, offset: nat, i: nat)
    requires offset + |EntriesBytes(c, entries)| < U32_LIMIT && i < |entries|
    ensures |EntriesBytes(c, entries[..i])| + |c.entry(entries[i])| <= |EntriesBytes(c, entries)|
    ensures FooterFor(c, entries, offset)[i] == FooterEntryFor(c, entries[i], offset + |EntriesBytes(c, entries[..i])|)
    decreases |entries|
  {
    if i > 0 {
      FooterAt(c, entries[1..], offset + |c.entry(entries[0])|, i - 1);
      assert entries[..i][1..] == entries[1..][..i - 1];
      assert entries[..i][0] == entries[0];
    } else {
      assert entries[..0] == [];
    }
  }

  /** The header describes its entries. */
  predicate Describes(h: Header, entries: seq<Entry>) {
    && entries != [] && h.entryCount == |entries|
    && h.firstKey == entries[0].key && h.lastKey == entries[|entries| - 1].key
  }

  lemma FooterFits(c: Codec, h: Header, entries: seq<Entry>)
    requires Encodable(c, entries) && Describes(h, entries)
    ensures IndexFits(h, FooterFor(c, entries, HEADER_BYTES))
    ensures forall i :: 0 <= i < |entries| ==> ValidFooterEntry(FooterFor(c, entries, HEADER_BYTES)[i])
  {
    forall i | 0 <= i < |entries|
      ensures FooterFor(c, entries, HEADER_BYTES)[i].key == entries[i].key
      ensures ValidFooterEntry(FooterFor(c, entries, HEADER_BYTES)[i])
    {
      FooterAt(c, entries, HEADER_BYTES, i);
    }
  }

  lemma Slices(body: Bytes, footer: Bytes, trailer: Bytes)
    ensures (body + footer + trailer)[|body|..|body| + |footer|] == footer
    ensures (body + footer + trailer)[|body| + |footer|..] == trailer
  {
  }

  lemma GoodIndex(c: Codec, h: Header, entries: seq<Entry>)
    requires Inverts(c) && Encodable(c, entries) && Sorted(c.page, entries) && Describes(h, entries)
    ensures var footer := FooterFor(c, entries, HEADER_BYTES);
            IndexFits(h, footer) && c.openFooter(c.footer(footer)) == Some(footer)
              && |c.footer(footer)| == FooterLength(entries)
  {
    FooterFits(c, h, entries);
    FooterIsSorted(c, None, entries, HEADER_BYTES);
    assert GoodFooter(c.page, FooterFor(c, entries, HEADER_BYTES));
  }

  lemma ScanFooter(c: Codec, h: Header, entries: seq<Entry>)
    requires Inverts(c) && Encodable(c, entries) && Sorted(c.page, entries) && Describes(h, entries)
    ensures ScannedFooter(c, ObjectBytes(c, h, entries), h, FooterOffset(c, entries), FooterLength(entries))
            == Some((h, FooterFor(c, entries, HEADER_BYTES)))
  {
    var footer := FooterFor(c, entries, HEADER_BYTES);
    var body, index := BodyBytes(c, h, entries), c.footer(footer);
    var trailer := c.trailer(FooterOffset(c, entries), FooterLength(entries));
    Slices(body, index, trailer);
    GoodIndex(c, h, entries);
    FramesOfEntries(c, c.header(h), entries, index + trailer);
    assert body + (index + trailer) == ObjectBytes(c, h, entries);
  }

  /** Scanning an encoded object returns its header and its index. */
  lemma ScanInverts(c: Codec, h: Header, entries: seq<Entry>)
    requires Inverts(c) && Encodable(c, entries) && Sorted(c.page, entries) && GoodHeader(c.page, h)
             && Describes(h, entries)
    ensures Scanned(c, ObjectBytes(c, h, entries)) == Some((h, FooterFor(c, entries, HEADER_BYTES)))
  {
    var footer := FooterFor(c, entries, HEADER_BYTES);
    var body, index := BodyBytes(c, h, entries), c.footer(footer);
    var trailer := c.trailer(FooterOffset(c, entries), FooterLength(entries));
    ObjectBytesLength(c, h, entries);
    Slices(body, index, trailer);
    var rest := EntriesBytes(c, entries) + index + trailer;
    assert body + index + trailer == c.header(h) + rest;
    assert c.openHeader(c.header(h) + rest) == Some(h);
    ScanFooter(c, h, entries);
  }

  // ---- Lookup -------------------------------------------------------------------------------------------

  predicate FooterSorted(page: nat, footer: seq<FooterEntry>)
    requires page > 0
  {
    forall i, j :: 0 <= i < j < |footer| ==> Position(page, footer[i].key) < Position(page, footer[j].key)
  }

  /** Binary search: the index entry of a key, exactly when there is one. */
  method Find(page: nat, footer: seq<FooterEntry>, key: BlockKey) returns (r: Option<nat>)
    requires page > 0 && FooterSorted(page, footer)
    ensures r.Some? ==> r.value < |footer| && footer[r.value].key == key
    ensures r.None? ==> forall i :: 0 <= i < |footer| ==> footer[i].key != key
  {
    var low, high := 0, |footer|;
    while low < high
      invariant low <= high <= |footer|
      invariant forall i :: 0 <= i < low ==> Position(page, footer[i].key) < Position(page, key)
      invariant forall i :: high <= i < |footer| ==> Position(page, key) < Position(page, footer[i].key)
    {
      var middle := (low + high) / 2;
      PositionOrders(page, footer[middle].key, key);
      if Position(page, footer[middle].key) < Position(page, key) {
        low := middle + 1;
      } else if Position(page, key) < Position(page, footer[middle].key) {
        high := middle;
      } else {
        return Some(middle);
      }
    }
    return None;
  }

  /** Each indexed span holds its entry. */
  lemma SpanHoldsEntry(c: Codec, h: Header, entries: seq<Entry>, i: nat)
    requires Inverts(c) && Encodable(c, entries) && i < |entries|
    ensures var f := FooterFor(c, entries, HEADER_BYTES)[i];
            && FrameEnd(f) <= |ObjectBytes(c, h, entries)|
            && c.openEntry(ObjectBytes(c, h, entries)[f.offset..FrameEnd(f)]) == Some(entries[i])
  {
    FooterAt(c, entries, HEADER_BYTES, i);
    ObjectBytesLength(c, h, entries);
    var tail := c.footer(FooterFor(c, entries, HEADER_BYTES))
      + c.trailer(FooterOffset(c, entries), FooterLength(entries));
    SpanOfEntries(c, c.header(h), entries, tail, i);
    assert ObjectBytes(c, h, entries) == c.header(h) + EntriesBytes(c, entries) + tail;
  }

  lemma {:induction false} SpanOfEntries(c: Codec, before: Bytes, entries: seq<Entry>, after: Bytes, i: nat)
    requires i < |entries|
    requires |EntriesBytes(c, entries[..i])| + |c.entry(entries[i])| <= |EntriesBytes(c, entries)|
    ensures var start := |before| + |EntriesBytes(c, entries[..i])|;
            (before + EntriesBytes(c, entries) + after)[start..start + |c.entry(entries[i])|] == c.entry(entries[i])
    decreases i
  {
    var first, more := c.entry(entries[0]), EntriesBytes(c, entries[1..]);
    var bytes := before + EntriesBytes(c, entries) + after;
    assert bytes == (before + first) + more + after;
    if i == 0 {
      assert entries[..0] == [];
    } else {
      assert entries[..i][1..] == entries[1..][..i - 1] && entries[..i][0] == entries[0];
      SpanOfEntries(c, before + first, entries[1..], after, i - 1);
    }
  }

  lemma FooterKeys(c: Codec, entries: seq<Entry>)
    requires c.page > 0 && Encodable(c, entries) && Sorted(c.page, entries)
    ensures forall i :: 0 <= i < |entries| ==> FooterFor(c, entries, HEADER_BYTES)[i].key == entries[i].key
    ensures FooterSorted(c.page, FooterFor(c, entries, HEADER_BYTES))
  {
    forall i | 0 <= i < |entries| ensures FooterFor(c, entries, HEADER_BYTES)[i].key == entries[i].key {
      FooterAt(c, entries, HEADER_BYTES, i);
    }
  }

  /** Looking a key up in an encoded object and opening the span found gives the original
      entry for every key of the object, and nothing for any other. */
  method Lookup(c: Codec, o: BlxObject, key: BlockKey, ghost entries: seq<Entry>) returns (r: Option<Entry>)
    requires Inverts(c) && Encodable(c, entries) && Sorted(c.page, entries) && o == Encoded(c, o.header, entries)
    ensures r.Some? ==> r.value in entries && r.value.key == key
    ensures r.None? ==> forall i :: 0 <= i < |entries| ==> entries[i].key != key
  {
    FooterKeys(c, entries);
    var found := Find(c.page, o.footer, key);
    if found.None? {
      return None;
    }
    SpanHoldsEntry(c, o.header, entries, found.value);
    var f := o.footer[found.value];
    r := c.openEntry(o.bytes[f.offset..FrameEnd(f)]);
  }

  lemma FrameEndsAt(c: Codec, entries: seq<Entry>, i: nat)
    requires Encodable(c, entries) && i < |entries|
    ensures FrameEnd(FooterFor(c, entries, HEADER_BYTES)[i]) == HEADER_BYTES + |EntriesBytes(c, entries[..i + 1])|
  {
    FooterAt(c, entries, HEADER_BYTES, i);
    assert entries[..i + 1] == entries[..i] + [entries[i]];
    EntriesBytesSnoc(c, entries[..i], entries[i]);
  }

  /** The entries tile the span between header and footer, and the footer and trailer
      fill the rest. */
  lemma EntriesTile(c: Codec, h: Header, entries: seq<Entry>, i: nat)
    requires Inverts(c) && Encodable(c, entries) && i < |entries|
    ensures var footer := FooterFor(c, entries, HEADER_BYTES);
            && footer[0].offset == HEADER_BYTES
            && FrameEnd(footer[i]) == (if i + 1 < |entries| then footer[i + 1].offset else FooterOffset(c, entries))
            && FooterOffset(c, entries) + FooterLength(entries) + TRAILER_BYTES == |ObjectBytes(c, h, entries)|
  {
    FooterAt(c, entries, HEADER_BYTES, 0);
    assert entries[..0] == [];
    FrameEndsAt(c, entries, i);
    if i + 1 < |entries| {
      FooterAt(c, entries, HEADER_BYTES, i + 1);
    } else {
      assert entries[..i + 1] == entries;
    }
    ObjectBytesLength(c, h, entries);
  }
}
