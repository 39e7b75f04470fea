/**
  The BLX object format: a framed header, one frame per entry, a framed footer that
  indexes the entries, and a fixed trailer that locates the footer.
 */
module Blx {
  import opened Prelude
  import opened Format
  import opened BlockKeys
  import opened ObjectRefs

  const MAGIC_HEADER: U32 := 0x48584C42
  const MAGIC_ENTRY: U32 := 0x45584C42
  const MAGIC_FOOTER: U32 := 0x46584C42
  const MAGIC_TRAILER: U32 := 0x54584C42
  const MAX_FILE_BYTES: nat := 64 * 1024 * 1024
  const TRAILER_BYTES: nat := 16
  const HEADER_VERSION: nat := 1
  const HEADER_PAYLOAD_BYTES: nat := 2 + 4 + 1 + 8 * 6 + 4 * 3 + 8 * 2 + 8 * 2
  const HEADER_BYTES: nat := FRAME_HEADER + HEADER_PAYLOAD_BYTES
  const FOOTER_PREFIX_BYTES: nat := 2 + 4
  const FOOTER_ENTRY_BYTES: nat := 8 + 4 + 4 + 8 + 1 + 7 + 8

  /** Page size, checksum and compression. */
  datatype Env = Env(
    page: nat,
    crc: Crc,
    compress: Bytes -> Bytes,
    decompress: (Bytes, nat) -> Option<Bytes>,
    maxOutput: nat -> nat)

  /** What is assumed of compression: it inverts, and its output is bounded. */
  ghost predicate Good(env: Env) {
    && 0 < env.page < U32_LIMIT
    && (forall b: Bytes :: env.decompress(env.compress(b), |b|) == Some(b))
    && (forall b: Bytes :: |env.compress(b)| <= env.maxOutput(|b|))
  }

  datatype EntryKind = IsData | IsTombstone

  datatype Entry =
    | DataEntry(key: BlockKey, generation: U64, bytes: Bytes)
    | Tombstone(key: BlockKey, generation: U64)

  datatype Header = Header(
    blockSize: U32,
    kind: NamespaceKind,
    namespace: U64,
    fence: U64,
    objectId: U64,
    minSeq: U64,
    maxSeq: U64,
    batch: U64,
    chunkIndex: U32,
    chunkCount: U32,
    entryCount: U32,
    firstKey: BlockKey,
    lastKey: BlockKey,
    pre: U64,
    post: U64)

  datatype FooterEntry = FooterEntry(
    key: BlockKey,
    offset: U32,
    length: U32,
    generation: U64,
    kind: EntryKind,
    checksum: U64)

  // ---- Keys ------------------------------------------------------------------------------------

  function SpaceCode(space: BlockSpace): nat {
    match space case Memory => 0 case Data => 1 case Vmm => 2
  }

  /** A key's eight bytes as one number: space, three zero bytes, block. */
  function KeyNumber(key: BlockKey): U64 {
    SpaceCode(key.space) + key.block * U32_LIMIT
  }

  function KeyOf(n: nat): Option<BlockKey>
    requires n < U64_LIMIT
  {
    var space, block := n % U32_LIMIT, n / U32_LIMIT;
    if space == 0 then Some(BlockKey(Memory, block))
    else if space == 1 then Some(BlockKey(Data, block))
    else if space == 2 then Some(BlockKey(Vmm, block))
    else None
  }

  lemma KeyInverse(key: BlockKey)
    ensures KeyOf(KeyNumber(key)) == Some(key)
  {
  }

  // ---- Header ------------------------------------------------------------------------------------

  const HEADER_WIDTHS: seq<nat> := [2, 4, 1] + [8, 8, 8, 8, 8, 8] + [4, 4, 4] + [8, 8, 8, 8]

  lemma HeaderWidth()
    ensures |HEADER_WIDTHS| == 16 && Width(HEADER_WIDTHS) == HEADER_PAYLOAD_BYTES
  {
    Widths3(2, 4, 1);
    Widths3(8, 8, 8);
    Widths3(4, 4, 4);
    WidthOfBoth([8, 8, 8], [8, 8, 8]);
    assert [8, 8, 8] + [8, 8, 8] == [8, 8, 8, 8, 8, 8];
    WidthOfBoth([8, 8, 8], [8]);
    assert [8, 8, 8] + [8] == [8, 8, 8, 8];
    WidthOfBoth([2, 4, 1], [8, 8, 8, 8, 8, 8]);
    WidthOfBoth([2, 4, 1] + [8, 8, 8, 8, 8, 8], [4, 4, 4]);
    WidthOfBoth([2, 4, 1] + [8, 8, 8, 8, 8, 8] + [4, 4, 4], [8, 8, 8, 8]);
  }

  lemma Widths3(a: nat, b: nat, c: nat)
    ensures Width([a, b, c]) == a + b + c
  {
    assert [a, b, c][1..] == [b, c] && [b, c][1..] == [c] && [c][1..] == [];
    assert Width([c]) == c;
    assert Width([b, c]) == b + c;
  }

  function KindCode(kind: NamespaceKind): nat { if kind.Volume? then 0 else 1 }

  function HeaderValues(h: Header): seq<nat> {
    [HEADER_VERSION, h.blockSize, KindCode(h.kind)]
    + [h.namespace, h.fence, h.objectId, h.minSeq, h.maxSeq, h.batch]
    + [h.chunkIndex, h.chunkCount, h.entryCount]
    + [KeyNumber(h.firstKey), KeyNumber(h.lastKey), h.pre, h.post]
  }

  predicate GoodHeader(page: nat, h: Header)
    requires page > 0
  {
    && h.blockSize == page && h.minSeq <= h.maxSeq && h.chunkIndex < h.chunkCount && h.entryCount > 0
    && Position(page, h.firstKey) <= Position(page, h.lastKey)
  }

  function HeaderOf(values: seq<nat>): Option<Header>
    requires Fit(HEADER_WIDTHS, values)
  {
    Limits();
    HeaderWidth();
    FitsHeader(values);
    var first, last := KeyOf(values[12]), KeyOf(values[13]);
    if values[0] != HEADER_VERSION || values[2] > 1 || first.None? || last.None? then None
    else
      Some(Header(values[1], if values[2] == 0 then Volume else ImportedBase,
                  values[3], values[4], values[5], values[6], values[7], values[8],
                  values[9], values[10], values[11], first.value, last.value, values[14], values[15]))
  }

  lemma FitsHeader(values: seq<nat>)
    requires Fit(HEADER_WIDTHS, values)
    ensures |values| == 16 && values[1] < U32_LIMIT
    ensures forall i :: 3 <= i < 9 ==> values[i] < U64_LIMIT
    ensures forall i :: 9 <= i < 12 ==> values[i] < U32_LIMIT
    ensures forall i :: 12 <= i < 16 ==> values[i] < U64_LIMIT
  {
    Limits();
    HeaderWidth();
  }

  lemma HeaderFits(h: Header)
    ensures Fit(HEADER_WIDTHS, HeaderValues(h))
  {
    Limits();
  }

  lemma HeaderInverse(h: Header)
    requires Fit(HEADER_WIDTHS, HeaderValues(h))
    ensures HeaderOf(HeaderValues(h)) == Some(h)
  {
    KeyInverse(h.firstKey);
    KeyInverse(h.lastKey);
  }

  function EncodedHeader(env: Env, h: Header): (bytes: Bytes)
    ensures |bytes| == HEADER_BYTES
  {
    HeaderWidth();
    Sealed(env.crc, MAGIC_HEADER, Pack(HEADER_WIDTHS, HeaderValues(h)))
  }

  function OpenedHeader(env: Env, bytes: Bytes): Option<Header>
    requires env.page > 0
  {
    if |bytes| < HEADER_BYTES then None
    else
      match Opened(env.crc, MAGIC_HEADER, bytes[..HEADER_BYTES])
      case None => None
      case Some(payload) =>
        match Unpack(HEADER_WIDTHS, payload)
        case None => None
        case Some((values, rest)) =>
          UnpackFits(HEADER_WIDTHS, payload);
          match HeaderOf(values)
          case None => None
          case Some(h) => if rest == [] && GoodHeader(env.page, h) then Some(h) else None
  }

  lemma OpenHeader(env: Env, h: Header, rest: Bytes)
    requires env.page > 0 && GoodHeader(env.page, h)
    ensures OpenedHeader(env, EncodedHeader(env, h) + rest) == Some(h)
  {
    HeaderWidth();
    HeaderFits(h);
    HeaderInverse(h);
    var payload := Pack(HEADER_WIDTHS, HeaderValues(h));
    assert (EncodedHeader(env, h) + rest)[..HEADER_BYTES] == EncodedHeader(env, h);
    OpenSealed(env.crc, MAGIC_HEADER, payload);
    UnpackInverse(HEADER_WIDTHS, HeaderValues(h), []);
    assert payload + [] == payload;
  }

  // ---- Entries -------------------------------------------------------------------------------------

  /** Kind, key, generation. */
  const ENTRY_WIDTHS: seq<nat> := [1, 8, 8]

  /** Raw and stored length of a data block. */
  const BLOCK_WIDTHS: seq<nat> := [4, 4]

  lemma EntryWidths()
    ensures Width(ENTRY_WIDTHS) == 17 && Width(BLOCK_WIDTHS) == 8
  {
    Widths3(1, 8, 8);
    assert [4, 4][1..] == [4] && [4][1..] == [];
    assert Width([4]) == 4;
  }

  function KindOf(e: Entry): EntryKind { if e.DataEntry? then IsData else IsTombstone }

  function EntryKindCode(kind: EntryKind): nat { if kind.IsData? then 0 else 1 }

  function EntryValues(e: Entry): seq<nat> {
    [EntryKindCode(KindOf(e)), KeyNumber(e.key), e.generation]
  }

  predicate ValidEntry(env: Env, e: Entry) {
    e.DataEntry? ==> |e.bytes| == env.page && |env.compress(e.bytes)| < MAX_FILE_BYTES
  }

  /** The stored block of a data entry, and nothing for a tombstone. */
  function BlockBytes(env: Env, e: Entry): Bytes {
    if e.DataEntry? then
      Pack(BLOCK_WIDTHS, [|e.bytes|, |env.compress(e.bytes)|]) + env.compress(e.bytes)
    else []
  }

  function EntryPayload(env: Env, e: Entry): (bytes: Bytes)
    ensures |bytes| == 17 + |BlockBytes(env, e)|
  {
    EntryWidths();
    Pack(ENTRY_WIDTHS, EntryValues(e)) + BlockBytes(env, e)
  }

  lemma BlockLength(env: Env, e: Entry)
    ensures |BlockBytes(env, e)| == if e.DataEntry? then 8 + |env.compress(e.bytes)| else 0
  {
    EntryWidths();
  }

  function EncodedEntry(env: Env, e: Entry): (bytes: Bytes)
    requires ValidEntry(env, e)
    ensures |bytes| == FRAME_HEADER + 17 + |BlockBytes(env, e)|
  {
    BlockLength(env, e);
    Sealed(env.crc, MAGIC_ENTRY, EntryPayload(env, e))
  }

  function BlockOf(env: Env, key: BlockKey, generation: U64, lengths: seq<nat>, stored: Bytes): Option<Entry>
    requires |lengths| == 2
  {
    if lengths[0] != env.page || lengths[1] != |stored| then None
    else
      match env.decompress(stored, lengths[0])
      case None => None
      case Some(raw) => Some(DataEntry(key, generation, raw))
  }

  function OpenedBlock(env: Env, key: BlockKey, generation: U64, bytes: Bytes): Option<Entry> {
    match Unpack(BLOCK_WIDTHS, bytes)
    case None => None
    case Some((lengths, stored)) => BlockOf(env, key, generation, lengths, stored)
  }

  function EntryOf(env: Env, values: seq<nat>, block: Bytes): Option<Entry>
    requires Fit(ENTRY_WIDTHS, values)
  {
    Limits();
    assert values[1] < Limit(ENTRY_WIDTHS[1]) && values[2] < Limit(ENTRY_WIDTHS[2]);
    var key := KeyOf(values[1]);
    if key.None? || values[0] > 1 then None
    else if values[0] == 0 then OpenedBlock(env, key.value, values[2], block)
    else if block != [] then None
    else Some(Tombstone(key.value, values[2]))
  }

  function OpenedEntry(env: Env, bytes: Bytes): Option<Entry> {
    match Opened(env.crc, MAGIC_ENTRY, bytes)
    case None => None
    case Some(payload) =>
      match Unpack(ENTRY_WIDTHS, payload)
      case None => None
      case Some((values, block)) =>
        UnpackFits(ENTRY_WIDTHS, payload);
        EntryOf(env, values, block)
  }

  lemma BlockOfInverse(env: Env, e: Entry)
    requires Good(env) && e.DataEntry? && |e.bytes| == env.page
    ensures BlockOf(env, e.key, e.generation, [|e.bytes|, |env.compress(e.bytes)|], env.compress(e.bytes)) == Some(e)
  {
  }

  lemma PairFits(a: nat, b: nat, x: nat, y: nat)
    requires x < Limit(a) && y < Limit(b)
    ensures Fit([a, b], [x, y])
  {
  }

  lemma OpenBlock(env: Env, e: Entry)
    requires Good(env) && ValidEntry(env, e) && e.DataEntry?
    ensures OpenedBlock(env, e.key, e.generation, BlockBytes(env, e)) == Some(e)
  {
    Limits();
    PairFits(4, 4, |e.bytes|, |env.compress(e.bytes)|);
    UnpackInverse(BLOCK_WIDTHS, [|e.bytes|, |env.compress(e.bytes)|], env.compress(e.bytes));
    BlockOfInverse(env, e);
  }

  lemma EntryFits(kind: nat, key: BlockKey, generation: U64)
    requires kind <= 1
    ensures Fit(ENTRY_WIDTHS, [kind, KeyNumber(key), generation])
  {
    Limits();
  }

  lemma EntryOfParts(env: Env, kind: nat, key: BlockKey, generation: U64, block: Bytes)
    requires kind <= 1 && Fit(ENTRY_WIDTHS, [kind, KeyNumber(key), generation])
    ensures EntryOf(env, [kind, KeyNumber(key), generation], block)
            == if kind == 0 then OpenedBlock(env, key, generation, block)
               else if block != [] then None else Some(Tombstone(key, generation))
  {
    KeyInverse(key);
  }

  lemma EntryOfInverse(env: Env, e: Entry)
    requires Good(env) && ValidEntry(env, e)
    ensures Fit(ENTRY_WIDTHS, EntryValues(e)) && EntryOf(env, EntryValues(e), BlockBytes(env, e)) == Some(e)
  {
    var kind := EntryKindCode(KindOf(e));
    EntryFits(kind, e.key, e.generation);
    EntryOfParts(env, kind, e.key, e.generation, BlockBytes(env, e));
    if e.DataEntry? { OpenBlock(env, e); }
  }

  lemma OpenFrame(env: Env, e: Entry)
    requires ValidEntry(env, e)
    ensures Opened(env.crc, MAGIC_ENTRY, EncodedEntry(env, e)) == Some(EntryPayload(env, e))
  {
    BlockLength(env, e);
    OpenSealed(env.crc, MAGIC_ENTRY, EntryPayload(env, e));
  }

  /** Opening an encoded entry gives the entry back. */
  lemma OpenEntry(env: Env, e: Entry)
    requires Good(env) && ValidEntry(env, e)
    ensures OpenedEntry(env, EncodedEntry(env, e)) == Some(e)
  {
    OpenFrame(env, e);
    EntryOfInverse(env, e);
    UnpackInverse(ENTRY_WIDTHS, EntryValues(e), BlockBytes(env, e));
  }

  // ---- Footer ----------------------------------------------------------------------------------------

  /** Key, offset, length, generation, kind with its seven reserved zero bytes, checksum. */
  const FOOTER_WIDTHS: seq<nat> := [8, 4, 4] + [8, 8, 8]

  /** Version and entry count. */
  const FOOTER_PREFIX_WIDTHS: seq<nat> := [2, 4]

  lemma FooterWidth()
    ensures |FOOTER_WIDTHS| == 6 && Width(FOOTER_WIDTHS) == FOOTER_ENTRY_BYTES
    ensures Width(FOOTER_PREFIX_WIDTHS) == FOOTER_PREFIX_BYTES
  {
    Widths3(8, 4, 4);
    Widths3(8, 8, 8);
    WidthOfBoth([8, 4, 4], [8, 8, 8]);
    assert [2, 4][1..] == [4] && [4][1..] == [];
    assert Width([4]) == 4;
  }

  function FooterValues(f: FooterEntry): seq<nat> {
    [KeyNumber(f.key), f.offset, f.length, f.generation, EntryKindCode(f.kind), f.checksum]
  }

  function FooterEntryOf(values: seq<nat>): Option<FooterEntry>
    requires Fit(FOOTER_WIDTHS, values)
  {
    Limits();
    assert values[0] < Limit(FOOTER_WIDTHS[0]) && values[1] < Limit(FOOTER_WIDTHS[1])
      && values[2] < Limit(FOOTER_WIDTHS[2]);
    assert values[3] < Limit(FOOTER_WIDTHS[3]) && values[5] < Limit(FOOTER_WIDTHS[5]);
    var key := KeyOf(values[0]);
    if key.None? || values[4] > 1 || (values[4] == 1 && values[5] != 0) then None
    else
      var kind := if values[4] == 0 then IsData else IsTombstone;
      Some(FooterEntry(key.value, values[1], values[2], values[3], kind, values[5]))
  }

  predicate ValidFooterEntry(f: FooterEntry) {
    f.kind.IsTombstone? ==> f.checksum == 0
  }

  lemma FooterEntryInverse(f: FooterEntry)
    requires ValidFooterEntry(f)
    ensures Fit(FOOTER_WIDTHS, FooterValues(f)) && FooterEntryOf(FooterValues(f)) == Some(f)
  {
    Limits();
    KeyInverse(f.key);
  }

  function FooterBody(footer: seq<FooterEntry>): (bytes: Bytes)
    ensures |bytes| == |footer| * FOOTER_ENTRY_BYTES
  {
    FooterWidth();
    if footer == [] then [] else Pack(FOOTER_WIDTHS, FooterValues(footer[0])) + FooterBody(footer[1..])
  }

  function EncodedFooter(env: Env, footer: seq<FooterEntry>): (bytes: Bytes)
    requires |footer| * FOOTER_ENTRY_BYTES < MAX_FILE_BYTES
    ensures |bytes| == FRAME_HEADER + FOOTER_PREFIX_BYTES + |footer| * FOOTER_ENTRY_BYTES
  {
    FooterWidth();
    Sealed(env.crc, MAGIC_FOOTER, Pack(FOOTER_PREFIX_WIDTHS, [1, |footer|]) + FooterBody(footer))
  }

  /** `count` footer entries with strictly increasing keys, and nothing after them. */
  function FooterEntries(page: nat, count: nat, previous: Option<BlockKey>, bytes: Bytes): Option<seq<FooterEntry>>
    requires page > 0
    decreases count
  {
    if count == 0 then (if bytes == [] then Some([]) else None)
    else
      match Unpack(FOOTER_WIDTHS, bytes)
      case None => None
      case Some((values, rest)) =>
        UnpackFits(FOOTER_WIDTHS, bytes);
        match FooterEntryOf(values)
        case None => None
        case Some(f) =>
          if previous.Some? && Position(page, previous.value) >= Position(page, f.key) then None
          else
            match FooterEntries(page, count - 1, Some(f.key), rest)
            case None => None
            case Some(more) => Some([f] + more)
  }

  function FooterOf(page: nat, prefix: seq<nat>, body: Bytes): Option<seq<FooterEntry>>
    requires page > 0 && |prefix| == 2
  {
    if prefix[0] != 1 || |body| != prefix[1] * FOOTER_ENTRY_BYTES then None
    else FooterEntries(page, prefix[1], None, body)
  }

  function OpenedFooter(env: Env, bytes: Bytes): Option<seq<FooterEntry>>
    requires env.page > 0
  {
    match Opened(env.crc, MAGIC_FOOTER, bytes)
    case None => None
    case Some(payload) =>
      match Unpack(FOOTER_PREFIX_WIDTHS, payload)
      case None => None
      case Some((prefix, body)) => FooterOf(env.page, prefix, body)
  }

  predicate Follows(page: nat, previous: Option<BlockKey>, key: BlockKey)
    requires page > 0
  {
    previous.None? || Position(page, previous.value) < Position(page, key)
  }

  /** Strictly increasing keys after `previous`. */
  predicate SortedAfter(page: nat, previous: Option<BlockKey>, footer: seq<FooterEntry>)
    requires page > 0
    decreases |footer|
  {
    footer == [] || (Follows(page, previous, footer[0].key) && SortedAfter(page, Some(footer[0].key), footer[1..]))
  }

  lemma {:induction false} OpenFooterEntries(page: nat, previous: Option<BlockKey>, footer: seq<FooterEntry>)
    requires page > 0 && SortedAfter(page, previous, footer)
    requires forall i :: 0 <= i < |footer| ==> ValidFooterEntry(footer[i])
    ensures FooterEntries(page, |footer|, previous, FooterBody(footer)) == Some(footer)
    decreases |footer|
  {
    if footer != [] {
      FooterEntryInverse(footer[0]);
      UnpackInverse(FOOTER_WIDTHS, FooterValues(footer[0]), FooterBody(footer[1..]));
      OpenFooterEntries(page, Some(footer[0].key), footer[1..]);
      assert footer == [footer[0]] + footer[1..];
    }
  }

  lemma OpenFooterFrame(env: Env, footer: seq<FooterEntry>)
    requires |footer| * FOOTER_ENTRY_BYTES < MAX_FILE_BYTES
    ensures Opened(env.crc, MAGIC_FOOTER, EncodedFooter(env, footer))
            == Some(Pack(FOOTER_PREFIX_WIDTHS, [1, |footer|]) + FooterBody(footer))
  {
    FooterWidth();
    OpenSealed(env.crc, MAGIC_FOOTER, Pack(FOOTER_PREFIX_WIDTHS, [1, |footer|]) + FooterBody(footer));
  }

  lemma FooterOfInverse(page: nat, footer: seq<FooterEntry>)
    requires page > 0 && SortedAfter(page, None, footer)
    requires forall i :: 0 <= i < |footer| ==> ValidFooterEntry(footer[i])
    ensures FooterOf(page, [1, |footer|], FooterBody(footer)) == Some(footer)
  {
    OpenFooterEntries(page, None, footer);
  }

  lemma OpenedFooterParts(env: Env, bytes: Bytes, count: nat, body: Bytes)
    requires env.page > 0 && count < U32_LIMIT
    requires Opened(env.crc, MAGIC_FOOTER, bytes) == Some(Pack(FOOTER_PREFIX_WIDTHS, [1, count]) + body)
    ensures OpenedFooter(env, bytes) == FooterOf(env.page, [1, count], body)
  {
    Limits();
    PairFits(2, 4, 1, count);
    UnpackInverse(FOOTER_PREFIX_WIDTHS, [1, count], body);
  }

  lemma OpenFooter(env: Env, footer: seq<FooterEntry>)
    requires env.page > 0 && SortedAfter(env.page, None, footer) && |footer| * FOOTER_ENTRY_BYTES < MAX_FILE_BYTES
    requires forall i :: 0 <= i < |footer| ==> ValidFooterEntry(footer[i])
    ensures OpenedFooter(env, EncodedFooter(env, footer)) == Some(footer)
  {
    OpenFooterFrame(env, footer);
    OpenedFooterParts(env, EncodedFooter(env, footer), |footer|, FooterBody(footer));
    FooterOfInverse(env.page, footer);
  }

  // ---- Trailer -----------------------------------------------------------------------------------------

  /** Magic, footer offset, footer length. */
  const TRAILER_WIDTHS: seq<nat> := [4, 4, 4]

  function EncodedTrailer(env: Env, offset: U32, length: U32): (bytes: Bytes)
    ensures |bytes| == TRAILER_BYTES
  {
    Widths3(4, 4, 4);
    var prefix := Pack(TRAILER_WIDTHS, [MAGIC_TRAILER, offset, length]);
    prefix + Le(4, env.crc(prefix))
  }

  function OpenedTrailer(env: Env, bytes: Bytes): Option<(U32, U32)> {
    if |bytes| != TRAILER_BYTES then None
    else
      match Unpack(TRAILER_WIDTHS, bytes[..12])
      case None => None
      case Some((values, _)) =>
        Limits();
        UnpackFits(TRAILER_WIDTHS, bytes[..12]);
        assert values[1] < Limit(TRAILER_WIDTHS[1]) && values[2] < Limit(TRAILER_WIDTHS[2]);
        if values[0] == MAGIC_TRAILER && FromLe(bytes[12..]) == env.crc(bytes[..12])
        then Some((values[1], values[2])) else None
  }

  lemma OpenTrailer(env: Env, offset: U32, length: U32)
    ensures OpenedTrailer(env, EncodedTrailer(env, offset, length)) == Some((offset, length))
  {
    Limits();
    Widths3(4, 4, 4);
    var prefix := Pack(TRAILER_WIDTHS, [MAGIC_TRAILER, offset, length]);
    var bytes := EncodedTrailer(env, offset, length);
    assert bytes[..12] == prefix && bytes[12..] == Le(4, env.crc(prefix));
    LeInverse(4, env.crc(prefix));
    assert Fit(TRAILER_WIDTHS, [MAGIC_TRAILER, offset, length]);
    UnpackInverse(TRAILER_WIDTHS, [MAGIC_TRAILER, offset, length], []);
    assert prefix + [] == prefix;
  }
}
