/**
  The object ids of a recovery archive. They start 1025 short of the end of their range, and
  a compacted archive takes one for every file partition it touches.
 */
module ArchiveIds {
  import opened Prelude
  import opened Format
  import opened BlockKeys
  import opened Blx
  import opened BlxObjects
  import opened BlxCodec
  import opened BlxChunks
  import opened Compaction
  import opened BlxBuilder

  const RECOVERY_FIRST_ID: U64 := U64_LIMIT - 1025

  /** Neighbours lie in different file partitions. */
  predicate Apart(page: nat, entries: seq<Entry>)
    requires page > 0
  {
    forall i :: 0 < i < |entries| ==> FilePartition(page, entries[i - 1].key) != FilePartition(page, entries[i].key)
  }

  lemma {:induction false} ApartCuts(env: Env, entries: seq<Entry>)
    requires env.page > 0 && Apart(env.page, entries) && entries != []
    ensures var cut := CutUp(env, entries, true); |cut.done| == |entries| - 1 && cut.current == [Last(entries)]
  {
    var front := DropLast(entries);
    if front != [] {
      ApartCuts(env, front);
      assert Last(front) == entries[|entries| - 2];
    }
  }

  lemma MulDiv(i: nat, blocks: nat)
    requires blocks > 0
    ensures Times(i, blocks) / blocks == i
  {
    DigitOf(i, blocks, Times(i, blocks) / blocks, Times(i, blocks) % blocks);
  }

  lemma DigitOf(i: nat, blocks: nat, q: nat, r: nat)
    requires Times(i, blocks) == blocks * q + r && r < blocks
    ensures q == i
  {
    assert q < i ==> blocks * (q + 1) <= blocks * i;
    assert q > i ==> blocks * (i + 1) <= blocks * q;
  }

  /** The `i`-th of 1026 blocks, each the first of its file partition. */
  function FirstOfPartition(page: nat, i: nat): BlockKey
    requires page > 1 && i < 1026
  {
    SmallPartitions(page, i);
    BlockKey(Memory, Times(i, BlocksPerFilePartition(page)))
  }

  lemma SmallPartitions(page: nat, i: nat)
    requires page > 1 && i < 1026
    ensures Times(i, BlocksPerFilePartition(page)) < U32_LIMIT
  {
    var blocks := BlocksPerFilePartition(page);
    assert TARGET_FILE_BYTES / page <= TARGET_FILE_BYTES / 2 by { DivShrinks(TARGET_FILE_BYTES, page); }
    assert blocks <= 0x20_0000;
    MulGrows(i, 1026, blocks, 0x20_0000);
  }

  lemma DivShrinks(n: nat, page: nat)
    requires page > 1
    ensures n / page <= n / 2
  {
    var q := n / page;
    assert n == page * q + n % page;
    Doubled(q, page);
  }

  lemma Doubled(q: nat, page: nat)
    requires page > 1
    ensures 2 * q <= page * q
  {
  }

  lemma MulGrows(a: nat, b: nat, c: nat, d: nat)
    requires a <= b && c <= d
    ensures Times(a, c) <= Times(b, d)
  {
    assert a * c <= b * c;
    assert b * c <= b * d;
  }

  function Spread(page: nat): seq<Entry>
    requires page > 1
  {
    seq(1026, i requires 0 <= i < 1026 => Tombstone(FirstOfPartition(page, i), 1))
  }

  lemma SpreadIsApart(page: nat)
    requires page > 1
    ensures Sorted(page, Spread(page)) && Apart(page, Spread(page))
  {
    var blocks, entries := BlocksPerFilePartition(page), Spread(page);
    forall i | 0 <= i < 1026 ensures entries[i].key.block / blocks == i { MulDiv(i, blocks); }
    forall i, j | 0 <= i < j < |entries| ensures Position(page, entries[i].key) < Position(page, entries[j].key) {
      PositionOrders(page, entries[i].key, entries[j].key);
    }
  }

  lemma SpreadChunks(env: Env)
    requires env.page > 1
    ensures |ChunksOf(env, Compacted(env.page, Spread(env.page), true), true)| == 1026
  {
    SpreadIsApart(env.page);
    InOrderOfSorted(env.page, Spread(env.page));
    ApartCuts(env, Spread(env.page));
  }

  /** The recovery archive's ids reach exactly 1025 objects, and one block in each of 1026
      file partitions already takes more. */
  lemma RecoveryIdsRunOut(env: Env, meta: BatchMeta)
    requires env.page > 1 && meta.firstObjectId == RECOVERY_FIRST_ID
    ensures forall n: nat :: IdsFit(meta, n) <==> n <= 1025
    ensures exists run :: Sorted(env.page, run) && |ChunksOf(env, Compacted(env.page, run, true), true)| == 1026
  {
    SpreadIsApart(env.page);
    SpreadChunks(env);
  }

  // ---- As an input of compaction ------------------------------------------------------------------

  const TOMBSTONE_BYTES: nat := FRAME_HEADER + 17

  predicate WritesTombstones(c: Codec, entries: seq<Entry>) {
    forall i :: 0 <= i < |entries| ==> c.valid(entries[i]) && |c.entry(entries[i])| == TOMBSTONE_BYTES
  }

  lemma {:induction false} TombstoneBytes(c: Codec, entries: seq<Entry>)
    requires WritesTombstones(c, entries)
    ensures |EntriesBytes(c, entries)| == TOMBSTONE_BYTES * |entries|
  {
    if entries != [] { TombstoneBytes(c, entries[1..]); }
  }

  lemma TombstonesEncode(c: Codec, entries: seq<Entry>)
    requires WritesTombstones(c, entries) && 0 < |entries| <= 1026
    ensures Encodable(c, entries)
  {
    TombstoneBytes(c, entries);
  }

  lemma TombstoneFrame(env: Env, e: Entry)
    requires env.page > 0 && e.Tombstone?
    ensures CodecOf(env).valid(e) && |CodecOf(env).entry(e)| == TOMBSTONE_BYTES
  {
  }

  lemma SpreadEncodes(env: Env)
    requires env.page > 1
    ensures Encodable(CodecOf(env), Spread(env.page))
  {
    var c, entries := CodecOf(env), Spread(env.page);
    forall i | 0 <= i < |entries| ensures c.valid(entries[i]) && |c.entry(entries[i])| == TOMBSTONE_BYTES {
      TombstoneFrame(env, entries[i]);
    }
    TombstonesEncode(c, entries);
  }

  /** The object of 1026 tombstones, one to a file partition. */
  function SpreadObject(env: Env, meta: BatchMeta): Bytes
    requires 1 < env.page < U32_LIMIT
  {
    SpreadEncodes(env);
    ObjectFor(CodecOf(env), meta.(firstObjectId := 0), 0, 1, Spread(env.page)).bytes
  }

  lemma SpreadDecodes(env: Env, meta: BatchMeta)
    requires Good(env) && env.page > 1 && meta.minSeq <= meta.maxSeq
    ensures DecodedAll(CodecOf(env), [SpreadObject(env, meta)]) == Some(Spread(env.page))
  {
    SpreadIsApart(env.page);
    SpreadEncodes(env);
    CodecInverts(env);
    ObjectDecodes(CodecOf(env), meta.(firstObjectId := 0), 0, 1, Spread(env.page));
    DecodedOne(CodecOf(env), SpreadObject(env, meta));
  }

  lemma SpreadIsPaged(env: Env)
    requires env.page > 1
    ensures PagedTable(env, NewestOf(env.page, Spread(env.page)))
  {
    forall p | p in NewestOf(env.page, Spread(env.page)) ensures NewestOf(env.page, Spread(env.page))[p].Tombstone? {
      NewestIsNewest(env.page, Spread(env.page), p);
    }
  }

  /** So there is a well-formed object whose compaction under the recovery archive's ids
      asserts, and it is the ids: with a first id one lower it would not. */
  lemma RecoveryCompactionAsserts(env: Env, meta: BatchMeta)
    requires Good(env) && env.page > 1 && meta.firstObjectId == RECOVERY_FIRST_ID && meta.minSeq <= meta.maxSeq
    ensures DecodedAll(CodecOf(env), [SpreadObject(env, meta)]) == Some(Spread(env.page))
    ensures !Compactable(env, meta, Spread(env.page), true)
    ensures Compactable(env, meta.(firstObjectId := RECOVERY_FIRST_ID - 1), Spread(env.page), true)
  {
    SpreadDecodes(env, meta);
    SpreadChunks(env);
    SpreadIsPaged(env);
  }
}
