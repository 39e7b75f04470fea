/**
  Block keys and their storage order. Keys sort by file partition first, so the order
  is not that of their fields; Position numbers the keys in it.
 */
module BlockKeys {
  import opened Prelude

  const TARGET_FILE_BYTES: nat := 32 * 1024 * 1024
  const NAMESPACES_PER_FILE_PARTITION: nat := 8

  datatype BlockSpace = Memory | Data | Vmm

  datatype BlockKey = BlockKey(space: BlockSpace, block: U32)

  function BlocksPerFilePartition(page: nat): (blocks: nat)
    requires page > 0
    ensures blocks > 0
  {
    var blocks := TARGET_FILE_BYTES / page / NAMESPACES_PER_FILE_PARTITION;
    if blocks == 0 then 1 else blocks
  }

  function NamespaceRank(key: BlockKey): nat {
    match key.space
    case Memory => 0
    case Vmm => 1
    case Data => 2
  }

  function FilePartition(page: nat, key: BlockKey): (nat, nat)
    requires page > 0
  {
    (key.block / BlocksPerFilePartition(page), NamespaceRank(key) / NAMESPACES_PER_FILE_PARTITION)
  }

  /** The order of the source: partition, then namespace, then block within the partition. */
  predicate Less(page: nat, a: BlockKey, b: BlockKey)
    requires page > 0
  {
    var blocks := BlocksPerFilePartition(page);
    || a.block / blocks < b.block / blocks
    || (a.block / blocks == b.block / blocks
        && (|| NamespaceRank(a) / NAMESPACES_PER_FILE_PARTITION < NamespaceRank(b) / NAMESPACES_PER_FILE_PARTITION
            || (&& NamespaceRank(a) / NAMESPACES_PER_FILE_PARTITION == NamespaceRank(b) / NAMESPACES_PER_FILE_PARTITION
                && (|| NamespaceRank(a) < NamespaceRank(b)
                    || (NamespaceRank(a) == NamespaceRank(b) && a.block % blocks < b.block % blocks)))))
  }

  function Times(a: nat, b: nat): nat { a * b }

  /** How many keys precede a key in that order. */
  function Position(page: nat, key: BlockKey): nat
    requires page > 0
  {
    var blocks := BlocksPerFilePartition(page);
    Times(key.block / blocks, 3 * blocks) + Times(NamespaceRank(key), blocks) + key.block % blocks
  }

  /** Mixed-radix comparison. */
  lemma DigitsOrder(q: nat, r: nat, p: nat, s: nat, base: nat)
    requires r < base && s < base
    ensures q * base + r < p * base + s <==> q < p || (q == p && r < s)
  {
    if q < p {
      assert q * base + base <= p * base by { MulLeft(q + 1, p, base); }
    } else if p < q {
      assert p * base + base <= q * base by { MulLeft(p + 1, q, base); }
    }
  }

  lemma MulLeft(a: nat, b: nat, c: nat)
    requires a <= b
    ensures a * c <= b * c
  {
  }

  /** Three namespaces of `blocks` keys each make one partition. */
  lemma MixedOrder(q: nat, r: nat, m: nat, p: nat, s: nat, n: nat, blocks: nat)
    requires r < 3 && s < 3 && m < blocks && n < blocks
    ensures Times(q, 3 * blocks) + Times(r, blocks) + m < Times(p, 3 * blocks) + Times(s, blocks) + n
            <==> q < p || (q == p && (r < s || (r == s && m < n)))
    ensures Times(q, 3 * blocks) + Times(r, blocks) + m == Times(p, 3 * blocks) + Times(s, blocks) + n
            <==> q == p && r == s && m == n
  {
    FewTimes(r, blocks);
    FewTimes(s, blocks);
    DigitsOrder(q, Times(r, blocks) + m, p, Times(s, blocks) + n, 3 * blocks);
    DigitsOrder(p, Times(s, blocks) + n, q, Times(r, blocks) + m, 3 * blocks);
  }

  lemma FewTimes(r: nat, blocks: nat)
    requires r < 3
    ensures Times(r, blocks) == if r == 0 then 0 else if r == 1 then blocks else 2 * blocks
  {
  }

  /** Positions order keys exactly as the source does, and tell all keys apart. */
  lemma PositionOrders(page: nat, a: BlockKey, b: BlockKey)
    requires page > 0
    ensures Less(page, a, b) <==> Position(page, a) < Position(page, b)
    ensures Position(page, a) == Position(page, b) <==> a == b
  {
    var blocks := BlocksPerFilePartition(page);
    MixedOrder(a.block / blocks, NamespaceRank(a), a.block % blocks, b.block / blocks, NamespaceRank(b),
      b.block % blocks, blocks);
    DivMod(a.block, blocks);
    DivMod(b.block, blocks);
  }

  lemma DivMod(x: nat, d: nat)
    requires d > 0
    ensures x == x / d * d + x % d
  {
  }

  /** A partition is an interval of the order. */
  lemma PartitionIsAnInterval(page: nat, a: BlockKey, k: BlockKey, b: BlockKey)
    requires page > 0 && FilePartition(page, a) == FilePartition(page, b)
    requires Position(page, a) <= Position(page, k) <= Position(page, b)
    ensures FilePartition(page, k) == FilePartition(page, a)
  {
    PositionOrders(page, k, a);
    PositionOrders(page, b, k);
  }
}
