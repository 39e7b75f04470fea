/**
  The incrementally maintained state checksum: an exclusive-or over the contributions
  of all visible blocks, whatever files they come from.
 */
module StateChecksum {
  import opened Prelude
  import opened Ordered
  import opened Format
  import opened Blx
  import opened Compaction

  /** Generation and value checksum of the visible blocks. */
  type Blocks = map<nat, (U64, U64)>

  /** The contribution of one block. */
  type Weigh = (nat, (U64, U64)) -> U64

  /** Bitwise exclusive-or. */
  function Xor(a: nat, b: nat): nat
    decreases a + b
  {
    if a == 0 && b == 0 then 0 else (if a % 2 == b % 2 then 0 else 1) + 2 * Xor(a / 2, b / 2)
  }

  lemma {:induction false} XorCommutes(a: nat, b: nat)
    ensures Xor(a, b) == Xor(b, a)
    decreases a + b
  {
    if a != 0 || b != 0 { XorCommutes(a / 2, b / 2); }
  }

  lemma XorBits(a: nat, b: nat)
    ensures Xor(a, b) % 2 == (if a % 2 == b % 2 then 0 else 1) && Xor(a, b) / 2 == Xor(a / 2, b / 2)
  {
  }

  lemma {:induction false} XorCancels(a: nat, b: nat)
    ensures Xor(a, Xor(a, b)) == b
    decreases a + b
  {
    if a != 0 || b != 0 {
      XorCancels(a / 2, b / 2);
      XorBits(a, b);
      XorBits(a, Xor(a, b));
    }
  }

  lemma {:induction false} XorRotates(a: nat, b: nat, c: nat)
    ensures Xor(a, Xor(b, c)) == Xor(b, Xor(a, c))
    decreases a + b + c
  {
    if a != 0 || b != 0 || c != 0 {
      XorRotates(a / 2, b / 2, c / 2);
      XorBits(a, c);
      XorBits(b, c);
      XorBits(a, Xor(b, c));
      XorBits(b, Xor(a, c));
    }
  }

  /** The fold over all blocks. */
  function State(weigh: Weigh, blocks: Blocks): nat
    decreases |blocks|
  {
    if blocks.Keys == {} then 0
    else
      var k := Least(blocks.Keys);
      Xor(weigh(k, blocks[k]), State(weigh, blocks - {k}))
  }

  lemma StateUnfolds(weigh: Weigh, blocks: Blocks, l: nat)
    requires blocks.Keys != {} && Least(blocks.Keys) == l
    ensures State(weigh, blocks) == Xor(weigh(l, blocks[l]), State(weigh, blocks - {l}))
  {
  }

  lemma LeastStays(blocks: Blocks, k: nat, l: nat)
    requires k in blocks && l != k && Least(blocks.Keys) == l
    ensures l in (blocks - {k}) && Least((blocks - {k}).Keys) == l && (blocks - {k})[l] == blocks[l]
    ensures blocks - {k} - {l} == blocks - {l} - {k}
  {
    assert (blocks - {k}).Keys == blocks.Keys - {k};
  }

  /** Any block can be taken out of the fold. */
  lemma {:induction false} StateWithout(weigh: Weigh, blocks: Blocks, k: nat)
    requires k in blocks
    ensures State(weigh, blocks) == Xor(weigh(k, blocks[k]), State(weigh, blocks - {k}))
    decreases |blocks|
  {
    var l := Least(blocks.Keys);
    StateUnfolds(weigh, blocks, l);
    if l != k {
      LeastStays(blocks, k, l);
      StateWithout(weigh, blocks - {l}, k);
      StateUnfolds(weigh, blocks - {k}, l);
      XorRotates(weigh(l, blocks[l]), weigh(k, blocks[k]), State(weigh, blocks - {k} - {l}));
    }
  }

  class BlockState {
    const weigh: Weigh
    var checksum: nat
    var blocks: Blocks

    predicate Valid()
      reads this
    {
      checksum == State(weigh, blocks)
    }

    constructor (weigh: Weigh)
      ensures Valid() && blocks == map[] && this.weigh == weigh
    {
      this.weigh := weigh;
      checksum := 0;
      blocks := map[];
    }

    method Remove(key: nat)
      requires Valid()
      modifies this
      ensures Valid() && blocks == old(blocks) - {key}
    {
      if key in blocks {
        StateWithout(weigh, blocks, key);
        XorCommutes(checksum, weigh(key, blocks[key]));
        XorCancels(weigh(key, blocks[key]), State(weigh, blocks - {key}));
        checksum := Xor(checksum, weigh(key, blocks[key]));
        blocks := blocks - {key};
      }
      assert blocks == old(blocks) - {key};
    }

    /** Put, replace or remove one block; the checksum stays the fold over all of them. */
    method ReplaceStateBlock(key: nat, value: Option<(U64, U64)>)
      requires Valid()
      modifies this
      ensures Valid()
      ensures blocks == if value.Some? then old(blocks)[key := value.value] else old(blocks) - {key}
    {
      Remove(key);
      if value.Some? {
        ghost var without := blocks;
        XorCommutes(checksum, weigh(key, value.value));
        checksum := Xor(checksum, weigh(key, value.value));
        blocks := blocks[key := value.value];
        assert blocks - {key} == without;
        StateWithout(weigh, blocks, key);
      }
    }
  }

  /** The state checksum of a set of files does not see a compaction that retains
      tombstones, nor one that drops only tombstones that hide nothing. */
  lemma CompactionKeepsState(page: nat, weigh: Weigh, sum: Bytes -> U64,
                             before: seq<Entry>, run: seq<Entry>, after: seq<Entry>, retain: bool)
    requires page > 0
    requires retain || forall p :: p in NewestOf(page, run) ==>
               !Hides(NewestOf(page, before), NewestOf(page, run), NewestOf(page, after), p)
    ensures State(weigh, Visible(sum, NewestOf(page, before + Compacted(page, run, retain) + after)))
            == State(weigh, Visible(sum, NewestOf(page, before + run + after)))
  {
    if retain {
      CompactionKeepsNewest(page, before, run, after);
    } else {
      CompactionKeepsVisible(page, sum, before, run, after);
    }
  }
}
