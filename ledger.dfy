/**
 * Ledger: the `BlockChain` class of blockchain.js.
 *
 * The chain is a sequence of block values. It starts with a genesis block and
 * grows only by `AddBlock`, which links the incoming block to the current tail
 * and re-seals it. `IsChainValid` checks every block after the genesis block:
 * its stored hash must match its recomputed digest and its `previousHash` must
 * match its predecessor's hash. The genesis block's own hash is never checked,
 * and nothing ties a block's `index` to its position.
 */
module Ledger {
  import opened Blocks

  /** Position `i` of `c` passes both checks of `isChainValid`. */
  predicate LinkOk(c: seq<Block>, i: int, h: Hashing)
    requires 1 <= i < |c|
  {
    c[i].IsSealed(h) && c[i].previousHash == c[i - 1].hash
  }

  /** What `isChainValid` decides: every position after the first passes both checks. */
  predicate ChainValid(c: seq<Block>, h: Hashing): (valid: bool)
    ensures |c| <= 1 ==> valid
  {
    forall i :: 1 <= i < |c| ==> LinkOk(c, i, h)
  }

  /** The block `addBlock` pushes: `newBlock` linked to `tail` and re-sealed. */
  function Linked(tail: Block, newBlock: Block, h: Hashing): (b: Block)
    ensures b.index == newBlock.index && b.timestamp == newBlock.timestamp && b.data == newBlock.data
    ensures b.previousHash == tail.hash
    ensures b.IsSealed(h)
  {
    var relinked := newBlock.(previousHash := tail.hash);
    relinked.(hash := relinked.CalculateHash(h))
  }

  /** The chain after `addBlock(newBlock)` on chain `c`. */
  function Append(c: seq<Block>, newBlock: Block, h: Hashing): (r: seq<Block>)
    requires |c| >= 1
    ensures |r| == |c| + 1
    ensures r[..|c|] == c
    ensures r[|c|].index == newBlock.index && r[|c|].timestamp == newBlock.timestamp
    ensures r[|c|].data == newBlock.data
    ensures r[|c|].previousHash == c[|c| - 1].hash
    ensures r[|c|].IsSealed(h)
  {
    c + [Linked(c[|c| - 1], newBlock, h)]
  }

  /** The chain obtained from a first block by adding `blocks` one after another. */
  function Replay(first: Block, blocks: seq<Block>, h: Hashing): (c: seq<Block>)
    ensures |c| == |blocks| + 1
    ensures c[0] == first
    decreases |blocks|
  {
    if blocks == [] then [first]
    else Append(Replay(first, blocks[..|blocks| - 1], h), blocks[|blocks| - 1], h)
  }

  /**
   * `addBlock` preserves validity, whatever block value the caller passes. In the
   * source, where blocks are shared objects, this needs a block object that is not
   * already in the chain and is not mutated after it is pushed.
   */
  lemma AppendPreservesValid(c: seq<Block>, newBlock: Block, h: Hashing)
    requires |c| >= 1 && ChainValid(c, h)
    ensures ChainValid(Append(c, newBlock, h), h)
  {
    var r := Append(c, newBlock, h);
    forall i | 1 <= i < |r|
      ensures LinkOk(r, i, h)
    {
      if i < |c| {
        assert r[i] == c[i] && r[i - 1] == c[i - 1];
        assert LinkOk(c, i, h);
      }
    }
  }

  /** Every chain built from a first block by `addBlock` calls is valid. */
  lemma {:induction false} ReplayValid(first: Block, blocks: seq<Block>, h: Hashing)
    ensures ChainValid(Replay(first, blocks, h), h)
    decreases |blocks|
  {
    if blocks != [] {
      ReplayValid(first, blocks[..|blocks| - 1], h);
      AppendPreservesValid(Replay(first, blocks[..|blocks| - 1], h), blocks[|blocks| - 1], h);
    }
  }

  /** Re-adding a block that is already correctly linked and sealed gives it back unchanged. */
  lemma LinkedFixesValidBlock(tail: Block, b: Block, h: Hashing)
    requires b.previousHash == tail.hash && b.IsSealed(h)
    ensures Linked(tail, b, h) == b
  {
  }

  /**
   * A valid chain is exactly what `addBlock` would build from its first block:
   * replaying its later blocks through `addBlock` reproduces it.
   */
  lemma {:induction false} ValidIsReplay(c: seq<Block>, h: Hashing)
    requires |c| >= 1 && ChainValid(c, h)
    ensures Replay(c[0], c[1..], h) == c
    decreases |c|
  {
    if |c| > 1 {
      var n := |c| - 1;
      var prefix := c[..n];
      PrefixValid(c, n, h);
      ValidIsReplay(prefix, h);
      var blocks := c[1..];
      assert blocks[..|blocks| - 1] == prefix[1..];
      assert blocks[|blocks| - 1] == c[n];
      assert prefix[0] == c[0];
      assert Replay(c[0], blocks, h) == Append(prefix, c[n], h);
      assert LinkOk(c, n, h);
      LinkedFixesValidBlock(prefix[n - 1], c[n], h);
      assert c == prefix + [c[n]];
    }
  }

  /** Every non-empty prefix of a valid chain is valid. */
  lemma PrefixValid(c: seq<Block>, n: int, h: Hashing)
    requires 1 <= n <= |c| && ChainValid(c, h)
    ensures ChainValid(c[..n], h)
  {
    var prefix := c[..n];
    forall i | 1 <= i < |prefix|
      ensures LinkOk(prefix, i, h)
    {
      assert LinkOk(c, i, h);
    }
  }

  /** Validity in both directions: a chain is valid iff `addBlock` calls from its first block produce it. */
  lemma ValidIffReplay(c: seq<Block>, h: Hashing)
    requires |c| >= 1
    ensures ChainValid(c, h) <==> Replay(c[0], c[1..], h) == c
  {
    if ChainValid(c, h) {
      ValidIsReplay(c, h);
    } else if Replay(c[0], c[1..], h) == c {
      ReplayValid(c[0], c[1..], h);
    }
  }

  /** Overwriting the stored hash of a non-genesis block of a valid chain is detected. */
  lemma TamperedHashDetected(c: seq<Block>, i: int, forged: string, h: Hashing)
    requires ChainValid(c, h) && 1 <= i < |c|
    requires forged != c[i].hash
    ensures !ChainValid(c[i := c[i].(hash := forged)], h)
  {
    var t := c[i := c[i].(hash := forged)];
    assert LinkOk(c, i, h);
    CalculateHashIgnoresHash(c[i], h, forged);
    assert !LinkOk(t, i, h);
  }

  /**
   * Changing the data of a non-genesis block of a valid chain is detected,
   * unless the new data happens to give the same digest.
   */
  lemma TamperedDataDetected(c: seq<Block>, i: int, d: Json, h: Hashing)
    requires ChainValid(c, h) && 1 <= i < |c|
    ensures (!ChainValid(c[i := c[i].(data := d)], h)) <==> (c[i].(data := d).CalculateHash(h) != c[i].hash)
  {
    var t := c[i := c[i].(data := d)];
    assert LinkOk(c, i, h);
    if c[i].(data := d).CalculateHash(h) == c[i].hash {
      forall j | 1 <= j < |t|
        ensures LinkOk(t, j, h)
      {
        assert LinkOk(c, j, h);
      }
    } else {
      assert !LinkOk(t, i, h);
    }
  }

  /** Rewriting a block's link breaks a valid chain. */
  lemma BrokenLinkDetected(c: seq<Block>, i: int, forged: string, h: Hashing)
    requires ChainValid(c, h) && 1 <= i < |c|
    requires forged != c[i - 1].hash
    ensures !ChainValid(c[i := c[i].(previousHash := forged)], h)
  {
    var t := c[i := c[i].(previousHash := forged)];
    assert !LinkOk(t, i, h);
  }

  /**
   * The genesis block's own hash is never checked: its index, timestamp, data and
   * previous hash can be replaced at will, as long as its stored hash stays.
   */
  lemma GenesisContentUnchecked(c: seq<Block>, g: Block, h: Hashing)
    requires |c| >= 1 && ChainValid(c, h)
    requires g.hash == c[0].hash
    ensures ChainValid(c[0 := g], h)
  {
    var t := c[0 := g];
    forall j | 1 <= j < |t|
      ensures LinkOk(t, j, h)
    {
      assert LinkOk(c, j, h);
    }
  }

  /** The chain object. `hashing` stands for the SHA-256 and JSON.stringify the source calls. */
  class BlockChain {
    const hashing: Hashing
    var chain: seq<Block>

    /** The chain always holds at least the genesis block. */
    predicate NonEmpty()
      reads this
    {
      |chain| >= 1
    }

    /** The genesis block: index 0, data "Genesis Block", previous hash "0", sealed. */
    function CreateGenesisBlock(timestamp: string): (g: Block)
      ensures g.index == 0 && g.timestamp == timestamp
      ensures g.data == JString("Genesis Block") && g.previousHash == "0"
      ensures g.IsSealed(hashing)
    {
      NewBlock(0, timestamp, JString("Genesis Block"), hashing, "0")
    }

    /** A new chain holding only a genesis block stamped with `genesisTimestamp`. */
    constructor (hashing: Hashing, genesisTimestamp: string)
      ensures this.hashing == hashing
      ensures chain == [CreateGenesisBlock(genesisTimestamp)]
      ensures NonEmpty() && ChainValid(chain, hashing)
    {
      this.hashing := hashing;
      new;
      chain := [CreateGenesisBlock(genesisTimestamp)];
    }

    /** The last block of the chain. */
    function GetLatestBlock(): (b: Block)
      reads this
      requires NonEmpty()
      ensures b == chain[|chain| - 1]
    {
      chain[|chain| - 1]
    }

    /**
     * Links `newBlock` to the current tail, re-seals it and pushes it. Earlier
     * blocks stay as they were; the caller's index, timestamp and data are kept.
     * The chain here holds values; in the source, re-adding an object that is
     * already in the chain relinks it in place and can break validity.
     */
    method AddBlock(newBlock: Block)
      requires NonEmpty()
      modifies this
      ensures NonEmpty()
      ensures chain == Append(old(chain), newBlock, hashing)
      ensures |chain| == |old(chain)| + 1 && chain[..|old(chain)|] == old(chain)
      ensures GetLatestBlock().index == newBlock.index
      ensures GetLatestBlock().timestamp == newBlock.timestamp
      ensures GetLatestBlock().data == newBlock.data
      ensures GetLatestBlock().previousHash == old(GetLatestBlock()).hash
      ensures GetLatestBlock().IsSealed(hashing)
      ensures old(ChainValid(chain, hashing)) ==> ChainValid(chain, hashing)
    {
      var block := newBlock.(previousHash := GetLatestBlock().hash);
      block := block.(hash := block.CalculateHash(hashing));
      if ChainValid(chain, hashing) {
        AppendPreservesValid(chain, newBlock, hashing);
      }
      chain := chain + [block];
    }

    /** Walks positions 1 .. |chain| - 1 and stops with false at the first failed check. */
    method IsChainValid() returns (valid: bool)
      ensures valid == ChainValid(chain, hashing)
    {
      var i := 1;
      while i < |chain|
        invariant 1 <= i
        invariant forall j :: 1 <= j < i && j < |chain| ==> LinkOk(chain, j, hashing)
      {
        var currentBlock := chain[i];
        var previousBlock := chain[i - 1];
        if currentBlock.hash != currentBlock.CalculateHash(hashing) {
          assert !LinkOk(chain, i, hashing);
          return false;
        }
        if currentBlock.previousHash != previousBlock.hash {
          assert !LinkOk(chain, i, hashing);
          return false;
        }
        i := i + 1;
      }
      return true;
    }
  }
}
