/** The ledger as the program keeps it: blocks are objects whose hash field is
    overwritten in place, and the chain holds a growing sequence of block
    references. Every method is proved against the definitions of ChainSpec. */
module Ledger {
  import opened ChainSpec

  class Block {
    var pos: int
    var data: Checkout
    var timeStamp: string
    var hash: string
    var prevHash: string

    /** The block's current fields as a value. */
    function Value(): BlockValue
      reads this
    {
      BlockValue(pos, data, timeStamp, hash, prevHash)
    }

    /** A block literal with the given fields. */
    constructor (pos: int, data: Checkout, timeStamp: string, hash: string, prevHash: string)
      ensures Value() == BlockValue(pos, data, timeStamp, hash, prevHash)
    {
      this.pos := pos;
      this.data := data;
      this.timeStamp := timeStamp;
      this.hash := hash;
      this.prevHash := prevHash;
    }

    /** Overwrites the hash field with the digest of the other fields. */
    method GenerateHash(digest: Hasher)
      modifies this
      ensures Value() == Rehash(digest, old(Value()))
    {
      hash := digest(pos, timeStamp, data, prevHash);
    }

    /** Regenerates the hash field, then compares it with `h`. The block is
        sealed afterwards whatever the answer. */
    method ValidateHash(digest: Hasher, h: string) returns (ok: bool)
      modifies this
      ensures Value() == Rehash(digest, old(Value()))
      ensures ok <==> DigestOf(digest, old(Value())) == h
    {
      GenerateHash(digest);
      ok := hash == h;
    }
  }

  /** Builds the block that follows `prev`, stamped with `timeStamp`. */
  method CreateBlock(digest: Hasher, prev: Block, data: Checkout, timeStamp: string) returns (b: Block)
    ensures fresh(b)
    ensures b.Value() == Create(digest, prev.Value(), data, timeStamp)
  {
    b := new Block(prev.pos + 1, data, timeStamp, "", prev.hash);
    b.GenerateHash(digest);
  }

  /** The three-part validity check. The hash check re-derives the
      candidate's hash in place, so the candidate is left sealed whenever the
      linkage check passed; `b` and `prev` may be the same block. */
  method ValidBlock(digest: Hasher, b: Block, prev: Block) returns (ok: bool)
    modifies b
    ensures ok <==> Check(digest, old(b.Value()), old(prev.Value())) == Accepted
    ensures b.Value() == if old(b.prevHash) == old(prev.hash) then Rehash(digest, old(b.Value())) else old(b.Value())
  {
    if b.prevHash != prev.hash {
      return false;
    }
    var same := b.ValidateHash(digest, b.hash);
    if !same {
      return false;
    }
    if prev.pos + 1 != b.pos {
      return false;
    }
    return true;
  }

  /** The first block of every chain, built on a zero-valued block. */
  method GenesisBlock(digest: Hasher, timeStamp: string) returns (g: Block)
    ensures fresh(g)
    ensures g.Value() == Genesis(digest, timeStamp)
  {
    var zero := new Block(0, EmptyCheckout, "", "", "");
    g := CreateBlock(digest, zero, GenesisData, timeStamp);
  }

  /** The values of a sequence of blocks, in order. */
  function ValuesOf(bs: seq<Block>): (vs: seq<BlockValue>)
    reads bs
    ensures |vs| == |bs|
  {
    if bs == [] then [] else ValuesOf(bs[..|bs| - 1]) + [bs[|bs| - 1].Value()]
  }

  lemma ValuesOfSnoc(bs: seq<Block>, b: Block)
    ensures ValuesOf(bs + [b]) == ValuesOf(bs) + [b.Value()]
  {
    assert (bs + [b])[..|bs|] == bs;
  }

  class BlockChain {
    var blocks: seq<Block>
    /** The digest every block of this chain is sealed with. */
    const digest: Hasher

    /** The chain's blocks as values. */
    function Contents(): seq<BlockValue>
      reads this, blocks
    {
      ValuesOf(blocks)
    }

    ghost predicate Valid()
      reads this, blocks
    {
      ValidChain(digest, Contents())
    }

    /** A new chain holding only the genesis block, stamped with `timeStamp`. */
    constructor (digest: Hasher, timeStamp: string)
      ensures this.digest == digest
      ensures Valid()
      ensures Contents() == [Genesis(digest, timeStamp)]
    {
      var g := GenesisBlock(digest, timeStamp);
      this.digest := digest;
      blocks := [g];
      new;
      GenesisChainValid(digest, timeStamp);
    }

    /** Creates a block for `data` on the current tail and appends it if it
        passes the validity check; a rejected block is dropped silently. */
    method AddBlock(data: Checkout, timeStamp: string)
      requires Valid()
      modifies this
      ensures Valid()
      ensures Contents() == Append(digest, old(Contents()), data, timeStamp)
      ensures Contents() == old(Contents()) + [Create(digest, old(Contents())[|old(Contents())| - 1], data, timeStamp)]
      ensures |blocks| == |old(blocks)| + 1 && blocks[..|old(blocks)|] == old(blocks)
    {
      ghost var before := Contents();
      var prevBlock := blocks[|blocks| - 1];
      var block := CreateBlock(digest, prevBlock, data, timeStamp);
      assert block !in blocks;
      ghost var candidate := block.Value();
      assert candidate == Create(digest, before[|before| - 1], data, timeStamp);
      CreatedBlockAccepted(digest, before[|before| - 1], data, timeStamp);
      var ok := ValidBlock(digest, block, prevBlock);
      assert ok && block.Value() == candidate;
      assert ValuesOf(blocks) == before;
      if ok {
        ValuesOfSnoc(blocks, block);
        blocks := blocks + [block];
        assert Contents() == before + [candidate];
      }
      AppendAlwaysGrows(digest, before, data, timeStamp);
      AppendPreservesValid(digest, before, data, timeStamp);
    }
  }
}
