/** The free-block bitmap: one bit per disk block, eight to a byte, BSIZE bytes to a bitmap block. */
module Bitmap {
  import opened Blocks

  const BPB := 8 * BSIZE

  /** 1 << k. */
  function Mask(k: nat): (m: nat)
    ensures m > 0
  {
    if k == 0 then 1 else 2 * Mask(k - 1)
  }

  /** (x & (1 << k)) != 0. */
  predicate Bit(x: nat, k: nat) {
    if k == 0 then x % 2 == 1 else Bit(x / 2, k - 1)
  }

  /** Adding a mask to a number with that bit clear is `|=`. */
  lemma {:induction false} BitSet(x: nat, k: nat, j: nat)
    requires !Bit(x, k)
    ensures Bit(x + Mask(k), j) == (j == k || Bit(x, j))
  {
    if k > 0 {
      assert (x + Mask(k)) / 2 == x / 2 + Mask(k - 1);
      if j > 0 {
        BitSet(x / 2, k - 1, j - 1);
      }
    } else if j > 0 {
      assert (x + 1) / 2 == x / 2;
    }
  }

  /** Subtracting a mask from a number with that bit set is `&= ~`. */
  lemma {:induction false} BitClear(x: nat, k: nat, j: nat)
    requires Bit(x, k)
    ensures x >= Mask(k)
    ensures Bit(x - Mask(k), j) == (j != k && Bit(x, j))
  {
    if k > 0 {
      BitClear(x / 2, k - 1, if j > 0 then j - 1 else 0);
      assert (x - Mask(k)) / 2 == x / 2 - Mask(k - 1);
    } else if j > 0 {
      assert (x - 1) / 2 == x / 2;
    }
  }

  lemma {:induction false} BitRoom(x: nat, k: nat, n: nat)
    requires !Bit(x, k) && k < n && x < Mask(n)
    ensures x + Mask(k) < Mask(n)
  {
    assert Mask(n) == 2 * Mask(n - 1);
    if k > 0 {
      BitRoom(x / 2, k - 1, n - 1);
      assert Mask(k) == 2 * Mask(k - 1);
    } else {
      assert x % 2 == 0;
    }
  }

  lemma ByteRoom(x: Byte, k: nat)
    requires k < 8 && !Bit(x, k)
    ensures x + Mask(k) < 0x100
  {
    assert Mask(8) == 256 by {
      assert Mask(4) == 2 * Mask(3) == 16;
      assert Mask(6) == 2 * Mask(5) == 64;
    }
    BitRoom(x, k, 8);
  }

  // ---------------------------------------------------------------- one bitmap block

  predicate InUse(blk: Block, bi: nat)
    requires bi < BPB
  {
    Bit(blk[bi / 8], bi % 8)
  }

  function Mark(blk: Block, bi: nat): (r: Block)
    requires bi < BPB && !InUse(blk, bi)
  {
    ByteRoom(blk[bi / 8], bi % 8);
    blk[bi / 8 := blk[bi / 8] + Mask(bi % 8)]
  }

  function Unmark(blk: Block, bi: nat): (r: Block)
    requires bi < BPB && InUse(blk, bi)
  {
    BitClear(blk[bi / 8], bi % 8, 0);
    blk[bi / 8 := blk[bi / 8] - Mask(bi % 8)]
  }

  lemma MarkUse(blk: Block, bi: nat, x: nat)
    requires bi < BPB && x < BPB && !InUse(blk, bi)
    ensures InUse(Mark(blk, bi), x) == (x == bi || InUse(blk, x))
  {
    hide Bit, Mask;
    if x / 8 == bi / 8 {
      BitSet(blk[bi / 8], bi % 8, x % 8);
    }
  }

  lemma UnmarkUse(blk: Block, bi: nat, x: nat)
    requires bi < BPB && x < BPB && InUse(blk, bi)
    ensures InUse(Unmark(blk, bi), x) == (x != bi && InUse(blk, x))
  {
    hide Bit, Mask;
    if x / 8 == bi / 8 {
      BitClear(blk[bi / 8], bi % 8, x % 8);
    }
  }

  // ---------------------------------------------------------------- the whole bitmap

  /** Where things are on a disk of `size` blocks.  Blocks below nmeta (boot block, superblock,
      log, inodes, bitmap) never belong to a file. */
  datatype Layout = Layout(size: nat, inodeStart: nat, ninodes: nat, bmapStart: nat, nmeta: nat) {
    ghost predicate Valid() {
      && size < 0x8000_0000
      && 0 < inodeStart
      && inodeStart + ninodes / 16 < bmapStart
      && bmapStart + size / BPB < nmeta <= size
    }

    /** BBLOCK: the bitmap block holding the bit of block b. */
    function BBlock(b: nat): nat {
      bmapStart + b / BPB
    }

    ghost predicate IsBitmap(b: nat) {
      exists x: nat :: x < size && b == BBlock(x)
    }

    /** IBLOCK: the block holding inode i. */
    function IBlock(i: nat): nat {
      inodeStart + i / 16
    }
  }

  /** The inode blocks have a place for every inode, and no two inodes have the same. */
  lemma InodePlaces(l: Layout, i: nat, j: nat)
    requires l.Valid() && i < l.ninodes && j < l.ninodes
    ensures l.inodeStart <= l.IBlock(i) < l.bmapStart
    ensures l.IBlock(i) == l.IBlock(j) && i % 16 == j % 16 ==> i == j
  {
  }

  predicate Used(l: Layout, blocks: seq<Block>, b: nat)
    requires l.BBlock(b) < |blocks|
  {
    InUse(blocks[l.BBlock(b)], b % BPB)
  }

  ghost predicate OnDisk(l: Layout, blocks: seq<Block>) {
    l.Valid() && |blocks| == l.size
  }

  lemma BBlockBound(l: Layout, b: nat)
    requires l.Valid() && b < l.size
    ensures l.bmapStart <= l.BBlock(b) < l.nmeta
  {
  }

  /** The set bits are exactly those of the metadata blocks and of the blocks in used. */
  ghost predicate Marked(l: Layout, blocks: seq<Block>, used: set<nat>)
    requires OnDisk(l, blocks)
  {
    && (forall b :: b in used ==> l.nmeta <= b < l.size)
    && forall b: nat | b < l.size :: MarkedAt(l, blocks, used, b)
  }

  ghost predicate MarkedAt(l: Layout, blocks: seq<Block>, used: set<nat>, b: nat)
    requires OnDisk(l, blocks) && b < l.size
  {
    BBlockBound(l, b);
    Used(l, blocks, b) <==> b < l.nmeta || b in used
  }

  /** A write outside the bitmap leaves the bits alone. */
  lemma MarkedKept(l: Layout, blocks: seq<Block>, used: set<nat>, b: nat, data: Block)
    requires OnDisk(l, blocks) && Marked(l, blocks, used) && l.nmeta <= b < l.size
    ensures Marked(l, blocks[b := data], used)
  {
    hide InUse;
    var blocks' := blocks[b := data];
    forall x: nat | x < l.size ensures MarkedAt(l, blocks', used, x) {
      assert MarkedAt(l, blocks, used, x);
      BBlockBound(l, x);
    }
  }

  lemma MarkBlock(l: Layout, blocks: seq<Block>, used: set<nat>, b: nat)
    requires OnDisk(l, blocks) && Marked(l, blocks, used) && l.nmeta <= b < l.size && b !in used
    ensures l.BBlock(b) < l.size && !Used(l, blocks, b)
    ensures Marked(l, blocks[l.BBlock(b) := Mark(blocks[l.BBlock(b)], b % BPB)], used + {b})
  {
    hide InUse, Mark;
    BBlockBound(l, b);
    assert MarkedAt(l, blocks, used, b);
    var blocks' := blocks[l.BBlock(b) := Mark(blocks[l.BBlock(b)], b % BPB)];
    forall x: nat | x < l.size ensures MarkedAt(l, blocks', used + {b}, x) {
      assert MarkedAt(l, blocks, used, x);
      BBlockBound(l, x);
      if l.BBlock(x) == l.BBlock(b) {
        MarkUse(blocks[l.BBlock(b)], b % BPB, x % BPB);
      }
    }
  }

  lemma UnmarkBlock(l: Layout, blocks: seq<Block>, used: set<nat>, b: nat)
    requires OnDisk(l, blocks) && Marked(l, blocks, used) && b in used
    ensures l.BBlock(b) < l.size && Used(l, blocks, b)
    ensures Marked(l, blocks[l.BBlock(b) := Unmark(blocks[l.BBlock(b)], b % BPB)], used - {b})
  {
    hide InUse, Unmark;
    BBlockBound(l, b);
    assert MarkedAt(l, blocks, used, b);
    var blocks' := blocks[l.BBlock(b) := Unmark(blocks[l.BBlock(b)], b % BPB)];
    forall x: nat | x < l.size ensures MarkedAt(l, blocks', used - {b}, x) {
      assert MarkedAt(l, blocks, used, x);
      BBlockBound(l, x);
      if l.BBlock(x) == l.BBlock(b) {
        UnmarkUse(blocks[l.BBlock(b)], b % BPB, x % BPB);
      }
    }
  }
}
