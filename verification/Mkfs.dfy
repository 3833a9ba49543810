/** The image builder: blocks are handed out in order, and the bitmap is written last. */
module Mkfs {
  import opened Blocks
  import opened Bitmap
  import opened FsSpec

  /** Every block from lo to hi is zero. */
  ghost predicate Zeroed(blocks: seq<Block>, lo: nat, hi: nat) {
    hi <= |blocks| && forall b :: lo <= b < hi ==> blocks[b] == ZeroBlock()
  }

  /** Exactly the blocks from nmeta to freeblock are owned; the rest and the bitmap are still zero. */
  ghost predicate Building(l: Layout, blocks: seq<Block>, inodes: seq<Inode>, owner: map<nat, Slot>, freeblock: nat) {
    && Owns(l, blocks, inodes, owner)
    && l.nmeta <= freeblock <= l.size
    && (forall b :: b in owner <==> l.nmeta <= b < freeblock)
    && Zeroed(blocks, freeblock, l.size) && Zeroed(blocks, l.bmapStart, l.nmeta)
  }

  /** The number of file i's indirect block, 0 if it has none. */
  ghost function IndBlock(blocks: seq<Block>, inodes: seq<Inode>, i: nat): (a: nat) {
    Addr(blocks, inodes, Slot(i, NDIRECT))
  }

  /** No file has a hole below its size or a block beyond it. */
  ghost predicate Exact(blocks: seq<Block>, inodes: seq<Inode>, i: nat, len: nat) {
    && Solid(blocks, inodes, i, len)
    && (forall bn: nat :: len <= bn * BSIZE ==> FileBlock(blocks, inodes, i, bn) == 0)
    && (IndBlock(blocks, inodes, i) != 0 <==> NDIRECT * BSIZE < len)
  }

  /** How many blocks file i has to be given before file block fbn can be written. */
  ghost function Lacks(blocks: seq<Block>, inodes: seq<Inode>, i: nat, fbn: nat): (n: nat) {
    if FileBlock(blocks, inodes, i, fbn) != 0 then 0
    else if fbn >= NDIRECT && IndBlock(blocks, inodes, i) == 0 then 2
    else 1
  }

  /** How many blocks a file of len bytes takes up: its data, and an indirect block if it needs one. */
  function BlocksFor(len: nat): (n: nat) {
    (len + BSIZE - 1) / BSIZE + if NDIRECT * BSIZE < len then 1 else 0
  }

  lemma BlocksForMore(a: nat, b: nat)
    requires a <= b
    ensures BlocksFor(a) <= BlocksFor(b)
  {
    assert (a + BSIZE - 1) / BSIZE <= (b + BSIZE - 1) / BSIZE;
  }

  /** The blocks one chunk lacks are the ones the longer file takes up and the shorter one did not. */
  lemma ChunkLacks(blocks: seq<Block>, inodes: seq<Inode>, i: nat, at: nat, n: nat)
    requires Exact(blocks, inodes, i, at) && 0 < n && at % BSIZE + n <= BSIZE
    ensures Lacks(blocks, inodes, i, at / BSIZE) == BlocksFor(at + n) - BlocksFor(at)
  {
    hide Addr;
    var bn, r := at / BSIZE, at % BSIZE;
    assert at == bn * BSIZE + r;
    assert (at + n + BSIZE - 1) / BSIZE == bn + 1;
    if r == 0 {
      assert at <= bn * BSIZE;
      assert (at + BSIZE - 1) / BSIZE == bn;
    } else {
      assert bn * BSIZE < at;
      assert (at + BSIZE - 1) / BSIZE == bn + 1;
    }
  }

  /** Boot block, superblock, log, inodes, bitmap, data. */
  function LayoutOf(size: nat, ninodes: nat, nlog: nat): Layout {
    var bmapStart := 2 + nlog + (ninodes / 16 + 1);
    Layout(size, 2 + nlog, ninodes, bmapStart, bmapStart + (size / BPB + 1))
  }

  /** The regions follow one another and hold what they are for, on every disk big enough for them. */
  lemma LayoutFits(size: nat, ninodes: nat, nlog: nat)
    requires LayoutOf(size, ninodes, nlog).nmeta <= size < 0x8000_0000
    ensures LayoutOf(size, ninodes, nlog).Valid()
  {
  }

  class Image {
    const l: Layout
    var blocks: seq<Block>
    var inodes: seq<Inode>
    var freeblock: nat
    ghost var owner: map<nat, Slot>

    ghost predicate Built()
      reads this
    {
      Building(l, blocks, inodes, owner, freeblock)
    }

    ghost predicate Valid()
      reads this
    {
      Built() && forall i :: 0 <= i < |inodes| ==> Exact(blocks, inodes, i, inodes[i].size)
    }

    ghost function File(i: nat): (c: seq<Byte>)
      requires i < |inodes|
      reads this
    {
      Contents(blocks, inodes, i, inodes[i].size)
    }

    /** A zeroed disk with empty inodes. */
    constructor (l: Layout)
      requires l.Valid()
      ensures Valid() && this.l == l && freeblock == l.nmeta && |inodes| == l.ninodes
      ensures forall i :: 0 <= i < |inodes| ==> inodes[i].size == 0
    {
      this.l, this.freeblock, this.owner := l, l.nmeta, map[];
      this.blocks := seq(l.size, _ => ZeroBlock());
      this.inodes := seq(l.ninodes, _ => Inode(seq(NDIRECT + 1, _ => 0), 0));
    }

    /** The next block, stored in addrs[pos]; fails when the image is full. */
    method TakeDirect(i: nat, pos: nat) returns (ok: bool)
      requires Built() && i < |inodes| && pos <= NDIRECT && inodes[i].addrs[pos] == 0
      modifies this`inodes, this`freeblock, this`owner
      ensures ok <==> old(freeblock) < l.size
      ensures ok ==> freeblock == old(freeblock) + 1
      ensures ok ==>
        && Built() && old(freeblock) != 0
        && Linked(blocks, old(inodes), blocks, inodes, Slot(i, pos), old(freeblock))
        && Grown(blocks, old(inodes), old(owner), blocks, inodes, owner)
        && inodes == SetAddr(old(inodes), i, pos, old(freeblock))
    {
      hide Addr, Grown, Zeroed;
      if freeblock >= l.size {
        return false;
      }
      TookDirect(l, blocks, inodes, owner, freeblock, Slot(i, pos));
      inodes := SetAddr(inodes, i, pos, freeblock);
      owner := owner[freeblock := Slot(i, pos)];
      freeblock := freeblock + 1;
      ok := true;
    }

    /** The next block, stored in word j of the indirect block. */
    method TakeIndirect(i: nat, j: nat) returns (ok: bool)
      requires Built() && i < |inodes| && j < NINDIRECT && Indirect(inodes, i) != 0
      requires Addr(blocks, inodes, Slot(i, NDIRECT + 1 + j)) == 0
      modifies this`blocks, this`freeblock, this`owner
      ensures ok <==> old(freeblock) < l.size
      ensures ok ==> freeblock == old(freeblock) + 1
      ensures ok ==>
        && Built() && old(freeblock) != 0
        && Linked(old(blocks), inodes, blocks, inodes, Slot(i, NDIRECT + 1 + j), old(freeblock))
        && Grown(old(blocks), inodes, old(owner), blocks, inodes, owner)
    {
      hide Addr, Grown, Zeroed, PutWord;
      if freeblock >= l.size {
        return false;
      }
      TookIndirect(l, blocks, inodes, owner, freeblock, i, j);
      var ind := inodes[i].addrs[NDIRECT];
      blocks := blocks[ind := PutWord(blocks[ind], j, freeblock)];
      owner := owner[freeblock := Slot(i, NDIRECT + 1 + j)];
      freeblock := freeblock + 1;
      ok := true;
    }

    /** iappend's block map: the block of file block fbn, taken from freeblock if there is none.  It
        fails exactly when the blocks that are lacking do not fit in the image. */
    method MapBlock(i: nat, fbn: nat) returns (ok: bool, x: nat)
      requires Built() && i < |inodes| && fbn < MAXFILE
      modifies this`blocks, this`inodes, this`freeblock, this`owner
      ensures ok <==> old(freeblock + Lacks(blocks, inodes, i, fbn)) <= l.size
      ensures ok ==> freeblock == old(freeblock + Lacks(blocks, inodes, i, fbn))
      ensures ok ==>
        && Built() && x in owner && FileBlock(blocks, inodes, i, fbn) == x
        && Grown(old(blocks), old(inodes), old(owner), blocks, inodes, owner)
        && OnlyMapped(old(blocks), old(inodes), blocks, inodes, i, fbn)
    {
      hide Addr, Building, OnlyMapped, Linked, Grown, PutWord, GetWord;
      BuildingFacts(l, blocks, inodes, owner, freeblock, i, fbn);
      if fbn < NDIRECT {
        NothingMapped(blocks, inodes, i, fbn);
        if inodes[i].addrs[fbn] == 0 {
          ok := TakeDirect(i, fbn);
          if !ok {
            return false, 0;
          }
          LinkMaps(old(blocks), old(inodes), blocks, inodes, i, fbn, old(freeblock));
          BuildingFacts(l, blocks, inodes, owner, freeblock, i, fbn);
        }
        return true, inodes[i].addrs[fbn];
      }
      if inodes[i].addrs[NDIRECT] == 0 {
        ok := TakeDirect(i, NDIRECT);
        if !ok {
          return false, 0;
        }
        LinkIndMaps(blocks, old(inodes), blocks, inodes, i, fbn, old(freeblock));
      } else {
        NothingMapped(blocks, inodes, i, fbn);
      }
      label L:
      BuildingFacts(l, blocks, inodes, owner, freeblock, i, fbn);
      var w := GetWord(blocks[inodes[i].addrs[NDIRECT]], fbn - NDIRECT);
      if w == 0 {
        ok := TakeIndirect(i, fbn - NDIRECT);
        if !ok {
          return false, 0;
        }
        LinkMaps(old@L(blocks), inodes, blocks, inodes, i, fbn, old@L(freeblock));
        MappedTwice(old(blocks), old(inodes), old@L(blocks), inodes, blocks, i, fbn);
        GrownTwice(old(blocks), old(inodes), old(owner), old@L(blocks), old@L(inodes), old@L(owner), blocks,
                   inodes, owner);
        BuildingFacts(l, blocks, inodes, owner, freeblock, i, fbn);
      }
      return true, GetWord(blocks[inodes[i].addrs[NDIRECT]], fbn - NDIRECT);
    }

    ghost predicate Others(i: nat)
      reads this
    {
      forall y :: 0 <= y < |inodes| && y != i ==> Exact(blocks, inodes, y, inodes[y].size)
    }

    twostate predicate OthersKept(i: nat)
      reads this
    {
      && |inodes| == |old(inodes)|
      && forall y :: 0 <= y < |inodes| && y != i ==> inodes[y].size == old(inodes)[y].size && File(y) == old(File(y))
    }

    /** One round of iappend; fails exactly on a file too long or an image too small. */
    method AppendChunk(i: nat, at: nat, d: seq<Byte>) returns (ok: bool)
      requires Built() && i < |inodes| && Exact(blocks, inodes, i, at) && Others(i)
      requires 0 < |d| && at % BSIZE + |d| <= BSIZE
      modifies this`blocks, this`inodes, this`freeblock, this`owner
      ensures ok <==>
        at / BSIZE < MAXFILE && old(freeblock) + BlocksFor(at + |d|) - BlocksFor(at) <= l.size
      ensures ok ==> freeblock == old(freeblock) + BlocksFor(at + |d|) - BlocksFor(at)
      ensures ok ==>
        && Built() && Others(i) && OthersKept(i) && inodes[i].size == old(inodes[i].size)
        && Exact(blocks, inodes, i, at + |d|)
        && Contents(blocks, inodes, i, at + |d|) == old(Contents(blocks, inodes, i, at)) + d
    {
      hide Addr, Zeroed, Owns, Exact, Solid, Contents, OnlyMapped, Grown, Lacks, BlocksFor;
      ChunkLacks(blocks, inodes, i, at, |d|);
      if at / BSIZE >= MAXFILE {
        return false;
      }
      var x;
      ok, x := MapBlock(i, at / BSIZE);
      if !ok {
        return;
      }
      label L:
      ghost var fbn := at / BSIZE;
      GrownSizes(old(blocks), old(inodes), old(owner), blocks, inodes, owner);
      MappedFile(l, old(blocks), old(inodes), old(owner), blocks, inodes, owner, i, fbn, i, at);
      AppendedFile(l, blocks, inodes, owner, i, at, d);
      OwnedFileBlock(l, blocks, inodes, owner, i, fbn);
      PatchedBuilding(l, blocks, inodes, owner, freeblock, x, Patch(blocks[x], at % BSIZE, d));
      blocks := blocks[x := Patch(blocks[x], at % BSIZE, d)];
      forall y | 0 <= y < |inodes| && y != i
        ensures Exact(blocks, inodes, y, inodes[y].size) && File(y) == old(File(y))
      {
        MappedFile(l, old(blocks), old(inodes), old(owner), old@L(blocks), inodes, owner, i, fbn, y, inodes[y].size);
        AppendedElsewhere(l, old@L(blocks), inodes, owner, i, at, d, y, inodes[y].size);
      }
    }

    /** iappend: file i gains exactly d at its end; every other file is as it was.  It fails exactly
        when the file would be too long, or would take more blocks than the image has left. */
    method Iappend(i: nat, d: seq<Byte>) returns (ok: bool)
      requires Valid() && i < |inodes|
      modifies this`blocks, this`inodes, this`freeblock, this`owner
      ensures ok <==>
        && old(inodes[i].size) + |d| <= MAXFILE * BSIZE
        && old(freeblock) + BlocksFor(old(inodes[i].size) + |d|) - BlocksFor(old(inodes[i].size)) <= l.size
      ensures ok ==>
        && |inodes| == old(|inodes|) && inodes[i].size == old(inodes[i].size) + |d|
        && freeblock == old(freeblock) + BlocksFor(inodes[i].size) - BlocksFor(old(inodes[i].size))
      ensures ok ==> Valid() && OthersKept(i) && File(i) == old(File(i)) + d
    {
      hide Building, Exact, Contents, BlocksFor;
      var off := inodes[i].size;
      ghost var c := File(i);
      var done := 0;
      assert d[..0] == [];
      while done < |d|
        invariant 0 <= done <= |d| && i < |inodes|
        invariant off == inodes[i].size + done && inodes[i].size == old(inodes[i].size)
        invariant freeblock == old(freeblock) + BlocksFor(off) - BlocksFor(old(inodes[i].size))
        invariant Built() && Others(i) && OthersKept(i) && Exact(blocks, inodes, i, off)
        invariant Contents(blocks, inodes, i, off) == c + d[..done]
      {
        var n1 := ChunkSize(off, |d| - done);
        BlocksForMore(off + n1, inodes[i].size + |d|);
        ok := AppendChunk(i, off, d[done..done + n1]);
        if !ok {
          return;
        }
        assert d[..done] + d[done..done + n1] == d[..done + n1];
        off, done := off + n1, done + n1;
      }
      assert d[..done] == d;
      ExactFits(l, blocks, inodes, owner, freeblock, i, off);
      ghost var inodes1 := inodes;
      inodes := inodes[i := inodes[i].(size := off)];
      ResizedBuilding(l, blocks, inodes1, owner, freeblock, i, off);
      ok := true;
    }

    /** The last thing done to the root directory: its size is rounded up to a whole block.  It has no
        hole afterwards exactly when the size was not on a block boundary already. */
    method RoundRoot(i: nat)
      requires Valid() && i < |inodes|
      modifies this`inodes
      ensures Built()
      ensures inodes == old(inodes)[i := old(inodes)[i].(size := (old(inodes[i].size) / BSIZE + 1) * BSIZE)]
      ensures forall y :: 0 <= y < |inodes| && y != i ==> Solid(blocks, inodes, y, inodes[y].size)
      ensures Solid(blocks, inodes, i, inodes[i].size) <==> old(inodes[i].size) % BSIZE != 0
    {
      hide Building, Contents;
      ghost var inodes1 := inodes;
      var off := inodes[i].size;
      inodes := inodes[i := inodes[i].(size := (off / BSIZE + 1) * BSIZE)];
      ResizedBuilding(l, blocks, inodes1, owner, freeblock, i, inodes[i].size);
      Rounded(blocks, inodes, i, off);
    }

    /** mkfs's balloc: the first freeblock bits of the bitmap are set.  If the blocks used fit one
        bitmap block and the files have no holes, the image is sound. */
    method WriteBitmap() returns (ok: bool)
      requires Built()
      modifies this`blocks
      ensures ok <==> freeblock < BPB
      ensures ok ==> Consistent(l, blocks, inodes, owner)
      ensures ok && (forall y :: 0 <= y < |inodes| ==> Solid(old(blocks), inodes, y, inodes[y].size)) ==>
        Sound(l, blocks, inodes, owner)
      ensures forall y, len :: Solid(old(blocks), inodes, y, len) ==>
        Solid(blocks, inodes, y, len) && Contents(blocks, inodes, y, len) == old(Contents(blocks, inodes, y, len))
    {
      hide Addr, InUse, Mark, Solid, Contents;
      if freeblock >= BPB {
        return false;
      }
      var buf := ZeroBlock();
      ZeroBits();
      var b := 0;
      while b < freeblock
        invariant 0 <= b <= freeblock
        invariant forall x: nat | x < BPB :: InUse(buf, x) <==> x < b
      {
        ghost var was := buf;
        buf := Mark(buf, b);
        forall x: nat | x < BPB ensures InUse(buf, x) <==> x < b + 1 {
          MarkUse(was, b, x);
        }
        b := b + 1;
      }
      BitmapWritten(l, blocks, inodes, owner, freeblock, buf);
      blocks := blocks[l.bmapStart := buf];
      ok := true;
    }
  }

  /** Sixty-four directory entries fill the root's first block; rounding its size up then leaves a hole. */
  method FullRoot(entries: seq<seq<Byte>>) returns (image: Image)
    requires |entries| == BSIZE / 16 && forall k :: 0 <= k < |entries| ==> |entries[k]| == 16
    ensures fresh(image) && image.Built() && |image.inodes| == 200 && image.inodes[1].size == 2 * BSIZE
    ensures !Solid(image.blocks, image.inodes, 1, image.inodes[1].size)
  {
    hide Solid, Building, Exact;
    LayoutFits(1000, 200, 30);
    image := new Image(LayoutOf(1000, 200, 30));
    var k := 0;
    while k < |entries|
      invariant 0 <= k <= |entries| && image.Valid() && image.l == LayoutOf(1000, 200, 30)
      invariant |image.inodes| == 200 && image.inodes[1].size == 16 * k
      invariant image.freeblock == image.l.nmeta + BlocksFor(16 * k)
    {
      var ok := image.Iappend(1, entries[k]);
      assert ok;
      k := k + 1;
    }
    image.RoundRoot(1);
  }

  lemma ExactFits(l: Layout, blocks: seq<Block>, inodes: seq<Inode>, owner: map<nat, Slot>, freeblock: nat,
                  i: nat, len: nat)
    requires Building(l, blocks, inodes, owner, freeblock) && Exact(blocks, inodes, i, len)
    ensures len <= MAXFILE * BSIZE && freeblock <= l.size
  {
  }

  /** Mapping one more block of file i changes no file's contents. */
  lemma MappedFile(l: Layout, blocks: seq<Block>, inodes: seq<Inode>, owner: map<nat, Slot>,
                   blocks': seq<Block>, inodes': seq<Inode>, owner': map<nat, Slot>, i: nat, fbn: nat, y: nat, len: nat)
    requires Owns(l, blocks, inodes, owner) && Grown(blocks, inodes, owner, blocks', inodes', owner')
    requires OnlyMapped(blocks, inodes, blocks', inodes', i, fbn) && Exact(blocks, inodes, y, len)
    ensures Solid(blocks', inodes', y, len) && Contents(blocks', inodes', y, len) == Contents(blocks, inodes, y, len)
    ensures y != i ==> Exact(blocks', inodes', y, len)
    ensures forall bn: nat :: len <= bn * BSIZE && bn != fbn ==> FileBlock(blocks', inodes', y, bn) == 0
    ensures y == i && fbn == len / BSIZE ==> (IndBlock(blocks', inodes', i) != 0 <==> NDIRECT <= fbn)
  {
    hide Addr;
    GrownContents(l, blocks, inodes, owner, blocks', inodes', owner', y, len);
  }

  /** The chunk appended at the end of file i. */
  lemma AppendedFile(l: Layout, blocks: seq<Block>, inodes: seq<Inode>, owner: map<nat, Slot>, i: nat, at: nat,
                     d: seq<Byte>)
    requires Owns(l, blocks, inodes, owner) && FileBlock(blocks, inodes, i, at / BSIZE) in owner
    requires 0 < |d| && at % BSIZE + |d| <= BSIZE && at / BSIZE < MAXFILE && Solid(blocks, inodes, i, at)
    requires forall bn: nat :: at <= bn * BSIZE && bn != at / BSIZE ==> FileBlock(blocks, inodes, i, bn) == 0
    requires IndBlock(blocks, inodes, i) != 0 <==> NDIRECT <= at / BSIZE
    ensures var a := FileBlock(blocks, inodes, i, at / BSIZE);
      var blocks' := blocks[a := Patch(blocks[a], at % BSIZE, d)];
      && Exact(blocks', inodes, i, at + |d|)
      && Contents(blocks', inodes, i, at + |d|) == Contents(blocks, inodes, i, at) + d
  {
    hide Addr;
    var a := FileBlock(blocks, inodes, i, at / BSIZE);
    ChunkSpliced(l, blocks, inodes, owner, i, at, at, d);
    OwnedFileBlock(l, blocks, inodes, owner, i, at / BSIZE);
    DataWrite(l, blocks, inodes, owner, a, Patch(blocks[a], at % BSIZE, d));
    var blocks' := blocks[a := Patch(blocks[a], at % BSIZE, d)];
    forall bn: nat | at + |d| <= bn * BSIZE ensures FileBlock(blocks', inodes, i, bn) == 0 {
      assert bn != at / BSIZE;
      assert FileBlock(blocks, inodes, i, bn) == 0;
    }
    assert Splice(Contents(blocks, inodes, i, at), at, d) == Contents(blocks, inodes, i, at) + d;
  }

  lemma AppendedElsewhere(l: Layout, blocks: seq<Block>, inodes: seq<Inode>, owner: map<nat, Slot>,
                          i: nat, at: nat, d: seq<Byte>, y: nat, len: nat)
    requires Owns(l, blocks, inodes, owner) && FileBlock(blocks, inodes, i, at / BSIZE) in owner
    requires at % BSIZE + |d| <= BSIZE && y != i && Exact(blocks, inodes, y, len)
    ensures var a := FileBlock(blocks, inodes, i, at / BSIZE);
      var blocks' := blocks[a := Patch(blocks[a], at % BSIZE, d)];
      Exact(blocks', inodes, y, len) && Contents(blocks', inodes, y, len) == Contents(blocks, inodes, y, len)
  {
    hide Addr;
    var a := FileBlock(blocks, inodes, i, at / BSIZE);
    ChunkElsewhere(l, blocks, inodes, owner, i, at, d, y, len);
    OwnedFileBlock(l, blocks, inodes, owner, i, at / BSIZE);
    DataWrite(l, blocks, inodes, owner, a, Patch(blocks[a], at % BSIZE, d));
    var blocks' := blocks[a := Patch(blocks[a], at % BSIZE, d)];
    forall bn: nat | len <= bn * BSIZE ensures FileBlock(blocks', inodes, y, bn) == 0 {
      assert FileBlock(blocks, inodes, y, bn) == 0;
    }
  }

  lemma PatchedBuilding(l: Layout, blocks: seq<Block>, inodes: seq<Inode>, owner: map<nat, Slot>, freeblock: nat,
                        a: nat, data: Block)
    requires Building(l, blocks, inodes, owner, freeblock) && a in owner && owner[a].pos != NDIRECT
    ensures Building(l, blocks[a := data], inodes, owner, freeblock)
  {
    hide Addr;
    DataWrite(l, blocks, inodes, owner, a, data);
  }

  lemma GrownSizes(blocks: seq<Block>, inodes: seq<Inode>, owner: map<nat, Slot>,
                   blocks': seq<Block>, inodes': seq<Inode>, owner': map<nat, Slot>)
    requires Grown(blocks, inodes, owner, blocks', inodes', owner')
    ensures |inodes'| == |inodes| && forall i :: 0 <= i < |inodes| ==> inodes'[i].size == inodes[i].size
  {
  }

  lemma ResizedBuilding(l: Layout, blocks: seq<Block>, inodes: seq<Inode>, owner: map<nat, Slot>, freeblock: nat,
                        i: nat, size: nat)
    requires Building(l, blocks, inodes, owner, freeblock) && i < |inodes|
    ensures var inodes' := inodes[i := inodes[i].(size := size)];
      && Building(l, blocks, inodes', owner, freeblock)
      && (forall y, len :: Exact(blocks, inodes', y, len) == Exact(blocks, inodes, y, len))
      && (forall y, len :: Contents(blocks, inodes', y, len) == Contents(blocks, inodes, y, len))
  {
    hide IndirectWord;
    var inodes' := inodes[i := inodes[i].(size := size)];
    forall s: Slot
      ensures Addr(blocks, inodes', s) == Addr(blocks, inodes, s)
      ensures OwnedAt(blocks, inodes', owner, s)
    {
      assert OwnedAt(blocks, inodes, owner, s);
    }
    ResizedFiles(blocks, inodes, inodes');
  }

  lemma ResizedFiles(blocks: seq<Block>, inodes: seq<Inode>, inodes': seq<Inode>)
    requires forall s: Slot :: Addr(blocks, inodes', s) == Addr(blocks, inodes, s)
    ensures forall y, len :: Exact(blocks, inodes', y, len) == Exact(blocks, inodes, y, len)
    ensures forall y, len :: Contents(blocks, inodes', y, len) == Contents(blocks, inodes, y, len)
  {
    hide Addr;
    forall y, len
      ensures Exact(blocks, inodes', y, len) == Exact(blocks, inodes, y, len)
      ensures Contents(blocks, inodes', y, len) == Contents(blocks, inodes, y, len)
    {
      assert forall bn :: FileBlock(blocks, inodes', y, bn) == FileBlock(blocks, inodes, y, bn);
      assert forall k :: FileByte(blocks, inodes', y, k) == FileByte(blocks, inodes, y, k);
    }
  }

  lemma Rounded(blocks: seq<Block>, inodes: seq<Inode>, i: nat, off: nat)
    requires Exact(blocks, inodes, i, off)
    ensures Solid(blocks, inodes, i, (off / BSIZE + 1) * BSIZE) <==> off % BSIZE != 0
  {
    hide Addr;
    var bn := off / BSIZE;
    if off % BSIZE == 0 {
      assert bn * BSIZE == off;
      assert FileBlock(blocks, inodes, i, bn) == 0;
    } else {
      assert bn < MAXFILE;
      forall k: nat | k * BSIZE < (bn + 1) * BSIZE ensures FileBlock(blocks, inodes, i, k) != 0 {
        assert k * BSIZE < off;
      }
    }
  }

  lemma ZeroBits()
    ensures forall x: nat | x < BPB :: !InUse(ZeroBlock(), x)
  {
    forall x: nat | x < BPB ensures !InUse(ZeroBlock(), x) {
      ZeroBit(x % 8);
    }
  }

  lemma {:induction false} ZeroBit(k: nat)
    ensures !Bit(0, k)
  {
    if k > 0 {
      ZeroBit(k - 1);
    }
  }

  lemma BitsWritten(l: Layout, blocks: seq<Block>, inodes: seq<Inode>, owner: map<nat, Slot>, freeblock: nat,
                    buf: Block, b: nat)
    requires Building(l, blocks, inodes, owner, freeblock) && freeblock < BPB && b < l.size
    requires forall x: nat | x < BPB :: InUse(buf, x) <==> x < freeblock
    ensures MarkedAt(l, blocks[l.bmapStart := buf], owner.Keys, b)
  {
    hide Addr, InUse, OwnedAt;
    BBlockBound(l, b);
    if l.BBlock(b) != l.bmapStart {
      ZeroBits();
    }
  }

  lemma BitmapWritten(l: Layout, blocks: seq<Block>, inodes: seq<Inode>, owner: map<nat, Slot>, freeblock: nat,
                      buf: Block)
    requires Building(l, blocks, inodes, owner, freeblock) && freeblock < BPB
    requires forall x: nat | x < BPB :: InUse(buf, x) <==> x < freeblock
    ensures var blocks' := blocks[l.bmapStart := buf];
      && Consistent(l, blocks', inodes, owner)
      && forall y, len :: Solid(blocks, inodes, y, len) ==>
           Solid(blocks', inodes, y, len) && Contents(blocks', inodes, y, len) == Contents(blocks, inodes, y, len)
  {
    hide Addr, InUse, Solid, Contents;
    var blocks' := blocks[l.bmapStart := buf];
    DataWrite(l, blocks, inodes, owner, l.bmapStart, buf);
    forall b: nat | b < l.size ensures MarkedAt(l, blocks', owner.Keys, b) {
      BitsWritten(l, blocks, inodes, owner, freeblock, buf, b);
    }
    hide MarkedAt;
    forall y, len | Solid(blocks, inodes, y, len)
      ensures Solid(blocks', inodes, y, len) && Contents(blocks', inodes, y, len) == Contents(blocks, inodes, y, len)
    {
      SameBlocksFile(l, blocks, inodes, owner, blocks', y, len);
    }
  }

  lemma SameBlocksFile(l: Layout, blocks: seq<Block>, inodes: seq<Inode>, owner: map<nat, Slot>,
                       blocks': seq<Block>, y: nat, len: nat)
    requires Owns(l, blocks, inodes, owner) && Solid(blocks, inodes, y, len) && |blocks'| == |blocks|
    requires forall b :: b in owner ==> blocks'[b] == blocks[b]
    requires forall s: Slot :: Addr(blocks', inodes, s) == Addr(blocks, inodes, s)
    ensures Solid(blocks', inodes, y, len) && Contents(blocks', inodes, y, len) == Contents(blocks, inodes, y, len)
  {
    hide Addr;
    GrownContents(l, blocks, inodes, owner, blocks', inodes, owner, y, len);
  }

  lemma OwnedFileBlock(l: Layout, blocks: seq<Block>, inodes: seq<Inode>, owner: map<nat, Slot>, i: nat, bn: nat)
    requires Owns(l, blocks, inodes, owner) && FileBlock(blocks, inodes, i, bn) in owner
    ensures owner[FileBlock(blocks, inodes, i, bn)] == Slot(i, Pos(bn))
    ensures l.nmeta <= FileBlock(blocks, inodes, i, bn) < |blocks|
  {
    hide Addr;
    assert OwnedAt(blocks, inodes, owner, Slot(i, Pos(bn)));
  }

  /** File block fbn of file i, and the indirect block it needs, are all that may have gained a disk block. */
  ghost predicate OnlyMapped(blocks: seq<Block>, inodes: seq<Inode>, blocks': seq<Block>, inodes': seq<Inode>,
                             i: nat, fbn: nat) {
    && (forall y: nat, bn: nat :: y != i || bn != fbn ==>
          FileBlock(blocks', inodes', y, bn) == FileBlock(blocks, inodes, y, bn))
    && (forall y: nat :: y != i || fbn < NDIRECT ==> IndBlock(blocks', inodes', y) == IndBlock(blocks, inodes, y))
    && (NDIRECT <= fbn ==> IndBlock(blocks', inodes', i) != 0)
  }

  lemma NothingMapped(blocks: seq<Block>, inodes: seq<Inode>, i: nat, fbn: nat)
    requires NDIRECT <= fbn ==> IndBlock(blocks, inodes, i) != 0
    ensures OnlyMapped(blocks, inodes, blocks, inodes, i, fbn)
  {
  }

  /** One more file block. */
  lemma LinkMaps(blocks: seq<Block>, inodes: seq<Inode>, blocks': seq<Block>, inodes': seq<Inode>,
                 i: nat, fbn: nat, b: nat)
    requires Linked(blocks, inodes, blocks', inodes', Slot(i, Pos(fbn)), b)
    requires NDIRECT <= fbn ==> IndBlock(blocks, inodes, i) != 0
    ensures OnlyMapped(blocks, inodes, blocks', inodes', i, fbn)
    ensures FileBlock(blocks', inodes', i, fbn) == b
  {
    hide Addr;
  }

  /** One more indirect block. */
  lemma LinkIndMaps(blocks: seq<Block>, inodes: seq<Inode>, blocks': seq<Block>, inodes': seq<Inode>,
                    i: nat, fbn: nat, b: nat)
    requires Linked(blocks, inodes, blocks', inodes', Slot(i, NDIRECT), b) && b != 0 && NDIRECT <= fbn
    ensures OnlyMapped(blocks, inodes, blocks', inodes', i, fbn)
    ensures FileBlock(blocks', inodes', i, fbn) == FileBlock(blocks, inodes, i, fbn)
  {
    hide Addr;
  }

  lemma MappedTwice(blocks: seq<Block>, inodes: seq<Inode>, blocks1: seq<Block>, inodes1: seq<Inode>,
                    blocks2: seq<Block>, i: nat, fbn: nat)
    requires OnlyMapped(blocks, inodes, blocks1, inodes1, i, fbn)
    requires OnlyMapped(blocks1, inodes1, blocks2, inodes1, i, fbn)
    ensures OnlyMapped(blocks, inodes, blocks2, inodes1, i, fbn)
  {
    hide Addr;
  }

  lemma TookDirect(l: Layout, blocks: seq<Block>, inodes: seq<Inode>, owner: map<nat, Slot>, freeblock: nat, s: Slot)
    requires Building(l, blocks, inodes, owner, freeblock) && freeblock < l.size
    requires SlotOk(inodes, s) && s.pos <= NDIRECT && inodes[s.inum].addrs[s.pos] == 0
    ensures var inodes', owner' := SetAddr(inodes, s.inum, s.pos, freeblock), owner[freeblock := s];
      && Building(l, blocks, inodes', owner', freeblock + 1)
      && Linked(blocks, inodes, blocks, inodes', s, freeblock) && Grown(blocks, inodes, owner, blocks, inodes', owner')
  {
    assert Addr(blocks, inodes, s) == 0;
    hide Addr;
    LinkDirect(l, blocks, inodes, owner, s, freeblock);
  }

  lemma TookIndirect(l: Layout, blocks: seq<Block>, inodes: seq<Inode>, owner: map<nat, Slot>, freeblock: nat,
                     i: nat, j: nat)
    requires Building(l, blocks, inodes, owner, freeblock) && freeblock < l.size && i < |inodes| && j < NINDIRECT
    requires Indirect(inodes, i) != 0 && Addr(blocks, inodes, Slot(i, NDIRECT + 1 + j)) == 0
    ensures l.nmeta <= Indirect(inodes, i) < freeblock
    ensures var ind, s := Indirect(inodes, i), Slot(i, NDIRECT + 1 + j);
      var blocks', owner' := blocks[ind := PutWord(blocks[ind], j, freeblock)], owner[freeblock := s];
      && Building(l, blocks', inodes, owner', freeblock + 1)
      && Linked(blocks, inodes, blocks', inodes, s, freeblock) && Grown(blocks, inodes, owner, blocks', inodes, owner')
  {
    hide Addr, PutWord;
    LinkIndirect(l, blocks, inodes, owner, i, j, freeblock);
  }

  /** What the two branches of the block map look at. */
  lemma BuildingFacts(l: Layout, blocks: seq<Block>, inodes: seq<Inode>, owner: map<nat, Slot>, freeblock: nat,
                      i: nat, fbn: nat)
    requires Building(l, blocks, inodes, owner, freeblock) && i < |inodes| && fbn < MAXFILE
    ensures freeblock <= l.size
    ensures |inodes[i].addrs| == NDIRECT + 1 && IndBlock(blocks, inodes, i) == inodes[i].addrs[NDIRECT]
    ensures fbn < NDIRECT ==> FileBlock(blocks, inodes, i, fbn) == inodes[i].addrs[fbn]
    ensures fbn >= NDIRECT && inodes[i].addrs[NDIRECT] == 0 ==> FileBlock(blocks, inodes, i, fbn) == 0
    ensures fbn >= NDIRECT && inodes[i].addrs[NDIRECT] != 0 ==>
      && inodes[i].addrs[NDIRECT] < |blocks|
      && FileBlock(blocks, inodes, i, fbn) == GetWord(blocks[inodes[i].addrs[NDIRECT]], fbn - NDIRECT)
    ensures FileBlock(blocks, inodes, i, fbn) != 0 ==> FileBlock(blocks, inodes, i, fbn) in owner
    ensures Grown(blocks, inodes, owner, blocks, inodes, owner)
  {
    hide GetWord;
    assert OwnedAt(blocks, inodes, owner, Slot(i, NDIRECT));
    assert OwnedAt(blocks, inodes, owner, Slot(i, Pos(fbn)));
  }
}
