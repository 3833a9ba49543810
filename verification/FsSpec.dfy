/** Who owns which disk block, and what bytes a file holds. */
module FsSpec {
  import opened Blocks
  import opened Bitmap

  const NDIRECT := 12
  const NINDIRECT := 256
  const MAXFILE := NDIRECT + NINDIRECT

  /** An inode's block list: NDIRECT direct block numbers, then the indirect block's; 0 is none. */
  datatype Inode = Inode(addrs: seq<nat>, size: nat)

  /** A place that can hold a block number: pos <= NDIRECT is addrs[pos], pos beyond that is word
      pos - NDIRECT - 1 of the indirect block. */
  datatype Slot = Slot(inum: nat, pos: nat)

  ghost predicate SlotOk(inodes: seq<Inode>, s: Slot) {
    s.inum < |inodes| && |inodes[s.inum].addrs| == NDIRECT + 1 && s.pos < NDIRECT + 1 + NINDIRECT
  }

  ghost function Indirect(inodes: seq<Inode>, i: nat): (a: nat) {
    if i < |inodes| && |inodes[i].addrs| == NDIRECT + 1 then inodes[i].addrs[NDIRECT] else 0
  }

  /** The block number in a slot. */
  ghost function Addr(blocks: seq<Block>, inodes: seq<Inode>, s: Slot): (a: nat) {
    if !SlotOk(inodes, s) then 0
    else if s.pos <= NDIRECT then inodes[s.inum].addrs[s.pos]
    else IndirectWord(blocks, Indirect(inodes, s.inum), s.pos - NDIRECT - 1)
  }

  ghost function IndirectWord(blocks: seq<Block>, ind: nat, j: nat): (a: nat)
    requires j < NINDIRECT
  {
    if 0 < ind < |blocks| then GetWord(blocks[ind], j) else 0
  }

  /** owner is the exact inverse of the block numbers stored anywhere: every block number sits in
      one slot only, and is the number of a data block. */
  ghost predicate Owns(l: Layout, blocks: seq<Block>, inodes: seq<Inode>, owner: map<nat, Slot>) {
    && OnDisk(l, blocks)
    && (forall i :: 0 <= i < |inodes| ==> |inodes[i].addrs| == NDIRECT + 1)
    && (forall b :: b in owner ==> l.nmeta <= b < l.size && Addr(blocks, inodes, owner[b]) == b)
    && (forall s: Slot :: OwnedAt(blocks, inodes, owner, s))
  }

  ghost predicate OwnedAt(blocks: seq<Block>, inodes: seq<Inode>, owner: map<nat, Slot>, s: Slot) {
    var a := Addr(blocks, inodes, s);
    a != 0 ==> a in owner && owner[a] == s
  }

  /** The bitmap says in use exactly for metadata and owned blocks. */
  ghost predicate Consistent(l: Layout, blocks: seq<Block>, inodes: seq<Inode>, owner: map<nat, Slot>) {
    && Owns(l, blocks, inodes, owner)
    && Marked(l, blocks, owner.Keys)
  }

  /** No block number is stored in two places. */
  lemma OneOwner(l: Layout, blocks: seq<Block>, inodes: seq<Inode>, owner: map<nat, Slot>, s: Slot, t: Slot)
    requires Consistent(l, blocks, inodes, owner) && Addr(blocks, inodes, s) == Addr(blocks, inodes, t) != 0
    ensures s == t
  {
    hide Addr;
    assert OwnedAt(blocks, inodes, owner, s) && OwnedAt(blocks, inodes, owner, t);
  }

  /** A data block is marked in use exactly when some inode or indirect block names it. */
  lemma BitmapExact(l: Layout, blocks: seq<Block>, inodes: seq<Inode>, owner: map<nat, Slot>, b: nat)
    requires Consistent(l, blocks, inodes, owner) && b < l.size
    ensures l.BBlock(b) < |blocks|
    ensures Used(l, blocks, b) <==> b < l.nmeta || exists s: Slot :: Addr(blocks, inodes, s) == b
  {
    hide Addr, InUse;
    BBlockBound(l, b);
    assert MarkedAt(l, blocks, owner.Keys, b);
    if b >= l.nmeta && exists s: Slot :: Addr(blocks, inodes, s) == b {
      var s: Slot :| Addr(blocks, inodes, s) == b;
      assert OwnedAt(blocks, inodes, owner, s);
    }
  }

  function ZeroBlock(): (z: Block)
    ensures forall i :: 0 <= i < BSIZE ==> z[i] == 0
  {
    seq(BSIZE, _ => 0)
  }

  lemma ZeroWord(j: nat)
    requires j < NINDIRECT
    ensures GetWord(ZeroBlock(), j) == 0
  {
  }

  // ---------------------------------------------------------------- changes of the block lists

  /** A write to a block that is not an indirect block changes no block list. */
  lemma DataWrite(l: Layout, blocks: seq<Block>, inodes: seq<Inode>, owner: map<nat, Slot>, b: nat, data: Block)
    requires Owns(l, blocks, inodes, owner) && b < l.size
    requires b in owner ==> owner[b].pos != NDIRECT
    ensures forall s: Slot :: Addr(blocks[b := data], inodes, s) == Addr(blocks, inodes, s)
    ensures Owns(l, blocks[b := data], inodes, owner)
  {
    var blocks' := blocks[b := data];
    forall s: Slot ensures Addr(blocks', inodes, s) == Addr(blocks, inodes, s) {
      NotIndirect(l, blocks, inodes, owner, b, s.inum);
    }
    OwnsSame(l, blocks, blocks', inodes, owner);
  }

  lemma NotIndirect(l: Layout, blocks: seq<Block>, inodes: seq<Inode>, owner: map<nat, Slot>, b: nat, i: nat)
    requires Owns(l, blocks, inodes, owner)
    requires b in owner ==> owner[b].pos != NDIRECT
    ensures Indirect(inodes, i) != 0 ==> Indirect(inodes, i) != b
  {
    var s := Slot(i, NDIRECT);
    assert OwnedAt(blocks, inodes, owner, s);
  }

  lemma OwnsSame(l: Layout, blocks: seq<Block>, blocks': seq<Block>, inodes: seq<Inode>, owner: map<nat, Slot>)
    requires Owns(l, blocks, inodes, owner) && |blocks'| == |blocks|
    requires forall s: Slot :: Addr(blocks', inodes, s) == Addr(blocks, inodes, s)
    ensures Owns(l, blocks', inodes, owner)
  {
    hide Addr;
    forall s: Slot ensures OwnedAt(blocks', inodes, owner, s) {
      assert OwnedAt(blocks, inodes, owner, s);
    }
  }

  /** Slot s now holds b and every other slot what it held. */
  ghost predicate Linked(blocks: seq<Block>, inodes: seq<Inode>, blocks': seq<Block>, inodes': seq<Inode>, s: Slot,
                         b: nat) {
    forall t: Slot :: Addr(blocks', inodes', t) == if t == s then b else Addr(blocks, inodes, t)
  }

  lemma LinkOwns(l: Layout, blocks: seq<Block>, inodes: seq<Inode>, owner: map<nat, Slot>,
                 blocks': seq<Block>, inodes': seq<Inode>, s: Slot, b: nat)
    requires Owns(l, blocks, inodes, owner) && OnDisk(l, blocks')
    requires forall i :: 0 <= i < |inodes'| ==> |inodes'[i].addrs| == NDIRECT + 1
    requires Linked(blocks, inodes, blocks', inodes', s, b)
    requires Addr(blocks, inodes, s) == 0 && b !in owner && l.nmeta <= b < l.size
    ensures Owns(l, blocks', inodes', owner[b := s])
  {
    hide Addr;
    var owner' := owner[b := s];
    forall t: Slot ensures OwnedAt(blocks', inodes', owner', t) {
      assert OwnedAt(blocks, inodes, owner, t);
    }
  }

  function SetAddr(inodes: seq<Inode>, i: nat, pos: nat, b: nat): (r: seq<Inode>)
    requires i < |inodes| && pos < |inodes[i].addrs|
    ensures |r| == |inodes|
    ensures r[i].addrs == inodes[i].addrs[pos := b] && r[i].size == inodes[i].size
    ensures forall k :: 0 <= k < |r| && k != i ==> r[k] == inodes[k]
  {
    inodes[i := inodes[i].(addrs := inodes[i].addrs[pos := b])]
  }

  /** A new direct block, or a new zeroed indirect block. */
  lemma LinkDirect(l: Layout, blocks: seq<Block>, inodes: seq<Inode>, owner: map<nat, Slot>, s: Slot, b: nat)
    requires Owns(l, blocks, inodes, owner) && SlotOk(inodes, s) && s.pos <= NDIRECT
    requires Addr(blocks, inodes, s) == 0 && b !in owner && l.nmeta <= b < l.size
    requires s.pos == NDIRECT ==> blocks[b] == ZeroBlock()
    ensures Linked(blocks, inodes, blocks, SetAddr(inodes, s.inum, s.pos, b), s, b)
    ensures Owns(l, blocks, SetAddr(inodes, s.inum, s.pos, b), owner[b := s])
  {
    hide GetWord;
    var inodes' := SetAddr(inodes, s.inum, s.pos, b);
    forall t: Slot ensures Addr(blocks, inodes', t) == if t == s then b else Addr(blocks, inodes, t) {
      if SlotOk(inodes, t) && t.inum == s.inum && t.pos > NDIRECT && s.pos == NDIRECT {
        ZeroWord(t.pos - NDIRECT - 1);
      }
    }
    LinkOwns(l, blocks, inodes, owner, blocks, inodes', s, b);
  }

  /** A new block number in the indirect block. */
  lemma LinkIndirect(l: Layout, blocks: seq<Block>, inodes: seq<Inode>, owner: map<nat, Slot>, i: nat, j: nat, b: nat)
    requires Owns(l, blocks, inodes, owner) && i < |inodes| && j < NINDIRECT && Indirect(inodes, i) != 0
    requires Addr(blocks, inodes, Slot(i, NDIRECT + 1 + j)) == 0 && b !in owner && l.nmeta <= b < l.size
    ensures Indirect(inodes, i) in owner && owner[Indirect(inodes, i)] == Slot(i, NDIRECT)
    ensures var ind := Indirect(inodes, i);
      && Linked(blocks, inodes, blocks[ind := PutWord(blocks[ind], j, b)], inodes, Slot(i, NDIRECT + 1 + j), b)
      && Owns(l, blocks[ind := PutWord(blocks[ind], j, b)], inodes, owner[b := Slot(i, NDIRECT + 1 + j)])
  {
    hide GetWord, PutWord;
    var ind := Indirect(inodes, i);
    var s := Slot(i, NDIRECT + 1 + j);
    assert OwnedAt(blocks, inodes, owner, Slot(i, NDIRECT));
    var blocks' := blocks[ind := PutWord(blocks[ind], j, b)];
    forall t: Slot ensures Addr(blocks', inodes, t) == if t == s then b else Addr(blocks, inodes, t) {
      if SlotOk(inodes, t) && t.pos > NDIRECT {
        assert OwnedAt(blocks, inodes, owner, Slot(t.inum, NDIRECT));
        if t.inum == i {
          PutGetWord(blocks[ind], j, b, t.pos - NDIRECT - 1);
        }
      }
    }
    LinkOwns(l, blocks, inodes, owner, blocks', inodes, s, b);
  }

  /** The owners left when every slot of inode i in positions [lo, hi) is emptied. */
  ghost function Without(owner: map<nat, Slot>, i: nat, lo: nat, hi: nat): (r: map<nat, Slot>) {
    map b | b in owner && !(owner[b].inum == i && lo <= owner[b].pos < hi) :: owner[b]
  }

  /** Emptying a direct slot, or the indirect slot and with it every slot it leads to. */
  lemma Unlink(l: Layout, blocks: seq<Block>, inodes: seq<Inode>, owner: map<nat, Slot>, i: nat, pos: nat)
    requires Owns(l, blocks, inodes, owner) && i < |inodes| && pos <= NDIRECT
    ensures var hi := if pos < NDIRECT then pos + 1 else NDIRECT + 1 + NINDIRECT;
      && Owns(l, blocks, SetAddr(inodes, i, pos, 0), Without(owner, i, pos, hi))
      && forall t: Slot :: Addr(blocks, SetAddr(inodes, i, pos, 0), t) ==
           if t.inum == i && pos <= t.pos < hi then 0 else Addr(blocks, inodes, t)
  {
    hide GetWord;
    var hi := if pos < NDIRECT then pos + 1 else NDIRECT + 1 + NINDIRECT;
    var inodes', owner' := SetAddr(inodes, i, pos, 0), Without(owner, i, pos, hi);
    forall t: Slot
      ensures Addr(blocks, inodes', t) == if t.inum == i && pos <= t.pos < hi then 0 else Addr(blocks, inodes, t)
      ensures OwnedAt(blocks, inodes', owner', t)
    {
      assert OwnedAt(blocks, inodes, owner, t);
    }
  }

  /** Block a, the block number in slot (i, p), leaves the owners when p joins the emptied range. */
  lemma WithoutStep(l: Layout, blocks: seq<Block>, inodes: seq<Inode>, owner: map<nat, Slot>,
                    i: nat, lo: nat, hi: nat, lo': nat, hi': nat, p: nat)
    requires Owns(l, blocks, inodes, owner)
    requires (lo' == lo <= p == hi && hi' == p + 1) || (lo' == p < hi' == hi && lo == p + 1)
    ensures var a := Addr(blocks, inodes, Slot(i, p));
      && Without(owner, i, lo', hi').Keys == Without(owner, i, lo, hi).Keys - {a}
      && (a != 0 ==> a in Without(owner, i, lo, hi))
  {
    hide Addr;
    assert OwnedAt(blocks, inodes, owner, Slot(i, p));
    forall b | b in owner ensures owner[b] == Slot(i, p) ==> b == Addr(blocks, inodes, Slot(i, p)) {
    }
  }

  lemma WithoutJoin(owner: map<nat, Slot>, i: nat, lo: nat, mid: nat, hi: nat)
    requires lo <= mid <= hi
    ensures Without(Without(owner, i, lo, mid), i, mid, hi) == Without(owner, i, lo, hi)
  {
  }

  lemma WithoutNone(l: Layout, blocks: seq<Block>, inodes: seq<Inode>, owner: map<nat, Slot>, i: nat, lo: nat, hi: nat)
    requires Owns(l, blocks, inodes, owner)
    requires forall p :: lo <= p < hi ==> Addr(blocks, inodes, Slot(i, p)) == 0
    ensures Without(owner, i, lo, hi) == owner
  {
    hide Addr;
    forall b | b in owner ensures !(owner[b].inum == i && lo <= owner[b].pos < hi) {
      assert owner[b] == Slot(owner[b].inum, owner[b].pos);
    }
  }

  lemma FreedOwns(l: Layout, blocks: seq<Block>, inodes: seq<Inode>, owner: map<nat, Slot>, used: set<nat>, a: nat)
    requires Owns(l, blocks, inodes, owner) && Marked(l, blocks, used) && a in used
    ensures l.BBlock(a) < l.nmeta && Used(l, blocks, a)
    ensures var blocks' := blocks[l.BBlock(a) := Unmark(blocks[l.BBlock(a)], a % BPB)];
      && Owns(l, blocks', inodes, owner) && Marked(l, blocks', used - {a})
      && forall s: Slot :: Addr(blocks', inodes, s) == Addr(blocks, inodes, s)
  {
    hide Addr, Unmark, InUse;
    BBlockBound(l, a);
    UnmarkBlock(l, blocks, used, a);
    DataWrite(l, blocks, inodes, owner, l.BBlock(a), Unmark(blocks[l.BBlock(a)], a % BPB));
  }

  // ---------------------------------------------------------------- file contents

  /** The slot of file block bn. */
  function Pos(bn: nat): nat {
    if bn < NDIRECT then bn else bn + 1
  }

  ghost function FileBlock(blocks: seq<Block>, inodes: seq<Inode>, i: nat, bn: nat): (a: nat) {
    Addr(blocks, inodes, Slot(i, Pos(bn)))
  }

  ghost function FileByte(blocks: seq<Block>, inodes: seq<Inode>, i: nat, k: nat): (x: Byte) {
    var a := FileBlock(blocks, inodes, i, k / BSIZE);
    if a < |blocks| then blocks[a][k % BSIZE] else 0
  }

  /** The first len bytes of file i. */
  ghost function Contents(blocks: seq<Block>, inodes: seq<Inode>, i: nat, len: nat): (c: seq<Byte>)
    ensures |c| == len
    ensures forall k :: 0 <= k < len ==> c[k] == FileByte(blocks, inodes, i, k)
  {
    seq(len, k requires 0 <= k < len => FileByte(blocks, inodes, i, k))
  }

  /** No holes: file i has a block for each of its first len bytes. */
  ghost predicate Solid(blocks: seq<Block>, inodes: seq<Inode>, i: nat, len: nat) {
    && len <= MAXFILE * BSIZE
    && forall bn: nat :: bn * BSIZE < len ==> FileBlock(blocks, inodes, i, bn) != 0
  }

  lemma SolidAt(blocks: seq<Block>, inodes: seq<Inode>, i: nat, len: nat, k: nat)
    requires Solid(blocks, inodes, i, len) && k < len
    ensures FileBlock(blocks, inodes, i, k / BSIZE) != 0
  {
    assert (k / BSIZE) * BSIZE <= k;
  }

  /** Block numbers stored stay where they are. */
  ghost predicate Kept(blocks: seq<Block>, inodes: seq<Inode>, blocks': seq<Block>, inodes': seq<Inode>) {
    forall s: Slot :: Addr(blocks, inodes, s) != 0 ==> Addr(blocks', inodes', s) == Addr(blocks, inodes, s)
  }

  /** The invariant of the file system: exact ownership, and no file has a hole below its size. */
  ghost predicate Sound(l: Layout, blocks: seq<Block>, inodes: seq<Inode>, owner: map<nat, Slot>) {
    && Consistent(l, blocks, inodes, owner)
    && forall i :: 0 <= i < |inodes| ==> Solid(blocks, inodes, i, inodes[i].size)
  }

  /** What bmap leaves alone: numbers already stored, and the contents of data blocks. */
  ghost predicate Grown(blocks: seq<Block>, inodes: seq<Inode>, owner: map<nat, Slot>,
                        blocks': seq<Block>, inodes': seq<Inode>, owner': map<nat, Slot>) {
    && |blocks'| == |blocks| && |inodes'| == |inodes|
    && (forall i :: 0 <= i < |inodes| ==> inodes'[i].size == inodes[i].size)
    && Kept(blocks, inodes, blocks', inodes')
    && (forall b :: b in owner ==> b in owner' && owner'[b] == owner[b])
    && (forall b :: b in owner && b < |blocks| && owner[b].pos != NDIRECT ==> blocks'[b] == blocks[b])
  }

  lemma GrownTwice(b0: seq<Block>, i0: seq<Inode>, o0: map<nat, Slot>, b1: seq<Block>, i1: seq<Inode>,
                   o1: map<nat, Slot>, b2: seq<Block>, i2: seq<Inode>, o2: map<nat, Slot>)
    requires Grown(b0, i0, o0, b1, i1, o1) && Grown(b1, i1, o1, b2, i2, o2)
    ensures Grown(b0, i0, o0, b2, i2, o2)
  {
    hide Addr;
  }

  /** The disk after balloc has marked block b and zeroed it. */
  ghost function Allocated(l: Layout, blocks: seq<Block>, b: nat): (r: seq<Block>)
    requires OnDisk(l, blocks) && b < l.size && l.BBlock(b) < l.size && !Used(l, blocks, b)
    ensures |r| == l.size
  {
    blocks[l.BBlock(b) := Mark(blocks[l.BBlock(b)], b % BPB)][b := ZeroBlock()]
  }

  lemma AllocatedOwns(l: Layout, blocks: seq<Block>, inodes: seq<Inode>, owner: map<nat, Slot>, b: nat)
    requires Consistent(l, blocks, inodes, owner) && l.nmeta <= b < l.size && b !in owner
    ensures l.BBlock(b) < l.nmeta && !Used(l, blocks, b)
    ensures var blocks' := Allocated(l, blocks, b);
      && Owns(l, blocks', inodes, owner) && Marked(l, blocks', owner.Keys + {b}) && blocks'[b] == ZeroBlock()
      && (forall s: Slot :: Addr(blocks', inodes, s) == Addr(blocks, inodes, s))
      && Grown(blocks, inodes, owner, blocks', inodes, owner)
  {
    hide Addr, Mark, InUse;
    BBlockBound(l, b);
    MarkBlock(l, blocks, owner.Keys, b);
    var blocks1 := blocks[l.BBlock(b) := Mark(blocks[l.BBlock(b)], b % BPB)];
    DataWrite(l, blocks, inodes, owner, l.BBlock(b), blocks1[l.BBlock(b)]);
    DataWrite(l, blocks1, inodes, owner, b, ZeroBlock());
    MarkedKept(l, blocks1, owner.Keys + {b}, b, ZeroBlock());
  }

  lemma GrownContents(l: Layout, blocks: seq<Block>, inodes: seq<Inode>, owner: map<nat, Slot>,
                      blocks': seq<Block>, inodes': seq<Inode>, owner': map<nat, Slot>, i: nat, len: nat)
    requires Owns(l, blocks, inodes, owner) && Grown(blocks, inodes, owner, blocks', inodes', owner')
    requires Solid(blocks, inodes, i, len)
    ensures Solid(blocks', inodes', i, len)
    ensures Contents(blocks', inodes', i, len) == Contents(blocks, inodes, i, len)
  {
    hide Addr;
    forall bn: nat | bn * BSIZE < len
      ensures FileBlock(blocks', inodes', i, bn) == FileBlock(blocks, inodes, i, bn) != 0
    {
    }
    forall k | 0 <= k < len ensures FileByte(blocks', inodes', i, k) == FileByte(blocks, inodes, i, k) {
      SolidAt(blocks, inodes, i, len, k);
      var s := Slot(i, Pos(k / BSIZE));
      assert OwnedAt(blocks, inodes, owner, s);
    }
  }

  /** Data blocks, the indirect ones among them, hold what they held. */
  ghost predicate SameData(l: Layout, blocks: seq<Block>, blocks': seq<Block>) {
    |blocks'| == |blocks| == l.size && forall b :: l.nmeta <= b < l.size ==> blocks'[b] == blocks[b]
  }

  lemma UntouchedFile(l: Layout, blocks: seq<Block>, inodes: seq<Inode>, owner: map<nat, Slot>,
                      blocks': seq<Block>, inodes': seq<Inode>, x: nat, len: nat)
    requires Owns(l, blocks, inodes, owner) && SameData(l, blocks, blocks') && Solid(blocks, inodes, x, len)
    requires x < |inodes| == |inodes'| && inodes'[x].addrs == inodes[x].addrs
    ensures Solid(blocks', inodes', x, len)
    ensures Contents(blocks', inodes', x, len) == Contents(blocks, inodes, x, len)
  {
    hide GetWord;
    assert OwnedAt(blocks, inodes, owner, Slot(x, NDIRECT));
    forall p: nat ensures Addr(blocks', inodes', Slot(x, p)) == Addr(blocks, inodes, Slot(x, p)) {
    }
    forall bn: nat | bn * BSIZE < len
      ensures FileBlock(blocks', inodes', x, bn) == FileBlock(blocks, inodes, x, bn) != 0
    {
    }
    forall k | 0 <= k < len ensures FileByte(blocks', inodes', x, k) == FileByte(blocks, inodes, x, k) {
      SolidAt(blocks, inodes, x, len, k);
      assert OwnedAt(blocks, inodes, owner, Slot(x, Pos(k / BSIZE)));
    }
  }

  /** Bytes [o, o + |d|) of a block replaced by d. */
  function Patch(b: Block, o: nat, d: seq<Byte>): (r: Block)
    requires o + |d| <= BSIZE
  {
    b[..o] + d + b[o + |d|..]
  }

  /** Writing d at file position at, within one block: exactly those bytes of exactly that file
      change. */
  lemma ChunkWritten(l: Layout, blocks: seq<Block>, inodes: seq<Inode>, owner: map<nat, Slot>,
                     i: nat, at: nat, d: seq<Byte>, x: nat, k: nat)
    requires Owns(l, blocks, inodes, owner) && at % BSIZE + |d| <= BSIZE
    requires FileBlock(blocks, inodes, i, at / BSIZE) != 0 && FileBlock(blocks, inodes, x, k / BSIZE) != 0
    ensures var a := FileBlock(blocks, inodes, i, at / BSIZE);
      && a in owner && owner[a] == Slot(i, Pos(at / BSIZE))
      && FileByte(blocks[a := Patch(blocks[a], at % BSIZE, d)], inodes, x, k) ==
           if x == i && at <= k < at + |d| then d[k - at] else FileByte(blocks, inodes, x, k)
  {
    hide Addr;
    var s, t := Slot(i, Pos(at / BSIZE)), Slot(x, Pos(k / BSIZE));
    assert OwnedAt(blocks, inodes, owner, s) && OwnedAt(blocks, inodes, owner, t);
    var a := Addr(blocks, inodes, s);
    DataWrite(l, blocks, inodes, owner, a, Patch(blocks[a], at % BSIZE, d));
    SameBlock(at, |d|, k);
    if Addr(blocks, inodes, t) == a {
      assert s == t;
      assert at / BSIZE == k / BSIZE;
    }
  }

  /** s with d written at position at, growing if d reaches past the end. */
  ghost function Splice(s: seq<Byte>, at: nat, d: seq<Byte>): (r: seq<Byte>)
    requires at <= |s|
    ensures |r| == Max(|s|, at + |d|)
    ensures forall k :: 0 <= k < |r| ==> r[k] == if at <= k < at + |d| then d[k - at] else s[k]
  {
    if at + |d| < |s| then s[..at] + d + s[at + |d|..] else s[..at] + d
  }

  function Max(a: nat, b: nat): nat {
    if a < b then b else a
  }

  lemma SpliceNext(s: seq<Byte>, at: nat, src: seq<Byte>, tot: nat, m: nat)
    requires at <= |s| && tot + m <= |src|
    ensures Splice(Splice(s, at, src[..tot]), at + tot, src[tot..tot + m]) == Splice(s, at, src[..tot + m])
  {
  }

  /** One chunk of writei: the file grows to cover the chunk and holds it. */
  lemma ChunkSpliced(l: Layout, blocks: seq<Block>, inodes: seq<Inode>, owner: map<nat, Slot>,
                     i: nat, len: nat, at: nat, d: seq<Byte>)
    requires Owns(l, blocks, inodes, owner) && at % BSIZE + |d| <= BSIZE && at <= len && 0 < |d|
    requires Solid(blocks, inodes, i, len) && at + |d| <= MAXFILE * BSIZE
    requires FileBlock(blocks, inodes, i, at / BSIZE) in owner
    ensures var a := FileBlock(blocks, inodes, i, at / BSIZE);
      var blocks' := blocks[a := Patch(blocks[a], at % BSIZE, d)];
      && Solid(blocks', inodes, i, Max(len, at + |d|))
      && Contents(blocks', inodes, i, Max(len, at + |d|)) == Splice(Contents(blocks, inodes, i, len), at, d)
  {
    hide Addr;
    var a := FileBlock(blocks, inodes, i, at / BSIZE);
    var blocks' := blocks[a := Patch(blocks[a], at % BSIZE, d)];
    var len' := Max(len, at + |d|);
    assert OwnedAt(blocks, inodes, owner, Slot(i, Pos(at / BSIZE)));
    DataWrite(l, blocks, inodes, owner, a, Patch(blocks[a], at % BSIZE, d));
    forall bn: nat | bn * BSIZE < len'
      ensures FileBlock(blocks', inodes, i, bn) == FileBlock(blocks, inodes, i, bn) != 0
    {
      if len <= bn * BSIZE {
        assert bn == at / BSIZE;
      }
    }
    forall k | 0 <= k < len'
      ensures FileByte(blocks', inodes, i, k) ==
        if at <= k < at + |d| then d[k - at] else FileByte(blocks, inodes, i, k)
    {
      SolidAt(blocks', inodes, i, len', k);
      ChunkWritten(l, blocks, inodes, owner, i, at, d, i, k);
    }
  }

  lemma ChunkElsewhere(l: Layout, blocks: seq<Block>, inodes: seq<Inode>, owner: map<nat, Slot>,
                       i: nat, at: nat, d: seq<Byte>, x: nat, len: nat)
    requires Owns(l, blocks, inodes, owner) && at % BSIZE + |d| <= BSIZE && x != i
    requires FileBlock(blocks, inodes, i, at / BSIZE) in owner && Solid(blocks, inodes, x, len)
    ensures var a := FileBlock(blocks, inodes, i, at / BSIZE);
      var blocks' := blocks[a := Patch(blocks[a], at % BSIZE, d)];
      Solid(blocks', inodes, x, len) && Contents(blocks', inodes, x, len) == Contents(blocks, inodes, x, len)
  {
    hide Addr;
    var a := FileBlock(blocks, inodes, i, at / BSIZE);
    var blocks' := blocks[a := Patch(blocks[a], at % BSIZE, d)];
    assert OwnedAt(blocks, inodes, owner, Slot(i, Pos(at / BSIZE)));
    DataWrite(l, blocks, inodes, owner, a, Patch(blocks[a], at % BSIZE, d));
    forall bn: nat | bn * BSIZE < len
      ensures FileBlock(blocks', inodes, x, bn) == FileBlock(blocks, inodes, x, bn) != 0
    {
    }
    forall k | 0 <= k < len ensures FileByte(blocks', inodes, x, k) == FileByte(blocks, inodes, x, k) {
      SolidAt(blocks, inodes, x, len, k);
      ChunkWritten(l, blocks, inodes, owner, i, at, d, x, k);
    }
  }

  /** A copy loop over [off, off + n) starts a chunk at off and at every block boundary. */
  ghost predicate ChunkStart(off: nat, n: nat, f: nat) {
    off <= f < off + n && (f == off || f % BSIZE == 0)
  }

  /** Size of the chunk at position at when left bytes are still to go. */
  function ChunkSize(at: nat, left: nat): (m: nat)
    ensures m <= left && at % BSIZE + m <= BSIZE
    ensures left > 0 ==> m > 0
    ensures m < left ==> (at + m) % BSIZE == 0
  {
    if left < BSIZE - at % BSIZE then left else BSIZE - at % BSIZE
  }

  /** No chunk starts strictly inside the chunk at at. */
  lemma NextChunk(off: nat, n: nat, at: nat, faults: set<nat>)
    requires off <= at < off + n && at !in faults
    requires forall f :: f in faults && ChunkStart(off, n, f) ==> at <= f
    ensures var m := ChunkSize(at, off + n - at);
      forall f :: f in faults && ChunkStart(off, n, f) ==> at + m <= f
  {
  }

  /** Block b is one that writing file blocks first to last of file i may pass to log_write. */
  ghost predicate WriteLogs(l: Layout, blocks: seq<Block>, inodes: seq<Inode>, i: nat, first: nat, last: nat, b: nat) {
    || l.IsBitmap(b)
    || b == l.IBlock(i)
    || (b != 0 && b == Indirect(inodes, i))
    || LogsData(blocks, inodes, i, first, last, b)
  }

  lemma LogsKept(l: Layout, blocks: seq<Block>, inodes: seq<Inode>, blocks': seq<Block>, inodes': seq<Inode>,
                 i: nat, first: nat, last: nat, b: nat)
    requires Kept(blocks, inodes, blocks', inodes') && WriteLogs(l, blocks, inodes, i, first, last, b)
    ensures WriteLogs(l, blocks', inodes', i, first, last, b)
  {
    hide IndirectWord;
    var s := Slot(i, NDIRECT);
    if b != 0 && b == Indirect(inodes, i) {
      assert Addr(blocks, inodes, s) == b;
    } else if LogsData(blocks, inodes, i, first, last, b) {
      var bn: nat :| first <= bn <= last && b == FileBlock(blocks, inodes, i, bn);
      assert b == FileBlock(blocks', inodes', i, bn);
    }
  }

  lemma LogsWider(l: Layout, blocks: seq<Block>, inodes: seq<Inode>, i: nat, first: nat, mid: nat, last: nat, b: nat)
    requires first <= mid <= last && WriteLogs(l, blocks, inodes, i, mid, mid, b)
    ensures WriteLogs(l, blocks, inodes, i, first, last, b)
  {
    hide Addr;
  }

  ghost predicate LogsData(blocks: seq<Block>, inodes: seq<Inode>, i: nat, first: nat, last: nat, b: nat) {
    b != 0 && exists bn: nat :: first <= bn <= last && b == FileBlock(blocks, inodes, i, bn)
  }

  lemma SameBlock(at: nat, n: nat, k: nat)
    requires at % BSIZE + n <= BSIZE
    ensures at <= k < at + n <==> k / BSIZE == at / BSIZE && at % BSIZE <= k % BSIZE < at % BSIZE + n
    ensures k / BSIZE == at / BSIZE ==> k - at == k % BSIZE - at % BSIZE
  {
  }
}
