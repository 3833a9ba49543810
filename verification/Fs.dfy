/** Block allocation, block maps and file contents over the logged view of the disk: blocks holds
    the newest contents of every block, and logged collects the blocks passed to log_write. */
module Fs {
  import opened Blocks
  import opened Bitmap
  import opened FsSpec
  import opened Options

  class FileSys {
    const l: Layout
    var blocks: seq<Block>
    var inodes: seq<Inode>
    ghost var owner: map<nat, Slot>
    ghost var logged: set<nat>

    ghost predicate Good()
      reads this
    {
      Consistent(l, blocks, inodes, owner)
    }

    ghost predicate Valid()
      reads this
    {
      Sound(l, blocks, inodes, owner)
    }

    /** Mounting a disk image. */
    constructor (l: Layout, blocks: seq<Block>, inodes: seq<Inode>, ghost owner: map<nat, Slot>)
      requires Sound(l, blocks, inodes, owner)
      ensures Valid() && this.l == l && this.blocks == blocks && this.inodes == inodes && this.owner == owner
    {
      this.l, this.blocks, this.inodes, this.owner, this.logged := l, blocks, inodes, owner, {};
    }

    // ---------------------------------------------------------------- blocks

    /** balloc: the lowest block not in use, now marked and zeroed; None is the panic. */
    method Balloc(ghost used: set<nat>) returns (r: Option<nat>)
      requires OnDisk(l, blocks) && Marked(l, blocks, used)
      modifies this`blocks, this`logged
      ensures r.None? <==> forall b :: l.nmeta <= b < l.size ==> b in used
      ensures r.None? ==> blocks == old(blocks) && logged == old(logged)
      ensures r.Some? ==>
        && l.nmeta <= r.value < l.size && r.value !in used
        && l.BBlock(r.value) < l.size && !Used(l, old(blocks), r.value)
        && blocks == Allocated(l, old(blocks), r.value)
        && logged == old(logged) + {l.BBlock(r.value), r.value}
        && forall b :: l.nmeta <= b < r.value ==> b in used
    {
      hide InUse, Mark;
      var b := 0;
      while b < l.size
        invariant b % BPB == 0 && blocks == old(blocks) && logged == old(logged)
        invariant forall x :: l.nmeta <= x < b && x < l.size ==> x in used
      {
        BBlockBound(l, b);
        var bp := blocks[l.BBlock(b)];
        var bi := 0;
        while bi < BPB && b + bi < l.size
          invariant 0 <= bi <= BPB && blocks == old(blocks) && logged == old(logged)
          invariant forall x :: l.nmeta <= x < b + bi && x < l.size ==> x in used
        {
          SameBitmapBlock(b, bi);
          assert MarkedAt(l, blocks, used, b + bi);
          if !InUse(bp, bi) {
            blocks := blocks[l.BBlock(b) := Mark(bp, bi)];
            logged := logged + {l.BBlock(b)};
            blocks := blocks[b + bi := ZeroBlock()];
            logged := logged + {b + bi};
            return Some(b + bi);
          }
          bi := bi + 1;
        }
        NextBitmapBlock(b);
        b := b + BPB;
      }
      r := None;
    }

    /** bfree; panics on a block that is already free. */
    method Bfree(b: nat) returns (panicked: bool)
      requires OnDisk(l, blocks) && b < l.size
      modifies this`blocks, this`logged
      ensures l.BBlock(b) < l.size && panicked == !Used(l, old(blocks), b)
      ensures panicked ==> blocks == old(blocks)
      ensures !panicked ==>
        && blocks == old(blocks)[l.BBlock(b) := Unmark(old(blocks)[l.BBlock(b)], b % BPB)]
        && logged == old(logged) + {l.BBlock(b)}
    {
      BBlockBound(l, b);
      var bp := blocks[l.BBlock(b)];
      if !InUse(bp, b % BPB) {
        return true;
      }
      blocks := blocks[l.BBlock(b) := Unmark(bp, b % BPB)];
      logged := logged + {l.BBlock(b)};
      panicked := false;
    }

    // ---------------------------------------------------------------- block maps

    /** Every block that has changed has been passed to log_write. */
    twostate predicate Logs()
      reads this
    {
      AllLogged(old(blocks), blocks, old(logged), logged)
    }

    /** Blocks that mapping a file block to a may log: bitmap blocks, a, and the indirect block. */
    ghost predicate MapLogs(i: nat, a: nat, b: nat)
      reads this
    {
      l.IsBitmap(b) || b == a || (Indirect(inodes, i) != 0 && b == Indirect(inodes, i))
    }

    /** The contract shared by bmap and its parts: slot s of an inode ends up holding r.value. */
    twostate predicate Mapped(s: Slot, new r: Option<nat>)
      reads this
    {
      && |inodes| == |old(inodes)| && Logs()
      && (r.None? ==> forall b :: l.nmeta <= b < l.size ==> b in owner)
      && (r.Some? ==>
           && Good() && Grown(old(blocks), old(inodes), old(owner), blocks, inodes, owner)
           && r.value != 0 && Addr(blocks, inodes, s) == r.value && r.value in owner && owner[r.value] == s
           && (forall x :: 0 <= x < |inodes| && x != s.inum ==> inodes[x] == old(inodes)[x])
           && (forall b :: b in logged ==> b in old(logged) || MapLogs(s.inum, r.value, b)))
    }

    /** The number in addrs[pos], allocated if there is none yet. */
    method MapAddr(i: nat, pos: nat) returns (r: Option<nat>)
      requires Good() && i < |inodes| && pos <= NDIRECT
      modifies this`blocks, this`inodes, this`owner, this`logged
      ensures Mapped(Slot(i, pos), r)
      ensures r.Some? ==> Linked(old(blocks), old(inodes), blocks, inodes, Slot(i, pos), r.value)
      ensures old(inodes[i].addrs[pos]) != 0 ==>
        r.Some? && blocks == old(blocks) && inodes == old(inodes) && owner == old(owner) && logged == old(logged)
      ensures r.Some? && old(inodes[i].addrs[pos]) == 0 ==> blocks[r.value] == ZeroBlock()
    {
      hide Addr, InUse, Allocated, AllLogged;
      NothingLogged(blocks, logged);
      ghost var s := Slot(i, pos);
      var addr := inodes[i].addrs[pos];
      AddrDirect(blocks, inodes, s);
      GrownSelf(blocks, inodes, owner);
      assert OwnedAt(blocks, inodes, owner, s);
      if addr == 0 {
        r := Balloc(owner.Keys);
        if r.None? {
          return;
        }
        addr := r.value;
        AllocatedLogged(l, old(blocks), old(logged), addr);
        DirectMapped(l, old(blocks), inodes, owner, s, addr);
        BBlockBound(l, addr);
        inodes := SetAddr(inodes, i, pos, addr);
        owner := owner[addr := s];
      }
      r := Some(addr);
    }

    /** Word j of the indirect block, allocated if there is none yet. */
    method MapIndirect(i: nat, j: nat) returns (r: Option<nat>)
      requires Good() && i < |inodes| && j < NINDIRECT && Indirect(inodes, i) != 0
      modifies this`blocks, this`owner, this`logged
      ensures Mapped(Slot(i, NDIRECT + 1 + j), r)
      ensures old(Addr(blocks, inodes, Slot(i, NDIRECT + 1 + j))) != 0 ==>
        r.Some? && blocks == old(blocks) && owner == old(owner) && logged == old(logged)
      ensures r.Some? && old(Addr(blocks, inodes, Slot(i, NDIRECT + 1 + j))) == 0 ==> blocks[r.value] == ZeroBlock()
    {
      hide Addr, GetWord, PutWord, InUse, Allocated, AllLogged;
      NothingLogged(blocks, logged);
      ghost var s := Slot(i, NDIRECT + 1 + j);
      var ind := inodes[i].addrs[NDIRECT];
      AddrIndirect(l, blocks, inodes, owner, i, j);
      GrownSelf(blocks, inodes, owner);
      assert OwnedAt(blocks, inodes, owner, s);
      var addr: nat := GetWord(blocks[ind], j);
      if addr == 0 {
        r := Balloc(owner.Keys);
        if r.None? {
          return;
        }
        addr := r.value;
        AllocatedLogged(l, old(blocks), old(logged), addr);
        label L:
        IndirectMapped(l, old(blocks), inodes, owner, i, j, addr);
        BBlockBound(l, addr);
        blocks := blocks[ind := PutWord(blocks[ind], j, addr)];
        logged := logged + {ind};
        OneLogged(old@L(blocks), old@L(logged), ind, blocks[ind]);
        LoggedTwice(old(blocks), old(logged), old@L(blocks), old@L(logged), blocks, logged);
        owner := owner[addr := s];
      }
      r := Some(addr);
    }

    /** bmap: the disk block of file block bn, allocating it and the indirect block as needed.
        None is a panic: bn out of range, or the disk is full. */
    method Bmap(i: nat, bn: nat) returns (r: Option<nat>)
      requires Good() && i < |inodes|
      modifies this`blocks, this`inodes, this`owner, this`logged
      ensures Logs()
      ensures bn >= MAXFILE ==> r.None?
      ensures bn < MAXFILE ==> Mapped(Slot(i, Pos(bn)), r)
      ensures r.Some? ==> FileBlock(blocks, inodes, i, bn) == r.value != 0
      ensures old(FileBlock(blocks, inodes, i, bn)) != 0 ==>
        r.Some? && blocks == old(blocks) && inodes == old(inodes) && owner == old(owner) && logged == old(logged)
      ensures r.Some? && old(FileBlock(blocks, inodes, i, bn)) == 0 ==> blocks[r.value] == ZeroBlock()
    {
      hide GetWord, Consistent, Owns, Grown, AllLogged;
      NothingLogged(blocks, logged);
      assert |inodes[i].addrs| == NDIRECT + 1 by { AddrsLength(l, blocks, inodes, owner, i); }
      if bn < NDIRECT {
        r := MapAddr(i, bn);
        return;
      }
      if bn - NDIRECT < NINDIRECT {
        r := MapAddr(i, NDIRECT);
        if r.None? {
          return;
        }
        label L:
        AddrsLength(l, blocks, inodes, owner, i);
        r := MapIndirect(i, bn - NDIRECT);
        LoggedTwice(old(blocks), old(logged), old@L(blocks), old@L(logged), blocks, logged);
        if r.Some? {
          GrownTwice(old(blocks), old(inodes), old(owner), old@L(blocks), inodes, old@L(owner), blocks, inodes, owner);
        }
        return;
      }
      r := None;
    }


    // ---------------------------------------------------------------- truncation

    /** bfree of a block in use. */
    method FreeUsed(a: nat, ghost used: set<nat>)
      requires Owns(l, blocks, inodes, owner) && Marked(l, blocks, used) && a in used
      modifies this`blocks, this`logged
      ensures Owns(l, blocks, inodes, owner) && Marked(l, blocks, used - {a})
      ensures SameData(l, old(blocks), blocks) && Logs()
      ensures forall s: Slot :: Addr(blocks, inodes, s) == old(Addr(blocks, inodes, s))
    {
      hide Addr, InUse, Unmark;
      FreedOwns(l, blocks, inodes, owner, used, a);
      var panicked := Bfree(a);
      assert !panicked;
    }

    /** One round of itrunc's first loop. */
    method FreeDirect(i: nat, pos: nat)
      requires Good() && i < |inodes| && pos < NDIRECT
      modifies this`blocks, this`inodes, this`owner, this`logged
      ensures Good() && SameData(l, old(blocks), blocks) && Logs()
      ensures inodes == SetAddr(old(inodes), i, pos, 0) && owner == Without(old(owner), i, pos, pos + 1)
    {
      hide Addr, Marked, Without, SetAddr, AllLogged;
      NothingLogged(blocks, logged);
      ghost var s := Slot(i, pos);
      AddrDirect(blocks, inodes, s);
      WithoutStep(l, blocks, inodes, owner, i, pos, pos, pos, pos + 1, pos);
      WithoutNone(l, blocks, inodes, owner, i, pos, pos);
      if inodes[i].addrs[pos] != 0 {
        FreeUsed(inodes[i].addrs[pos], owner.Keys);
        Unlink(l, blocks, inodes, owner, i, pos);
        inodes := SetAddr(inodes, i, pos, 0);
        owner := Without(owner, i, pos, pos + 1);
      } else {
        WithoutNone(l, blocks, inodes, owner, i, pos, pos + 1);
        SetAddrSame(inodes, i, pos);
      }
    }

    method TruncDirect(i: nat)
      requires Good() && i < |inodes|
      modifies this`blocks, this`inodes, this`owner, this`logged
      ensures Good() && SameData(l, old(blocks), blocks) && Logs()
      ensures owner == Without(old(owner), i, 0, NDIRECT)
      ensures |inodes| == |old(inodes)| && inodes[i].size == old(inodes)[i].size && |inodes[i].addrs| == NDIRECT + 1
      ensures forall x :: 0 <= x < |inodes| && x != i ==> inodes[x] == old(inodes)[x]
      ensures forall p :: 0 <= p < NDIRECT ==> inodes[i].addrs[p] == 0
      ensures inodes[i].addrs[NDIRECT] == old(inodes)[i].addrs[NDIRECT]
    {
      hide Consistent, Without, AllLogged;
      NothingLogged(blocks, logged);
      AddrsLength(l, blocks, inodes, owner, i);
      WithoutEmpty(owner, i, 0);
      var pos := 0;
      while pos < NDIRECT
        invariant 0 <= pos <= NDIRECT && Logs()
        invariant Good() && SameData(l, old(blocks), blocks) && owner == Without(old(owner), i, 0, pos)
        invariant |inodes| == |old(inodes)| && inodes[i].size == old(inodes)[i].size && |inodes[i].addrs| == NDIRECT + 1
        invariant forall x :: 0 <= x < |inodes| && x != i ==> inodes[x] == old(inodes)[x]
        invariant forall p :: 0 <= p < pos ==> inodes[i].addrs[p] == 0
        invariant inodes[i].addrs[NDIRECT] == old(inodes)[i].addrs[NDIRECT]
      {
        label L:
        FreeDirect(i, pos);
        LoggedTwice(old(blocks), old(logged), old@L(blocks), old@L(logged), blocks, logged);
        WithoutJoin(old(owner), i, 0, pos, pos + 1);
        pos := pos + 1;
      }
    }

    method TruncIndirect(i: nat)
      requires Good() && i < |inodes| && Indirect(inodes, i) != 0
      modifies this`blocks, this`inodes, this`owner, this`logged
      ensures Good() && SameData(l, old(blocks), blocks) && Logs()
      ensures inodes == SetAddr(old(inodes), i, NDIRECT, 0)
      ensures owner == Without(old(owner), i, NDIRECT, NDIRECT + 1 + NINDIRECT)
    {
      hide Marked, Without, GetWord, AllLogged;
      NothingLogged(blocks, logged);
      var ind := inodes[i].addrs[NDIRECT];
      ghost var lo := NDIRECT + 1;
      assert OwnedAt(blocks, inodes, owner, Slot(i, NDIRECT));
      var bp := blocks[ind];
      WithoutEmpty(owner, i, lo);
      var j := 0;
      while j < NINDIRECT
        invariant 0 <= j <= NINDIRECT && Logs()
        invariant inodes == old(inodes) && owner == old(owner) && SameData(l, old(blocks), blocks)
        invariant Owns(l, blocks, inodes, owner) && Marked(l, blocks, Without(owner, i, lo, lo + j).Keys)
      {
        assert Addr(blocks, inodes, Slot(i, lo + j)) == GetWord(bp, j);
        WithoutStep(l, blocks, inodes, owner, i, lo, lo + j, lo, lo + j + 1, lo + j);
        if GetWord(bp, j) != 0 {
          label L:
          FreeUsed(GetWord(bp, j), Without(owner, i, lo, lo + j).Keys);
          LoggedTwice(old(blocks), old(logged), old@L(blocks), old@L(logged), blocks, logged);
        } else {
          ZeroUnowned(l, blocks, inodes, owner, i, lo, lo + j);
        }
        j := j + 1;
      }
      WithoutStep(l, blocks, inodes, owner, i, lo, lo + NINDIRECT, NDIRECT, lo + NINDIRECT, NDIRECT);
      label M:
      FreeUsed(ind, Without(owner, i, lo, lo + NINDIRECT).Keys);
      LoggedTwice(old(blocks), old(logged), old@M(blocks), old@M(logged), blocks, logged);
      Unlink(l, blocks, inodes, owner, i, NDIRECT);
      inodes := SetAddr(inodes, i, NDIRECT, 0);
      owner := Without(owner, i, NDIRECT, lo + NINDIRECT);
    }

    /** itrunc: every block of file i is freed, each exactly once, and nothing else changes; the
        panic in bfree cannot happen.  Every block changed is logged, the inode's included. */
    method Itrunc(i: nat)
      requires Valid() && i < |inodes|
      modifies this`blocks, this`inodes, this`owner, this`logged
      ensures Valid() && |inodes| == |old(inodes)| && Logs() && l.IBlock(i) in logged
      ensures inodes[i] == Inode(seq(NDIRECT + 1, _ => 0), 0)
      ensures owner == Without(old(owner), i, 0, NDIRECT + 1 + NINDIRECT)
      ensures forall x :: 0 <= x < |inodes| && x != i ==>
        inodes[x] == old(inodes)[x]
        && Contents(blocks, inodes, x, inodes[x].size) == old(Contents(blocks, inodes, x, inodes[x].size))
    {
      hide Consistent, Without, Solid, Contents, AllLogged;
      TruncDirect(i);
      label L:
      WithoutJoin(old(owner), i, 0, NDIRECT, NDIRECT + 1 + NINDIRECT);
      AddrsLength(l, blocks, inodes, owner, i);
      if inodes[i].addrs[NDIRECT] != 0 {
        TruncIndirect(i);
        LoggedTwice(old(blocks), old(logged), old@L(blocks), old@L(logged), blocks, logged);
      } else {
        NoIndirect(l, blocks, inodes, owner, i);
      }
      ghost var inodes1, logged1 := inodes, logged;
      inodes := inodes[i := inodes[i].(size := 0)];
      logged := logged + {l.IBlock(i)};
      MoreLogged(old(blocks), old(logged), blocks, logged1, l.IBlock(i));
      SizeChanged(l, blocks, inodes1, owner, i, 0);
      assert inodes[i].addrs == seq(NDIRECT + 1, _ => 0);
      forall x | 0 <= x < |inodes|
        ensures Solid(blocks, inodes, x, inodes[x].size)
        ensures x != i ==>
          Contents(blocks, inodes, x, inodes[x].size) == old(Contents(blocks, inodes, x, inodes[x].size))
      {
        if x == i {
          EmptySolid(blocks, inodes, i);
        } else {
          UntouchedGood(l, old(blocks), old(inodes), old(owner), blocks, inodes, x);
        }
      }
    }

    // ---------------------------------------------------------------- reading and writing

    ghost function File(i: nat): (c: seq<Byte>)
      requires i < |inodes|
      reads this
    {
      Contents(blocks, inodes, i, inodes[i].size)
    }

    /** readi's loop; it stops at the first chunk whose copy faults. */
    method ReadLoop(i: nat, off: nat, n: nat, faults: set<nat>) returns (ok: bool, out: seq<Byte>)
      requires Valid() && i < |inodes| && off + n <= inodes[i].size
      modifies this`blocks, this`inodes, this`owner, this`logged
      ensures blocks == old(blocks) && inodes == old(inodes) && owner == old(owner) && logged == old(logged)
      ensures |out| <= n && out == File(i)[off..off + |out|]
      ensures forall f :: f in faults && ChunkStart(off, n, f) ==> off + |out| <= f
      ensures if ok then |out| == n else off + |out| in faults && ChunkStart(off, n, off + |out|)
    {
      hide Consistent, Solid, Contents, FileBlock, Mapped, ChunkSize;
      ghost var c := File(i);
      out := [];
      var tot := 0;
      while tot < n
        invariant blocks == old(blocks) && inodes == old(inodes) && owner == old(owner) && logged == old(logged)
        invariant 0 <= tot <= n && tot == |out| && out == c[off..off + tot]
        invariant tot == n || tot == 0 || (off + tot) % BSIZE == 0
        invariant forall f :: f in faults && ChunkStart(off, n, f) ==> off + tot <= f
      {
        var at := off + tot;
        SolidAt(blocks, inodes, i, inodes[i].size, at);
        var r := Bmap(i, at / BSIZE);
        var m := ChunkSize(at, n - tot);
        if at in faults {
          return false, out;
        }
        NextChunk(off, n, at, faults);
        BlockSlice(l, blocks, inodes, owner, i, inodes[i].size, at, m);
        SliceNext(c, off, tot, m);
        out := out + blocks[r.value][at % BSIZE..at % BSIZE + m];
        tot := tot + m;
      }
      ok := true;
    }

    /** readi: the requested slice clipped to the size; copying out fails (result -1) exactly when
        a chunk starts at one of the positions in faults.  Nothing is allocated. */
    method Readi(i: nat, off: Word, n: Word, faults: set<nat>) returns (ret: int, out: seq<Byte>)
      requires Valid() && i < |inodes|
      modifies this`blocks, this`inodes, this`owner, this`logged
      ensures blocks == old(blocks) && inodes == old(inodes) && owner == old(owner) && logged == old(logged)
      ensures var want := Clipped(inodes[i].size, off, n);
        && (ret == -1 <==> exists f :: f in faults && ChunkStart(off, want, f))
        && (ret != -1 ==> ret == want == |out|)
        && |out| <= want && (off <= inodes[i].size ==> out == File(i)[off..off + |out|])
    {
      hide Consistent, Solid, Contents;
      if off > inodes[i].size || off + n >= 0x1_0000_0000 {
        return 0, [];
      }
      var n' := if off + n > inodes[i].size then inodes[i].size - off else n;
      var ok;
      ok, out := ReadLoop(i, off, n', faults);
      ret := if ok then |out| else -1;
    }

    /** One round of writei's loop: bmap, then the copy unless it faults.  None is a panic. */
    method WriteChunk(i: nat, at: nat, d: seq<Byte>, fault: bool, ghost len: nat) returns (r: Option<bool>)
      requires Good() && i < |inodes| && Solid(blocks, inodes, i, len) && Others(i)
      requires 0 < |d| && at % BSIZE + |d| <= BSIZE && at <= len && at + |d| <= MAXFILE * BSIZE
      modifies this`blocks, this`inodes, this`owner, this`logged
      ensures Logs()
      ensures r.None? ==> Full()
      ensures r.Some? ==>
        && r.value == !fault && Good() && Others(i) && OthersKept(i) && inodes[i].size == old(inodes[i].size)
        && Kept(old(blocks), old(inodes), blocks, inodes)
        && (forall b :: b in logged ==>
              b in old(logged) || WriteLogs(l, blocks, inodes, i, at / BSIZE, at / BSIZE, b))
      ensures r.Some? && fault ==>
        && Solid(blocks, inodes, i, len)
        && Contents(blocks, inodes, i, len) == old(Contents(blocks, inodes, i, len))
      ensures r.Some? && !fault ==>
        && Solid(blocks, inodes, i, Max(len, at + |d|))
        && Contents(blocks, inodes, i, Max(len, at + |d|)) == Splice(old(Contents(blocks, inodes, i, len)), at, d)
    {
      hide Consistent, Solid, Contents, Addr, AllLogged;
      var a := Bmap(i, at / BSIZE);
      if a.None? {
        return None;
      }
      label L:
      GrownFiles(l, old(blocks), old(inodes), old(owner), blocks, inodes, owner, i, len);
      assert LogsData(blocks, inodes, i, at / BSIZE, at / BSIZE, a.value);
      if fault {
        return Some(false);
      }
      assert a.value == FileBlock(blocks, inodes, i, at / BSIZE);
      ChunkFiles(l, blocks, inodes, owner, i, len, at, d);
      blocks := blocks[a.value := Patch(blocks[a.value], at % BSIZE, d)];
      logged := logged + {a.value};
      OneLogged(old@L(blocks), old@L(logged), a.value, blocks[a.value]);
      LoggedTwice(old(blocks), old(logged), old@L(blocks), old@L(logged), blocks, logged);
      assert FileBlock(blocks, inodes, i, at / BSIZE) == a.value;
      assert LogsData(blocks, inodes, i, at / BSIZE, at / BSIZE, a.value);
      r := Some(true);
    }

    /** writei's loop. */
    method WriteLoop(i: nat, off: nat, src: seq<Byte>, faults: set<nat>) returns (panicked: bool, tot: nat)
      requires Valid() && i < |inodes| && !Refused(inodes[i].size, off, |src|)
      modifies this`blocks, this`inodes, this`owner, this`logged
      ensures Logs()
      ensures panicked ==> Full()
      ensures !panicked ==>
        && tot <= |src| && Good() && Others(i) && OthersKept(i) && inodes[i].size == old(inodes[i].size)
        && Solid(blocks, inodes, i, Max(inodes[i].size, off + tot))
        && Contents(blocks, inodes, i, Max(inodes[i].size, off + tot)) == Splice(old(File(i)), off, src[..tot])
        && (forall f :: f in faults && ChunkStart(off, |src|, f) ==> off + tot <= f)
        && (tot < |src| ==> off + tot in faults)
        && (|src| > 0 ==> forall b :: b in logged ==>
              b in old(logged) || WriteLogs(l, blocks, inodes, i, off / BSIZE, (off + |src| - 1) / BSIZE, b))
    {
      hide Consistent, Solid, Contents, Addr, Splice, Kept, WriteLogs, ChunkSize, OnDisk, AllLogged;
      NothingLogged(blocks, logged);
      assert forall f :: ChunkStart(off, |src|, f) ==> off <= f;
      hide ChunkStart;
      ghost var size0 := inodes[i].size;
      ghost var last := if |src| > 0 then (off + |src| - 1) / BSIZE else 0;
      NothingSpliced(File(i), off);
      tot := 0;
      while tot < |src|
        invariant 0 <= tot <= |src| && i < |inodes| && size0 == inodes[i].size == old(inodes[i].size)
        invariant Good() && Others(i) && OthersKept(i) && Logs()
        invariant Solid(blocks, inodes, i, Max(size0, off + tot))
        invariant Contents(blocks, inodes, i, Max(size0, off + tot)) == Splice(old(File(i)), off, src[..tot])
        invariant tot == |src| || tot == 0 || (off + tot) % BSIZE == 0
        invariant forall f :: f in faults && ChunkStart(off, |src|, f) ==> off + tot <= f
        invariant forall b :: b in logged ==>
          b in old(logged) || WriteLogs(l, blocks, inodes, i, off / BSIZE, last, b)
      {
        var at := off + tot;
        var m := ChunkSize(at, |src| - tot);
        label L:
        var r := WriteChunk(i, at, src[tot..tot + m], at in faults, Max(size0, at));
        LoggedTwice(old(blocks), old(logged), old@L(blocks), old@L(logged), blocks, logged);
        if r.None? {
          return true, 0;
        }
        InRange(off, |src|, at);
        LogsJoined(l, old@L(blocks), old@L(inodes), blocks, inodes, i, off / BSIZE, at / BSIZE, last, old(logged),
                   old@L(logged), logged);
        if !r.value {
          break;
        }
        NextChunk(off, |src|, at, faults);
        SpliceNext(old(File(i)), off, src, tot, m);
        tot := tot + m;
      }
      panicked := false;
    }

    /** writei: refuses a range that starts past the end, wraps or exceeds MAXFILE blocks; otherwise
        the bytes up to the first faulting chunk replace exactly their range of the file, which
        grows to hold them, and every other file is as it was.  Every block changed is logged, and so
        is the inode. */
    method Writei(i: nat, off: Word, src: seq<Byte>, faults: set<nat>) returns (panicked: bool, ret: int)
      requires Valid() && i < |inodes| && |src| < 0x1_0000_0000
      modifies this`blocks, this`inodes, this`owner, this`logged
      ensures Logs() && (!panicked && ret != -1 ==> l.IBlock(i) in logged)
      ensures panicked ==> Full() && !Refused(old(inodes[i].size), off, |src|)
      ensures !panicked ==> Valid() && OthersKept(i)
      ensures !panicked ==> (ret == -1 <==> Refused(old(inodes[i].size), off, |src|))
      ensures ret == -1 ==> blocks == old(blocks) && inodes == old(inodes) && logged == old(logged)
      ensures !panicked && ret != -1 ==>
        && 0 <= ret <= |src| && inodes[i].size == Max(old(inodes[i].size), off + ret)
        && File(i) == Splice(old(File(i)), off, src[..ret])
        && (forall f :: f in faults && ChunkStart(off, |src|, f) ==> off + ret <= f)
        && (ret < |src| ==> off + ret in faults)
      ensures !panicked && |src| > 0 ==> forall b :: b in logged ==>
        b in old(logged) || WriteLogs(l, blocks, inodes, i, off / BSIZE, (off + |src| - 1) / BSIZE, b)
    {
      hide Consistent, Solid, Contents, Addr, Splice, AllLogged;
      NothingLogged(blocks, logged);
      if off > inodes[i].size || off + |src| >= 0x1_0000_0000 {
        return false, -1;
      }
      if off + |src| > MAXFILE * BSIZE {
        return false, -1;
      }
      var tot: nat;
      panicked, tot := WriteLoop(i, off, src, faults);
      if panicked {
        return true, 0;
      }
      ghost var inodes1, logged1 := inodes, logged;
      if off + tot > inodes[i].size {
        inodes := inodes[i := inodes[i].(size := off + tot)];
      }
      assert inodes == inodes1[i := inodes1[i].(size := Max(inodes1[i].size, off + tot))];
      SizeFiles(l, blocks, inodes1, owner, i, inodes[i].size);
      logged := logged + {l.IBlock(i)};
      MoreLogged(old(blocks), old(logged), blocks, logged1, l.IBlock(i));
      if |src| > 0 {
        InodeLogged(l, blocks, inodes1, inodes, i, off / BSIZE, (off + |src| - 1) / BSIZE, old(logged), logged1,
                    logged);
      }
      ret := tot;
    }

    /** One transaction of filewrite: begin_op, writei, end_op.  It logs what it changes. */
    method WriteOp(i: nat, off: Word, d: seq<Byte>, faults: set<nat>) returns (panicked: bool, r: int)
      requires Valid() && i < |inodes| && 0 < |d| <= MAXOPWRITE && l.size <= BPB
      modifies this`blocks, this`inodes, this`owner, this`logged
      ensures !panicked ==>
        |inodes| == |old(inodes)| && Covered(old(blocks), old(inodes[i]), blocks, inodes[i], l.IBlock(i), logged)
      ensures panicked ==> Full()
      ensures !panicked ==> Valid() && OthersKept(i) && |logged| <= 7 && -1 <= r <= |d|
      ensures !panicked ==> (r == -1 <==> Refused(old(inodes[i].size), off, |d|))
      ensures !panicked && 0 <= r < |d| ==> off + r in faults
      ensures !panicked && r <= 0 ==> File(i) == old(File(i))
      ensures !panicked && 0 < r ==>
        off <= |old(File(i))| && off + r <= MAXFILE * BSIZE && File(i) == Splice(old(File(i)), off, d[..r])
    {
      hide Sound, Contents, Addr, Splice, WriteLogs, ChunkStart, AllLogged;
      logged := {};
      panicked, r := Writei(i, off, d, faults);
      if !panicked {
        SevenBlocks(l, blocks, inodes, i, off / BSIZE, (off + |d| - 1) / BSIZE, logged);
        if r == 0 {
          NothingSpliced(old(File(i)), off);
        }
      }
    }

    /** filewrite on an inode: the buffer goes to writei in pieces of at most MAXOPWRITE bytes, one log
        transaction each.  ops lists the blocks each transaction logged; none logs more than seven, and
        whatever has changed is in one of them. */
    method FileWrite(i: nat, off0: Word, src: seq<Byte>, faults: set<nat>)
      returns (panicked: bool, ret: int, off: nat, ghost ops: seq<set<nat>>)
      requires Valid() && i < |inodes| && |src| < 0x8000_0000 && l.size <= BPB
      modifies this`blocks, this`inodes, this`owner, this`logged
      ensures forall k :: 0 <= k < |ops| ==> |ops[k]| <= 7
      ensures panicked ==> Full()
      ensures !panicked ==>
        |inodes| == |old(inodes)| && Covered(old(blocks), old(inodes[i]), blocks, inodes[i], l.IBlock(i), Union(ops))
      ensures !panicked ==>
        && Valid() && OthersKept(i) && off0 <= off <= off0 + |src|
        && ret == (if off - off0 == |src| then |src| else -1)
        && Written(old(File(i)), File(i), off0, src, off - off0)
        && (off - off0 < |src| ==>
              off in faults || Refused(inodes[i].size, off, OpBytes(off0 + |src| - off)))
    {
      hide Sound, Contents, Written, Covered, Refused, Union;
      NothingCovered(blocks, inodes[i], l.IBlock(i));
      ops, off := [], off0;
      WrittenNone(File(i), off0, src);
      var done := 0;
      while done < |src|
        invariant 0 <= done <= |src| && off == off0 + done && Valid() && OthersKept(i) && |inodes| == |old(inodes)|
        invariant forall k :: 0 <= k < |ops| ==> |ops[k]| <= 7
        invariant Covered(old(blocks), old(inodes[i]), blocks, inodes[i], l.IBlock(i), Union(ops))
        invariant Written(old(File(i)), File(i), off0, src, done) && (done > 0 ==> off <= MAXFILE * BSIZE)
      {
        label L:
        var n1 := OpBytes(|src| - done);
        var p, r := WriteOp(i, off, src[done..done + n1], faults);
        if p {
          return true, 0, off, ops;
        }
        OpsCover(old(blocks), old(inodes[i]), ops, old@L(blocks), old@L(inodes[i]), blocks, inodes[i], l.IBlock(i),
                 logged);
        ops := ops + [logged];
        WrittenNext(old(File(i)), old@L(File(i)), File(i), off0, src, done, n1, r);
        if r > 0 {
          off := off + r;
        }
        if r != n1 {
          break;
        }
        done := done + r;
      }
      panicked, ret := false, if done == |src| then |src| else -1;
    }

    ghost predicate Full()
      reads this
    {
      forall b :: l.nmeta <= b < l.size ==> b in owner
    }

    /** No file but i has a hole. */
    ghost predicate Others(i: nat)
      reads this
    {
      forall x :: 0 <= x < |inodes| && x != i ==> Solid(blocks, inodes, x, inodes[x].size)
    }

    /** Every file but i is as it was. */
    twostate predicate OthersKept(i: nat)
      reads this
    {
      && |inodes| == |old(inodes)|
      && forall x :: 0 <= x < |inodes| && x != i ==> inodes[x] == old(inodes)[x] && File(x) == old(File(x))
    }
  }

  // ---------------------------------------------------------------- what is logged

  /** The blocks that differ have been logged, and nothing has been taken out of the log. */
  ghost predicate AllLogged(blocks: seq<Block>, blocks': seq<Block>, logged: set<nat>, logged': set<nat>) {
    && |blocks'| == |blocks| && logged <= logged'
    && forall b :: 0 <= b < |blocks| && blocks'[b] != blocks[b] ==> b in logged'
  }

  lemma NothingLogged(blocks: seq<Block>, logged: set<nat>)
    ensures AllLogged(blocks, blocks, logged, logged)
  {
  }

  lemma MoreLogged(blocks: seq<Block>, logged: set<nat>, blocks': seq<Block>, logged': set<nat>, b: nat)
    requires AllLogged(blocks, blocks', logged, logged')
    ensures AllLogged(blocks, blocks', logged, logged' + {b})
  {
  }

  lemma OneLogged(blocks: seq<Block>, logged: set<nat>, b: nat, data: Block)
    requires b < |blocks|
    ensures AllLogged(blocks, blocks[b := data], logged, logged + {b})
  {
  }

  lemma LoggedTwice(b0: seq<Block>, l0: set<nat>, b1: seq<Block>, l1: set<nat>, b2: seq<Block>, l2: set<nat>)
    requires AllLogged(b0, b1, l0, l1) && AllLogged(b1, b2, l1, l2)
    ensures AllLogged(b0, b2, l0, l2)
  {
  }

  lemma AllocatedLogged(l: Layout, blocks: seq<Block>, logged: set<nat>, b: nat)
    requires OnDisk(l, blocks) && b < l.size && l.BBlock(b) < l.size && !Used(l, blocks, b)
    ensures AllLogged(blocks, Allocated(l, blocks, b), logged, logged + {l.BBlock(b), b})
  {
    hide InUse, Mark;
  }

  /** All that a sequence of transactions logged. */
  ghost function Union(ops: seq<set<nat>>): (s: set<nat>) {
    if ops == [] then {} else Union(ops[..|ops| - 1]) + ops[|ops| - 1]
  }

  lemma {:induction false} InUnion(ops: seq<set<nat>>, b: nat)
    ensures b in Union(ops) <==> exists k :: 0 <= k < |ops| && b in ops[k]
  {
    if ops != [] {
      InUnion(ops[..|ops| - 1], b);
      assert forall k :: 0 <= k < |ops| - 1 ==> ops[..|ops| - 1][k] == ops[k];
    }
  }

  /** logged has every block that has changed, and block ib if the inode has. */
  ghost predicate Covered(blocks: seq<Block>, ino: Inode, blocks': seq<Block>, ino': Inode, ib: nat, logged: set<nat>) {
    AllLogged(blocks, blocks', {}, logged) && (ino' != ino ==> ib in logged)
  }

  lemma NothingCovered(blocks: seq<Block>, ino: Inode, ib: nat)
    ensures Covered(blocks, ino, blocks, ino, ib, Union([]))
  {
  }

  lemma OpsCover(b0: seq<Block>, i0: Inode, ops: seq<set<nat>>, b1: seq<Block>, i1: Inode,
                 b2: seq<Block>, i2: Inode, ib: nat, logged: set<nat>)
    requires Covered(b0, i0, b1, i1, ib, Union(ops)) && Covered(b1, i1, b2, i2, ib, logged)
    ensures Covered(b0, i0, b2, i2, ib, Union(ops + [logged]))
  {
    assert (ops + [logged])[..|ops|] == ops;
  }

  /** bmap changes no file's contents. */
  lemma GrownFiles(l: Layout, blocks: seq<Block>, inodes: seq<Inode>, owner: map<nat, Slot>,
                   blocks': seq<Block>, inodes': seq<Inode>, owner': map<nat, Slot>, i: nat, len: nat)
    requires Consistent(l, blocks, inodes, owner) && Grown(blocks, inodes, owner, blocks', inodes', owner')
    requires Solid(blocks, inodes, i, len)
    requires forall x :: 0 <= x < |inodes| && x != i ==> Solid(blocks, inodes, x, inodes[x].size)
    ensures Solid(blocks', inodes', i, len) && Contents(blocks', inodes', i, len) == Contents(blocks, inodes, i, len)
    ensures forall x :: 0 <= x < |inodes| && x != i ==>
      && Solid(blocks', inodes', x, inodes[x].size)
      && Contents(blocks', inodes', x, inodes[x].size) == Contents(blocks, inodes, x, inodes[x].size)
  {
    hide Addr, Solid, Contents, Owns;
    GrownContents(l, blocks, inodes, owner, blocks', inodes', owner', i, len);
    forall x | 0 <= x < |inodes| && x != i
      ensures Solid(blocks', inodes', x, inodes[x].size)
      ensures Contents(blocks', inodes', x, inodes[x].size) == Contents(blocks, inodes, x, inodes[x].size)
    {
      GrownContents(l, blocks, inodes, owner, blocks', inodes', owner', x, inodes[x].size);
    }
  }

  /** A chunk written into file i: i holds it, the others are as they were. */
  lemma ChunkFiles(l: Layout, blocks: seq<Block>, inodes: seq<Inode>, owner: map<nat, Slot>,
                   i: nat, len: nat, at: nat, d: seq<Byte>)
    requires Consistent(l, blocks, inodes, owner) && FileBlock(blocks, inodes, i, at / BSIZE) != 0
    requires 0 < |d| && at % BSIZE + |d| <= BSIZE && at <= len && at + |d| <= MAXFILE * BSIZE
    requires Solid(blocks, inodes, i, len)
    requires forall x :: 0 <= x < |inodes| && x != i ==> Solid(blocks, inodes, x, inodes[x].size)
    ensures FileBlock(blocks, inodes, i, at / BSIZE) < |blocks|
    ensures var a := FileBlock(blocks, inodes, i, at / BSIZE);
      var blocks' := blocks[a := Patch(blocks[a], at % BSIZE, d)];
      && Consistent(l, blocks', inodes, owner)
      && (forall s: Slot :: Addr(blocks', inodes, s) == Addr(blocks, inodes, s))
      && Solid(blocks', inodes, i, Max(len, at + |d|))
      && Contents(blocks', inodes, i, Max(len, at + |d|)) == Splice(Contents(blocks, inodes, i, len), at, d)
      && forall x :: 0 <= x < |inodes| && x != i ==>
           && Solid(blocks', inodes, x, inodes[x].size)
           && Contents(blocks', inodes, x, inodes[x].size) == Contents(blocks, inodes, x, inodes[x].size)
  {
    hide Addr, Solid, Contents, Marked;
    var a := FileBlock(blocks, inodes, i, at / BSIZE);
    assert OwnedAt(blocks, inodes, owner, Slot(i, Pos(at / BSIZE)));
    DataWrite(l, blocks, inodes, owner, a, Patch(blocks[a], at % BSIZE, d));
    MarkedKept(l, blocks, owner.Keys, a, Patch(blocks[a], at % BSIZE, d));
    ChunkSpliced(l, blocks, inodes, owner, i, len, at, d);
    var blocks' := blocks[a := Patch(blocks[a], at % BSIZE, d)];
    forall x | 0 <= x < |inodes| && x != i
      ensures Solid(blocks', inodes, x, inodes[x].size)
      ensures Contents(blocks', inodes, x, inodes[x].size) == Contents(blocks, inodes, x, inodes[x].size)
    {
      ChunkElsewhere(l, blocks, inodes, owner, i, at, d, x, inodes[x].size);
    }
  }

  predicate Refused(size: nat, off: nat, n: nat) {
    off > size || off + n >= 0x1_0000_0000 || off + n > MAXFILE * BSIZE
  }

  const MAXOPBLOCKS := 10

  /** The most bytes filewrite hands to one transaction. */
  const MAXOPWRITE := (MAXOPBLOCKS - 1 - 1 - 2) / 2 * BSIZE

  /** The bytes of the next transaction when left bytes are still to be written. */
  function OpBytes(left: nat): nat {
    if left > MAXOPWRITE then MAXOPWRITE else left
  }

  /** A bitmap block, an inode block, an indirect block and at most four data blocks. */
  lemma SevenBlocks(l: Layout, blocks: seq<Block>, inodes: seq<Inode>, i: nat, first: nat, last: nat, logged: set<nat>)
    requires l.size <= BPB && last <= first + 3
    requires forall b :: b in logged ==> WriteLogs(l, blocks, inodes, i, first, last, b)
    ensures |logged| <= 7
  {
    hide Addr;
    var all := {l.bmapStart, l.IBlock(i), Indirect(inodes, i),
                FileBlock(blocks, inodes, i, first), FileBlock(blocks, inodes, i, first + 1),
                FileBlock(blocks, inodes, i, first + 2), FileBlock(blocks, inodes, i, first + 3)};
    forall b | b in logged ensures b in all {
      if l.IsBitmap(b) {
        OneBitmapBlock(l, b);
      } else if LogsData(blocks, inodes, i, first, last, b) {
        var bn: nat :| first <= bn <= last && b == FileBlock(blocks, inodes, i, bn);
        assert bn == first || bn == first + 1 || bn == first + 2 || bn == first + 3;
      }
    }
    SubsetSize(logged, all);
  }

  lemma FileSpliced(s: seq<Byte>, at: nat, src: seq<Byte>, done: nat, n: nat, r: nat)
    requires at <= |s| && r <= n && done + n <= |src|
    ensures Splice(s, at, src[..0]) == s
    ensures Splice(Splice(s, at, src[..done]), at + done, src[done..done + n][..r]) == Splice(s, at, src[..done + r])
  {
    assert src[done..done + n][..r] == src[done..done + r];
    SpliceNext(s, at, src, done, r);
  }

  /** c is c0 with the first n bytes of src written at at; writing nothing is always possible. */
  ghost predicate Written(c0: seq<Byte>, c: seq<Byte>, at: nat, src: seq<Byte>, n: nat)
    requires n <= |src|
  {
    if n == 0 then c == c0 else at <= |c0| && c == Splice(c0, at, src[..n])
  }

  lemma WrittenNone(c: seq<Byte>, at: nat, src: seq<Byte>)
    ensures Written(c, c, at, src, 0)
  {
  }

  lemma WrittenNext(c0: seq<Byte>, c: seq<Byte>, c': seq<Byte>, at: nat, src: seq<Byte>, done: nat, n: nat, r: int)
    requires done + n <= |src| && r <= n && Written(c0, c, at, src, done)
    requires if r <= 0 then c' == c else at + done <= |c| && c' == Splice(c, at + done, src[done..done + n][..r])
    ensures Written(c0, c', at, src, if r <= 0 then done else done + r)
  {
    hide Splice;
    if r > 0 {
      FileSpliced(c0, at, src, done, n, r);
    }
  }

  lemma OneBitmapBlock(l: Layout, b: nat)
    requires l.size <= BPB && l.IsBitmap(b)
    ensures b == l.bmapStart
  {
    var x: nat :| x < l.size && b == l.BBlock(x);
  }

  lemma {:induction false} SubsetSize(a: set<nat>, b: set<nat>)
    requires a <= b
    ensures |a| <= |b|
  {
    if a != {} {
      var x :| x in a;
      SubsetSize(a - {x}, b - {x});
    }
  }

  lemma InRange(off: nat, n: nat, at: nat)
    requires off <= at < off + n
    ensures off / BSIZE <= at / BSIZE <= (off + n - 1) / BSIZE
  {
  }

  lemma NothingSpliced(s: seq<Byte>, at: nat)
    requires at <= |s|
    ensures Splice(s, at, []) == s
  {
  }

  /** The blocks logged so far are still among those the whole write may log. */
  lemma LogsJoined(l: Layout, blocks: seq<Block>, inodes: seq<Inode>, blocks': seq<Block>, inodes': seq<Inode>,
                   i: nat, first: nat, mid: nat, last: nat, log0: set<nat>, log1: set<nat>, log2: set<nat>)
    requires Kept(blocks, inodes, blocks', inodes') && first <= mid <= last
    requires forall b :: b in log1 ==> b in log0 || WriteLogs(l, blocks, inodes, i, first, last, b)
    requires forall b :: b in log2 ==> b in log1 || WriteLogs(l, blocks', inodes', i, mid, mid, b)
    ensures forall b :: b in log2 ==> b in log0 || WriteLogs(l, blocks', inodes', i, first, last, b)
  {
    hide WriteLogs, Kept;
    forall b | b in log2 && b !in log0 ensures WriteLogs(l, blocks', inodes', i, first, last, b) {
      if b in log1 {
        LogsKept(l, blocks, inodes, blocks', inodes', i, first, last, b);
      } else {
        LogsWider(l, blocks', inodes', i, first, mid, last, b);
      }
    }
  }

  /** Bytes readi has to deliver. */
  function Clipped(size: nat, off: nat, n: nat): (want: nat)
    ensures off <= size ==> off + want <= size
  {
    if off > size || off + n >= 0x1_0000_0000 then 0 else if off + n > size then size - off else n
  }

  lemma SliceNext(c: seq<Byte>, off: nat, tot: nat, m: nat)
    requires off + tot + m <= |c|
    ensures c[off..off + tot] + c[off + tot..off + tot + m] == c[off..off + tot + m]
  {
  }

  lemma FileBlockBound(l: Layout, blocks: seq<Block>, inodes: seq<Inode>, owner: map<nat, Slot>, i: nat, bn: nat)
    requires Consistent(l, blocks, inodes, owner) && FileBlock(blocks, inodes, i, bn) != 0
    ensures FileBlock(blocks, inodes, i, bn) < |blocks|
  {
    assert OwnedAt(blocks, inodes, owner, Slot(i, Pos(bn)));
  }

  /** A piece of a data block is the piece of the file there. */
  lemma BlockSlice(l: Layout, blocks: seq<Block>, inodes: seq<Inode>, owner: map<nat, Slot>,
                   i: nat, len: nat, at: nat, m: nat)
    requires Consistent(l, blocks, inodes, owner) && Solid(blocks, inodes, i, len)
    requires at < len && at + m <= len && at % BSIZE + m <= BSIZE
    ensures var a := FileBlock(blocks, inodes, i, at / BSIZE);
      && a < |blocks|
      && Contents(blocks, inodes, i, len)[at..at + m] == blocks[a][at % BSIZE..at % BSIZE + m]
  {
    hide Addr;
    SolidAt(blocks, inodes, i, len, at);
    FileBlockBound(l, blocks, inodes, owner, i, at / BSIZE);
    forall k | at <= k < at + m
      ensures FileByte(blocks, inodes, i, k) == blocks[FileBlock(blocks, inodes, i, at / BSIZE)][k - at + at % BSIZE]
    {
      SameBlock(at, m, k);
    }
  }

  lemma SetAddrSame(inodes: seq<Inode>, i: nat, pos: nat)
    requires i < |inodes| && pos < |inodes[i].addrs| && inodes[i].addrs[pos] == 0
    ensures SetAddr(inodes, i, pos, 0) == inodes
  {
    assert inodes[i].addrs[pos := 0] == inodes[i].addrs;
  }

  lemma AddrIndirect(l: Layout, blocks: seq<Block>, inodes: seq<Inode>, owner: map<nat, Slot>, i: nat, j: nat)
    requires Owns(l, blocks, inodes, owner) && i < |inodes| && j < NINDIRECT && Indirect(inodes, i) != 0
    ensures l.nmeta <= Indirect(inodes, i) < l.size
    ensures Addr(blocks, inodes, Slot(i, NDIRECT + 1 + j)) == GetWord(blocks[Indirect(inodes, i)], j)
  {
    assert OwnedAt(blocks, inodes, owner, Slot(i, NDIRECT));
  }

  lemma GrownSelf(blocks: seq<Block>, inodes: seq<Inode>, owner: map<nat, Slot>)
    ensures Grown(blocks, inodes, owner, blocks, inodes, owner)
  {
  }

  lemma AddrDirect(blocks: seq<Block>, inodes: seq<Inode>, s: Slot)
    requires SlotOk(inodes, s) && s.pos <= NDIRECT
    ensures Addr(blocks, inodes, s) == inodes[s.inum].addrs[s.pos]
  {
  }

  lemma WithoutEmpty(owner: map<nat, Slot>, i: nat, lo: nat)
    ensures Without(owner, i, lo, lo) == owner
  {
  }

  lemma ZeroUnowned(l: Layout, blocks: seq<Block>, inodes: seq<Inode>, owner: map<nat, Slot>, i: nat, lo: nat, hi: nat)
    requires Owns(l, blocks, inodes, owner)
    ensures Without(owner, i, lo, hi).Keys - {0} == Without(owner, i, lo, hi).Keys
  {
  }

  lemma NoIndirect(l: Layout, blocks: seq<Block>, inodes: seq<Inode>, owner: map<nat, Slot>, i: nat)
    requires Consistent(l, blocks, inodes, owner) && i < |inodes| && Indirect(inodes, i) == 0
    ensures Without(owner, i, NDIRECT, NDIRECT + 1 + NINDIRECT) == owner
  {
    WithoutNone(l, blocks, inodes, owner, i, NDIRECT, NDIRECT + 1 + NINDIRECT);
  }

  lemma SizeChanged(l: Layout, blocks: seq<Block>, inodes: seq<Inode>, owner: map<nat, Slot>, i: nat, size: nat)
    requires Consistent(l, blocks, inodes, owner) && i < |inodes|
    ensures Consistent(l, blocks, inodes[i := inodes[i].(size := size)], owner)
    ensures forall s: Slot :: Addr(blocks, inodes[i := inodes[i].(size := size)], s) == Addr(blocks, inodes, s)
  {
    hide GetWord;
    var inodes' := inodes[i := inodes[i].(size := size)];
    forall s: Slot
      ensures Addr(blocks, inodes', s) == Addr(blocks, inodes, s)
      ensures OwnedAt(blocks, inodes', owner, s)
    {
      assert OwnedAt(blocks, inodes, owner, s);
    }
  }

  lemma SizeFiles(l: Layout, blocks: seq<Block>, inodes: seq<Inode>, owner: map<nat, Slot>, i: nat, size: nat)
    requires Consistent(l, blocks, inodes, owner) && i < |inodes|
    ensures var inodes' := inodes[i := inodes[i].(size := size)];
      && Consistent(l, blocks, inodes', owner) && Kept(blocks, inodes, blocks, inodes')
      && (forall x, len :: Solid(blocks, inodes', x, len) == Solid(blocks, inodes, x, len))
      && (forall x, len :: Contents(blocks, inodes', x, len) == Contents(blocks, inodes, x, len))
  {
    hide Addr, Consistent;
    SizeChanged(l, blocks, inodes, owner, i, size);
    var inodes' := inodes[i := inodes[i].(size := size)];
    forall x, len ensures Contents(blocks, inodes', x, len) == Contents(blocks, inodes, x, len) {
      assert forall k :: FileByte(blocks, inodes', x, k) == FileByte(blocks, inodes, x, k);
    }
    forall x, len ensures Solid(blocks, inodes', x, len) == Solid(blocks, inodes, x, len) {
      assert forall bn :: FileBlock(blocks, inodes', x, bn) == FileBlock(blocks, inodes, x, bn);
    }
  }

  lemma InodeLogged(l: Layout, blocks: seq<Block>, inodes: seq<Inode>, inodes': seq<Inode>,
                    i: nat, first: nat, last: nat, log0: set<nat>, log1: set<nat>, log2: set<nat>)
    requires Kept(blocks, inodes, blocks, inodes') && log2 == log1 + {l.IBlock(i)}
    requires forall b :: b in log1 ==> b in log0 || WriteLogs(l, blocks, inodes, i, first, last, b)
    ensures forall b :: b in log2 ==> b in log0 || WriteLogs(l, blocks, inodes', i, first, last, b)
  {
    hide Kept, LogsData;
    forall b | b in log1 && b !in log0 ensures WriteLogs(l, blocks, inodes', i, first, last, b) {
      LogsKept(l, blocks, inodes, blocks, inodes', i, first, last, b);
    }
  }

  lemma EmptySolid(blocks: seq<Block>, inodes: seq<Inode>, i: nat)
    ensures Solid(blocks, inodes, i, 0)
  {
  }

  lemma UntouchedGood(l: Layout, blocks: seq<Block>, inodes: seq<Inode>, owner: map<nat, Slot>,
                      blocks': seq<Block>, inodes': seq<Inode>, x: nat)
    requires Consistent(l, blocks, inodes, owner) && SameData(l, blocks, blocks')
    requires x < |inodes| == |inodes'| && inodes'[x] == inodes[x] && Solid(blocks, inodes, x, inodes[x].size)
    ensures Solid(blocks', inodes', x, inodes[x].size)
    ensures Contents(blocks', inodes', x, inodes[x].size) == Contents(blocks, inodes, x, inodes[x].size)
  {
    UntouchedFile(l, blocks, inodes, owner, blocks', inodes', x, inodes[x].size);
  }

  lemma AddrsLength(l: Layout, blocks: seq<Block>, inodes: seq<Inode>, owner: map<nat, Slot>, i: nat)
    requires Consistent(l, blocks, inodes, owner) && i < |inodes|
    ensures |inodes[i].addrs| == NDIRECT + 1 && OnDisk(l, blocks)
  {
  }

  /** balloc, then the new number into addrs. */
  lemma DirectMapped(l: Layout, blocks: seq<Block>, inodes: seq<Inode>, owner: map<nat, Slot>, s: Slot, b: nat)
    requires Consistent(l, blocks, inodes, owner) && SlotOk(inodes, s) && s.pos <= NDIRECT
    requires Addr(blocks, inodes, s) == 0 && l.nmeta <= b < l.size && b !in owner
    ensures l.BBlock(b) < l.nmeta && !Used(l, blocks, b)
    ensures var blocks', inodes' := Allocated(l, blocks, b), SetAddr(inodes, s.inum, s.pos, b);
      && Consistent(l, blocks', inodes', owner[b := s]) && blocks'[b] == ZeroBlock()
      && Linked(blocks, inodes, blocks', inodes', s, b)
      && Grown(blocks, inodes, owner, blocks', inodes', owner[b := s])
  {
    hide Addr, Mark, InUse, Allocated, Marked;
    AllocatedOwns(l, blocks, inodes, owner, b);
    LinkDirect(l, Allocated(l, blocks, b), inodes, owner, s, b);
    assert owner[b := s].Keys == owner.Keys + {b};
  }

  /** balloc, then the new number into the indirect block. */
  lemma IndirectMapped(l: Layout, blocks: seq<Block>, inodes: seq<Inode>, owner: map<nat, Slot>, i: nat, j: nat, b: nat)
    requires Consistent(l, blocks, inodes, owner) && i < |inodes| && j < NINDIRECT
    requires Indirect(inodes, i) != 0 && Addr(blocks, inodes, Slot(i, NDIRECT + 1 + j)) == 0
    requires l.nmeta <= b < l.size && b !in owner
    ensures l.BBlock(b) < l.nmeta <= Indirect(inodes, i) < l.size && !Used(l, blocks, b)
    ensures var ind, s := Indirect(inodes, i), Slot(i, NDIRECT + 1 + j);
      var blocks1 := Allocated(l, blocks, b);
      var blocks' := blocks1[ind := PutWord(blocks1[ind], j, b)];
      && Consistent(l, blocks', inodes, owner[b := s]) && blocks'[b] == ZeroBlock()
      && Linked(blocks, inodes, blocks', inodes, s, b)
      && Grown(blocks, inodes, owner, blocks', inodes, owner[b := s])
  {
    hide Addr, Mark, InUse, Allocated, Marked, PutWord;
    AllocatedOwns(l, blocks, inodes, owner, b);
    var blocks1 := Allocated(l, blocks, b);
    LinkIndirect(l, blocks1, inodes, owner, i, j, b);
    var ind := Indirect(inodes, i);
    IndirectMarked(l, blocks1, owner.Keys + {b}, ind, PutWord(blocks1[ind], j, b));
    assert owner[b := Slot(i, NDIRECT + 1 + j)].Keys == owner.Keys + {b};
  }

  /** Indirect blocks are not bitmap blocks. */
  lemma IndirectMarked(l: Layout, blocks: seq<Block>, used: set<nat>, ind: nat, data: Block)
    requires OnDisk(l, blocks) && Marked(l, blocks, used) && ind in used
    ensures Marked(l, blocks[ind := data], used)
  {
    MarkedKept(l, blocks, used, ind, data);
  }

  lemma NextBitmapBlock(b: nat)
    requires b % BPB == 0
    ensures (b + BPB) % BPB == 0
  {
  }

  lemma SameBitmapBlock(b: nat, bi: nat)
    requires b % BPB == 0 && bi < BPB
    ensures (b + bi) / BPB == b / BPB && (b + bi) % BPB == bi
  {
  }
}
