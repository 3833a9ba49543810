/** The logging layer as one thread executes it, over a buffer cache that may drop any
    unreferenced buffer at any miss.  Every bwrite is recorded in `writes`, so that the
    crash states of a call are the crash states of the writes it adds. */
module LogCode {
  import opened Blocks
  import opened LogDisk

  /** The disk with every cached block laid over it. */
  function Overlay(disk: Disk, cache: map<nat, Block>): (v: Disk)
    ensures |v| == |disk|
    ensures forall b :: 0 <= b < |v| ==> v[b] == if b in cache then cache[b] else disk[b]
  {
    seq(|disk|, b requires 0 <= b < |disk| => if b in cache then cache[b] else disk[b])
  }

  ghost predicate Distinct(lh: seq<nat>) {
    forall i, j :: 0 <= i < j < |lh| ==> lh[i] != lh[j]
  }

  ghost function Named(lh: seq<nat>): (bs: set<nat>)
    ensures forall b :: b in bs <==> b in lh
  {
    set b | b in lh
  }

  lemma NamedNext(lh: seq<nat>, i: nat)
    requires Distinct(lh) && i < |lh|
    ensures Named(lh[i..]) - {lh[i]} == Named(lh[i + 1..])
    ensures lh[i] !in Named(lh[..i]) && Named(lh[..i]) + {lh[i]} == Named(lh[..i + 1])
  {
    assert lh[i..] == [lh[i]] + lh[i + 1..];
    assert lh[..i + 1] == lh[..i] + [lh[i]];
  }

  /** How many references a buffer has; a block that is not cached has none. */
  function Count(refs: map<nat, nat>, b: nat): (n: nat) {
    if b in refs then refs[b] else 0
  }

  /** The blocks in pins have one reference less in refs' than in refs, all others as many. */
  ghost predicate Fewer(refs: map<nat, nat>, refs': map<nat, nat>, pins: set<nat>) {
    forall b: nat :: Count(refs, b) == Count(refs', b) + if b in pins then 1 else 0
  }

  lemma FewerTwice(r0: map<nat, nat>, r1: map<nat, nat>, r2: map<nat, nat>, p: set<nat>, q: set<nat>)
    requires Fewer(r0, r1, p) && Fewer(r1, r2, q) && p !! q
    ensures Fewer(r0, r2, p + q)
  {
  }

  lemma NoneFewer(refs: map<nat, nat>)
    ensures Fewer(refs, refs, {})
  {
  }

  /** References taken and given back. */
  lemma FewerBack(r0: map<nat, nat>, r1: map<nat, nat>, r2: map<nat, nat>, p: set<nat>)
    requires Fewer(r1, r0, p) && Fewer(r1, r2, p)
    ensures Fewer(r0, r2, {})
  {
  }

  lemma FewerStep(r0: map<nat, nat>, r1: map<nat, nat>, r2: map<nat, nat>, p: set<nat>)
    requires Fewer(r0, r1, p) && Fewer(r1, r2, {})
    ensures Fewer(r0, r2, p)
  {
  }

  lemma EntryHome(g: Geometry, lh: seq<nat>, i: nat)
    requires g.Valid() && EntriesValid(g, lh) && i < |lh|
    ensures g.Home(lh[i]) && g.InLog(g.start + 1 + i)
  {
  }

  lemma EntryAdded(g: Geometry, lh: seq<nat>, b: nat)
    requires EntriesValid(g, lh) && Distinct(lh)
    requires |lh| < LOGSIZE && |lh| < g.size - 1 && g.Home(b) && b !in lh
    ensures EntriesValid(g, lh + [b]) && Distinct(lh + [b]) && Named(lh + [b]) == Named(lh) + {b}
  {
  }

  class Log {
    const g: Geometry
    var disk: Disk
    var cache: map<nat, Block>
    var refs: map<nat, nat>
    var lh: seq<nat>
    var outstanding: nat
    var committing: bool
    ghost var dirty: set<nat>       // cached contents newer than the disk's
    ghost var writes: seq<Write>    // every block write since boot

    ghost predicate Buffers()
      reads this
    {
      && g.Valid()
      && |disk| == g.total
      && refs.Keys == cache.Keys
      && (forall b :: b in cache ==> b < g.total)
      && (forall b :: b in dirty ==> b in cache && refs[b] > 0)
      && (forall b :: b in cache && b !in dirty ==> cache[b] == disk[b])
    }

    /** Between operations: exactly the logged blocks are dirty, and the log on disk is empty. */
    ghost predicate Valid()
      reads this
    {
      && Buffers()
      && EntriesValid(g, lh) && Distinct(lh)
      && dirty == Named(lh)
      && EmptyLog(g, disk)
    }

    // ---------------------------------------------------------------- buffers

    /** What is pinned in the cache but not on disk has not changed. */
    twostate predicate SameDirty(blocks: set<nat>)
      reads this
    {
      forall b :: b in blocks ==> b in cache && b in old(cache) && cache[b] == old(cache[b])
    }

    /** bread: the block's buffer with one more reference; what it holds is the newest copy,
        and no buffer that is referenced or newer than the disk is recycled to make room. */
    method Bread(b: nat) returns (data: Block)
      requires Buffers() && b < g.total
      modifies this`cache, this`refs
      ensures Buffers() && SameDirty(dirty)
      ensures b in cache && data == cache[b]
      ensures refs[b] == 1 + Count(old(refs), b) && Fewer(refs, old(refs), {b})
      ensures forall x :: x in old(cache) && x != b && old(refs[x]) > 0 ==> x in cache && refs[x] == old(refs[x])
    {
      if b in cache {
        refs := refs[b := refs[b] + 1];
      } else {
        var victim: nat := *;
        if victim in cache && refs[victim] == 0 {
          cache, refs := cache - {victim}, refs - {victim};
        }
        cache, refs := cache[b := disk[b]], refs[b := 1];
      }
      data := cache[b];
    }

    /** Two breads in a row, as both copying loops start. */
    method BreadBoth(first: nat, second: nat) returns (data1: Block, data2: Block)
      requires Buffers() && first < g.total && second < g.total && first != second
      modifies this`cache, this`refs
      ensures Buffers() && SameDirty(dirty)
      ensures first in cache && data1 == cache[first] && refs[first] > (if first in dirty then 1 else 0)
      ensures second in cache && data2 == cache[second] && refs[second] > (if second in dirty then 1 else 0)
      ensures Fewer(refs, old(refs), {first, second})
    {
      hide Geometry.Valid, Fewer;
      data1 := Bread(first);
      label L:
      data2 := Bread(second);
      assert refs[first] == old@L(refs[first]);
      FewerTwice(refs, old@L(refs), old(refs), {second}, {first});
      assert {second} + {first} == {first, second};
    }

    /** brelse and bunpin: drop one reference. */
    method Drop(b: nat)
      requires Buffers() && b in cache && refs[b] > (if b in dirty then 1 else 0)
      modifies this`refs
      ensures Buffers() && refs == old(refs)[b := old(refs[b]) - 1] && Fewer(old(refs), refs, {b})
    {
      refs := refs[b := refs[b] - 1];
    }

    /** memmove, bwrite and brelse of a held buffer. */
    method Overwrite(b: nat, data: Block)
      requires Buffers() && b in cache && refs[b] > 0
      modifies this`cache, this`refs, this`disk, this`dirty, this`writes
      ensures Buffers() && dirty == old(dirty) - {b}
      ensures disk == old(disk)[b := data]
      ensures writes == old(writes) + [Write(b, data)]
      ensures cache == old(cache)[b := data] && refs == old(refs)[b := old(refs[b]) - 1]
      ensures Fewer(old(refs), refs, {b})
    {
      cache, dirty := cache[b := data], dirty - {b};
      disk, writes := disk[b := data], writes + [Write(b, data)];
      refs := refs[b := refs[b] - 1];
    }

    /** The end of a round of either copying loop: the buffer of `to` is written, both are released. */
    method WriteBack(to: nat, data: Block, from: nat)
      requires Buffers() && to in cache && refs[to] > 0 && to != from
      requires from in cache && refs[from] > (if from in dirty then 1 else 0)
      modifies this`cache, this`refs, this`disk, this`dirty, this`writes
      ensures Buffers() && dirty == old(dirty) - {to}
      ensures disk == old(disk)[to := data] && writes == old(writes) + [Write(to, data)]
      ensures cache == old(cache)[to := data] && Fewer(old(refs), refs, {to, from})
      ensures refs[to] == old(refs[to]) - 1
    {
      hide Fewer, Geometry.Valid;
      Overwrite(to, data);
      label L:
      Drop(from);
      FewerTwice(old(refs), old@L(refs), refs, {to}, {from});
      assert {to} + {from} == {to, from};
    }

    // ---------------------------------------------------------------- header

    static method LoadEntries(buf: Block) returns (lh: seq<nat>)
      requires HeadOk(buf)
      ensures lh == Entries(buf)
    {
      var n := GetWord(buf, 0);
      lh := [];
      var i := 0;
      while i < n
        invariant 0 <= i <= n <= LOGSIZE
        invariant lh == Entries(buf)[..i]
      {
        lh := lh + [GetWord(buf, 1 + i)];
        i := i + 1;
      }
    }

    method ReadHead()
      requires Buffers() && dirty == {} && GoodLog(g, disk)
      modifies this`cache, this`refs, this`lh
      ensures Buffers() && Fewer(old(refs), refs, {})
      ensures lh == Entries(disk[g.start])
    {
      hide Fewer;
      var buf := Bread(g.start);
      label L:
      lh := LoadEntries(buf);
      Drop(g.start);
      FewerBack(old(refs), old@L(refs), refs, {g.start});
    }

    static method FillHead(head: Block, lh: seq<nat>) returns (hb: Block)
      requires |lh| <= LOGSIZE
      requires forall i :: 0 <= i < |lh| ==> lh[i] < 0x1_0000_0000
      ensures hb == HeadBlock(head, lh)
    {
      hb := PutWord(head, 0, |lh|);
      var i := 0;
      while i < |lh|
        invariant 0 <= i <= |lh|
        invariant hb == PutEntries(PutWord(head, 0, |lh|), lh, i)
      {
        hb := PutWord(hb, i + 1, lh[i]);
        i := i + 1;
      }
    }

    /** write_head: the header block now lists lh; nothing else changes. */
    method WriteHead() returns (hb: Block)
      requires Buffers() && EntriesValid(g, lh) && g.start !in dirty
      modifies this`cache, this`refs, this`disk, this`dirty, this`writes
      ensures hb == HeadBlock(old(disk[g.start]), lh)
      ensures Buffers() && dirty == old(dirty) && SameDirty(dirty)
      ensures disk == old(disk)[g.start := hb]
      ensures writes == old(writes) + [Write(g.start, hb)] && Fewer(old(refs), refs, {})
    {
      hide HeadOk, Entries, HeadBlock, Perform, Fewer;
      var head := Bread(g.start);
      label L:
      hb := FillHead(head, lh);
      Overwrite(g.start, hb);
      FewerBack(old(refs), old@L(refs), refs, {g.start});
    }

    // ---------------------------------------------------------------- commit and recovery

    /** One round of write_log: the cached block goes to its slot. */
    method CopyToSlot(tail: nat)
      requires Buffers() && EntriesValid(g, lh) && tail < |lh| && lh[tail] in dirty && g.start + 1 + tail !in dirty
      modifies this`cache, this`refs, this`disk, this`dirty, this`writes
      ensures Buffers() && dirty == old(dirty) && SameDirty(dirty)
      ensures disk == old(disk)[g.start + 1 + tail := old(cache[lh[tail]])]
      ensures writes == old(writes) + [Write(g.start + 1 + tail, old(cache[lh[tail]]))]
      ensures Fewer(old(refs), refs, {})
    {
      hide HeadOk, Entries, HeadBlock, Perform, EntriesValid, Fewer;
      EntryHome(g, lh, tail);
      var slot := g.start + 1 + tail;
      var to, from := BreadBoth(slot, lh[tail]);
      assert from == old(cache[lh[tail]]);
      label L:
      WriteBack(slot, from, lh[tail]);
      FewerBack(old(refs), old@L(refs), refs, {slot, lh[tail]});
    }

    /** One round of install_trans, up to the unpinning: the slot's contents go to their home block. */
    method CopyToHome(tail: nat)
      requires Buffers() && EntriesValid(g, lh) && tail < |lh| && g.start + 1 + tail !in dirty
      modifies this`cache, this`refs, this`disk, this`dirty, this`writes
      ensures Buffers() && dirty == old(dirty) - {lh[tail]} && SameDirty(dirty)
      ensures lh[tail] in old(dirty) ==> lh[tail] in cache && refs[lh[tail]] > 0
      ensures disk == old(disk)[lh[tail] := old(disk[g.start + 1 + tail])]
      ensures writes == old(writes) + [Write(lh[tail], old(disk[g.start + 1 + tail]))]
      ensures Fewer(old(refs), refs, {})
    {
      hide HeadOk, Entries, HeadBlock, Perform, EntriesValid, Fewer;
      EntryHome(g, lh, tail);
      var lbuf, dbuf := BreadBoth(g.start + 1 + tail, lh[tail]);
      assert lbuf == old(disk[g.start + 1 + tail]);
      label L:
      WriteBack(lh[tail], lbuf, g.start + 1 + tail);
      assert {lh[tail], g.start + 1 + tail} == {g.start + 1 + tail, lh[tail]};
      FewerBack(old(refs), old@L(refs), refs, {g.start + 1 + tail, lh[tail]});
    }

    /** write_log: slot i receives the cached contents of block lh[i]. */
    method WriteLog(ghost data: seq<Block>)
      requires Buffers() && EntriesValid(g, lh) && dirty == Named(lh) && HoldsLogged(data)
      modifies this`cache, this`refs, this`disk, this`dirty, this`writes
      ensures Buffers() && dirty == old(dirty) && HoldsLogged(data) && Fewer(old(refs), refs, {})
      ensures WritesIn(g, SlotWrites(g, data))
      ensures writes == old(writes) + SlotWrites(g, data)
      ensures disk == Perform(old(disk), SlotWrites(g, data))
    {
      hide HeadOk, Entries, HeadBlock, Perform, Named, Fewer;
      NoneFewer(refs);
      ghost var ws := SlotWrites(g, data);
      PerformNone(disk);
      var tail := 0;
      while tail < |lh|
        invariant 0 <= tail <= |lh|
        invariant Buffers() && dirty == old(dirty) && HoldsLogged(data) && Fewer(old(refs), refs, {})
        invariant writes == old(writes) + ws[..tail]
        invariant disk == Perform(old(disk), ws[..tail])
      {
        assert ws[tail] == Write(g.start + 1 + tail, cache[lh[tail]]);
        ghost var refs0 := refs;
        CopyToSlot(tail);
        FewerStep(old(refs), refs0, refs, {});
        PerformStep(old(disk), old(writes), ws, tail);
        tail := tail + 1;
      }
      assert ws[..tail] == ws;
    }

    /** The cache holds contents data for the logged blocks. */
    ghost predicate HoldsLogged(data: seq<Block>)
      reads this
    {
      |data| == |lh| && forall i :: 0 <= i < |lh| ==> lh[i] in cache && cache[lh[i]] == data[i]
    }

    /** install_trans: home block lh[i] receives the contents of slot i, and after a commit every logged
        buffer is unpinned. */
    method InstallTrans(recovering: bool)
      requires Buffers() && EntriesValid(g, lh)
      requires if recovering then dirty == {} else Distinct(lh) && dirty == Named(lh)
      modifies this`cache, this`refs, this`disk, this`dirty, this`writes
      ensures Buffers() && dirty == {}
      ensures Fewer(old(refs), refs, if recovering then {} else Named(lh))
      ensures var ws := HomeWrites(lh, SlotData(g, old(disk), |lh|));
        && WritesIn(g, ws)
        && writes == old(writes) + ws
        && disk == Perform(old(disk), ws)
    {
      hide HeadOk, Entries, HeadBlock, Perform, Named, Fewer;
      NoneFewer(refs);
      assert Named(lh[..0]) == {};
      ghost var ws := HomeWrites(lh, SlotData(g, disk, |lh|));
      PerformNone(disk);
      var tail := 0;
      while tail < |lh|
        invariant 0 <= tail <= |lh|
        invariant Buffers()
        invariant dirty == if recovering then {} else Named(lh[tail..])
        invariant Fewer(old(refs), refs, if recovering then {} else Named(lh[..tail]))
        invariant writes == old(writes) + ws[..tail]
        invariant disk == Perform(old(disk), ws[..tail])
      {
        PerformUntouched(old(disk), ws[..tail], g.start + 1 + tail);
        assert ws[tail] == Write(lh[tail], disk[g.start + 1 + tail]);
        ghost var refs0 := refs;
        CopyToHome(tail);
        FewerStep(old(refs), refs0, refs, if recovering then {} else Named(lh[..tail]));
        if !recovering {
          NamedNext(lh, tail);
          ghost var refs1 := refs;
          Drop(lh[tail]);
          FewerTwice(old(refs), refs1, refs, Named(lh[..tail]), {lh[tail]});
        }
        PerformStep(old(disk), old(writes), ws, tail);
        tail := tail + 1;
      }
      assert ws[..tail] == ws;
      assert lh[..tail] == lh;
    }

    /** write_log then write_head: when it returns the transaction is on disk. */
    method CommitPoint(ghost data: seq<Block>) returns (h1: Block)
      requires Valid() && HoldsLogged(data)
      modifies this`cache, this`refs, this`disk, this`dirty, this`writes
      ensures Buffers() && dirty == old(dirty) && Fewer(old(refs), refs, {})
      ensures h1 == HeadBlock(old(disk[g.start]), lh) && disk[g.start] == h1
      ensures SlotData(g, disk, |lh|) == data
      ensures var ws := SlotWrites(g, data) + [Write(g.start, h1)];
        WritesIn(g, ws) && writes == old(writes) + ws && disk == Perform(old(disk), ws)
    {
      hide HeadOk, Entries, HeadBlock, Perform, Named, Fewer;
      WriteLog(data);
      ghost var refs1 := refs;
      SlotsHold(g, old(disk), data);
      h1 := WriteHead();
      FewerStep(old(refs), refs1, refs, {});
      assert SlotData(g, disk, |lh|) == data;
      PerformOne(old(disk), SlotWrites(g, data), Write(g.start, h1));
    }

    /** install_trans then the clearing write_head. */
    method Finish(ghost data: seq<Block>) returns (h0: Block)
      requires Buffers() && EntriesValid(g, lh) && Distinct(lh) && dirty == Named(lh)
      requires |data| == |lh| && SlotData(g, disk, |lh|) == data
      modifies this`cache, this`refs, this`disk, this`dirty, this`writes, this`lh
      ensures Buffers() && dirty == {} && lh == [] && Fewer(old(refs), refs, Named(old(lh)))
      ensures h0 == HeadBlock(old(disk[g.start]), []) && disk[g.start] == h0
      ensures var ws := HomeWrites(old(lh), data) + [Write(g.start, h0)];
        WritesIn(g, ws) && writes == old(writes) + ws && disk == Perform(old(disk), ws)
    {
      hide HeadOk, Entries, HeadBlock, Perform, Named, Fewer;
      InstallTrans(false);
      ghost var refs1 := refs;
      PerformUntouched(old(disk), HomeWrites(lh, data), g.start);
      lh := [];
      h0 := WriteHead();
      FewerStep(old(refs), refs1, refs, Named(old(lh)));
      PerformOne(old(disk), HomeWrites(old(lh), data), Write(g.start, h0));
    }

    /** commit(): its writes are those of CommitWrites, in that order. */
    method Commit(ghost data: seq<Block>)
      requires Valid() && HoldsLogged(data)
      modifies this`cache, this`refs, this`disk, this`dirty, this`writes, this`lh
      ensures Valid() && lh == [] && Fewer(old(refs), refs, Named(old(lh)))
      ensures writes == old(writes) + CommitWrites(g, old(disk[g.start]), old(lh), data)
      ensures disk == Perform(old(disk), CommitWrites(g, old(disk[g.start]), old(lh), data))
    {
      hide HeadOk, Entries, HeadBlock, Perform, Named, Fewer;
      PerformNone(disk);
      NoneFewer(refs);
      assert Named([]) == {};
      if |lh| > 0 {
        ghost var lh0 := lh;
        var h1 := CommitPoint(data);
        ghost var refs1 := refs;
        var h0 := Finish(data);
        FewerTwice(old(refs), refs1, refs, {}, Named(lh0));
        assert {} + Named(lh0) == Named(lh0);
        CommitParts(g, h1, h0, lh0, data);
        Joined(old(disk), old(writes), SlotWrites(g, data) + [Write(g.start, h1)],
               HomeWrites(lh0, data) + [Write(g.start, h0)]);
        HeadRoundTrip(h1, []);
      }
    }

    // ---------------------------------------------------------------- system call interface

    /** One round of begin_op's loop: admitted unless a commit is running or the log might not
        have room for one more operation. */
    method TryBeginOp() returns (admitted: bool)
      requires Valid()
      modifies this`outstanding
      ensures admitted <==> !committing && |lh| + (old(outstanding) + 1) * MAXOPBLOCKS <= LOGSIZE
      ensures outstanding == old(outstanding) + if admitted then 1 else 0
    {
      if committing {
        admitted := false;
      } else if |lh| + (outstanding + 1) * MAXOPBLOCKS > LOGSIZE {
        admitted := false;
      } else {
        outstanding := outstanding + 1;
        admitted := true;
      }
    }

    /** The caller's change to a held buffer followed by log_write: the block is in the log once,
        is pinned, and every other block's contents are as before. */
    method LogWrite(b: nat, data: Block) returns (panicked: bool)
      requires Valid() && g.Home(b) && b in cache && refs[b] > 0
      modifies this`cache, this`refs, this`dirty, this`lh
      ensures panicked <==> |old(lh)| >= LOGSIZE || |old(lh)| >= g.size - 1 || outstanding < 1
      ensures !panicked ==>
        && Valid()
        && lh == (if b in old(lh) then old(lh) else old(lh) + [b])
        && cache == old(cache)[b := data]
        && refs == (if b in old(lh) then old(refs) else old(refs)[b := old(refs[b]) + 1])
    {
      hide EntriesValid, Distinct, EmptyLog;
      if |lh| >= LOGSIZE || |lh| >= g.size - 1 || outstanding < 1 {
        return true;
      }
      cache := cache[b := data];
      var i := 0;
      while i < |lh|
        modifies {}
        invariant 0 <= i <= |lh|
        invariant b !in lh[..i]
      {
        if lh[i] == b {
          break;
        }
        i := i + 1;
      }
      assert i == |lh| <==> b !in lh;
      if i == |lh| {
        EntryAdded(g, lh, b);
        refs := refs[b := refs[b] + 1];
        lh := lh + [b];
        dirty := dirty + {b};
      }
      panicked := false;
    }

    /** end_op: the last operation out commits everything logged so far, so that the home blocks on
        disk have the newest contents, which no call of end_op changes.  Wherever the machine stops
        during the call, recovery yields the home blocks from before it, or, from the header write
        on, exactly the newest contents.  A commit unpins exactly the logged buffers. */
    method EndOp() returns (panicked: bool)
      requires Valid() && outstanding > 0
      modifies this
      ensures panicked <==> old(committing)
      ensures !panicked ==>
        && Valid() && !committing && outstanding == old(outstanding) - 1
        && (outstanding > 0 ==>
             disk == old(disk) && lh == old(lh) && cache == old(cache) && refs == old(refs) && writes == old(writes))
        && (outstanding == 0 ==> lh == [] && Fewer(old(refs), refs, Named(old(lh))))
      ensures !panicked ==>
        && |old(writes)| <= |writes| && WritesIn(g, writes[|old(writes)|..])
        && disk == Perform(old(disk), writes[|old(writes)|..])
        && CrashAtomic(g, old(disk), old(Overlay(disk, cache)), writes[|old(writes)|..], |old(lh)|)
      ensures !panicked ==> SameHome(g, Overlay(disk, cache), old(Overlay(disk, cache)))
      ensures !panicked && outstanding == 0 ==> SameHome(g, disk, old(Overlay(disk, cache)))
    {
      hide HeadOk, Entries, HeadBlock, Perform, Named, CrashDisk, CrashAtomic, SameHome, EmptyLog, Fewer;
      outstanding := outstanding - 1;
      if committing {
        return true;
      }
      ghost var ws: seq<Write> := [];
      NothingWritten(g, disk, Overlay(disk, cache), |lh|);
      if outstanding == 0 {
        committing := true;
        ghost var data := Logged(lh, cache);
        CommitIsAtomic(g, disk, cache, lh, data);
        Commit(data);
        ws := CommitWrites(g, old(disk[g.start]), old(lh), data);
        committing := false;
        AllHome(g, old(disk), old(cache), old(lh), data, disk, cache);
      } else {
        SameHomeSelf(g, Overlay(disk, cache));
      }
      assert writes == old(writes) + ws;
      assert writes[|old(writes)|..] == ws;
      panicked := false;
    }

    /** recover_from_log at boot, on any disk whose header is well formed. */
    method Recover()
      requires Buffers() && dirty == {} && GoodLog(g, disk)
      modifies this`cache, this`refs, this`disk, this`dirty, this`writes, this`lh
      ensures Valid() && lh == [] && Fewer(old(refs), refs, {})
      ensures writes == old(writes) + RecoverWrites(g, old(disk))
      ensures disk == Perform(old(disk), RecoverWrites(g, old(disk)))
      ensures forall b | g.Home(b) :: disk[b] == RecoveredBlock(g, old(disk), b)
    {
      hide HeadOk, Entries, HeadBlock, Perform, Named, Fewer;
      ReadHead();
      ghost var lh0, refs0 := lh, refs;
      InstallTrans(true);
      FewerStep(old(refs), refs0, refs, {});
      ghost var refs1 := refs;
      assert lh0 == Entries(old(disk[g.start]));
      ghost var ws := HomeWrites(lh0, SlotData(g, old(disk), |lh0|));
      PerformUntouched(old(disk), ws, g.start);
      lh := [];
      var h0 := WriteHead();
      FewerStep(old(refs), refs1, refs, {});
      PerformOne(old(disk), ws, Write(g.start, h0));
      assert ws + [Write(g.start, h0)] == RecoverWrites(g, old(disk));
      RecoverResult(g, old(disk));
    }
  }

  ghost function Logged(lh: seq<nat>, cache: map<nat, Block>): (data: seq<Block>)
    requires forall i :: 0 <= i < |lh| ==> lh[i] in cache
  {
    seq(|lh|, i requires 0 <= i < |lh| => cache[lh[i]])
  }

  /** Every crash within the writes ws on disk d recovers to d's home blocks when at most n of
      them are complete, and otherwise to the home blocks of newest. */
  ghost predicate CrashAtomic(g: Geometry, d: Disk, newest: Disk, ws: seq<Write>, n: nat)
    requires |d| == |newest| == g.total && WritesIn(g, ws)
  {
    forall k: nat, c: Disk | k <= |ws| && CrashDisk(g, d, ws, k, c) ::
      && GoodLog(g, c)
      && forall b | g.Home(b) :: RecoveredBlock(g, c, b) == if k <= n then d[b] else newest[b]
  }

  ghost predicate SameHome(g: Geometry, d: Disk, e: Disk) {
    |d| == |e| == g.total && forall b | g.Home(b) :: d[b] == e[b]
  }

  lemma SameHomeSelf(g: Geometry, d: Disk)
    requires |d| == g.total
    ensures SameHome(g, d, d)
  {
  }

  /** Once the log on disk is empty again, the home blocks are what a crash after the last write
      would have recovered. */
  lemma AfterLastWrite(g: Geometry, d: Disk, newest: Disk, ws: seq<Write>, n: nat)
    requires |d| == |newest| == g.total && WritesIn(g, ws) && n < |ws|
    requires CrashAtomic(g, d, newest, ws, n) && EmptyLog(g, Perform(d, ws))
    ensures SameHome(g, Perform(d, ws), newest)
  {
    hide HeadOk, Entries, Perform;
    assert ws[..|ws|] == ws;
    assert CrashDisk(g, d, ws, |ws|, Perform(d, ws));
  }

  /** A finished commit has brought every logged block home. */
  lemma AllHome(g: Geometry, d: Disk, cache: map<nat, Block>, lh: seq<nat>, data: seq<Block>,
                d': Disk, cache': map<nat, Block>)
    requires EmptyLog(g, d) && EntriesValid(g, lh) && |data| == |lh|
    requires CrashAtomic(g, d, Overlay(d, cache), CommitWrites(g, d[g.start], lh, data), |lh|)
    requires forall b :: b in cache && b < g.total && b !in lh ==> cache[b] == d[b]
    requires d' == Perform(d, CommitWrites(g, d[g.start], lh, data)) && EmptyLog(g, d')
    requires forall b :: b in cache' ==> b < g.total && cache'[b] == d'[b]
    ensures SameHome(g, d', Overlay(d, cache)) && SameHome(g, Overlay(d', cache'), Overlay(d, cache))
  {
    hide CrashAtomic, HeadOk, Entries, HeadBlock, Perform;
    PerformNone(d);
    assert Overlay(d', cache') == d';
    if lh == [] {
      assert Overlay(d, cache) == d;
    } else {
      AfterLastWrite(g, d, Overlay(d, cache), CommitWrites(g, d[g.start], lh, data), |lh|);
    }
  }

  lemma NothingWritten(g: Geometry, d: Disk, newest: Disk, n: nat)
    requires EmptyLog(g, d) && |newest| == g.total
    ensures Perform(d, []) == d && CrashAtomic(g, d, newest, [], n)
  {
    hide HeadOk, Entries;
    forall c: Disk | CrashDisk(g, d, [], 0, c) ensures c == d {
    }
  }

  lemma CommitIsAtomic(g: Geometry, d: Disk, cache: map<nat, Block>, lh: seq<nat>, data: seq<Block>)
    requires EmptyLog(g, d) && EntriesValid(g, lh)
    requires forall i, j :: 0 <= i < j < |lh| ==> lh[i] != lh[j]
    requires forall i :: 0 <= i < |lh| ==> lh[i] in cache
    requires data == Logged(lh, cache)
    requires forall b :: b in cache && b < g.total && b !in lh ==> cache[b] == d[b]
    ensures CrashAtomic(g, d, Overlay(d, cache), CommitWrites(g, d[g.start], lh, data), |lh|)
  {
    var ws := CommitWrites(g, d[g.start], lh, data);
    forall k: nat, c: Disk | k <= |ws| && CrashDisk(g, d, ws, k, c)
      ensures GoodLog(g, c)
      ensures forall b | g.Home(b) ::
        RecoveredBlock(g, c, b) == if k <= |lh| then d[b] else Overlay(d, cache)[b]
    {
      CommitCrashSafe(g, d, lh, data, k, c);
      forall b | g.Home(b)
        ensures RecoveredBlock(g, c, b) == if k <= |lh| then d[b] else Overlay(d, cache)[b]
      {
        if b in lh {
          assert data[LastSlot(lh, b)] == cache[b];
        }
      }
    }
  }

  lemma SlotsHold(g: Geometry, d: Disk, data: seq<Block>)
    requires g.start + |data| < |d|
    ensures forall i :: 0 <= i < |data| ==> SlotWrites(g, data)[i].bno < |d|
    ensures SlotData(g, Perform(d, SlotWrites(g, data)), |data|) == data
    ensures Perform(d, SlotWrites(g, data))[g.start] == d[g.start]
  {
    hide Perform;
    var ws := SlotWrites(g, data);
    forall i | 0 <= i < |data| ensures SlotData(g, Perform(d, ws), |data|)[i] == data[i] {
      PerformLast(d, ws, i);
    }
    PerformUntouched(d, ws, g.start);
  }

  lemma CommitParts(g: Geometry, h1: Block, h0: Block, lh: seq<nat>, data: seq<Block>)
    requires |lh| == |data|
    ensures (SlotWrites(g, data) + [Write(g.start, h1)]) + (HomeWrites(lh, data) + [Write(g.start, h0)])
         == CommitTrace(g, h1, h0, lh, data)
  {
  }

  lemma Joined(d: Disk, w0: seq<Write>, ws1: seq<Write>, ws2: seq<Write>)
    requires forall i :: 0 <= i < |ws1| ==> ws1[i].bno < |d|
    requires forall i :: 0 <= i < |ws2| ==> ws2[i].bno < |d|
    ensures forall i :: 0 <= i < |ws1 + ws2| ==> (ws1 + ws2)[i].bno < |d|
    ensures Perform(d, ws1 + ws2) == Perform(Perform(d, ws1), ws2)
    ensures w0 + ws1 + ws2 == w0 + (ws1 + ws2)
  {
    hide Perform;
    PerformSplit(d, ws1, ws2);
  }

  lemma PerformNone(d: Disk)
    ensures Perform(d, []) == d
  {
  }

  lemma PerformOne(d: Disk, ws: seq<Write>, w: Write)
    requires (forall i :: 0 <= i < |ws| ==> ws[i].bno < |d|) && w.bno < |d|
    ensures forall i :: 0 <= i < |ws + [w]| ==> (ws + [w])[i].bno < |d|
    ensures Perform(d, ws + [w]) == Perform(d, ws)[w.bno := w.data]
  {
    assert (ws + [w])[..|ws|] == ws;
  }

  lemma PerformStep(d: Disk, ws0: seq<Write>, ws: seq<Write>, i: nat)
    requires i < |ws| && forall j :: 0 <= j < |ws| ==> ws[j].bno < |d|
    ensures Perform(d, ws[..i + 1]) == Perform(d, ws[..i])[ws[i].bno := ws[i].data]
    ensures ws0 + ws[..i + 1] == ws0 + ws[..i] + [ws[i]]
  {
    assert ws[..i + 1][..i] == ws[..i];
  }

  ghost function SlotWrites(g: Geometry, data: seq<Block>): (ws: seq<Write>) {
    seq(|data|, i requires 0 <= i < |data| => Write(g.start + 1 + i, data[i]))
  }

  ghost function HomeWrites(lh: seq<nat>, data: seq<Block>): (ws: seq<Write>)
    requires |lh| == |data|
  {
    seq(|lh|, i requires 0 <= i < |lh| => Write(lh[i], data[i]))
  }
}
