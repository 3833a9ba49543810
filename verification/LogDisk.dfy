/** The on-disk redo log: its header format, the order in which a commit and a recovery
    write the disk, and what a crash between or inside two of those writes leaves behind. */
module LogDisk {
  import opened Blocks

  const MAXOPBLOCKS := 10
  const LOGSIZE := 30

  type Disk = seq<Block>

  /** Where the log lies: header at `start`, data slots up to `start + size`. */
  datatype Geometry = Geometry(start: nat, size: nat, total: nat) {
    ghost predicate Valid() {
      2 <= size && start + size <= total <= 0x1_0000_0000
    }
    predicate InLog(b: int) {
      start <= b < start + size
    }
    predicate Home(b: int) {
      0 <= b < total && !InLog(b)
    }
  }

  // ---------------------------------------------------------------- header

  /** Header block `b` overwritten with the first k entries of lh (n itself is not touched). */
  function PutEntries(b: Block, lh: seq<nat>, k: nat): (r: Block)
    requires k <= |lh| <= LOGSIZE
    requires forall i :: 0 <= i < |lh| ==> lh[i] < 0x1_0000_0000
  {
    if k == 0 then b else PutWord(PutEntries(b, lh, k - 1), k, lh[k - 1])
  }

  /** What write_head stores: the count, then the block numbers; the tail keeps its old bytes. */
  function HeadBlock(b: Block, lh: seq<nat>): (r: Block)
    requires |lh| <= LOGSIZE
    requires forall i :: 0 <= i < |lh| ==> lh[i] < 0x1_0000_0000
  {
    PutEntries(PutWord(b, 0, |lh|), lh, |lh|)
  }

  predicate HeadOk(b: Block) {
    GetWord(b, 0) <= LOGSIZE
  }

  /** What read_head loads. */
  function Entries(b: Block): (lh: seq<nat>)
    requires HeadOk(b)
    ensures |lh| <= LOGSIZE
  {
    seq(GetWord(b, 0), i requires 0 <= i < GetWord(b, 0) => GetWord(b, 1 + i))
  }

  lemma {:induction false} PutEntriesWord(b: Block, lh: seq<nat>, k: nat, j: nat)
    requires k <= |lh| <= LOGSIZE && j < WORDS
    requires forall i :: 0 <= i < |lh| ==> lh[i] < 0x1_0000_0000
    ensures GetWord(PutEntries(b, lh, k), j) == if 1 <= j <= k then lh[j - 1] else GetWord(b, j)
  {
    if k > 0 {
      PutEntriesWord(b, lh, k - 1, j);
      PutGetWord(PutEntries(b, lh, k - 1), k, lh[k - 1], j);
    }
  }

  /** read_head undoes write_head, whatever the header block held before. */
  lemma HeadRoundTrip(b: Block, lh: seq<nat>)
    requires |lh| <= LOGSIZE
    requires forall i :: 0 <= i < |lh| ==> lh[i] < 0x1_0000_0000
    ensures HeadOk(HeadBlock(b, lh)) && Entries(HeadBlock(b, lh)) == lh
  {
    var c := PutWord(b, 0, |lh|);
    forall j: nat | j < WORDS
      ensures GetWord(HeadBlock(b, lh), j) ==
              if 1 <= j <= |lh| then lh[j - 1] else if j == 0 then |lh| else GetWord(b, j)
    {
      PutEntriesWord(c, lh, |lh|, j);
      PutGetWord(b, 0, |lh|, j);
    }
  }

  // ---------------------------------------------------------------- recovery image

  ghost predicate EntriesValid(g: Geometry, lh: seq<nat>) {
    && |lh| <= LOGSIZE
    && |lh| < g.size
    && forall i :: 0 <= i < |lh| ==> g.Home(lh[i])
  }

  /** The header on disk names only home blocks and only as many as there are slots. */
  ghost predicate GoodLog(g: Geometry, d: Disk) {
    && g.Valid()
    && |d| == g.total
    && HeadOk(d[g.start])
    && EntriesValid(g, Entries(d[g.start]))
  }

  ghost predicate EmptyLog(g: Geometry, d: Disk) {
    GoodLog(g, d) && Entries(d[g.start]) == []
  }

  /** The last slot that a list of block numbers assigns to block b; 0 when there is none. */
  function LastSlot(lh: seq<nat>, b: nat): (i: nat)
    ensures b in lh ==> i < |lh| && lh[i] == b && forall j :: i < j < |lh| ==> lh[j] != b
  {
    if lh == [] then 0
    else if lh[|lh| - 1] == b then |lh| - 1
    else LastSlot(lh[..|lh| - 1], b)
  }

  /** The contents of data slot i. */
  ghost function Slot(g: Geometry, d: Disk, i: nat): (b: Block)
    requires g.start + 1 + i < |d|
  {
    d[g.start + 1 + i]
  }

  /** The contents block b has once recovery of disk d is complete. */
  ghost function RecoveredBlock(g: Geometry, d: Disk, b: nat): (r: Block)
    requires GoodLog(g, d) && b < g.total
  {
    var lh := Entries(d[g.start]);
    if b in lh then Slot(g, d, LastSlot(lh, b)) else d[b]
  }

  /** After recovery, d and e give the same home blocks. */
  ghost predicate SameImage(g: Geometry, d: Disk, e: Disk) {
    && GoodLog(g, d)
    && GoodLog(g, e)
    && forall b | g.Home(b) :: RecoveredBlock(g, d, b) == RecoveredBlock(g, e, b)
  }

  lemma DistinctLastSlot(lh: seq<nat>, i: nat)
    requires i < |lh|
    requires forall j, k :: 0 <= j < k < |lh| ==> lh[j] != lh[k]
    ensures LastSlot(lh, lh[i]) == i
  {
    assert lh[LastSlot(lh, lh[i])] == lh[i];
  }

  // ---------------------------------------------------------------- write traces and crashes

  datatype Write = Write(bno: nat, data: Block)

  ghost predicate WritesIn(g: Geometry, ws: seq<Write>) {
    forall i :: 0 <= i < |ws| ==> ws[i].bno < g.total
  }

  /** The disk after a list of block writes. */
  function Perform(d: Disk, ws: seq<Write>): (r: Disk)
    requires forall i :: 0 <= i < |ws| ==> ws[i].bno < |d|
    ensures |r| == |d|
  {
    if ws == [] then d
    else Perform(d, ws[..|ws| - 1])[ws[|ws| - 1].bno := ws[|ws| - 1].data]
  }

  /** Crash after the first k writes of ws: the block of write k, unless it is the log header
      (whose 124 bytes fit in one sector), may hold anything at all. */
  ghost predicate CrashDisk(g: Geometry, d: Disk, ws: seq<Write>, k: nat, c: Disk)
    requires |d| == g.total && WritesIn(g, ws) && k <= |ws|
  {
    && |c| == g.total
    && forall b | 0 <= b < g.total ::
         c[b] == Perform(d, ws[..k])[b] || (k < |ws| && b == ws[k].bno && b != g.start)
  }

  lemma {:induction false} PerformSplit(d: Disk, xs: seq<Write>, ys: seq<Write>)
    requires forall i :: 0 <= i < |xs| ==> xs[i].bno < |d|
    requires forall i :: 0 <= i < |ys| ==> ys[i].bno < |d|
    ensures forall i :: 0 <= i < |xs + ys| ==> (xs + ys)[i].bno < |d|
    ensures Perform(d, xs + ys) == Perform(Perform(d, xs), ys)
  {
    if ys == [] {
      assert xs + ys == xs;
    } else {
      PerformSplit(d, xs, ys[..|ys| - 1]);
      assert (xs + ys)[..|xs + ys| - 1] == xs + ys[..|ys| - 1];
    }
  }

  lemma {:induction false} PerformUntouched(d: Disk, ws: seq<Write>, b: nat)
    requires forall i :: 0 <= i < |ws| ==> ws[i].bno < |d|
    requires b < |d| && forall i :: 0 <= i < |ws| ==> ws[i].bno != b
    ensures Perform(d, ws)[b] == d[b]
  {
    if ws != [] {
      PerformUntouched(d, ws[..|ws| - 1], b);
    }
  }

  lemma {:induction false} PerformLast(d: Disk, ws: seq<Write>, i: nat)
    requires forall j :: 0 <= j < |ws| ==> ws[j].bno < |d|
    requires i < |ws| && forall j :: i < j < |ws| ==> ws[j].bno != ws[i].bno
    ensures Perform(d, ws)[ws[i].bno] == ws[i].data
  {
    if i < |ws| - 1 {
      PerformLast(d, ws[..|ws| - 1], i);
    }
  }

  // ---------------------------------------------------------------- the traces of the log code

  function SlotData(g: Geometry, d: Disk, n: nat): (data: seq<Block>)
    requires g.start + n < |d|
  {
    seq(n, i requires 0 <= i < n => d[g.start + 1 + i])
  }

  /** The i-th block write of a commit that logs contents data for blocks lh: first the slots,
      then header h1, then the home blocks, then the empty header h0. */
  function CommitWrite(g: Geometry, h1: Block, h0: Block, lh: seq<nat>, data: seq<Block>, i: nat): (w: Write)
    requires |lh| == |data| && i < 2 * |lh| + 2
  {
    if i < |lh| then Write(g.start + 1 + i, data[i])
    else if i == |lh| then Write(g.start, h1)
    else if i <= 2 * |lh| then Write(lh[i - |lh| - 1], data[i - |lh| - 1])
    else Write(g.start, h0)
  }

  function CommitTrace(g: Geometry, h1: Block, h0: Block, lh: seq<nat>, data: seq<Block>): (ws: seq<Write>)
    requires |lh| == |data|
  {
    seq(2 * |lh| + 2, i requires 0 <= i < 2 * |lh| + 2 => CommitWrite(g, h1, h0, lh, data, i))
  }

  /** All the writes of commit(): none when nothing was logged. */
  function CommitWrites(g: Geometry, head: Block, lh: seq<nat>, data: seq<Block>): (ws: seq<Write>)
    requires |lh| == |data| && |lh| <= LOGSIZE
    requires forall i :: 0 <= i < |lh| ==> lh[i] < 0x1_0000_0000
    ensures g.Valid() && EntriesValid(g, lh) ==> WritesIn(g, ws)
  {
    if lh == [] then []
    else CommitTrace(g, HeadBlock(head, lh), HeadBlock(HeadBlock(head, lh), []), lh, data)
  }

  function RecoverTrace(g: Geometry, h0: Block, lh: seq<nat>, data: seq<Block>): (ws: seq<Write>)
    requires |lh| == |data|
  {
    seq(|lh| + 1, i requires 0 <= i < |lh| + 1 => if i < |lh| then Write(lh[i], data[i]) else Write(g.start, h0))
  }

  /** All the writes of recover_from_log() on disk d. */
  function RecoverWrites(g: Geometry, d: Disk): (ws: seq<Write>)
    requires g.start < |d| && HeadOk(d[g.start]) && g.start + |Entries(d[g.start])| < |d|
    ensures GoodLog(g, d) ==> WritesIn(g, ws)
  {
    var lh := Entries(d[g.start]);
    RecoverTrace(g, HeadBlock(d[g.start], []), lh, SlotData(g, d, |lh|))
  }

  // ---------------------------------------------------------------- crash safety

  /** While the header is in place, losing or corrupting home blocks that it names is harmless. */
  lemma HeaderProtects(g: Geometry, d: Disk, c: Disk)
    requires GoodLog(g, d) && |c| == g.total && c[g.start] == d[g.start]
    requires var lh := Entries(d[g.start]);
      && SlotData(g, c, |lh|) == SlotData(g, d, |lh|)
      && (forall b | g.Home(b) && b !in lh :: c[b] == d[b])
    ensures SameImage(g, d, c)
  {
    var lh := Entries(d[g.start]);
    forall b | g.Home(b) ensures RecoveredBlock(g, d, b) == RecoveredBlock(g, c, b) {
      if b in lh {
        var i := LastSlot(lh, b);
        assert SlotData(g, c, |lh|)[i] == SlotData(g, d, |lh|)[i];
      }
    }
  }

  /** Writing a header that lists lh makes the slots the recovered contents of those blocks. */
  lemma HeaderTakesEffect(g: Geometry, d: Disk, h: Block, lh: seq<nat>)
    requires g.Valid() && |d| == g.total
    requires HeadOk(h) && Entries(h) == lh && EntriesValid(g, lh)
    ensures GoodLog(g, d[g.start := h])
    ensures forall b | g.Home(b) ::
      RecoveredBlock(g, d[g.start := h], b) == if b in lh then Slot(g, d, LastSlot(lh, b)) else d[b]
  {
    hide HeadOk, Entries;
    var d' := d[g.start := h];
    forall b | g.Home(b) ensures RecoveredBlock(g, d', b) == if b in lh then Slot(g, d, LastSlot(lh, b)) else d[b] {
      assert d'[g.start] == h;
    }
  }

  /** Crash at any point of recovery (block in flight arbitrary): recovering again gives the
      same home blocks. */
  lemma RecoverCrashSafe(g: Geometry, d: Disk, k: nat, c: Disk)
    requires GoodLog(g, d)
    requires k <= |RecoverWrites(g, d)| && CrashDisk(g, d, RecoverWrites(g, d), k, c)
    ensures SameImage(g, d, c)
  {
    var lh := Entries(d[g.start]);
    var ws := RecoverWrites(g, d);
    var n := |lh|;
    if k <= n {
      forall b | 0 <= b < g.total && b !in lh ensures c[b] == d[b] {
        PerformUntouched(d, ws[..k], b);
      }
      HeaderProtects(g, d, c);
    } else {
      assert ws[..k] == ws;
      RecoverResult(g, d);
      assert c == Perform(d, ws);
    }
  }

  /** A recovery that runs to the end installs the image and empties the log. */
  lemma RecoverResult(g: Geometry, d: Disk)
    requires GoodLog(g, d)
    ensures var r := Perform(d, RecoverWrites(g, d));
      && EmptyLog(g, r)
      && SameImage(g, d, r)
      && forall b | g.Home(b) :: r[b] == RecoveredBlock(g, d, b)
  {
    var lh := Entries(d[g.start]);
    var ws := RecoverWrites(g, d);
    var r := Perform(d, ws);
    HeadRoundTrip(d[g.start], []);
    hide HeadOk, Entries, HeadBlock, Perform;
    PerformLast(d, ws, |lh|);
    forall b | g.Home(b) ensures r[b] == RecoveredBlock(g, d, b) {
      InstalledHome(g, d, b);
    }
  }

  lemma InstalledHome(g: Geometry, d: Disk, b: nat)
    requires GoodLog(g, d) && g.Home(b)
    ensures Perform(d, RecoverWrites(g, d))[b] == RecoveredBlock(g, d, b)
  {
    hide HeadOk, Entries, HeadBlock, Perform;
    var lh, ws := Entries(d[g.start]), RecoverWrites(g, d);
    if b in lh {
      PerformLast(d, ws, LastSlot(lh, b));
    } else {
      PerformUntouched(d, ws, b);
    }
  }

  /** Crash at any point of a commit: the old home blocks up to the header write, exactly the
      new ones from the header write on. */
  lemma CommitCrashSafe(g: Geometry, d: Disk, lh: seq<nat>, data: seq<Block>, k: nat, c: Disk)
    requires EmptyLog(g, d) && EntriesValid(g, lh) && |lh| == |data|
    requires forall i, j :: 0 <= i < j < |lh| ==> lh[i] != lh[j]
    requires k <= |CommitWrites(g, d[g.start], lh, data)|
    requires CrashDisk(g, d, CommitWrites(g, d[g.start], lh, data), k, c)
    ensures GoodLog(g, c)
    ensures forall b | g.Home(b) ::
      RecoveredBlock(g, c, b) ==
        if k <= |lh| || b !in lh then d[b] else data[LastSlot(lh, b)]
  {
    var h1 := HeadBlock(d[g.start], lh);
    var h0 := HeadBlock(h1, []);
    HeadRoundTrip(d[g.start], lh);
    HeadRoundTrip(h1, []);
    if lh == [] {
      assert CommitWrites(g, d[g.start], lh, data)[..k] == [];
    } else {
      CommitTraceSafe(g, d, h1, h0, lh, data, k, c);
    }
  }

  ghost predicate CommitCrash(g: Geometry, d: Disk, h1: Block, h0: Block, lh: seq<nat>, data: seq<Block>, k: nat,
                              c: Disk) {
    && EmptyLog(g, d) && EntriesValid(g, lh) && |lh| == |data|
    && (forall i, j :: 0 <= i < j < |lh| ==> lh[i] != lh[j])
    && HeadOk(h1) && Entries(h1) == lh && HeadOk(h0) && Entries(h0) == []
    && k <= 2 * |lh| + 2
    && WritesIn(g, CommitTrace(g, h1, h0, lh, data))
    && CrashDisk(g, d, CommitTrace(g, h1, h0, lh, data), k, c)
  }

  lemma CommitTraceSafe(g: Geometry, d: Disk, h1: Block, h0: Block, lh: seq<nat>, data: seq<Block>, k: nat, c: Disk)
    requires CommitCrash(g, d, h1, h0, lh, data, k, c)
    ensures GoodLog(g, c)
    ensures forall b | g.Home(b) ::
      RecoveredBlock(g, c, b) == if k <= |lh| || b !in lh then d[b] else data[LastSlot(lh, b)]
  {
    if k <= |lh| {
      CommitUnnamedBlocks(g, d, h1, h0, lh, data, k, c);
    } else if k <= 2 * |lh| + 1 {
      CommitInstalling(g, d, h1, h0, lh, data, k, c);
    } else {
      CommitCleared(g, d, h1, h0, lh, data, k, c);
    }
  }

  lemma CommitInstalling(g: Geometry, d: Disk, h1: Block, h0: Block, lh: seq<nat>, data: seq<Block>, k: nat, c: Disk)
    requires CommitCrash(g, d, h1, h0, lh, data, k, c) && |lh| < k <= 2 * |lh| + 1
    ensures GoodLog(g, c)
    ensures forall b | g.Home(b) ::
      RecoveredBlock(g, c, b) == if b in lh then data[LastSlot(lh, b)] else d[b]
  {
    CommitHeader(g, d, h1, h0, lh, data, k, c);
    hide HeadOk, Entries, CrashDisk;
    forall b | g.Home(b)
      ensures RecoveredBlock(g, c, b) == if b in lh then data[LastSlot(lh, b)] else d[b]
    {
      if b in lh {
        CommitSlot(g, d, h1, h0, lh, data, k, c, LastSlot(lh, b));
      } else {
        CommitUnnamedBlocks(g, d, h1, h0, lh, data, k, c);
      }
    }
  }

  lemma CommitCleared(g: Geometry, d: Disk, h1: Block, h0: Block, lh: seq<nat>, data: seq<Block>, k: nat, c: Disk)
    requires CommitCrash(g, d, h1, h0, lh, data, k, c) && k == 2 * |lh| + 2
    ensures GoodLog(g, c)
    ensures forall b | g.Home(b) ::
      RecoveredBlock(g, c, b) == if b in lh then data[LastSlot(lh, b)] else d[b]
  {
    CommitHeader(g, d, h1, h0, lh, data, k, c);
    hide HeadOk, Entries, CrashDisk;
    forall b | g.Home(b)
      ensures RecoveredBlock(g, c, b) == if b in lh then data[LastSlot(lh, b)] else d[b]
    {
      if b in lh {
        CommitHome(g, d, h1, h0, lh, data, k, c, LastSlot(lh, b));
      } else {
        CommitUnnamedBlocks(g, d, h1, h0, lh, data, k, c);
      }
    }
  }

  /** Home blocks that the transaction does not name keep their contents throughout, and before
      the header is written so do all home blocks and the header. */
  lemma CommitUnnamedBlocks(g: Geometry, d: Disk, h1: Block, h0: Block, lh: seq<nat>, data: seq<Block>, k: nat, c: Disk)
    requires CommitCrash(g, d, h1, h0, lh, data, k, c)
    ensures forall b | g.Home(b) && (k <= |lh| || b !in lh) :: c[b] == d[b]
    ensures k <= |lh| ==> c[g.start] == d[g.start]
  {
    var ws := CommitTrace(g, h1, h0, lh, data);
    forall b | 0 <= b < g.total && (if g.Home(b) then k <= |lh| || b !in lh else b == g.start && k <= |lh|)
      ensures c[b] == d[b]
    {
      PerformUntouched(d, ws[..k], b);
    }
  }

  lemma CommitHeader(g: Geometry, d: Disk, h1: Block, h0: Block, lh: seq<nat>, data: seq<Block>, k: nat, c: Disk)
    requires CommitCrash(g, d, h1, h0, lh, data, k, c) && |lh| < k
    ensures c[g.start] == if k <= 2 * |lh| + 1 then h1 else h0
  {
    var ws := CommitTrace(g, h1, h0, lh, data);
    PerformLast(d, ws[..k], if k <= 2 * |lh| + 1 then |lh| else 2 * |lh| + 1);
  }

  lemma CommitSlot(g: Geometry, d: Disk, h1: Block, h0: Block, lh: seq<nat>, data: seq<Block>, k: nat, c: Disk, i: nat)
    requires CommitCrash(g, d, h1, h0, lh, data, k, c) && |lh| < k && i < |lh|
    ensures c[g.start + 1 + i] == data[i]
  {
    var ws := CommitTrace(g, h1, h0, lh, data);
    PerformLast(d, ws[..k], i);
  }

  lemma CommitHome(g: Geometry, d: Disk, h1: Block, h0: Block, lh: seq<nat>, data: seq<Block>, k: nat, c: Disk, i: nat)
    requires CommitCrash(g, d, h1, h0, lh, data, k, c) && k == 2 * |lh| + 2 && i < |lh|
    ensures c[lh[i]] == data[i]
  {
    var ws := CommitTrace(g, h1, h0, lh, data);
    assert ws[|lh| + 1 + i] == Write(lh[i], data[i]);
    PerformLast(d, ws[..k], |lh| + 1 + i);
  }

  /** Any number of crashes during recovery, each followed by another attempt. */
  lemma {:induction false} RepeatedRecovery(g: Geometry, ds: seq<Disk>)
    requires 0 < |ds| && GoodLog(g, ds[0])
    requires forall i :: 0 <= i < |ds| - 1 ==> RecoveryInterrupted(g, ds[i], ds[i + 1])
    ensures SameImage(g, ds[0], ds[|ds| - 1])
    decreases |ds|
  {
    if |ds| > 1 {
      var init := ds[..|ds| - 1];
      RepeatedRecovery(g, init);
      assert RecoveryInterrupted(g, ds[|ds| - 2], ds[|ds| - 2 + 1]);
      var k: nat :| && k <= |RecoverWrites(g, ds[|ds| - 2])|
                    && CrashDisk(g, ds[|ds| - 2], RecoverWrites(g, ds[|ds| - 2]), k, ds[|ds| - 1]);
      RecoverCrashSafe(g, ds[|ds| - 2], k, ds[|ds| - 1]);
    }
  }

  /** c is a disk that an interrupted recovery of d can leave. */
  ghost predicate RecoveryInterrupted(g: Geometry, d: Disk, c: Disk) {
    && GoodLog(g, d)
    && exists k: nat :: k <= |RecoverWrites(g, d)| && CrashDisk(g, d, RecoverWrites(g, d), k, c)
  }
}
