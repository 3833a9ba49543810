/** The log, the buffer cache and any number of file-system processes as one transition system:
    system calls, buffer recycling, each block write of a commit, crashes and each block write
    of a recovery interleave freely.  Sleep locks, the log's spin lock and the cache's spin lock
    make each transition below atomic. */
module LogProtocol {
  import opened Blocks
  import opened LogDisk

  /** A cached buffer.  `waiting` counts references taken by bget whose holder has not got the
      sleep lock yet; dirty means changed by the lock holder and not yet passed to log_write. */
  datatype Buf = Buf(data: Block, valid: bool, refs: nat, waiting: nat, owner: Owner, dirty: bool)
  datatype Owner = Nobody | Held(pid: nat)

  /** A system call between begin_op and end_op; added counts the log slots it has taken. */
  datatype Op = Op(pid: nat, id: nat, added: nat)

  /** One log_write by operation op. */
  datatype Event = Event(op: nat, bno: nat, data: Block)

  /** k is the number of block writes already done. */
  datatype Phase = Running | Committing(k: nat) | Recovering(k: nat)

  /** hist lists every log_write that has not been undone by a crash; its first `committed`
      entries are those whose header write is complete. */
  datatype State = State(
    disk: Disk, cache: map<nat, Buf>, lh: seq<nat>, ops: seq<Op>, phase: Phase,
    hist: seq<Event>, committed: nat, nextId: nat)

  /** Contents of block b after the log_writes in hist. */
  ghost function Val(d0: Disk, hist: seq<Event>, b: nat): (r: Block)
    requires b < |d0|
  {
    if hist == [] then d0[b]
    else if hist[|hist| - 1].bno == b then hist[|hist| - 1].data
    else Val(d0, hist[..|hist| - 1], b)
  }

  // ---------------------------------------------------------------- transitions

  ghost predicate Init(g: Geometry, d0: Disk, s: State) {
    && EmptyLog(g, d0)
    && s == State(d0, map[], [], [], Recovering(0), [], 0, 0)
  }

  predicate Active(s: State, i: nat) {
    i < |s.ops| && s.phase == Running
  }

  ghost predicate BeginOp(s: State, s': State, pid: nat) {
    && s.phase == Running
    && (forall i :: 0 <= i < |s.ops| ==> s.ops[i].pid != pid)
    && |s.lh| + (|s.ops| + 1) * MAXOPBLOCKS <= LOGSIZE
    && s' == s.(ops := s.ops + [Op(pid, s.nextId, 0)], nextId := s.nextId + 1)
  }

  /** bget: one more reference, to a recycled buffer (whatever it held) when the block is not cached. */
  ghost predicate Bget(g: Geometry, s: State, s': State, b: nat, junk: Block) {
    && g.Home(b)
    && !s.phase.Recovering?
    && var buf := if b in s.cache then s.cache[b] else Buf(junk, false, 0, 0, Nobody, false);
    && s' == s.(cache := s.cache[b := buf.(refs := buf.refs + 1, waiting := buf.waiting + 1)])
  }

  ghost predicate Recycle(s: State, s': State, b: nat) {
    && b in s.cache && s.cache[b].refs == 0
    && s' == s.(cache := s.cache - {b})
  }

  /** acquiresleep in bget succeeds. */
  ghost predicate Lock(s: State, s': State, b: nat, pid: nat) {
    && b in s.cache && s.cache[b].owner == Nobody && s.cache[b].waiting > 0
    && s' == s.(cache := s.cache[b := s.cache[b].(owner := Held(pid), waiting := s.cache[b].waiting - 1)])
  }

  /** bread fills a buffer that was just recycled. */
  ghost predicate Fill(s: State, s': State, b: nat) {
    && b in s.cache && b < |s.disk| && s.cache[b].owner != Nobody && !s.cache[b].valid
    && s' == s.(cache := s.cache[b := s.cache[b].(data := s.disk[b], valid := true)])
  }

  ghost predicate Modify(s: State, s': State, b: nat, i: nat, data: Block) {
    && Active(s, i)
    && b in s.cache && s.cache[b].owner == Held(s.ops[i].pid) && s.cache[b].valid
    && s' == s.(cache := s.cache[b := s.cache[b].(data := data, dirty := true)])
  }

  /** log_write, when it does not panic. */
  ghost predicate LogWrite(g: Geometry, s: State, s': State, b: nat, i: nat) {
    && Active(s, i)
    && b in s.cache && s.cache[b].owner == Held(s.ops[i].pid) && s.cache[b].valid
    && |s.lh| < LOGSIZE && |s.lh| < g.size - 1
    && var isNew := b !in s.lh;
    && s' == s.(
         lh := if isNew then s.lh + [b] else s.lh,
         ops := if isNew then s.ops[i := s.ops[i].(added := s.ops[i].added + 1)] else s.ops,
         cache := s.cache[b := s.cache[b].(refs := s.cache[b].refs + (if isNew then 1 else 0), dirty := false)],
         hist := s.hist + [Event(s.ops[i].id, b, s.cache[b].data)])
  }

  /** brelse; a caller that changed the buffer has passed it to log_write first. */
  ghost predicate Release(s: State, s': State, b: nat) {
    && b in s.cache && s.cache[b].owner != Nobody && s.cache[b].refs > 0 && !s.cache[b].dirty
    && s' == s.(cache := s.cache[b := s.cache[b].(owner := Nobody, refs := s.cache[b].refs - 1)])
  }

  ghost predicate EndOp(s: State, s': State, i: nat) {
    && Active(s, i)
    && (forall b :: b in s.cache && s.cache[b].dirty ==> s.cache[b].owner != Held(s.ops[i].pid))
    && s' == s.(
         ops := s.ops[..i] + s.ops[i + 1..],
         phase := if |s.ops| == 1 then Committing(0) else Running)
  }

  /** The next block write of commit().  A buffer it needs must not be locked by a reader. */
  ghost predicate CommitStep(g: Geometry, s: State, s': State) {
    && s.phase.Committing? && |s.disk| == g.total && g.Valid()
    && EntriesValid(g, s.lh)
    && var k, n := s.phase.k, |s.lh|;
    if n == 0 then
      s' == s.(phase := Running)
    else if k < n then
      && s.lh[k] in s.cache && s.cache[s.lh[k]].owner == Nobody && s.cache[s.lh[k]].valid
      && s' == s.(disk := s.disk[g.start + 1 + k := s.cache[s.lh[k]].data], phase := Committing(k + 1))
    else if k == n then
      s' == s.(disk := s.disk[g.start := HeadBlock(s.disk[g.start], s.lh)], phase := Committing(k + 1),
               committed := |s.hist|)
    else if k <= 2 * n then
      var b := s.lh[k - n - 1];
      && b in s.cache && s.cache[b].owner == Nobody && s.cache[b].refs > 0
      && var data := s.disk[g.start + (k - n)];
      && s' == s.(disk := s.disk[b := data], phase := Committing(k + 1),
                  cache := s.cache[b := s.cache[b].(data := data, refs := s.cache[b].refs - 1)])
    else
      s' == s.(disk := s.disk[g.start := HeadBlock(s.disk[g.start], [])], phase := Running, lh := [])
  }

  /** The block whose write is in progress and would be lost or garbled by a crash now; the log
      header is never garbled. */
  ghost predicate InFlight(g: Geometry, s: State, b: nat) {
    var n := |s.lh|;
    match s.phase
    case Running => false
    case Committing(k) => (k < n && b == g.start + 1 + k) || (n < k <= 2 * n && b == s.lh[k - n - 1])
    case Recovering(k) => k < n && b == s.lh[k]
  }

  ghost predicate CrashDiskOf(g: Geometry, s: State, c: Disk) {
    && |c| == |s.disk| == g.total
    && forall b: nat | b < g.total :: c[b] == s.disk[b] || InFlight(g, s, b)
  }

  /** Power fails; the machine restarts with disk c and reads the log header. */
  ghost predicate Crash(g: Geometry, s: State, s': State, c: Disk) {
    && CrashDiskOf(g, s, c)
    && g.start < |c| && HeadOk(c[g.start])
    && s.committed <= |s.hist|
    && s' == State(c, map[], Entries(c[g.start]), [], Recovering(0), s.hist[..s.committed], s.committed, s.nextId)
  }

  ghost predicate RecoverStep(g: Geometry, s: State, s': State) {
    && s.phase.Recovering? && |s.disk| == g.total && g.Valid() && EntriesValid(g, s.lh)
    && var k, n := s.phase.k, |s.lh|;
    if k < n then
      s' == s.(disk := s.disk[s.lh[k] := s.disk[g.start + 1 + k]], phase := Recovering(k + 1))
    else
      s' == s.(disk := s.disk[g.start := HeadBlock(s.disk[g.start], [])], phase := Running, lh := [])
  }

  datatype Step =
    | SBegin(pid: nat) | SBget(b: nat, junk: Block) | SRecycle(b: nat) | SLock(b: nat, pid: nat) | SFill(b: nat)
    | SModify(b: nat, i: nat, data: Block) | SLogWrite(b: nat, i: nat) | SRelease(b: nat) | SEnd(i: nat)
    | SCommit | SCrash(c: Disk) | SRecover

  ghost predicate Next(g: Geometry, s: State, s': State, step: Step) {
    match step
    case SBegin(pid) => BeginOp(s, s', pid)
    case SBget(b, junk) => Bget(g, s, s', b, junk)
    case SRecycle(b) => Recycle(s, s', b)
    case SLock(b, pid) => Lock(s, s', b, pid)
    case SFill(b) => Fill(s, s', b)
    case SModify(b, i, data) => Modify(s, s', b, i, data)
    case SLogWrite(b, i) => LogWrite(g, s, s', b, i)
    case SRelease(b) => Release(s, s', b)
    case SEnd(i) => EndOp(s, s', i)
    case SCommit => CommitStep(g, s, s')
    case SCrash(c) => Crash(g, s, s', c)
    case SRecover => RecoverStep(g, s, s')
  }

  // ---------------------------------------------------------------- invariant

  /** Recovering the disk as it is now gives the committed history, block for block. */
  ghost predicate Durable(g: Geometry, d0: Disk, s: State) {
    && GoodLog(g, s.disk)
    && |d0| == g.total
    && s.committed <= |s.hist|
    && forall b | g.Home(b) :: RecoveredBlock(g, s.disk, b) == Val(d0, s.hist[..s.committed], b)
  }

  /** Operations and history: no operation has log_writes on both sides of the commit point. */
  ghost predicate WholeOps(s: State) {
    && s.committed <= |s.hist|
    && (forall i, j :: 0 <= i < s.committed <= j < |s.hist| ==> s.hist[i].op != s.hist[j].op)
    && (forall i :: 0 <= i < |s.hist| ==> s.hist[i].op < s.nextId)
    && (forall i :: 0 <= i < |s.ops| ==> s.ops[i].id < s.nextId)
    && (forall i, j :: 0 <= i < s.committed && 0 <= j < |s.ops| ==> s.hist[i].op != s.ops[j].id)
    && (s.ops != [] ==> s.phase == Running)
  }

  ghost predicate Entered(g: Geometry, s: State) {
    && EntriesValid(g, s.lh)
    && (forall i, j :: 0 <= i < j < |s.lh| ==> s.lh[i] != s.lh[j])
    && (s.phase == Running && s.ops == [] ==> s.lh == [])
  }

  /** Is the pin that log_write took on a logged block still there? */
  ghost predicate Pinned(s: State, b: nat) {
    match s.phase
    case Running => b in s.lh
    case Committing(k) => if k <= |s.lh| then b in s.lh else k <= 2 * |s.lh| + 1 && b in s.lh[k - |s.lh| - 1..]
    case Recovering(_) => false
  }

  ghost predicate BufOk(g: Geometry, d0: Disk, s: State, b: nat)
    requires b in s.cache && b < |d0|
  {
    var buf := s.cache[b];
    && g.Home(b)
    && buf.refs == buf.waiting + (if buf.owner == Nobody then 0 else 1) + (if Pinned(s, b) then 1 else 0)
    && (buf.dirty ==> buf.valid && exists i :: 0 <= i < |s.ops| && buf.owner == Held(s.ops[i].pid))
    && (buf.valid && !buf.dirty ==> buf.data == Val(d0, s.hist, b))
  }

  /** The cache agrees with the history, and what the cache may forget the disk remembers. */
  ghost predicate Coherent(g: Geometry, d0: Disk, s: State) {
    && |d0| == |s.disk| == g.total
    && (forall b :: b in s.cache ==> b < g.total)
    && (forall b {:trigger BufOk(g, d0, s, b)} :: b in s.cache ==> BufOk(g, d0, s, b))
    && (forall b :: g.Home(b) && Pinned(s, b) ==> b in s.cache && s.cache[b].valid)
    && (!s.phase.Recovering? ==> forall b :: g.Home(b) && !Pinned(s, b) ==> s.disk[b] == Val(d0, s.hist, b))
    && (s.phase.Recovering? ==> s.cache == map[] && s.committed == |s.hist|)
  }

  /** How far the log on disk has got. */
  ghost predicate LogPhase(g: Geometry, d0: Disk, s: State) {
    && GoodLog(g, s.disk) && |d0| == g.total && EntriesValid(g, s.lh)
    && var n := |s.lh|;
    match s.phase
    case Running => EmptyLog(g, s.disk) && Since(s)
    case Committing(k) =>
      && k <= 2 * n + 1 && (n == 0 ==> k == 0)
      && (if k <= n then EmptyLog(g, s.disk) && Since(s)
          else Entries(s.disk[g.start]) == s.lh && s.committed == |s.hist|)
      && SlotsFilled(g, d0, s, if k <= n then k else n)
    case Recovering(k) =>
      && k <= n && s.lh == Entries(s.disk[g.start])
      && forall i :: 0 <= i < k ==> s.disk[s.lh[i]] == s.disk[g.start + (1 + i)]
  }

  /** Every log_write after the commit point is covered by a header entry. */
  ghost predicate Since(s: State) {
    forall j :: s.committed <= j < |s.hist| ==> s.hist[j].bno in s.lh
  }

  ghost predicate SlotsFilled(g: Geometry, d0: Disk, s: State, k: nat)
    requires GoodLog(g, s.disk) && |d0| == g.total && EntriesValid(g, s.lh) && k <= |s.lh|
  {
    forall i :: 0 <= i < k ==> s.disk[g.start + (1 + i)] == Val(d0, s.hist, s.lh[i])
  }

  ghost predicate Inv(g: Geometry, d0: Disk, s: State) {
    && Durable(g, d0, s) && WholeOps(s) && Entered(g, s) && Coherent(g, d0, s) && LogPhase(g, d0, s)
  }

  // ---------------------------------------------------------------- preservation

  lemma ValAppend(d0: Disk, hist: seq<Event>, e: Event, b: nat)
    requires b < |d0|
    ensures Val(d0, hist + [e], b) == if e.bno == b then e.data else Val(d0, hist, b)
  {
    assert (hist + [e])[..|hist|] == hist;
  }

  lemma InitInv(g: Geometry, d0: Disk, s: State)
    requires Init(g, d0, s)
    ensures Inv(g, d0, s)
  {
  }

  // --- what a step does not touch

  lemma FrameDurable(g: Geometry, d0: Disk, s: State, s': State)
    requires Durable(g, d0, s) && s'.disk == s.disk && s'.hist == s.hist && s'.committed == s.committed
    ensures Durable(g, d0, s')
  {
    hide Val, GoodLog, RecoveredBlock;
  }

  lemma FrameWhole(s: State, s': State)
    requires WholeOps(s) && s'.hist == s.hist && s'.committed == s.committed && s'.ops == s.ops && s'.nextId == s.nextId
    requires s'.phase == s.phase || s.ops == []
    ensures WholeOps(s')
  {
  }

  lemma FrameEntered(g: Geometry, s: State, s': State)
    requires Entered(g, s) && s'.lh == s.lh && s'.ops == s.ops && (s'.phase == s.phase || !s'.phase.Running?)
    ensures Entered(g, s')
  {
  }

  lemma FramePhase(g: Geometry, d0: Disk, s: State, s': State)
    requires LogPhase(g, d0, s) && s'.disk == s.disk && s'.lh == s.lh && s'.phase == s.phase
    requires s'.hist == s.hist && s'.committed == s.committed
    ensures LogPhase(g, d0, s')
  {
    hide Val, GoodLog, EmptyLog, Entries, EntriesValid;
  }

  /** The disk write changed no home block and no pin. */
  lemma SameBuffers(g: Geometry, d0: Disk, s: State, s': State)
    requires Coherent(g, d0, s) && s'.cache == s.cache && s'.hist == s.hist && s'.ops == s.ops
    requires !s.phase.Recovering? && !s'.phase.Recovering?
    requires |s'.disk| == g.total && forall b | g.Home(b) :: s'.disk[b] == s.disk[b]
    requires forall b | g.Home(b) :: Pinned(s', b) == Pinned(s, b)
    ensures Coherent(g, d0, s')
  {
    hide Val, Pinned;
    forall x | x in s'.cache ensures x < g.total && BufOk(g, d0, s', x) {
      assert BufOk(g, d0, s, x);
    }
  }

  // --- steps on one buffer

  lemma BufferUpdate(g: Geometry, d0: Disk, s: State, s': State, b: nat)
    requires Inv(g, d0, s) && b in s'.cache && b < g.total
    requires s' == s.(cache := s.cache[b := s'.cache[b]]) && !s.phase.Recovering?
    requires |d0| == g.total && BufOk(g, d0, s', b) && (Pinned(s, b) ==> s'.cache[b].valid)
    ensures Inv(g, d0, s')
  {
    hide Durable, WholeOps, Entered, LogPhase, Val;
    FrameDurable(g, d0, s, s');
    FrameWhole(s, s');
    FrameEntered(g, s, s');
    FramePhase(g, d0, s, s');
    BufferCoherent(g, d0, s, s', b);
  }

  lemma BufferCoherent(g: Geometry, d0: Disk, s: State, s': State, b: nat)
    requires Coherent(g, d0, s) && b in s'.cache && b < g.total
    requires s' == s.(cache := s.cache[b := s'.cache[b]]) && !s.phase.Recovering?
    requires BufOk(g, d0, s', b) && (Pinned(s, b) ==> s'.cache[b].valid)
    ensures Coherent(g, d0, s')
  {
    hide Val;
    forall x: nat ensures Pinned(s', x) <==> Pinned(s, x) {
    }
    hide Pinned;
    forall x | x in s'.cache ensures x < g.total && BufOk(g, d0, s', x) {
      if x != b {
        assert BufOk(g, d0, s, x);
      }
    }
  }

  ghost predicate BufferStep(step: Step) {
    step.SBget? || step.SLock? || step.SFill? || step.SModify? || step.SRelease?
  }

  /** The buffer a step touches is consistent afterwards. */
  lemma TouchedBuf(g: Geometry, d0: Disk, s: State, s': State, step: Step)
    requires Coherent(g, d0, s) && Next(g, s, s', step) && BufferStep(step)
    ensures var b := step.b; b < g.total && b in s'.cache && BufOk(g, d0, s', b)
  {
    hide Val;
    var b := step.b;
    assert b in s.cache ==> BufOk(g, d0, s, b);
    assert Pinned(s', b) <==> Pinned(s, b);
  }

  lemma BufferShape(g: Geometry, s: State, s': State, step: Step)
    requires Next(g, s, s', step) && BufferStep(step)
    ensures step.b in s'.cache && s' == s.(cache := s.cache[step.b := s'.cache[step.b]])
    ensures step.b in s.cache && s.cache[step.b].valid ==> s'.cache[step.b].valid
    ensures step.b in s.cache || !s.phase.Recovering?
  {
  }

  /** Steps that touch one buffer of the cache and nothing else. */
  lemma BufferSteps(g: Geometry, d0: Disk, s: State, s': State, step: Step)
    requires Inv(g, d0, s) && Next(g, s, s', step) && BufferStep(step)
    ensures Inv(g, d0, s')
  {
    TouchedBuf(g, d0, s, s', step);
    BufferShape(g, s, s', step);
    assert !s.phase.Recovering? && (Pinned(s, step.b) ==> s'.cache[step.b].valid) by {
      hide Durable, WholeOps, Entered, LogPhase, Val;
    }
    hide *;
    BufferUpdate(g, d0, s, s', step.b);
  }

  lemma RecycleInv(g: Geometry, d0: Disk, s: State, s': State, b: nat)
    requires Inv(g, d0, s) && Recycle(s, s', b)
    ensures Inv(g, d0, s')
  {
    hide Durable, WholeOps, Entered, LogPhase, Val;
    FrameDurable(g, d0, s, s');
    FrameWhole(s, s');
    FrameEntered(g, s, s');
    FramePhase(g, d0, s, s');
    RecycleCoherent(g, d0, s, s', b);
  }

  lemma RecycleCoherent(g: Geometry, d0: Disk, s: State, s': State, b: nat)
    requires Coherent(g, d0, s) && Recycle(s, s', b)
    ensures Coherent(g, d0, s')
  {
    hide Val;
    assert BufOk(g, d0, s, b);
    forall x: nat ensures Pinned(s', x) <==> Pinned(s, x) {
    }
    hide Pinned;
    forall x | x in s'.cache ensures x < g.total && BufOk(g, d0, s', x) {
      assert BufOk(g, d0, s, x);
    }
  }

  // --- begin_op, log_write, end_op

  lemma BeginInv(g: Geometry, d0: Disk, s: State, s': State, pid: nat)
    requires Inv(g, d0, s) && BeginOp(s, s', pid)
    ensures Inv(g, d0, s')
  {
    hide Durable, LogPhase, Val;
    FrameDurable(g, d0, s, s');
    FramePhase(g, d0, s, s');
    assert WholeOps(s') && Entered(g, s') by {
      hide Coherent;
    }
    hide WholeOps, Entered;
    forall x | x in s'.cache ensures x < g.total && BufOk(g, d0, s', x) {
      assert BufOk(g, d0, s, x);
      if s.cache[x].dirty {
        var i :| 0 <= i < |s.ops| && s.cache[x].owner == Held(s.ops[i].pid);
        assert s'.ops[i] == s.ops[i];
      }
    }
  }

  lemma LogWriteInv(g: Geometry, d0: Disk, s: State, s': State, b: nat, i: nat)
    requires Inv(g, d0, s) && LogWrite(g, s, s', b, i)
    ensures Inv(g, d0, s')
  {
    hide WholeOps, Entered, LogPhase, Val;
    assert g.Home(b) by {
      hide Durable;
      assert BufOk(g, d0, s, b);
    }
    LogWriteDurable(g, d0, s, s', b, i);
    hide Durable, Coherent;
    LogWriteWhole(s, s', b, i, g);
    LogWriteCoherent(g, d0, s, s', b, i);
    LogWriteEntered(g, d0, s, s', b, i);
  }

  lemma LogWriteDurable(g: Geometry, d0: Disk, s: State, s': State, b: nat, i: nat)
    requires Durable(g, d0, s) && LogWrite(g, s, s', b, i)
    ensures Durable(g, d0, s')
  {
    hide Val, GoodLog, RecoveredBlock;
    assert s'.hist[..s'.committed] == s.hist[..s.committed];
  }

  lemma LogWriteEntered(g: Geometry, d0: Disk, s: State, s': State, b: nat, i: nat)
    requires Entered(g, s) && LogPhase(g, d0, s) && LogWrite(g, s, s', b, i) && g.Home(b)
    ensures Entered(g, s') && LogPhase(g, d0, s')
  {
    hide GoodLog, EmptyLog, Val;
  }

  lemma LogWriteWhole(s: State, s': State, b: nat, i: nat, g: Geometry)
    requires WholeOps(s) && LogWrite(g, s, s', b, i)
    ensures WholeOps(s')
  {
    forall j | 0 <= j < |s'.ops| ensures s'.ops[j].id == s.ops[j].id {
    }
  }

  lemma LogWriteCoherent(g: Geometry, d0: Disk, s: State, s': State, b: nat, i: nat)
    requires Coherent(g, d0, s) && LogWrite(g, s, s', b, i)
    ensures Coherent(g, d0, s')
  {
    hide Val;
    forall x | g.Home(x) ensures Val(d0, s'.hist, x) == if x == b then s.cache[b].data else Val(d0, s.hist, x) {
      ValAppend(d0, s.hist, Event(s.ops[i].id, b, s.cache[b].data), x);
    }
    forall x: nat ensures Pinned(s', x) <==> Pinned(s, x) || x == b {
    }
    hide Pinned;
    forall x | x in s'.cache ensures x < g.total && BufOk(g, d0, s', x) {
      LogWriteBuf(g, d0, s, s', b, i, x);
    }
  }

  lemma LogWriteBuf(g: Geometry, d0: Disk, s: State, s': State, b: nat, i: nat, x: nat)
    requires Coherent(g, d0, s) && LogWrite(g, s, s', b, i) && x in s'.cache
    requires forall y | g.Home(y) :: Val(d0, s'.hist, y) == if y == b then s.cache[b].data else Val(d0, s.hist, y)
    requires forall y: nat :: Pinned(s', y) <==> Pinned(s, y) || y == b
    ensures x < g.total && BufOk(g, d0, s', x)
  {
    hide Val;
    assert BufOk(g, d0, s, x) && BufOk(g, d0, s, b);
    assert Pinned(s, b) <==> b in s.lh;
    hide Pinned;
    if x != b && s.cache[x].dirty {
      var j :| 0 <= j < |s.ops| && s.cache[x].owner == Held(s.ops[j].pid);
      assert s'.ops[j].pid == s.ops[j].pid;
    }
  }

  lemma EndInv(g: Geometry, d0: Disk, s: State, s': State, i: nat)
    requires Inv(g, d0, s) && EndOp(s, s', i)
    ensures Inv(g, d0, s')
  {
    hide Durable, LogPhase, Val, Coherent, WholeOps, Entered;
    FrameDurable(g, d0, s, s');
    EndWhole(g, s, s', i);
    EndPhase(g, d0, s, s', i);
    EndCoherent(g, d0, s, s', i);
  }

  lemma EndWhole(g: Geometry, s: State, s': State, i: nat)
    requires WholeOps(s) && Entered(g, s) && EndOp(s, s', i)
    ensures WholeOps(s') && Entered(g, s')
  {
    forall j | 0 <= j < |s'.ops| ensures s'.ops[j] == s.ops[if j < i then j else j + 1] {
    }
  }

  lemma EndPhase(g: Geometry, d0: Disk, s: State, s': State, i: nat)
    requires LogPhase(g, d0, s) && EndOp(s, s', i)
    ensures LogPhase(g, d0, s')
  {
    hide GoodLog, EmptyLog, Val;
  }

  lemma EndCoherent(g: Geometry, d0: Disk, s: State, s': State, i: nat)
    requires Coherent(g, d0, s) && EndOp(s, s', i)
    ensures Coherent(g, d0, s')
  {
    hide Val;
    forall x: nat ensures Pinned(s', x) <==> Pinned(s, x) {
    }
    hide Pinned;
    forall x | x in s'.cache ensures x < g.total && BufOk(g, d0, s', x) {
      assert BufOk(g, d0, s, x);
      if s.cache[x].dirty {
        var j :| 0 <= j < |s.ops| && s.cache[x].owner == Held(s.ops[j].pid);
        assert j != i;
        assert s'.ops[if j < i then j else j - 1] == s.ops[j];
      }
    }
  }

  // --- the writes of a commit

  lemma NoDirty(g: Geometry, d0: Disk, s: State, b: nat)
    requires Coherent(g, d0, s) && s.ops == [] && b in s.cache
    ensures b < g.total && !s.cache[b].dirty && (s.cache[b].valid ==> s.cache[b].data == Val(d0, s.hist, b))
  {
    hide Val, Pinned;
    assert BufOk(g, d0, s, b);
  }

  lemma CommitSlotInv(g: Geometry, d0: Disk, s: State, s': State)
    requires Inv(g, d0, s) && CommitStep(g, s, s') && s.phase.k < |s.lh|
    ensures Inv(g, d0, s')
  {
    hide Val, Durable, WholeOps, Entered, Coherent, LogPhase;
    FrameWhole(s, s') by {
      CommittingQuiet(s);
    }
    FrameEntered(g, s, s');
    CommitSlotDurable(g, d0, s, s');
    CommitSlotPhase(g, d0, s, s');
    SameBuffers(g, d0, s, s');
  }

  lemma CommittingQuiet(s: State)
    requires WholeOps(s) && s.phase.Committing?
    ensures s.ops == []
  {
  }

  lemma CommitSlotDurable(g: Geometry, d0: Disk, s: State, s': State)
    requires Durable(g, d0, s) && LogPhase(g, d0, s) && CommitStep(g, s, s') && s.phase.k < |s.lh|
    ensures Durable(g, d0, s')
  {
    hide Val, HeadOk, Entries;
    HeaderProtects(g, s.disk, s'.disk);
  }

  lemma CommitSlotPhase(g: Geometry, d0: Disk, s: State, s': State)
    requires LogPhase(g, d0, s) && Coherent(g, d0, s) && WholeOps(s) && CommitStep(g, s, s') && s.phase.k < |s.lh|
    ensures LogPhase(g, d0, s')
  {
    hide Val, HeadOk, Entries;
    NoDirty(g, d0, s, s.lh[s.phase.k]);
    hide Coherent, WholeOps;
    assert SlotsFilled(g, d0, s', s.phase.k + 1);
  }

  lemma CommitHeaderInv(g: Geometry, d0: Disk, s: State, s': State)
    requires Inv(g, d0, s) && CommitStep(g, s, s') && 0 < |s.lh| == s.phase.k
    ensures Inv(g, d0, s')
  {
    hide Val, Durable, WholeOps, Entered, Coherent, LogPhase;
    HeaderWhole(s, s');
    FrameEntered(g, s, s');
    HeaderCoherent(g, d0, s, s');
    var h := HeadBlock(s.disk[g.start], s.lh);
    HeadRoundTrip(s.disk[g.start], s.lh);
    hide HeadBlock, HeadOk, Entries;
    HeaderWritten(g, d0, s, s', h);
  }

  lemma HeaderWhole(s: State, s': State)
    requires WholeOps(s) && s.phase.Committing? && s'.hist == s.hist && s'.committed == |s.hist|
    requires s'.ops == s.ops && s'.nextId == s.nextId
    ensures WholeOps(s')
  {
  }

  lemma HeaderCoherent(g: Geometry, d0: Disk, s: State, s': State)
    requires Coherent(g, d0, s) && CommitStep(g, s, s') && 0 < |s.lh| == s.phase.k
    ensures Coherent(g, d0, s')
  {
    hide Val, HeadBlock;
    assert s.lh[0..] == s.lh;
    forall b | g.Home(b) ensures Pinned(s', b) == Pinned(s, b) {
    }
    hide Pinned, Coherent;
    SameBuffers(g, d0, s, s');
  }

  lemma HeaderWritten(g: Geometry, d0: Disk, s: State, s': State, h: Block)
    requires Coherent(g, d0, s) && LogPhase(g, d0, s) && s.phase == Committing(|s.lh|) && 0 < |s.lh|
    requires HeadOk(h) && Entries(h) == s.lh
    requires s' == s.(disk := s.disk[g.start := h], phase := Committing(|s.lh| + 1), committed := |s.hist|)
    ensures Durable(g, d0, s') && LogPhase(g, d0, s')
  {
    hide Val, HeadOk, Entries;
    HeaderTakesEffect(g, s.disk, h, s.lh);
    assert s'.hist[..s'.committed] == s.hist;
    assert SlotsFilled(g, d0, s', |s.lh|);
    forall b | g.Home(b) ensures RecoveredBlock(g, s'.disk, b) == Val(d0, s.hist, b) {
      if b in s.lh {
        var i := LastSlot(s.lh, b);
        assert s.disk[g.start + (1 + i)] == Val(d0, s.hist, s.lh[i]);
      } else {
        assert !Pinned(s, b);
      }
    }
  }

  ghost predicate InstallStep(g: Geometry, s: State, s': State) {
    CommitStep(g, s, s') && |s.lh| < s.phase.k <= 2 * |s.lh|
  }

  lemma CommitInstallInv(g: Geometry, d0: Disk, s: State, s': State)
    requires Inv(g, d0, s) && InstallStep(g, s, s')
    ensures Inv(g, d0, s')
  {
    hide Val, Durable, WholeOps, Entered, Coherent, LogPhase;
    FrameWhole(s, s') by {
      CommittingQuiet(s);
    }
    FrameEntered(g, s, s');
    InstallDurable(g, d0, s, s');
    InstallPhase(g, d0, s, s');
    InstallCoherent(g, d0, s, s');
  }

  lemma InstallDurable(g: Geometry, d0: Disk, s: State, s': State)
    requires Durable(g, d0, s) && LogPhase(g, d0, s) && InstallStep(g, s, s')
    ensures Durable(g, d0, s')
  {
    hide Val, HeadOk, Entries;
    HeaderProtects(g, s.disk, s'.disk);
  }

  lemma InstallPhase(g: Geometry, d0: Disk, s: State, s': State)
    requires LogPhase(g, d0, s) && InstallStep(g, s, s')
    ensures LogPhase(g, d0, s')
  {
    hide Val, HeadOk, Entries;
    assert g.Home(s.lh[s.phase.k - |s.lh| - 1]);
    assert SlotsFilled(g, d0, s', |s.lh|);
  }

  lemma TailPins(lh: seq<nat>, i: nat, x: nat)
    requires i < |lh| && forall j, k :: 0 <= j < k < |lh| ==> lh[j] != lh[k]
    ensures x in lh[i + 1..] <==> x in lh[i..] && x != lh[i]
  {
    assert lh[i..] == [lh[i]] + lh[i + 1..];
  }

  lemma InstallPins(g: Geometry, s: State, s': State, x: nat)
    requires Entered(g, s) && InstallStep(g, s, s')
    ensures Pinned(s', x) <==> Pinned(s, x) && x != s.lh[s.phase.k - |s.lh| - 1]
  {
    TailPins(s.lh, s.phase.k - |s.lh| - 1, x);
  }

  lemma InstallCoherent(g: Geometry, d0: Disk, s: State, s': State)
    requires Coherent(g, d0, s) && Entered(g, s) && LogPhase(g, d0, s) && InstallStep(g, s, s')
    ensures Coherent(g, d0, s')
  {
    hide Val, HeadOk, Entries;
    var b := s.lh[s.phase.k - |s.lh| - 1];
    forall x: nat ensures Pinned(s', x) <==> Pinned(s, x) && x != b {
      InstallPins(g, s, s', x);
    }
    InstalledBuf(g, d0, s, s');
    hide Pinned, LogPhase, Entered;
    forall x | x in s'.cache ensures x < g.total && BufOk(g, d0, s', x) {
      assert BufOk(g, d0, s, x);
    }
  }

  lemma InstalledBuf(g: Geometry, d0: Disk, s: State, s': State)
    requires Coherent(g, d0, s) && Entered(g, s) && LogPhase(g, d0, s) && InstallStep(g, s, s')
    ensures var b := s.lh[s.phase.k - |s.lh| - 1];
      b < g.total && b in s'.cache && BufOk(g, d0, s', b) && s'.disk[b] == Val(d0, s.hist, b) && s'.cache[b].valid
  {
    hide Val, HeadOk, Entries;
    var i := s.phase.k - |s.lh| - 1;
    assert s.disk[g.start + (1 + i)] == Val(d0, s.hist, s.lh[i]);
    assert s.lh[i] in s.lh[i..];
    assert Pinned(s, s.lh[i]) && BufOk(g, d0, s, s.lh[i]);
    InstallPins(g, s, s', s.lh[i]);
  }

  lemma CommitClearInv(g: Geometry, d0: Disk, s: State, s': State)
    requires Inv(g, d0, s) && CommitStep(g, s, s') && 0 < |s.lh| && s.phase.k == 2 * |s.lh| + 1
    ensures Inv(g, d0, s')
  {
    hide Val, Durable, WholeOps, Coherent, LogPhase;
    assert Entered(g, s');
    FrameWhole(s, s') by {
      CommittingQuiet(s);
    }
    ClearCoherent(g, d0, s, s');
    HeadRoundTrip(s.disk[g.start], []);
    hide HeadBlock, HeadOk, Entries;
    ClearDurable(g, d0, s, s');
  }

  lemma ClearCoherent(g: Geometry, d0: Disk, s: State, s': State)
    requires Coherent(g, d0, s) && CommitStep(g, s, s') && 0 < |s.lh| && s.phase.k == 2 * |s.lh| + 1
    ensures Coherent(g, d0, s')
  {
    hide Val, HeadBlock;
    assert s.lh[|s.lh|..] == [];
    forall b | g.Home(b) ensures Pinned(s', b) == Pinned(s, b) {
    }
    hide Pinned, Coherent;
    SameBuffers(g, d0, s, s');
  }

  lemma ClearDurable(g: Geometry, d0: Disk, s: State, s': State)
    requires Coherent(g, d0, s') && LogPhase(g, d0, s) && g.Valid()
    requires s.phase == Committing(2 * |s.lh| + 1) && 0 < |s.lh| && s'.phase == Running && s'.lh == []
    requires s'.hist == s.hist && s'.committed == s.committed
    requires |s'.disk| == g.total && HeadOk(s'.disk[g.start]) && Entries(s'.disk[g.start]) == []
    ensures Durable(g, d0, s') && LogPhase(g, d0, s')
  {
    hide Val, HeadOk, Entries;
    assert s'.hist[..s'.committed] == s'.hist;
    forall b | g.Home(b) ensures RecoveredBlock(g, s'.disk, b) == Val(d0, s'.hist, b) {
      assert !Pinned(s', b);
    }
  }

  lemma CommitNothingInv(g: Geometry, d0: Disk, s: State, s': State)
    requires Inv(g, d0, s) && CommitStep(g, s, s') && s.lh == []
    ensures Inv(g, d0, s')
  {
    hide Val, Durable, WholeOps, Coherent, GoodLog, EmptyLog;
    FrameDurable(g, d0, s, s');
    FrameWhole(s, s') by {
      CommittingQuiet(s);
    }
    SameBuffers(g, d0, s, s');
  }

  // --- crash and recovery

  /** A crash in any reachable state, whatever becomes of the block in flight, loses nothing
      that recovery needs. */
  lemma CrashImage(g: Geometry, d0: Disk, s: State, c: Disk)
    requires Entered(g, s) && LogPhase(g, d0, s) && CrashDiskOf(g, s, c)
    ensures SameImage(g, s.disk, c) && c[g.start] == s.disk[g.start]
  {
    hide Val, HeadOk, Entries;
    var lh := Entries(s.disk[g.start]);
    forall b: nat | b < g.total && g.Home(b) && b !in lh ensures c[b] == s.disk[b] {
    }
    assert SlotData(g, c, |lh|) == SlotData(g, s.disk, |lh|);
    HeaderProtects(g, s.disk, c);
  }

  lemma CrashInv(g: Geometry, d0: Disk, s: State, s': State, c: Disk)
    requires Inv(g, d0, s) && Crash(g, s, s', c)
    ensures Inv(g, d0, s')
  {
    hide Val, HeadOk, Entries, Coherent;
    CrashImage(g, d0, s, c);
    assert s'.hist[..s'.committed] == s.hist[..s.committed];
    CrashEntries(g, d0, s);
    hide LogPhase, Durable, WholeOps, Entered;
    CrashParts(g, d0, s, s', c);
  }

  lemma CrashParts(g: Geometry, d0: Disk, s: State, s': State, c: Disk)
    requires Durable(g, d0, s) && WholeOps(s) && Crash(g, s, s', c) && SameImage(g, s.disk, c)
    requires s'.hist[..s'.committed] == s.hist[..s.committed]
    requires forall i, j :: 0 <= i < j < |s'.lh| ==> s'.lh[i] != s'.lh[j]
    ensures Inv(g, d0, s')
  {
    hide Val, HeadOk, Entries;
  }

  lemma CrashEntries(g: Geometry, d0: Disk, s: State)
    requires Entered(g, s) && LogPhase(g, d0, s)
    ensures var lh := Entries(s.disk[g.start]);
      forall i, j :: 0 <= i < j < |lh| ==> lh[i] != lh[j]
  {
    hide Val, HeadOk, Entries;
  }

  lemma RecoverClearInv(g: Geometry, d0: Disk, s: State, s': State)
    requires Inv(g, d0, s) && RecoverStep(g, s, s') && s.phase.k == |s.lh|
    ensures Inv(g, d0, s')
  {
    hide Val, WholeOps;
    HeadRoundTrip(s.disk[g.start], []);
    hide HeadBlock, HeadOk, Entries;
    assert s.hist[..s.committed] == s.hist;
    FrameWhole(s, s') by {
      RecoveringQuiet(s);
    }
    forall b | g.Home(b) ensures s'.disk[b] == Val(d0, s.hist, b) {
      RecoveredHome(g, d0, s, b);
    }
    hide Durable, Coherent;
    Recovered(g, d0, s');
  }

  lemma RecoveringQuiet(s: State)
    requires WholeOps(s) && s.phase.Recovering?
    ensures s.ops == []
  {
  }

  lemma RecoveredHome(g: Geometry, d0: Disk, s: State, b: nat)
    requires Durable(g, d0, s) && Entered(g, s) && LogPhase(g, d0, s) && s.phase == Recovering(|s.lh|)
    requires s.committed == |s.hist| && g.Home(b)
    ensures s.disk[b] == Val(d0, s.hist, b)
  {
    hide Val, HeadOk, Entries;
    assert s.hist[..s.committed] == s.hist;
    if b in s.lh {
      var i := LastSlot(s.lh, b);
      assert s.disk[s.lh[i]] == s.disk[g.start + (1 + i)];
    }
  }

  /** The state after recovery: an empty log, nothing cached, the disk as logged. */
  lemma Recovered(g: Geometry, d0: Disk, s: State)
    requires g.Valid() && |s.disk| == |d0| == g.total && HeadOk(s.disk[g.start]) && Entries(s.disk[g.start]) == []
    requires s.phase == Running && s.lh == [] && s.cache == map[] && s.committed == |s.hist| && WholeOps(s)
    requires forall b | g.Home(b) :: s.disk[b] == Val(d0, s.hist, b)
    ensures Inv(g, d0, s)
  {
    hide Val, HeadOk, Entries, WholeOps;
    assert s.hist[..s.committed] == s.hist;
  }

  lemma RecoverInstallInv(g: Geometry, d0: Disk, s: State, s': State)
    requires Inv(g, d0, s) && RecoverStep(g, s, s') && s.phase.k < |s.lh|
    ensures Inv(g, d0, s')
  {
    hide Val, WholeOps, Entered, LogPhase, Durable;
    FrameWhole(s, s') by {
      RecoveringQuiet(s);
    }
    FrameEntered(g, s, s');
    RecoverInstallDurable(g, d0, s, s');
    RecoverInstallPhase(g, d0, s, s');
  }

  lemma RecoverInstallDurable(g: Geometry, d0: Disk, s: State, s': State)
    requires Durable(g, d0, s) && LogPhase(g, d0, s) && RecoverStep(g, s, s') && s.phase.k < |s.lh|
    ensures Durable(g, d0, s')
  {
    hide Val, HeadOk, Entries;
    HeaderProtects(g, s.disk, s'.disk);
  }

  lemma RecoverInstallPhase(g: Geometry, d0: Disk, s: State, s': State)
    requires Entered(g, s) && LogPhase(g, d0, s) && RecoverStep(g, s, s') && s.phase.k < |s.lh|
    ensures LogPhase(g, d0, s')
  {
    hide Val, HeadOk, Entries;
    var k := s.phase.k;
    forall i | 0 <= i < k + 1 ensures s'.disk[s.lh[i]] == s'.disk[g.start + (1 + i)] {
      assert i < k ==> s.lh[i] != s.lh[k];
      assert g.Home(s.lh[k]);
    }
  }

  /** Every transition keeps the invariant. */
  lemma NextInv(g: Geometry, d0: Disk, s: State, s': State, step: Step)
    requires Inv(g, d0, s) && Next(g, s, s', step)
    ensures Inv(g, d0, s')
  {
    hide Inv;
    match step
    case SBegin(pid) => BeginInv(g, d0, s, s', pid);
    case SBget(_, _) => BufferSteps(g, d0, s, s', step);
    case SRecycle(b) => RecycleInv(g, d0, s, s', b);
    case SLock(_, _) => BufferSteps(g, d0, s, s', step);
    case SFill(_) => BufferSteps(g, d0, s, s', step);
    case SModify(_, _, _) => BufferSteps(g, d0, s, s', step);
    case SLogWrite(b, i) => LogWriteInv(g, d0, s, s', b, i);
    case SRelease(_) => BufferSteps(g, d0, s, s', step);
    case SEnd(i) => EndInv(g, d0, s, s', i);
    case SCommit => CommitInv(g, d0, s, s');
    case SCrash(c) => CrashInv(g, d0, s, s', c);
    case SRecover => RecoverInv(g, d0, s, s');
  }

  lemma RecoverInv(g: Geometry, d0: Disk, s: State, s': State)
    requires Inv(g, d0, s) && RecoverStep(g, s, s')
    ensures Inv(g, d0, s')
  {
    assert s.phase.k <= |s.lh| by {
      hide Durable, Coherent, Entered, WholeOps;
    }
    hide Inv;
    if s.phase.k < |s.lh| {
      RecoverInstallInv(g, d0, s, s');
    } else {
      RecoverClearInv(g, d0, s, s');
    }
  }

  lemma CommitInv(g: Geometry, d0: Disk, s: State, s': State)
    requires Inv(g, d0, s) && CommitStep(g, s, s')
    ensures Inv(g, d0, s')
  {
    var k, n := s.phase.k, |s.lh|;
    assert k <= 2 * n + 1 by {
      hide Durable, Coherent, Entered, WholeOps;
    }
    hide Inv, HeadBlock;
    if n == 0 {
      CommitNothingInv(g, d0, s, s');
    } else if k < n {
      CommitSlotInv(g, d0, s, s');
    } else if k == n {
      CommitHeaderInv(g, d0, s, s');
    } else if k <= 2 * n {
      CommitInstallInv(g, d0, s, s');
    } else {
      CommitClearInv(g, d0, s, s');
    }
  }

  // ---------------------------------------------------------------- whole runs

  /** A run: boot on an image with an empty log, then any transitions, crashes included. */
  ghost predicate Run(g: Geometry, d0: Disk, run: seq<State>) {
    && run != [] && Init(g, d0, run[0])
    && forall i :: 0 <= i < |run| - 1 ==> Stepped(g, run[i], run[i + 1])
  }

  ghost predicate Stepped(g: Geometry, s: State, s': State) {
    exists step :: Next(g, s, s', step)
  }

  lemma {:induction false} RunInv(g: Geometry, d0: Disk, run: seq<State>, i: nat)
    requires Run(g, d0, run) && i < |run|
    ensures Inv(g, d0, run[i])
  {
    hide Inv, Next, Init;
    if i == 0 {
      InitInv(g, d0, run[0]);
    } else {
      RunInv(g, d0, run, i - 1);
      assert Stepped(g, run[i - 1], run[i - 1 + 1]);
      var step :| Next(g, run[i - 1], run[i], step);
      NextInv(g, d0, run[i - 1], run[i], step);
    }
  }

  /** Crash safety of whole runs: stop the machine in any state of any run, with the block in
      flight garbled; recovery yields the effect of the committed log_writes, block for block,
      and every operation is in there entirely or not at all. */
  lemma CrashRecoversWholeOps(g: Geometry, d0: Disk, run: seq<State>, i: nat, c: Disk)
    requires Run(g, d0, run) && i < |run| && CrashDiskOf(g, run[i], c)
    ensures GoodLog(g, c) && |d0| == g.total && run[i].committed <= |run[i].hist|
    ensures forall b | g.Home(b) ::
      RecoveredBlock(g, c, b) == Val(d0, run[i].hist[..run[i].committed], b)
    ensures forall j, k :: 0 <= j < run[i].committed <= k < |run[i].hist| ==>
      run[i].hist[j].op != run[i].hist[k].op
    ensures forall j, k :: 0 <= j < run[i].committed && 0 <= k < |run[i].ops| ==>
      run[i].hist[j].op != run[i].ops[k].id
  {
    RunInv(g, d0, run, i);
    CrashImage(g, d0, run[i], c);
  }

  /** s' has every committed log_write of s, in the same order. */
  ghost predicate Extends(s: State, s': State) {
    && s.committed <= |s.hist| && s.committed <= s'.committed <= |s'.hist|
    && s'.hist[..s.committed] == s.hist[..s.committed]
  }

  /** No transition takes back a committed log_write. */
  lemma CommittedKept(g: Geometry, d0: Disk, s: State, s': State, step: Step)
    requires Inv(g, d0, s) && Next(g, s, s', step)
    ensures Extends(s, s')
  {
    NextInv(g, d0, s, s', step);
    hide Durable, Coherent, LogPhase, Entered;
    assert s'.hist[..s.committed] == s.hist[..s.committed];
  }

  lemma PrefixChain<T>(x: seq<T>, y: seq<T>, z: seq<T>, m: nat, n: nat)
    requires m <= n <= |y| && m <= |x| && n <= |z|
    requires y[..m] == x[..m] && z[..n] == y[..n]
    ensures z[..m] == x[..m]
  {
    assert z[..m] == z[..n][..m];
    assert y[..m] == y[..n][..m];
  }

  /** Durability: what is committed at some point of a run is part of every later state. */
  lemma {:induction false} Durability(g: Geometry, d0: Disk, run: seq<State>, i: nat, j: nat)
    requires Run(g, d0, run) && i <= j < |run|
    ensures Extends(run[i], run[j])
  {
    hide Inv, Next, Init, Extends;
    if i < j {
      Durability(g, d0, run, i, j - 1);
      StepExtends(g, d0, run, j);
      ExtendsTransitive(run[i], run[j - 1], run[j]);
    } else {
      RunInv(g, d0, run, i);
      ExtendsSelf(g, d0, run[i]);
    }
  }

  lemma ExtendsSelf(g: Geometry, d0: Disk, s: State)
    requires Inv(g, d0, s)
    ensures Extends(s, s)
  {
    hide Durable, Coherent, LogPhase, Entered;
  }

  lemma ExtendsTransitive(r: State, s: State, t: State)
    requires Extends(r, s) && Extends(s, t)
    ensures Extends(r, t)
  {
    PrefixChain(r.hist, s.hist, t.hist, r.committed, s.committed);
  }

  lemma StepExtends(g: Geometry, d0: Disk, run: seq<State>, j: nat)
    requires Run(g, d0, run) && 0 < j < |run|
    ensures Extends(run[j - 1], run[j])
  {
    hide Inv, Next, Init;
    RunInv(g, d0, run, j - 1);
    assert Stepped(g, run[j - 1], run[j - 1 + 1]);
    var step :| Next(g, run[j - 1], run[j], step);
    CommittedKept(g, d0, run[j - 1], run[j], step);
  }

  lemma QuietState(g: Geometry, d0: Disk, s: State)
    requires Inv(g, d0, s) && s.phase == Running && s.ops == []
    ensures s.committed == |s.hist| && |s.disk| == |d0| == g.total
    ensures forall b | g.Home(b) :: s.disk[b] == Val(d0, s.hist, b)
  {
    hide Val, Durable, EmptyLog, GoodLog;
    SinceEntered(s);
  }

  lemma SinceEntered(s: State)
    requires Since(s) && s.committed <= |s.hist|
    ensures s.committed == |s.hist| || s.lh != []
  {
    if s.committed < |s.hist| {
      assert s.hist[s.committed].bno in s.lh;
    }
  }

  /** When no commit or recovery is in progress and no operation is open, everything logged is
      committed. */
  lemma QuietMeansCommitted(g: Geometry, d0: Disk, run: seq<State>, i: nat)
    requires Run(g, d0, run) && i < |run| && run[i].phase == Running && run[i].ops == []
    ensures run[i].committed == |run[i].hist| && |run[i].disk| == |d0| == g.total
    ensures forall b | g.Home(b) :: run[i].disk[b] == Val(d0, run[i].hist, b)
  {
    RunInv(g, d0, run, i);
    QuietState(g, d0, run[i]);
  }

  /** What bread returns is the latest logged contents, whether the buffer was cached or had to
      be filled from disk, unless its holder is in the middle of changing it. */
  lemma BreadLatest(g: Geometry, d0: Disk, run: seq<State>, i: nat, b: nat)
    requires Run(g, d0, run) && i < |run| && b in run[i].cache && b < |d0|
    requires run[i].cache[b].valid && !run[i].cache[b].dirty
    ensures run[i].cache[b].data == Val(d0, run[i].hist, b)
  {
    RunInv(g, d0, run, i);
    assert BufOk(g, d0, run[i], b);
  }

  /** Logged buffers stay in the cache, valid and referenced, until they are installed. */
  lemma LoggedStayPinned(g: Geometry, d0: Disk, run: seq<State>, i: nat, b: nat)
    requires Run(g, d0, run) && i < |run| && Pinned(run[i], b)
    ensures b in run[i].cache && run[i].cache[b].valid && run[i].cache[b].refs > 0
    ensures forall s' :: !Recycle(run[i], s', b)
  {
    RunInv(g, d0, run, i);
    assert b in run[i].lh;
    assert BufOk(g, d0, run[i], b);
  }

  /** A home block changes on disk only while a header naming it is on disk, and only to its
      committed contents. */
  lemma HomeWritesFollowHeader(g: Geometry, d0: Disk, run: seq<State>, i: nat, step: Step, b: nat)
    requires Run(g, d0, run) && i + 1 < |run| && Next(g, run[i], run[i + 1], step) && !step.SCrash?
    requires g.Home(b) && |run[i].disk| == |run[i + 1].disk| == |d0| == g.total
    requires run[i].disk[b] != run[i + 1].disk[b]
    ensures GoodLog(g, run[i].disk) && b in Entries(run[i].disk[g.start])
    ensures run[i].committed == |run[i].hist| && run[i + 1].disk[b] == Val(d0, run[i].hist, b)
  {
    RunInv(g, d0, run, i);
    match step {
      case SCommit => HomeCommitted(g, d0, run[i], run[i + 1], b);
      case SRecover => HomeRecovered(g, d0, run[i], run[i + 1], b);
      case _ =>
    }
  }

  lemma HomeCommitted(g: Geometry, d0: Disk, s: State, s': State, b: nat)
    requires Inv(g, d0, s) && CommitStep(g, s, s') && g.Home(b) && s.disk[b] != s'.disk[b]
    ensures b in Entries(s.disk[g.start])
    ensures s.committed == |s.hist| && s'.disk[b] == Val(d0, s.hist, b)
  {
    hide Val, HeadOk, Entries, HeadBlock, Durable, Coherent, WholeOps;
    var n := |s.lh|;
    assert n < s.phase.k <= 2 * n;
    var j := s.phase.k - n - 1;
    assert s.disk[g.start + (1 + j)] == Val(d0, s.hist, s.lh[j]);
  }

  lemma HomeRecovered(g: Geometry, d0: Disk, s: State, s': State, b: nat)
    requires Inv(g, d0, s) && RecoverStep(g, s, s') && g.Home(b) && s.disk[b] != s'.disk[b]
    ensures b in Entries(s.disk[g.start])
    ensures s.committed == |s.hist| && s'.disk[b] == Val(d0, s.hist, b)
  {
    hide Val, HeadOk, Entries, HeadBlock, WholeOps;
    DistinctLastSlot(s.lh, s.phase.k);
    assert s.hist[..s.committed] == s.hist;
    assert RecoveredBlock(g, s.disk, b) == Val(d0, s.hist, b);
  }
}
