/** The in-memory inode table: references, sleep locks, the copy of the on-disk inode, and freeing
    an inode on the last iput, interleaved in any order by any number of threads.  A reference is
    modelled by a number of its own, so that ip->ref is how many there are. */
module InodeTable {
  /** The part of an on-disk inode that matters here; type 0 is a free inode. */
  datatype Dinode = Dinode(typ: nat, nlink: nat, body: nat)

  /** Who has the entry's sleep lock: a thread using reference k that has not yet made sure the copy
      is valid, one that has, or one freeing the inode in iput, n steps in. */
  datatype Lock = Open | Taken(k: nat) | Ready(k: nat) | Freeing(k: nat, n: nat)

  datatype Entry = Entry(inum: nat, refs: set<nat>, valid: bool, copy: Dinode, lock: Lock)

  /** unclaimed: numbers ialloc has allocated and not yet passed to iget; dropping: references whose iput
      has freed the inode and has only the final decrement to do. */
  datatype State = State(table: seq<Entry>, disk: seq<Dinode>, unclaimed: set<nat>, dropping: set<nat>, next: nat)

  datatype Step =
    | Ialloc(inum: nat, typ: nat) | Hit(i: nat, inum: nat) | Miss(i: nat, inum: nat) | Idup(i: nat, k: nat)
    | Acquire(i: nat, k: nat) | Load(i: nat, k: nat) | Change(i: nat, k: nat, d: Dinode) | Update(i: nat, k: nat)
    | Release(i: nat, k: nat) | Put(i: nat, k: nat)
    | FreeBegin(i: nat, k: nat) | FreeTrunc(i: nat, k: nat) | FreeClear(i: nat, k: nat) | FreeInvalid(i: nat, k: nat)
    | FreeUnlock(i: nat, k: nat) | Drop(i: nat, k: nat)

  function Set(s: State, i: nat, e: Entry): State
    requires i < |s.table|
  {
    s.(table := s.table[i := e])
  }

  function Write(s: State, inum: nat, d: Dinode): State
    requires inum < |s.disk|
  {
    s.(disk := s.disk[inum := d])
  }

  /** Reference k to entry i is held by a thread that is not in the middle of something with it. */
  predicate Idle(s: State, i: nat, k: nat) {
    && i < |s.table| && k in s.table[i].refs && k !in s.dropping
    && s.table[i].lock != Taken(k) && s.table[i].lock != Ready(k)
    && !(s.table[i].lock.Freeing? && s.table[i].lock.k == k)
  }

  /** Who calls iget has found the number in a directory or got it from ialloc. */
  predicate Findable(s: State, inum: nat) {
    inum < |s.disk| && (s.disk[inum].nlink > 0 || inum in s.unclaimed)
  }

  /** iput's test for freeing the inode. */
  predicate LastOfUnlinked(e: Entry) {
    |e.refs| == 1 && e.valid && e.copy.nlink == 0
  }

  ghost predicate Next(s: State, s': State, step: Step) {
    match step
    case Ialloc(inum, typ) =>
      && inum < |s.disk| && s.disk[inum].typ == 0 && typ != 0
      && s' == Write(s, inum, Dinode(typ, 0, 0)).(unclaimed := s.unclaimed + {inum})
    case Hit(i, inum) =>
      && i < |s.table| && Findable(s, inum) && s.table[i].refs != {} && s.table[i].inum == inum
      && s' == Set(s, i, s.table[i].(refs := s.table[i].refs + {s.next}))
               .(unclaimed := s.unclaimed - {inum}, next := s.next + 1)
    case Miss(i, inum) =>
      && i < |s.table| && Findable(s, inum) && s.table[i].refs == {}
      && (forall j :: 0 <= j < |s.table| && s.table[j].refs != {} ==> s.table[j].inum != inum)
      && (forall j :: 0 <= j < i ==> s.table[j].refs != {})
      && s' == Set(s, i, s.table[i].(inum := inum, refs := {s.next}, valid := false))
               .(unclaimed := s.unclaimed - {inum}, next := s.next + 1)
    case Idup(i, k) =>
      && Idle(s, i, k)
      && s' == Set(s, i, s.table[i].(refs := s.table[i].refs + {s.next})).(next := s.next + 1)
    case Acquire(i, k) =>
      && Idle(s, i, k) && s.table[i].lock == Open
      && s' == Set(s, i, s.table[i].(lock := Taken(k)))
    case Load(i, k) =>
      && i < |s.table| && s.table[i].lock == Taken(k) && s.table[i].inum < |s.disk|
      && (s.table[i].valid || s.disk[s.table[i].inum].typ != 0)
      && s' == Set(s, i, s.table[i].(valid := true, lock := Ready(k),
                                     copy := if s.table[i].valid then s.table[i].copy else s.disk[s.table[i].inum]))
    case Change(i, k, d) =>
      && i < |s.table| && s.table[i].lock == Ready(k) && d.typ != 0
      && s' == Set(s, i, s.table[i].(copy := d))
    case Update(i, k) =>
      && i < |s.table| && s.table[i].lock == Ready(k) && s.table[i].inum < |s.disk|
      && s' == Write(s, s.table[i].inum, s.table[i].copy)
    case Release(i, k) =>
      && i < |s.table| && s.table[i].lock == Ready(k) && s.table[i].inum < |s.disk|
      && s.table[i].copy == s.disk[s.table[i].inum]
      && s' == Set(s, i, s.table[i].(lock := Open))
    case Put(i, k) =>
      && Idle(s, i, k) && !LastOfUnlinked(s.table[i])
      && s' == Set(s, i, s.table[i].(refs := s.table[i].refs - {k}))
    case FreeBegin(i, k) =>
      && Idle(s, i, k) && LastOfUnlinked(s.table[i]) && s.table[i].lock == Open
      && s' == Set(s, i, s.table[i].(lock := Freeing(k, 0)))
    case FreeTrunc(i, k) =>
      && i < |s.table| && s.table[i].lock == Freeing(k, 0) && s.table[i].inum < |s.disk|
      && var d := s.table[i].copy.(body := 0);
      && s' == Set(Write(s, s.table[i].inum, d), i, s.table[i].(copy := d, lock := Freeing(k, 1)))
    case FreeClear(i, k) =>
      && i < |s.table| && s.table[i].lock == Freeing(k, 1) && s.table[i].inum < |s.disk|
      && var d := s.table[i].copy.(typ := 0);
      && s' == Set(Write(s, s.table[i].inum, d), i, s.table[i].(copy := d, lock := Freeing(k, 2)))
    case FreeInvalid(i, k) =>
      && i < |s.table| && s.table[i].lock == Freeing(k, 2)
      && s' == Set(s, i, s.table[i].(valid := false, lock := Freeing(k, 3)))
    case FreeUnlock(i, k) =>
      && i < |s.table| && s.table[i].lock == Freeing(k, 3)
      && s' == Set(s, i, s.table[i].(lock := Open)).(dropping := s.dropping + {k})
    case Drop(i, k) =>
      && i < |s.table| && k in s.table[i].refs && k in s.dropping
      && s' == Set(s, i, s.table[i].(refs := s.table[i].refs - {k})).(dropping := s.dropping - {k})
  }

  // ---------------------------------------------------------------- invariant

  /** Reference k of entry e still stands for the inode, rather than for one already freed. */
  predicate Standing(s: State, e: Entry, k: nat) {
    k in e.refs && k !in s.dropping && !(e.lock.Freeing? && e.lock.k == k && e.lock.n >= 2)
  }

  ghost predicate EntryOk(s: State, e: Entry) {
    && (forall k :: k in e.refs ==> k < s.next)
    && (!e.lock.Open? ==> e.lock.k in e.refs && e.lock.k !in s.dropping)
    && (e.refs != {} ==> e.inum < |s.disk| && LockOk(s, e))
    && (forall k :: Standing(s, e, k) ==> s.disk[e.inum].typ != 0 && e.inum !in s.unclaimed)
  }

  ghost predicate LockOk(s: State, e: Entry)
    requires e.inum < |s.disk|
  {
    match e.lock
    case Open => e.valid ==> e.copy == s.disk[e.inum] && e.copy.typ != 0
    case Taken(_) => e.valid ==> e.copy == s.disk[e.inum] && e.copy.typ != 0
    case Ready(_) => e.valid && e.copy.typ != 0
    case Freeing(k, n) =>
      && (n < 2 ==> e.refs == {k} && e.valid && e.copy == s.disk[e.inum] && e.copy.typ != 0 && e.copy.nlink == 0)
      && (n == 1 ==> e.copy.body == 0)
      && (n >= 3 ==> !e.valid)
  }

  ghost predicate Entries(s: State) {
    forall i :: 0 <= i < |s.table| ==> EntryOk(s, s.table[i])
  }

  /** At most one entry in use per inode number, and no reference is to two entries. */
  ghost predicate Unique(s: State) {
    forall i, j :: 0 <= i < j < |s.table| && s.table[i].refs != {} && s.table[j].refs != {} ==>
      s.table[i].inum != s.table[j].inum && s.table[i].refs !! s.table[j].refs
  }

  ghost predicate Disk(s: State) {
    && (forall n :: 0 <= n < |s.disk| && s.disk[n].nlink > 0 ==> s.disk[n].typ != 0)
    && (forall n :: n in s.unclaimed ==> n < |s.disk| && s.disk[n].typ != 0)
    && (forall k :: k in s.dropping ==> k < s.next)
  }

  ghost predicate Inv(s: State) {
    Entries(s) && Unique(s) && Disk(s)
  }

  ghost predicate Init(s: State) {
    && (forall i :: 0 <= i < |s.table| ==> s.table[i].refs == {} && s.table[i].lock == Open)
    && (forall n :: 0 <= n < |s.disk| && s.disk[n].nlink > 0 ==> s.disk[n].typ != 0)
    && s.unclaimed == {} && s.dropping == {}
  }

  // ---------------------------------------------------------------- preservation

  function Target(step: Step): nat {
    match step
    case Ialloc(_, _) => 0
    case _ => step.i
  }

  lemma AllocInv(s: State, s': State, step: Step)
    requires Inv(s) && Next(s, s', step) && step.Ialloc?
    ensures Inv(s')
  {
    forall j | 0 <= j < |s'.table| ensures EntryOk(s', s'.table[j]) {
      assert EntryOk(s, s.table[j]);
      forall k ensures Standing(s', s'.table[j], k) == Standing(s, s.table[j], k) {
      }
    }
  }

  /** A step on entry i leaves every other entry in order. */
  lemma OtherEntry(s: State, s': State, step: Step, j: nat)
    requires Inv(s) && Next(s, s', step) && !step.Ialloc? && j < |s.table| && j != Target(step)
    ensures |s'.table| == |s.table| && s'.table[j] == s.table[j] && EntryOk(s', s.table[j])
  {
    var i := Target(step);
    assert EntryOk(s, s.table[j]) && EntryOk(s, s.table[i]);
    forall k | k in s.table[j].refs ensures Standing(s', s.table[j], k) == Standing(s, s.table[j], k) {
      assert k !in s.table[i].refs;
    }
  }

  lemma OwnGet(s: State, s': State, step: Step)
    requires Inv(s) && Next(s, s', step) && (step.Hit? || step.Miss? || step.Idup?)
    ensures |s'.table| == |s.table| && step.i < |s.table| && EntryOk(s', s'.table[step.i])
  {
    var e := s.table[step.i];
    assert EntryOk(s, e);
    forall k | k in e.refs ensures Standing(s', s'.table[step.i], k) == Standing(s, e, k) {
    }
    if step.Idup? {
      assert Standing(s, e, step.k);
    }
  }

  lemma OwnLock(s: State, s': State, step: Step)
    requires Inv(s) && Next(s, s', step)
    requires step.Acquire? || step.Load? || step.Change? || step.Update? || step.Release?
    ensures |s'.table| == |s.table| && step.i < |s.table| && EntryOk(s', s'.table[step.i])
  {
    var e := s.table[step.i];
    assert EntryOk(s, e);
    forall k ensures Standing(s', s'.table[step.i], k) == Standing(s, e, k) {
    }
    assert Standing(s, e, step.k);
  }

  lemma OwnPut(s: State, s': State, step: Step)
    requires Inv(s) && Next(s, s', step)
    requires step.Put? || step.FreeBegin? || step.FreeTrunc? || step.FreeClear? || step.FreeInvalid?
      || step.FreeUnlock? || step.Drop?
    ensures |s'.table| == |s.table| && step.i < |s.table| && EntryOk(s', s'.table[step.i])
  {
    var e := s.table[step.i];
    assert EntryOk(s, e);
    forall k ensures Standing(s', s'.table[step.i], k) ==> Standing(s, e, k) {
    }
    if step.FreeBegin? {
      OnlyOne(e.refs, step.k);
      assert Standing(s, e, step.k);
    }
  }

  lemma OnlyOne(refs: set<nat>, k: nat)
    requires |refs| == 1 && k in refs
    ensures refs == {k}
  {
    assert |refs - {k}| == 0;
  }

  lemma UniqueNext(s: State, s': State, step: Step)
    requires Inv(s) && Next(s, s', step) && !step.Ialloc?
    ensures Unique(s')
  {
    hide LockOk;
    forall i, j | 0 <= i < j < |s'.table| && s'.table[i].refs != {} && s'.table[j].refs != {}
      ensures s'.table[i].inum != s'.table[j].inum && s'.table[i].refs !! s'.table[j].refs
    {
      assert EntryOk(s, s.table[i]) && EntryOk(s, s.table[j]);
    }
  }

  lemma DiskNext(s: State, s': State, step: Step)
    requires Inv(s) && Next(s, s', step) && !step.Ialloc?
    ensures Disk(s')
  {
    assert EntryOk(s, s.table[step.i]);
    assert step.FreeClear? ==> Standing(s, s.table[step.i], step.k);
  }

  lemma NextInv(s: State, s': State, step: Step)
    requires Inv(s) && Next(s, s', step)
    ensures Inv(s')
  {
    hide EntryOk, Unique, Disk, Next;
    if step.Ialloc? {
      AllocInv(s, s', step);
    } else {
      UniqueNext(s, s', step);
      DiskNext(s, s', step);
      SameLength(s, s', step);
      forall j | 0 <= j < |s'.table| ensures EntryOk(s', s'.table[j]) {
        if j != Target(step) {
          OtherEntry(s, s', step, j);
        } else if step.Hit? || step.Miss? || step.Idup? {
          OwnGet(s, s', step);
        } else if step.Acquire? || step.Load? || step.Change? || step.Update? || step.Release? {
          OwnLock(s, s', step);
        } else {
          OwnPut(s, s', step);
        }
      }
    }
  }

  lemma SameLength(s: State, s': State, step: Step)
    requires Next(s, s', step)
    ensures |s'.table| == |s.table|
  {
  }

  // ---------------------------------------------------------------- runs

  ghost predicate Run(run: seq<State>) {
    && |run| > 0 && Init(run[0])
    && forall i :: 0 <= i < |run| - 1 ==> Moves(run[i], run[i + 1])
  }

  ghost predicate Moves(s: State, s': State) {
    exists step :: Next(s, s', step)
  }

  lemma {:induction false} RunInv(run: seq<State>, i: nat)
    requires Run(run) && i < |run|
    ensures Inv(run[i])
  {
    hide Inv, Next;
    if i == 0 {
      InitInv(run[0]);
    } else {
      RunInv(run, i - 1);
      assert Moves(run[i - 1], run[i - 1 + 1]);
      var step :| Next(run[i - 1], run[i], step);
      NextInv(run[i - 1], run[i], step);
    }
  }

  lemma InitInv(s: State)
    requires Init(s)
    ensures Inv(s)
  {
  }

  /** At most one entry in use per inode number, and an unlocked valid one has what the disk has. */
  lemma OneFaithfulCopy(run: seq<State>, n: nat, i: nat, j: nat)
    requires Run(run) && n < |run| && i < |run[n].table| && j < |run[n].table|
    requires run[n].table[i].refs != {} && run[n].table[j].refs != {} && run[n].table[i].inum == run[n].table[j].inum
    ensures i == j && run[n].table[i].inum < |run[n].disk|
    ensures run[n].table[i].valid && run[n].table[i].lock == Open ==>
      run[n].table[i].copy == run[n].disk[run[n].table[i].inum]
  {
    RunInv(run, n);
    assert EntryOk(run[n], run[n].table[i]);
  }

  /** ilock never panics, and what its caller sees is the inode as it is on disk now: in particular
      an inode that was freed by another thread's iput and allocated anew in the meantime. */
  lemma LockSeesDisk(run: seq<State>, n: nat, i: nat, k: nat)
    requires Run(run) && n < |run| && i < |run[n].table| && run[n].table[i].lock == Taken(k)
    ensures var s, e := run[n], run[n].table[i];
      && e.inum < |s.disk| && s.disk[e.inum].typ != 0
      && Next(s, Set(s, i, e.(valid := true, lock := Ready(k), copy := s.disk[e.inum])), Load(i, k))
  {
    RunInv(run, n);
    var s, e := run[n], run[n].table[i];
    assert EntryOk(s, e);
    assert Standing(s, e, k);
  }

  /** iput of the last reference to a valid entry: nobody has the sleep lock, so taking it under the
      table's spin lock cannot block, and the inode is freed exactly when it has no link on disk. */
  lemma LastReferenceUnlocked(run: seq<State>, n: nat, i: nat, k: nat)
    requires Run(run) && n < |run| && Idle(run[n], i, k) && run[n].table[i].refs == {k} && run[n].table[i].valid
    ensures var s, e := run[n], run[n].table[i];
      && e.lock == Open && e.inum < |s.disk|
      && (s.disk[e.inum].nlink == 0 <==> exists s' :: Next(s, s', FreeBegin(i, k)))
      && (s.disk[e.inum].nlink > 0 <==> exists s' :: Next(s, s', Put(i, k)))
  {
    RunInv(run, n);
    var s, e := run[n], run[n].table[i];
    assert EntryOk(s, e);
    if e.copy.nlink == 0 {
      assert Next(s, Set(s, i, e.(lock := Freeing(k, 0))), FreeBegin(i, k));
    } else {
      assert Next(s, Set(s, i, e.(refs := e.refs - {k})), Put(i, k));
    }
  }

  /** The write that frees an inode finds it allocated, without a link, truncated and with no other
      reference, and leaves it free and empty on disk. */
  lemma FreesUnlinked(run: seq<State>, n: nat, i: nat, k: nat)
    requires Run(run) && n + 1 < |run| && Next(run[n], run[n + 1], FreeClear(i, k))
    ensures var inum := run[n].table[i].inum;
      && run[n].table[i].refs == {k}
      && run[n].disk[inum].typ != 0 && run[n].disk[inum].nlink == 0
      && run[n + 1].disk == run[n].disk[inum := Dinode(0, 0, 0)]
  {
    RunInv(run, n);
    assert EntryOk(run[n], run[n].table[i]);
  }

  /** Reference k to entry i is in an iput that has cleared the inode on disk. */
  predicate Cleared(s: State, i: nat, k: nat) {
    && i < |s.table|
    && ((k in s.table[i].refs && k in s.dropping)
        || (s.table[i].lock.Freeing? && s.table[i].lock.k == k && s.table[i].lock.n >= 2))
  }

  ghost predicate ClearedBy(run: seq<State>, n: nat, i: nat, k: nat) {
    exists m: nat :: m < n < |run| && ClearsAt(run, m, i, k)
  }

  ghost predicate ClearsAt(run: seq<State>, m: nat, i: nat, k: nat) {
    m + 1 < |run| && Next(run[m], run[m + 1], FreeClear(i, k))
  }

  /** The final decrement of an iput that tried to free comes only after it has freed the inode on disk. */
  lemma {:induction false} FreedBeforeDrop(run: seq<State>, n: nat, i: nat, k: nat)
    requires Run(run) && n < |run| && Cleared(run[n], i, k)
    ensures ClearedBy(run, n, i, k)
  {
    hide Run, Inv, Next;
    RunStarts(run);
    if n > 0 {
      RunInv(run, n - 1);
      var step := RunStep(run, n - 1);
      ClearedStep(run[n - 1], run[n], step, i, k);
      if Cleared(run[n - 1], i, k) {
        FreedBeforeDrop(run, n - 1, i, k);
        var m: nat :| m < n - 1 && ClearsAt(run, m, i, k);
        assert m < n;
      } else {
        assert ClearsAt(run, n - 1, i, k);
      }
    }
  }

  lemma RunStarts(run: seq<State>)
    requires Run(run)
    ensures forall i, k :: !Cleared(run[0], i, k)
  {
  }

  lemma RunStep(run: seq<State>, n: nat) returns (step: Step)
    requires Run(run) && n + 1 < |run|
    ensures Next(run[n], run[n + 1], step)
  {
    assert Moves(run[n], run[n + 1]);
    step :| Next(run[n], run[n + 1], step);
  }

  lemma ClearedStep(s: State, s': State, step: Step, i: nat, k: nat)
    requires Inv(s) && Next(s, s', step) && Cleared(s', i, k)
    ensures Cleared(s, i, k) || step == FreeClear(i, k)
  {
    SameLength(s, s', step);
    assert EntryOk(s, s.table[i]);
    if step.FreeUnlock? && step.i != i {
      assert EntryOk(s, s.table[step.i]);
    }
  }

  /** ialloc takes a number nobody has a reference to that still stands for the old inode, and its inode
      is empty. */
  lemma AllocatesUnused(run: seq<State>, n: nat, inum: nat, typ: nat, i: nat, k: nat)
    requires Run(run) && n + 1 < |run| && Next(run[n], run[n + 1], Ialloc(inum, typ))
    ensures run[n].disk[inum].typ == 0 && run[n + 1].disk == run[n].disk[inum := Dinode(typ, 0, 0)] && typ != 0
    ensures i < |run[n].table| && run[n].table[i].inum == inum ==> !Standing(run[n], run[n].table[i], k)
  {
    RunInv(run, n);
    if i < |run[n].table| {
      assert EntryOk(run[n], run[n].table[i]);
    }
  }

  /** After iupdate the inode on disk is the locked copy, so that the lock can be released. */
  lemma UpdateReaches(run: seq<State>, n: nat, i: nat, k: nat)
    requires Run(run) && n + 1 < |run| && Next(run[n], run[n + 1], Update(i, k))
    ensures var s, s', e := run[n], run[n + 1], run[n].table[i];
      && s'.disk == s.disk[e.inum := e.copy] && e.valid && e.copy.typ != 0
      && exists s'' :: Next(s', s'', Release(i, k))
  {
    RunInv(run, n);
    var s', e := run[n + 1], run[n].table[i];
    assert EntryOk(run[n], e);
    assert Next(s', Set(s', i, e.(lock := Open)), Release(i, k));
  }

  // ---------------------------------------------------------------- forgotten inodes

  /** Allocated on disk without a link. */
  predicate Unlinked(s: State, inum: nat) {
    inum < |s.disk| && s.disk[inum].typ != 0 && s.disk[inum].nlink == 0
  }

  /** The step drops the last reference to entry i and leaves its inode allocated without a link. */
  predicate Forgets(s: State, s': State, i: nat) {
    && i < |s.table| && i < |s'.table| && s.table[i].refs != {} && s'.table[i].refs == {}
    && Unlinked(s', s.table[i].inum)
  }

  /** An inode is forgotten exactly by a decrement to no reference at all that is the last one of an
      iput which has already freed the inode's predecessor, or is on an entry that was never read. */
  lemma ForgottenOnlyBy(run: seq<State>, n: nat, step: Step, i: nat)
    requires Run(run) && n + 1 < |run| && Next(run[n], run[n + 1], step) && i < |run[n].table|
    ensures Forgets(run[n], run[n + 1], i) <==>
      && (step.Drop? || (step.Put? && !run[n].table[i].valid))
      && step.i == i && run[n].table[i].refs == {step.k} && Unlinked(run[n], run[n].table[i].inum)
  {
    RunInv(run, n);
    var s, s', e := run[n], run[n + 1], run[n].table[i];
    assert EntryOk(s, e);
    if Forgets(s, s', i) {
      assert step.Put? || step.Drop?;
      assert e.refs == {step.k};
    }
  }

  /** One entry, one inode: the inode is allocated and freed by reference 0, allocated again before
      the final decrement, and reference 1 to the new one is put while that is still outstanding. */
  function Late(refs: set<nat>, valid: bool, copy: Dinode, lock: Lock, onDisk: Dinode, unclaimed: set<nat>,
                dropping: set<nat>, next: nat): State
  {
    State([Entry(0, refs, valid, copy, lock)], [onDisk], unclaimed, dropping, next)
  }

  function LateRun(): (run: seq<State>) {
    var free, fresh0 := Dinode(0, 0, 0), Dinode(2, 0, 0);
    [Late({}, false, free, Open, free, {}, {}, 0),
     Late({}, false, free, Open, fresh0, {0}, {}, 0),
     Late({0}, false, free, Open, fresh0, {}, {}, 1),
     Late({0}, false, free, Taken(0), fresh0, {}, {}, 1),
     Late({0}, true, fresh0, Ready(0), fresh0, {}, {}, 1),
     Late({0}, true, fresh0, Open, fresh0, {}, {}, 1),
     Late({0}, true, fresh0, Freeing(0, 0), fresh0, {}, {}, 1),
     Late({0}, true, fresh0, Freeing(0, 1), fresh0, {}, {}, 1),
     Late({0}, true, free, Freeing(0, 2), free, {}, {}, 1),
     Late({0}, false, free, Freeing(0, 3), free, {}, {}, 1),
     Late({0}, false, free, Open, free, {}, {0}, 1),
     Late({0}, false, free, Open, fresh0, {0}, {0}, 1),
     Late({0, 1}, false, free, Open, fresh0, {}, {0}, 2),
     Late({0, 1}, false, free, Taken(1), fresh0, {}, {0}, 2),
     Late({0, 1}, true, fresh0, Ready(1), fresh0, {}, {0}, 2),
     Late({0, 1}, true, fresh0, Open, fresh0, {}, {0}, 2),
     Late({0}, true, fresh0, Open, fresh0, {}, {0}, 2),
     Late({}, true, fresh0, Open, fresh0, {}, {}, 2)]
  }

  function LateSteps(): (steps: seq<Step>)
    ensures |steps| == 17
  {
    [Ialloc(0, 2), Miss(0, 0), Acquire(0, 0), Load(0, 0), Release(0, 0), FreeBegin(0, 0), FreeTrunc(0, 0),
     FreeClear(0, 0), FreeInvalid(0, 0), FreeUnlock(0, 0), Ialloc(0, 2), Hit(0, 0), Acquire(0, 1), Load(0, 1),
     Release(0, 1), Put(0, 1), Drop(0, 0)]
  }

  /** So a valid entry's inode can be forgotten. */
  lemma LateDropForgets()
    ensures Run(LateRun()) && |LateRun()| == 18
    ensures Next(LateRun()[16], LateRun()[17], Drop(0, 0)) && LateRun()[16].table[0].valid
    ensures Forgets(LateRun()[16], LateRun()[17], 0)
  {
    var run, steps := LateRun(), LateSteps();
    forall n | 0 <= n < 17 ensures Moves(run[n], run[n + 1]) {
      LateStep(n);
      assert Next(run[n], run[n + 1], steps[n]);
    }
    LateStep(16);
  }

  lemma LateStep(n: nat)
    requires n < 17
    ensures |LateRun()| == 18 && Next(LateRun()[n], LateRun()[n + 1], LateSteps()[n])
  {
    if n < 6 {
      LateAlloc(n);
    } else if n < 11 {
      LateFree(n);
    } else {
      LateAgain(n);
    }
  }

  lemma LateAlloc(n: nat)
    requires n < 6
    ensures Next(LateRun()[n], LateRun()[n + 1], LateSteps()[n])
  {
    var refs: set<nat> := {0};
    assert {} + refs == refs && refs - refs == {} && |refs| == 1;
  }

  lemma LateFree(n: nat)
    requires 6 <= n < 11
    ensures Next(LateRun()[n], LateRun()[n + 1], LateSteps()[n])
  {
    var refs: set<nat> := {0};
    assert {} + refs == refs;
  }

  lemma LateAgain(n: nat)
    requires 11 <= n < 17
    ensures Next(LateRun()[n], LateRun()[n + 1], LateSteps()[n])
  {
    var refs: set<nat> := {0};
    assert refs + {1} == {0, 1} && {0, 1} - {1} == refs && refs - {0} == {} && |refs + {1}| == 2;
  }
}
