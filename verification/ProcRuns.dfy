/** What holds in every state of every run of the process protocol. */
module ProcRuns {
  import opened ProcModel
  import opened ProcInv
  import opened Options

  ghost predicate Run(run: seq<State>) {
    && |run| > 0 && Init(run[0])
    && forall i :: 0 <= i < |run| - 1 ==> Next(run[i], run[i + 1])
  }

  lemma {:induction false} RunInv(run: seq<State>, i: nat)
    requires Run(run) && i < |run|
    ensures Inv(run[i])
  {
    hide Inv, Next, Init;
    if i == 0 {
      InitInv(run[0]);
    } else {
      RunInv(run, i - 1);
      assert Next(run[i - 1], run[i - 1 + 1]);
      NextInv(run[i - 1], run[i]);
    }
  }

  // ---------------------------------------------------------------- sleep and wakeup

  lemma WakerHoldsLock(s: State, w: nat, k: Chan, p: nat)
    requires Inv(s) && Waking(s, w, k, p)
    ensures LockOf(k) in s.owner
  {
    hide Makers, Loops, Harts, Wakes;
    assert ProcOk(s, w);
    assert LockAt(s, LockOf(k), s.procs[w].cpu.value);
  }

  /** A process that sleeps on k although what it waits for has happened is about to be woken, by a
      thread holding k's lock. */
  lemma NoneLost(s: State, p: nat, k: Chan)
    requires Inv(s) && p < |s.procs| && Asleep(s, p, k) && Due(s, k)
    ensures LockOf(k) in s.owner
  {
    hide Due, Asleep, Makers, Loops, Harts, Procs, Locks, Waking;
    assert WakeOk(s, p, k);
    var w: nat :| Waking(s, w, k, p);
    WakerHoldsLock(s, w, k, p);
  }

  /** Whenever wait_lock is free, no process sleeps in wait while it has a ZOMBIE child, whether the
      child was its own from the start or was given to init by an exiting parent. */
  lemma NoSleeperWithZombie(run: seq<State>, i: nat, p: nat, z: nat)
    requires Run(run) && i < |run| && p < |run[i].procs| && WaitLock !in run[i].owner
    requires run[i].procs[p].state == Sleeping && run[i].procs[p].chan == Some(Child(p))
    requires z < |run[i].procs| && run[i].procs[z].parent == Some(p)
    ensures run[i].procs[z].state != Zombie
  {
    RunInv(run, i);
    var s := run[i];
    hide Makers, Loops, Harts, Locks, Wakes;
    assert ProcOk(s, p);
    if ZombieChild(s, p, z) {
      NoneLost(s, p, Child(p));
    }
  }

  /** Whenever the lock protecting an event is free and the event has happened, no process sleeps
      on it. */
  lemma NoSleeperAfterEvent(run: seq<State>, i: nat, p: nat, c: nat, lk: nat)
    requires Run(run) && i < |run| && p < |run[i].procs|
    requires EventLock(lk) !in run[i].owner && Event(c, lk) in run[i].flags
    ensures !(run[i].procs[p].state == Sleeping && run[i].procs[p].chan == Some(Event(c, lk)))
  {
    RunInv(run, i);
    var s := run[i];
    hide Makers, Loops, Harts, Locks, Wakes;
    assert ProcOk(s, p);
    if s.procs[p].state == Sleeping && s.procs[p].chan == Some(Event(c, lk)) {
      NoneLost(s, p, Event(c, lk));
    }
  }

  /** From the moment a process has decided to sleep on k, holding k's lock, until it is woken, a
      thread in wakeup that has p's lock finds it SLEEPING on k. */
  lemma WakeupFindsSleeper(run: seq<State>, i: nat, w: nat, p: nat, k: Chan)
    requires Run(run) && i < |run| && w < |run[i].procs| && p < |run[i].procs|
    requires run[i].procs[w].pc.WakeLocked? && run[i].procs[w].pc.i == p && Asleep(run[i], p, k)
    ensures run[i].procs[p].state == Sleeping && run[i].procs[p].chan == Some(k)
  {
    RunInv(run, i);
    hide Makers, Loops, Harts, Wakes;
    WakerFinds(run[i], w, p, k);
  }

  // ---------------------------------------------------------------- scheduling

  /** Whenever p->lock is free: p is RUNNING exactly when a hart has c->proc == p, at most one hart
      has, and otherwise no hart is on p's stack. */
  lemma RunningOnOneHart(run: seq<State>, i: nat, p: nat, g: nat, h: nat)
    requires Run(run) && i < |run| && p < |run[i].procs| && ProcLock(p) !in run[i].owner
    requires g < |run[i].harts| && h < |run[i].harts|
    ensures run[i].procs[p].state == Running <==> exists c :: 0 <= c < |run[i].harts| && run[i].harts[c].cur == Some(p)
    ensures run[i].harts[g].cur == Some(p) && run[i].harts[h].cur == Some(p) ==> g == h
    ensures run[i].harts[h].ctl == On(p) <==> run[i].harts[h].cur == Some(p)
  {
    RunInv(run, i);
    var s := run[i];
    hide Makers, Loops, Wakes;
    forall c: nat | c < |s.harts| ensures s.harts[c].cur == Some(p) <==> s.procs[p].cpu == Some(c) {
      assert HartOk(s, c) && ProcOk(s, p) && LockAt(s, ProcLock(p), c);
    }
    assert HartOk(s, g) && HartOk(s, h) && ProcOk(s, p);
    assert LockAt(s, ProcLock(p), h);
    if s.procs[p].cpu.Some? {
      assert LockAt(s, ProcLock(p), s.procs[p].cpu.value);
      assert s.harts[s.procs[p].cpu.value].cur == Some(p);
    }
  }

  /** noff is the number of locks whose lk->cpu is this hart, plus the push_offs outstanding. */
  lemma NoffCountsLocks(run: seq<State>, i: nat, h: nat)
    requires Run(run) && i < |run| && h < |run[i].harts|
    ensures run[i].harts[h].noff == |set lk | lk in run[i].owner && run[i].owner[lk] == h| + run[i].harts[h].pushed
  {
    RunInv(run, i);
    var s := run[i];
    hide Makers, Loops, Wakes, Procs;
    var mine := set lk | lk in s.owner && s.owner[lk] == h;
    assert HartOk(s, h);
    forall lk ensures lk in mine <==> lk in HeldBy(s, h) {
      assert LockAt(s, lk, h);
    }
    assert mine == HeldBy(s, h);
  }

  /** The panics in sched: whoever is about to switch away holds its own lock and nothing else. */
  lemma SchedChecksPass(run: seq<State>, i: nat, h: nat, p: nat)
    requires Run(run) && i < |run| && h < |run[i].harts| && p < |run[i].procs| && run[i].harts[h].ctl == On(p)
    requires var pc := run[i].procs[p].pc; pc.YieldLocked? || pc.SleepReleased? || pc.ExitLast?
    ensures ProcLock(p) in run[i].owner && run[i].owner[ProcLock(p)] == h && run[i].harts[h].noff == 1
  {
    RunInv(run, i);
    var s := run[i];
    hide Makers, Loops, Wakes;
    assert HartOk(s, h) && LockAt(s, ProcLock(p), h);
    assert HeldBy(s, h) == {ProcLock(p)};
  }

  /** The panic in acquire: no thread asks for a lock its hart holds already. */
  lemma AcquireNeverPanics(run: seq<State>, i: nat, h: nat, p: nat, step: Step)
    requires Run(run) && i < |run| && h < |run[i].harts| && p < |run[i].procs| && run[i].harts[h].ctl == On(p)
    requires MoveOf(run[i], h, p, step).Acquire?
    ensures var lk := MoveOf(run[i], h, p, step).lk; !(lk in run[i].owner && run[i].owner[lk] == h)
  {
    RunInv(run, i);
    var s := run[i];
    hide Makers, Loops, Wakes;
    var lk := MoveOf(s, h, p, step).lk;
    assert HartOk(s, h) && ProcOk(s, p) && LockAt(s, lk, h);
  }

  /** The three places where a thread comes out of swtch. */
  predicate JustResumed(pc: Pc) {
    pc.Fresh? || pc.YieldResumed? || pc.SleepResumed?
  }

  /** A scheduler's switch lands where the thread has to release the lock. */
  lemma SwitchLands(run: seq<State>, i: nat, h: nat, s': State)
    requires Run(run) && i < |run| && SchedStepped(run[i], s', h, SchedStep.Run)
    ensures var p := run[i].harts[h].ctl.p;
      p < |s'.procs| && s'.harts[h].ctl == On(p) && JustResumed(s'.procs[p].pc)
  {
    RunInv(run, i);
    hide Makers, Loops, Wakes, Locks, Harts;
    assert ProcOk(run[i], run[i].harts[h].ctl.p);
  }

  /** Towards the process: in every state in which a thread has come out of swtch, its hart has the
      lock the scheduler took, the only transition the thread can make releases it, and noff is back
      at the push_offs outstanding. */
  lemma LockHandedOver(run: seq<State>, i: nat, h: nat, p: nat)
    requires Run(run) && i < |run| && h < |run[i].harts| && p < |run[i].procs|
    requires run[i].harts[h].ctl == On(p) && JustResumed(run[i].procs[p].pc)
    ensures ProcLock(p) in run[i].owner && run[i].owner[ProcLock(p)] == h
    ensures forall step, s' :: ThreadStepped(run[i], s', h, p, step) ==>
      step == ToSleep(ReleaseOwn) && ProcLock(p) !in s'.owner && s'.harts[h].noff == s'.harts[h].pushed
    ensures MoveOf(run[i], h, p, ToSleep(ReleaseOwn)).Local?
  {
    RunInv(run, i);
    var s := run[i];
    hide Makers, Loops, Wakes;
    assert HartOk(s, h) && ProcOk(s, p) && LockAt(s, ProcLock(p), h);
    assert HeldBy(s, h) == {ProcLock(p)};
  }

  /** Towards the scheduler: in every state in which a hart has come back from a process, it has the
      lock the process took, the only transition it can make releases it, and noff is back. */
  lemma LockHandedBack(run: seq<State>, i: nat, h: nat)
    requires Run(run) && i < |run| && h < |run[i].harts| && run[i].harts[h].ctl.Back?
    ensures var p := run[i].harts[h].ctl.p; ProcLock(p) in run[i].owner && run[i].owner[ProcLock(p)] == h
    ensures var p := run[i].harts[h].ctl.p;
      forall step, s' :: SchedStepped(run[i], s', h, step) ==>
        step == Retire && ProcLock(p) !in s'.owner && s'.harts[h].noff == s'.harts[h].pushed
  {
    RunInv(run, i);
    var s := run[i];
    hide Makers, Loops, Wakes;
    assert HartOk(s, h) && LockAt(s, ProcLock(s.harts[h].ctl.p), h);
    assert HeldBy(s, h) == {ProcLock(s.harts[h].ctl.p)};
  }

  /** A switch away lands in the scheduler of the same hart. */
  lemma SwitchReturns(run: seq<State>, i: nat, h: nat, p: nat, step: Step, s': State)
    requires Run(run) && i < |run| && ThreadStepped(run[i], s', h, p, step)
    ensures h < |s'.harts|
    ensures s'.harts[h].ctl == if Switches(step) then Back(p) else On(p)
  {
    hide MoveOf;
    Touches(run[i], s', h, p, step);
  }

  /** Hart h is between a switch and the release on the other side of it. */
  ghost predicate Handing(s: State, h: nat, p: nat) {
    && h < |s.harts| && p < |s.procs|
    && (s.harts[h].ctl == Back(p) || (s.harts[h].ctl == On(p) && JustResumed(s.procs[p].pc)))
    && ProcLock(p) in s.owner && s.owner[ProcLock(p)] == h
  }

  /** Until the hart makes that transition, whatever the other harts do leaves it where it is, with
      the lock. */
  lemma HandoverUndisturbed(run: seq<State>, i: nat, h: nat, p: nat, g: nat, s': State)
    requires Run(run) && i < |run| && Handing(run[i], h, p) && g != h
    requires || (exists step :: SchedStepped(run[i], s', g, step))
             || (exists q, step :: ThreadStepped(run[i], s', g, q, step))
    ensures Handing(s', h, p)
  {
    RunInv(run, i);
    if exists step :: SchedStepped(run[i], s', g, step) {
      var step :| SchedStepped(run[i], s', g, step);
      SchedLeaves(run[i], s', h, p, g, step);
    } else {
      var q: nat, step :| ThreadStepped(run[i], s', g, q, step);
      ThreadLeaves(run[i], s', h, p, g, q, step);
    }
  }

  lemma SchedLeaves(s: State, s': State, h: nat, p: nat, g: nat, step: SchedStep)
    requires Inv(s) && Handing(s, h, p) && g != h && SchedStepped(s, s', g, step)
    ensures Handing(s', h, p)
  {
    hide Makers, Loops, Wakes;
    assert HartOk(s, g) && HartOk(s, h) && ProcOk(s, p);
    assert !s.harts[g].ctl.Loop? ==> s.harts[g].ctl.p < |s.procs| && ProcOk(s, s.harts[g].ctl.p);
    assert LockAt(s, ProcLock(p), g) && LockAt(s, ProcLock(p), h);
  }

  lemma ThreadLeaves(s: State, s': State, h: nat, p: nat, g: nat, q: nat, step: Step)
    requires Inv(s) && Handing(s, h, p) && g != h && ThreadStepped(s, s', g, q, step)
    ensures Handing(s', h, p)
  {
    ThreadHarts(s, s', g, q, step);
    OtherHeld(s, s', g, q, step, h);
    hide MoveOf, Makers, Loops, Wakes;
    assert HartOk(s, h) && HartOk(s, g) && ProcOk(s, p);
    if s.harts[h].ctl.On? {
      OtherProc(s, s', g, q, step, p);
    }
    Touches(s, s', g, q, step);
    assert LockAt(s', ProcLock(p), h);
  }
}
