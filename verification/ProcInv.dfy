/** What every transition of the process protocol keeps. */
module ProcInv {
  import opened ProcModel
  import opened Options

  // ---------------------------------------------------------------- locks and harts

  function RetLock(ret: Then): Lock {
    match ret
    case ThenEvent(c) => EventLock(c)
    case ThenReparent(_) => WaitLock
    case ThenDie => WaitLock
  }

  /** The locks thread p holds at pc, given that it is on a hart. */
  function Held(p: nat, pc: Pc): set<Lock> {
    match pc
    case User => {}
    case Fresh => {ProcLock(p)}
    case YieldLocked(_) => {ProcLock(p)}
    case YieldResumed(_) => {ProcLock(p)}
    case InEvent(c) => {EventLock(c)}
    case SleepLocked(k) => {LockOf(k), ProcLock(p)}
    case SleepReleased(_) => {ProcLock(p)}
    case SleepResumed(_) => {ProcLock(p)}
    case SleepReacquire(_) => {}
    case Wake(_, _, ret) => {RetLock(ret)}
    case WakeLocked(_, i, ret) => {RetLock(ret), ProcLock(i)}
    case ExitReparent(_) => {WaitLock}
    case ExitWoken => {WaitLock}
    case ExitZombie => {WaitLock, ProcLock(p)}
    case ExitLast => {ProcLock(p)}
    case Dead => {ProcLock(p)}
    case WaitScan(_, _) => {WaitLock}
    case WaitLocked(i, _) => {WaitLock, ProcLock(i)}
    case WaitEnd => {WaitLock}
    case ForkMade(i) => {ProcLock(i)}
    case ForkCopied(_) => {}
    case ForkParent(_) => {WaitLock}
    case ForkReady(_) => {}
    case ForkDone(i) => {ProcLock(i)}
    case KillLocked(i) => {ProcLock(i)}
  }

  function HeldBy(s: State, h: nat): set<Lock>
    requires h < |s.harts|
  {
    match s.harts[h].ctl
    case Loop => {}
    case Looking(p) => {ProcLock(p)}
    case Back(p) => {ProcLock(p)}
    case On(p) => if p < |s.procs| then Held(p, s.procs[p].pc) else {}
  }

  /** lk->cpu says exactly who holds what. */
  ghost predicate LockAt(s: State, lk: Lock, h: nat) {
    (lk in s.owner && s.owner[lk] == h) <==> (h < |s.harts| && lk in HeldBy(s, h))
  }

  ghost predicate Locks(s: State) {
    forall lk, h {:trigger LockAt(s, lk, h)} :: LockAt(s, lk, h)
  }

  /** c->proc is set exactly from the switch to a process until its lock is released after the
      switch back, and noff counts the locks held and the push_offs on top. */
  ghost predicate HartOk(s: State, h: nat)
    requires h < |s.harts|
  {
    var c := s.harts[h];
    && c.noff == |HeldBy(s, h)| + c.pushed
    && (c.ctl.Loop? || c.ctl.p < |s.procs|)
    && (c.ctl.On? ==> s.procs[c.ctl.p].cpu == Some(h))
    && c.cur == (if c.ctl.On? || c.ctl.Back? then Some(c.ctl.p) else None)
    && (c.pushed > 0 ==> c.ctl.On? && (s.procs[c.ctl.p].pc.User? || s.procs[c.ctl.p].pc.InEvent?))
  }

  ghost predicate Harts(s: State) {
    forall h {:trigger HartOk(s, h)} :: 0 <= h < |s.harts| ==> HartOk(s, h)
  }

  // ---------------------------------------------------------------- processes

  /** Where a thread can have been preempted. */
  ghost predicate BackOk(n: nat, p: nat, pc: Pc) {
    match pc
    case User => true
    case SleepReacquire(k) => k.Child? ==> k.p == p
    case ForkCopied(i) => i < n && i != p
    case ForkReady(i) => i < n && i != p
    case _ => false
  }

  ghost predicate PcOk(n: nat, p: nat, pc: Pc) {
    match pc
    case YieldLocked(back) => BackOk(n, p, back)
    case YieldResumed(back) => BackOk(n, p, back)
    case SleepLocked(k) => k.Child? ==> k.p == p
    case SleepReleased(k) => k.Child? ==> k.p == p
    case SleepResumed(k) => k.Child? ==> k.p == p
    case SleepReacquire(k) => k.Child? ==> k.p == p
    case Wake(k, i, ret) => RetLock(ret) == LockOf(k)
    case WakeLocked(k, i, ret) => RetLock(ret) == LockOf(k) && i < n && i != p
    case WaitScan(i, _) => i <= n
    case WaitLocked(i, _) => i < n && i != p
    case ForkMade(i) => i < n && i != p
    case ForkCopied(i) => i < n && i != p
    case ForkParent(i) => i < n && i != p
    case ForkReady(i) => i < n && i != p
    case ForkDone(i) => i < n && i != p
    case KillLocked(i) => i < n
    case _ => true
  }

  ghost predicate Exiting(pc: Pc) {
    match pc
    case Wake(_, _, ret) => !ret.ThenEvent?
    case WakeLocked(_, _, ret) => !ret.ThenEvent?
    case ExitReparent(_) => true
    case ExitWoken => true
    case ExitZombie => true
    case ExitLast => true
    case Dead => true
    case _ => false
  }

  /** init has no parent and never exits. */
  ghost predicate InitOk(pr: Proc) {
    pr.parent.None? && !Exiting(pr.pc) && pr.state != Unused && pr.state != Used && pr.state != Zombie
  }

  /** How a process's state, its place and its continuation go together. */
  ghost predicate ProcOk(s: State, p: nat)
    requires p < |s.procs|
  {
    var pr := s.procs[p];
    && PcOk(|s.procs|, p, pr.pc)
    && (p == s.init ==> InitOk(pr))
    && (pr.parent.Some? ==> pr.parent.value < |s.procs| && pr.parent.value != p)
    && (pr.cpu.Some? ==> pr.cpu.value < |s.harts| && s.harts[pr.cpu.value].ctl == On(p))
    && match pr.state
       case Running => pr.cpu.Some? && !pr.pc.ExitZombie? && !pr.pc.ExitLast? && !pr.pc.Dead?
       case Zombie => if pr.cpu.Some? then pr.pc.ExitZombie? || pr.pc.ExitLast? else pr.pc.Dead?
       case Sleeping => pr.cpu.None? && pr.pc.SleepResumed? && pr.chan == Some(pr.pc.k)
       case Runnable => pr.cpu.None? && (pr.pc.Fresh? || pr.pc.YieldResumed? || pr.pc.SleepResumed?)
       case Used => pr.cpu.None? && pr.pc.Fresh?
       case Unused => pr.cpu.None? && pr.pc.Dead?
  }

  ghost predicate Procs(s: State) {
    && s.init < |s.procs|
    && forall p {:trigger ProcOk(s, p)} :: 0 <= p < |s.procs| ==> ProcOk(s, p)
  }

  // ---------------------------------------------------------------- fork

  function Making(pc: Pc): Option<nat> {
    match if pc.YieldLocked? || pc.YieldResumed? then pc.back else pc
    case ForkMade(i) => Some(i)
    case ForkCopied(i) => Some(i)
    case ForkParent(i) => Some(i)
    case ForkReady(i) => Some(i)
    case _ => None
  }

  /** A slot being set up by fork stays USED and has one creator. */
  ghost predicate MakerOk(s: State, p: nat)
    requires p < |s.procs|
  {
    Making(s.procs[p].pc).Some? ==>
      && Making(s.procs[p].pc).value < |s.procs|
      && s.procs[Making(s.procs[p].pc).value].state == Used
      && forall q :: 0 <= q < |s.procs| && q != p ==> Making(s.procs[q].pc) != Making(s.procs[p].pc)
  }

  ghost predicate Makers(s: State) {
    forall p {:trigger MakerOk(s, p)} :: 0 <= p < |s.procs| ==> MakerOk(s, p)
  }

  // ---------------------------------------------------------------- sleep and wakeup

  /** p has decided to sleep on k and nobody has woken it. */
  ghost predicate Asleep(s: State, p: nat, k: Chan)
    requires p < |s.procs|
  {
    var pr := s.procs[p];
    pr.pc == SleepLocked(k) || pr.pc == SleepReleased(k) || (pr.pc == SleepResumed(k) && pr.state == Sleeping)
  }

  ghost predicate ZombieChild(s: State, p: nat, z: nat) {
    z < |s.procs| && s.procs[z].parent == Some(p) && s.procs[z].state == Zombie
  }

  /** What a sleeper on k waits for has happened. */
  ghost predicate Due(s: State, k: Chan) {
    match k
    case Child(p) => exists z :: ZombieChild(s, p, z)
    case Event(_, _) => k in s.flags
  }

  /** Thread w is in wakeup(k) and has not passed slot p. */
  ghost predicate Waking(s: State, w: nat, k: Chan, p: nat) {
    w < |s.procs| && match s.procs[w].pc
    case Wake(k', i, _) => k' == k && i <= p
    case WakeLocked(k', i, _) => k' == k && i <= p
    case _ => false
  }

  ghost predicate WakeOk(s: State, p: nat, k: Chan)
    requires p < |s.procs|
  {
    Asleep(s, p, k) && Due(s, k) ==> exists w :: Waking(s, w, k, p)
  }

  ghost predicate Wakes(s: State) {
    forall p, k {:trigger WakeOk(s, p, k)} :: 0 <= p < |s.procs| ==> WakeOk(s, p, k)
  }

  ghost predicate NotAsleep(s: State, q: nat, k: Chan) {
    q < |s.procs| ==> !Asleep(s, q, k)
  }

  /** What the loops of wakeup, exit and wait have established so far. */
  ghost predicate LoopOk(s: State, w: nat)
    requires w < |s.procs|
  {
    match s.procs[w].pc
    case Wake(k, i, ret) =>
      && (forall q: nat :: q < i ==> NotAsleep(s, q, k))
      && (ret == ThenDie ==> k.Child? && s.procs[w].parent == Some(k.p))
    case WakeLocked(k, i, ret) =>
      && (forall q: nat :: q < i ==> NotAsleep(s, q, k))
      && (ret == ThenDie ==> k.Child? && s.procs[w].parent == Some(k.p))
    case ExitWoken => s.procs[w].parent.Some? ==> NotAsleep(s, s.procs[w].parent.value, Child(s.procs[w].parent.value))
    case WaitScan(i, _) => forall z: nat :: z < i ==> !ZombieChild(s, w, z)
    case WaitLocked(i, _) => forall z: nat :: z < i ==> !ZombieChild(s, w, z)
    case _ => true
  }

  ghost predicate Loops(s: State) {
    forall w {:trigger LoopOk(s, w)} :: 0 <= w < |s.procs| ==> LoopOk(s, w)
  }

  ghost predicate Inv(s: State) {
    Procs(s) && Harts(s) && Locks(s) && Makers(s) && Wakes(s) && Loops(s)
  }

  lemma InitInv(s: State)
    requires Init(s)
    ensures Inv(s)
  {
  }

  // ---------------------------------------------------------------- what a step touches

  predicate Switches(step: Step) {
    step == ToSleep(YieldSwitch) || step == ToSleep(SleepSwitch) || step == ToExit(ExitSwitch)
  }

  /** Hart h alone moves, and stays on p unless the step is a switch. */
  ghost predicate Confined(s: State, s': State, h: nat, p: nat, step: Step)
    requires h < |s.harts| && p < |s.procs|
  {
    && |s'.procs| == |s.procs| && |s'.harts| == |s.harts| && s'.init == s.init
    && (forall g :: 0 <= g < |s.harts| && g != h ==> s'.harts[g] == s.harts[g])
    && s'.harts[h].ctl == (if Switches(step) then Back(p) else On(p))
    && s'.harts[h].cur == s.harts[h].cur
  }

  lemma TouchesSleep(s: State, s': State, h: nat, p: nat, t: SleepStep)
    requires h < |s.harts| && p < |s.procs| && s.harts[h].ctl == On(p) && Moved(s, s', SleepMove(s, h, p, t))
    ensures Confined(s, s', h, p, ToSleep(t))
  {
  }

  lemma TouchesWake(s: State, s': State, h: nat, p: nat, t: WakeStep)
    requires h < |s.harts| && p < |s.procs| && s.harts[h].ctl == On(p) && Moved(s, s', WakeMove(s, h, p, t))
    ensures Confined(s, s', h, p, ToWake(t))
  {
  }

  lemma TouchesExit(s: State, s': State, h: nat, p: nat, t: ExitStep)
    requires h < |s.harts| && p < |s.procs| && s.harts[h].ctl == On(p) && Moved(s, s', ExitMove(s, h, p, t))
    ensures Confined(s, s', h, p, ToExit(t))
  {
  }

  lemma TouchesWait(s: State, s': State, h: nat, p: nat, t: WaitStep)
    requires h < |s.harts| && p < |s.procs| && s.harts[h].ctl == On(p) && Moved(s, s', WaitMove(s, h, p, t))
    ensures Confined(s, s', h, p, ToWait(t))
  {
  }

  lemma TouchesFork(s: State, s': State, h: nat, p: nat, t: ForkStep)
    requires h < |s.harts| && p < |s.procs| && s.harts[h].ctl == On(p) && Moved(s, s', ForkMove(s, h, p, t))
    ensures Confined(s, s', h, p, ToFork(t))
  {
  }

  lemma Touches(s: State, s': State, h: nat, p: nat, step: Step)
    requires ThreadStepped(s, s', h, p, step)
    ensures Confined(s, s', h, p, step)
  {
    hide Confined, SleepMove, WakeMove, ExitMove, WaitMove, ForkMove;
    match step
    case ToSleep(t) => TouchesSleep(s, s', h, p, t);
    case ToWake(t) => TouchesWake(s, s', h, p, t);
    case ToExit(t) => TouchesExit(s, s', h, p, t);
    case ToWait(t) => TouchesWait(s, s', h, p, t);
    case ToFork(t) => TouchesFork(s, s', h, p, t);
  }

  lemma OwnSleep(s: State, s': State, h: nat, p: nat, t: SleepStep)
    requires h < |s.harts| && p < |s.procs| && s.harts[h].ctl == On(p) && Moved(s, s', SleepMove(s, h, p, t))
    requires ProcOk(s, p) && s.procs[p].cpu == Some(h)
    ensures p < |s'.procs| && ProcOk(s', p)
  {
  }

  lemma OwnWake(s: State, s': State, h: nat, p: nat, t: WakeStep)
    requires h < |s.harts| && p < |s.procs| && s.harts[h].ctl == On(p) && Moved(s, s', WakeMove(s, h, p, t))
    requires ProcOk(s, p) && s.procs[p].cpu == Some(h)
    ensures p < |s'.procs| && ProcOk(s', p)
  {
    hide BackOk;
    match t
    case WakeNext =>
    case WakeLook =>
    case KillLock(_) =>
    case KillHit(_) =>
  }

  lemma OwnExit(s: State, s': State, h: nat, p: nat, t: ExitStep)
    requires h < |s.harts| && p < |s.procs| && s.harts[h].ctl == On(p) && Moved(s, s', ExitMove(s, h, p, t))
    requires ProcOk(s, p) && s.procs[p].cpu == Some(h)
    ensures p < |s'.procs| && ProcOk(s', p)
  {
    hide BackOk;
  }

  lemma OwnWait(s: State, s': State, h: nat, p: nat, t: WaitStep)
    requires h < |s.harts| && p < |s.procs| && s.harts[h].ctl == On(p) && Moved(s, s', WaitMove(s, h, p, t))
    requires ProcOk(s, p) && s.procs[p].cpu == Some(h)
    ensures p < |s'.procs| && ProcOk(s', p)
  {
    hide BackOk;
  }

  lemma OwnMake(s: State, s': State, h: nat, p: nat, t: ForkStep)
    requires h < |s.harts| && p < |s.procs| && s.harts[h].ctl == On(p) && Moved(s, s', ForkMove(s, h, p, t))
    requires ProcOk(s, p) && s.procs[p].cpu == Some(h) && (t.ForkAlloc? || t.ForkFail? || t.ForkUnlock?)
    ensures p < |s'.procs| && ProcOk(s', p)
  {
    hide BackOk;
  }

  lemma OwnFork(s: State, s': State, h: nat, p: nat, t: ForkStep)
    requires h < |s.harts| && p < |s.procs| && s.harts[h].ctl == On(p) && Moved(s, s', ForkMove(s, h, p, t))
    requires ProcOk(s, p) && s.procs[p].cpu == Some(h)
    ensures p < |s'.procs| && ProcOk(s', p)
  {
    hide BackOk;
    if t.ForkAlloc? || t.ForkFail? || t.ForkUnlock? {
      OwnMake(s, s', h, p, t);
    }
  }

  lemma Own(s: State, s': State, h: nat, p: nat, step: Step)
    requires ThreadStepped(s, s', h, p, step)
    requires ProcOk(s, p) && s.procs[p].cpu == Some(h)
    ensures p < |s'.procs| && ProcOk(s', p)
  {
    hide ProcOk, SleepMove, WakeMove, ExitMove, WaitMove, ForkMove;
    match step
    case ToSleep(t) => OwnSleep(s, s', h, p, t);
    case ToWake(t) => OwnWake(s, s', h, p, t);
    case ToExit(t) => OwnExit(s, s', h, p, t);
    case ToWait(t) => OwnWait(s, s', h, p, t);
    case ToFork(t) => OwnFork(s, s', h, p, t);
  }

  // ---------------------------------------------------------------- locks

  ghost predicate Took(s: State, s': State, h: nat, lk: Lock)
    requires h < |s.harts| && h < |s'.harts|
  {
    && lk !in s.owner && s'.owner == s.owner[lk := h] && HeldBy(s', h) == HeldBy(s, h) + {lk}
    && s'.harts[h].noff == s.harts[h].noff + 1 && s'.harts[h].pushed == s.harts[h].pushed
  }

  ghost predicate Dropped(s: State, s': State, h: nat, lk: Lock)
    requires h < |s.harts| && h < |s'.harts|
  {
    && lk in HeldBy(s, h) && s'.owner == s.owner - {lk} && HeldBy(s', h) == HeldBy(s, h) - {lk}
    && s'.harts[h].noff == (if s.harts[h].noff > 0 then s.harts[h].noff - 1 else 0)
    && s'.harts[h].pushed == s.harts[h].pushed
  }

  /** A step acquires one lock, or releases one, or changes no lock. */
  ghost predicate LockChange(s: State, s': State, h: nat)
    requires h < |s.harts| && h < |s'.harts|
  {
    || (&& s'.owner == s.owner && HeldBy(s', h) == HeldBy(s, h)
        && s'.harts[h].noff - s'.harts[h].pushed == s.harts[h].noff - s.harts[h].pushed)
    || (exists lk :: Took(s, s', h, lk))
    || (exists lk :: Dropped(s, s', h, lk))
  }

  lemma LockStepSleep(s: State, s': State, h: nat, p: nat, t: SleepStep)
    requires h < |s.harts| && p < |s.procs| && s.harts[h].ctl == On(p) && Moved(s, s', SleepMove(s, h, p, t))
    requires ProcOk(s, p)
    ensures h < |s'.harts| && LockChange(s, s', h)
  {
    var move := SleepMove(s, h, p, t);
    if move.Acquire? {
      assert Took(s, s', h, move.lk);
    } else {
      match t
      case ReleaseOwn => assert Dropped(s, s', h, ProcLock(p));
      case EventLeave => assert Dropped(s, s', h, EventLock(s.procs[p].pc.lk));
      case SleepRelease => assert Dropped(s, s', h, LockOf(s.procs[p].pc.k));
      case _ =>
    }
  }

  lemma LockStepWake(s: State, s': State, h: nat, p: nat, t: WakeStep)
    requires h < |s.harts| && p < |s.procs| && s.harts[h].ctl == On(p) && Moved(s, s', WakeMove(s, h, p, t))
    requires ProcOk(s, p)
    ensures h < |s'.harts| && LockChange(s, s', h)
  {
    hide BackOk;
    var move := WakeMove(s, h, p, t);
    if move.Acquire? {
      assert Took(s, s', h, move.lk);
    } else {
      match t
      case WakeLook => assert Dropped(s, s', h, ProcLock(s.procs[p].pc.i));
      case KillHit(_) => assert Dropped(s, s', h, ProcLock(s.procs[p].pc.i));
      case _ =>
    }
  }

  lemma LockStepExit(s: State, s': State, h: nat, p: nat, t: ExitStep)
    requires h < |s.harts| && p < |s.procs| && s.harts[h].ctl == On(p) && Moved(s, s', ExitMove(s, h, p, t))
    requires ProcOk(s, p)
    ensures h < |s'.harts| && LockChange(s, s', h)
  {
    hide BackOk;
    var move := ExitMove(s, h, p, t);
    if move.Acquire? {
      assert Took(s, s', h, move.lk);
    } else {
      match t
      case ExitRelease => assert Dropped(s, s', h, WaitLock);
      case _ =>
    }
  }

  lemma LockStepWait(s: State, s': State, h: nat, p: nat, t: WaitStep)
    requires h < |s.harts| && p < |s.procs| && s.harts[h].ctl == On(p) && Moved(s, s', WaitMove(s, h, p, t))
    requires ProcOk(s, p)
    ensures h < |s'.harts| && LockChange(s, s', h)
  {
    hide BackOk;
    match t
    case WaitEnter => assert Took(s, s', h, WaitLock);
    case WaitNext =>
      if s.procs[s.procs[p].pc.i].parent == Some(p) {
        assert Took(s, s', h, ProcLock(s.procs[p].pc.i));
      }
    case WaitLook(_) => assert Dropped(s, s', h, ProcLock(s.procs[p].pc.i));
    case WaitSleep => assert Took(s, s', h, ProcLock(p));
    case WaitGiveUp(_) =>
    case WaitLeave => assert Dropped(s, s', h, WaitLock);
  }

  lemma LockStepMake(s: State, s': State, h: nat, p: nat, t: ForkStep)
    requires h < |s.harts| && p < |s.procs| && s.harts[h].ctl == On(p) && Moved(s, s', ForkMove(s, h, p, t))
    requires ProcOk(s, p) && (t.ForkAlloc? || t.ForkFail? || t.ForkUnlock?)
    ensures h < |s'.harts| && LockChange(s, s', h)
  {
    hide BackOk;
    match t
    case ForkAlloc(i) => assert Took(s, s', h, ProcLock(i));
    case ForkFail => assert Dropped(s, s', h, ProcLock(s.procs[p].pc.i));
    case ForkUnlock => assert Dropped(s, s', h, ProcLock(s.procs[p].pc.i));
  }

  lemma LockStepFork(s: State, s': State, h: nat, p: nat, t: ForkStep)
    requires h < |s.harts| && p < |s.procs| && s.harts[h].ctl == On(p) && Moved(s, s', ForkMove(s, h, p, t))
    requires ProcOk(s, p)
    ensures h < |s'.harts| && LockChange(s, s', h)
  {
    hide BackOk;
    match t
    case ForkAdopt => assert Took(s, s', h, WaitLock);
    case ForkUnwait => assert Dropped(s, s', h, WaitLock);
    case ForkStart => assert Took(s, s', h, ProcLock(s.procs[p].pc.i));
    case ForkLeave => assert Dropped(s, s', h, ProcLock(s.procs[p].pc.i));
    case _ => LockStepMake(s, s', h, p, t);
  }

  lemma LockStep(s: State, s': State, h: nat, p: nat, step: Step)
    requires ThreadStepped(s, s', h, p, step)
    requires ProcOk(s, p)
    ensures h < |s'.harts| && LockChange(s, s', h)
  {
    hide ProcOk, LockChange, SleepMove, WakeMove, ExitMove, WaitMove, ForkMove;
    match step
    case ToSleep(t) => LockStepSleep(s, s', h, p, t);
    case ToWake(t) => LockStepWake(s, s', h, p, t);
    case ToExit(t) => LockStepExit(s, s', h, p, t);
    case ToWait(t) => LockStepWait(s, s', h, p, t);
    case ToFork(t) => LockStepFork(s, s', h, p, t);
  }

  /** Spin locks exclude: two harts never hold the same lock. */
  lemma OneHolder(s: State, lk: Lock, g: nat, h: nat)
    requires Locks(s) && g < |s.harts| && h < |s.harts| && lk in HeldBy(s, g) && lk in HeldBy(s, h)
    ensures g == h
  {
    assert LockAt(s, lk, g) && LockAt(s, lk, h);
  }

  /** Two threads on harts never hold the same lock. */
  lemma OneThread(s: State, lk: Lock, p: nat, q: nat)
    requires Locks(s) && p < |s.procs| && q < |s.procs| && ProcOk(s, p) && ProcOk(s, q)
    requires s.procs[p].cpu.Some? && s.procs[q].cpu.Some?
    requires lk in Held(p, s.procs[p].pc) && lk in Held(q, s.procs[q].pc)
    ensures p == q
  {
    hide Held, PcOk;
    OneHolder(s, lk, s.procs[p].cpu.value, s.procs[q].cpu.value);
  }

  lemma LocksNext(s: State, s': State, h: nat)
    requires Locks(s) && |s'.harts| == |s.harts| && h < |s.harts| && LockChange(s, s', h)
    requires forall g :: 0 <= g < |s.harts| && g != h ==> HeldBy(s', g) == HeldBy(s, g)
    ensures Locks(s')
  {
    hide HeldBy;
    forall lk, g ensures LockAt(s', lk, g) {
      assert LockAt(s, lk, g) && LockAt(s, lk, h);
    }
  }

  lemma NoffNext(s: State, s': State, h: nat)
    requires Locks(s) && |s'.harts| == |s.harts| && h < |s.harts| && LockChange(s, s', h)
    requires s.harts[h].noff == |HeldBy(s, h)| + s.harts[h].pushed
    ensures s'.harts[h].noff == |HeldBy(s', h)| + s'.harts[h].pushed
  {
    hide HeldBy;
    if lk :| Took(s, s', h, lk) {
      assert LockAt(s, lk, h);
    }
  }

  // ---------------------------------------------------------------- effects on another process

  /** What thread p can do to process t in one step. */
  ghost predicate Effect(s: State, s': State, p: nat, t: nat)
    requires p < |s.procs| == |s'.procs| && t < |s.procs|
  {
    var pc, q, q' := s.procs[p].pc, s.procs[t], s'.procs[t];
    || q' == q
    || (q.state == Sleeping && q' == q.(state := Runnable))
    || (&& pc.ExitReparent? && q.parent == Some(p) && q' == q.(parent := Some(s.init))
        && s'.procs[p].pc == Wake(Child(s.init), 0, ThenReparent(t + 1)))
    || (pc.WaitLocked? && pc.i == t && q.state == Zombie && q' == q.(state := Unused, chan := None, parent := None))
    || (pc.User? && q.state == Unused && q' == q.(state := Used, pc := Fresh) && s'.procs[p].pc == ForkMade(t))
    || (&& pc.ForkMade? && pc.i == t && q' == q.(state := Unused, chan := None, parent := None, pc := Dead)
        && s'.procs[p].pc == User)
    || (pc.ForkCopied? && pc.i == t && q' == q.(parent := Some(p)))
    || (pc.ForkReady? && pc.i == t && q' == q.(state := Runnable) && s'.procs[p].pc == ForkDone(t))
  }

  lemma EffectSleep(s: State, s': State, h: nat, p: nat, t: SleepStep, q: nat)
    requires h < |s.harts| && p < |s.procs| && s.harts[h].ctl == On(p) && Moved(s, s', SleepMove(s, h, p, t))
    requires q < |s.procs| && q != p
    ensures |s'.procs| == |s.procs| && Effect(s, s', p, q)
  {
  }

  lemma EffectWake(s: State, s': State, h: nat, p: nat, t: WakeStep, q: nat)
    requires h < |s.harts| && p < |s.procs| && s.harts[h].ctl == On(p) && Moved(s, s', WakeMove(s, h, p, t))
    requires q < |s.procs| && q != p
    ensures |s'.procs| == |s.procs| && Effect(s, s', p, q)
  {
  }

  lemma EffectExit(s: State, s': State, h: nat, p: nat, t: ExitStep, q: nat)
    requires h < |s.harts| && p < |s.procs| && s.harts[h].ctl == On(p) && Moved(s, s', ExitMove(s, h, p, t))
    requires q < |s.procs| && q != p
    ensures |s'.procs| == |s.procs| && Effect(s, s', p, q)
  {
  }

  lemma EffectWait(s: State, s': State, h: nat, p: nat, t: WaitStep, q: nat)
    requires h < |s.harts| && p < |s.procs| && s.harts[h].ctl == On(p) && Moved(s, s', WaitMove(s, h, p, t))
    requires q < |s.procs| && q != p
    ensures |s'.procs| == |s.procs| && Effect(s, s', p, q)
  {
  }

  lemma EffectFork(s: State, s': State, h: nat, p: nat, t: ForkStep, q: nat)
    requires h < |s.harts| && p < |s.procs| && s.harts[h].ctl == On(p) && Moved(s, s', ForkMove(s, h, p, t))
    requires q < |s.procs| && q != p
    ensures |s'.procs| == |s.procs| && Effect(s, s', p, q)
  {
  }

  lemma Effects(s: State, s': State, h: nat, p: nat, step: Step, q: nat)
    requires ThreadStepped(s, s', h, p, step) && q < |s.procs| && q != p
    ensures |s'.procs| == |s.procs| && Effect(s, s', p, q)
  {
    hide Effect, SleepMove, WakeMove, ExitMove, WaitMove, ForkMove;
    match step
    case ToSleep(t) => EffectSleep(s, s', h, p, t, q);
    case ToWake(t) => EffectWake(s, s', h, p, t, q);
    case ToExit(t) => EffectExit(s, s', h, p, t, q);
    case ToWait(t) => EffectWait(s, s', h, p, t, q);
    case ToFork(t) => EffectFork(s, s', h, p, t, q);
  }

  /** A child found ZOMBIE under its lock is off its stack. */
  lemma ZombieGone(s: State, h: nat, p: nat, t: nat)
    requires Locks(s) && h < |s.harts| && s.harts[h].ctl == On(p) && p < |s.procs| && t < |s.procs| && t != p
    requires ProcOk(s, t) && s.procs[t].state == Zombie && s.procs[p].pc.WaitLocked? && s.procs[p].pc.i == t
    ensures s.procs[t].cpu.None?
  {
    if s.procs[t].cpu.Some? {
      OneHolder(s, ProcLock(t), s.procs[t].cpu.value, h);
    }
  }

  lemma OtherProc(s: State, s': State, h: nat, p: nat, step: Step, q: nat)
    requires ThreadStepped(s, s', h, p, step) && Procs(s) && Makers(s) && Locks(s) && q < |s.procs| && q != p
    ensures q < |s'.procs| && ProcOk(s', q)
    ensures s'.procs[q].cpu == s.procs[q].cpu && (s.procs[q].cpu.Some? ==> s'.procs[q].pc == s.procs[q].pc)
  {
    hide MoveOf, Locks, Held, BackOk;
    Touches(s, s', h, p, step);
    Effects(s, s', h, p, step, q);
    assert ProcOk(s, q) && MakerOk(s, p) && ProcOk(s, p) && ProcOk(s, s.init);
    if s.procs[p].pc.WaitLocked? && s.procs[p].pc.i == q && s.procs[q].state == Zombie {
      ZombieGone(s, h, p, q);
    }
  }

  // ---------------------------------------------------------------- effects on the thread itself

  /** p is about to sleep on k: it has seen, under k's lock, that what it waits for has not happened. */
  ghost predicate NewSleep(s: State, p: nat, k: Chan)
    requires p < |s.procs|
  {
    match s.procs[p].pc
    case InEvent(lk) => k.Event? && k.lk == lk && k !in s.flags
    case WaitScan(i, _) => k == Child(p) && i == |s.procs|
    case _ => false
  }

  ghost predicate SelfEffect(s: State, s': State, p: nat)
    requires p < |s.procs| == |s'.procs|
  {
    var q, q' := s.procs[p], s'.procs[p];
    && q'.parent == q.parent
    && (q'.state == Zombie && q.state != Zombie ==> q.pc.ExitWoken?)
    && (forall k :: Asleep(s', p, k) ==> Asleep(s, p, k) || NewSleep(s, p, k))
    && (s'.flags <= s.flags ||
        (&& q.pc.InEvent? && q'.pc.Wake? && q'.pc.i == 0 && q'.pc.k.Event? && q'.pc.k.lk == q.pc.lk
         && q'.pc.ret == ThenEvent(q.pc.lk) && s'.flags == s.flags + {q'.pc.k}))
    && (|| Making(q'.pc).None? || Making(q'.pc) == Making(q.pc)
        || (&& q.pc.User? && q'.pc.ForkMade? && q'.pc.i < |s.procs| && q'.pc.i != p
            && s.procs[q'.pc.i].state == Unused && s'.procs[q'.pc.i].state == Used))
  }

  lemma SelfSleep(s: State, s': State, h: nat, p: nat, t: SleepStep)
    requires h < |s.harts| && p < |s.procs| && s.harts[h].ctl == On(p) && Moved(s, s', SleepMove(s, h, p, t))
    requires ProcOk(s, p) && s.procs[p].cpu == Some(h)
    ensures |s'.procs| == |s.procs| && SelfEffect(s, s', p)
  {
  }

  lemma SelfWake(s: State, s': State, h: nat, p: nat, t: WakeStep)
    requires h < |s.harts| && p < |s.procs| && s.harts[h].ctl == On(p) && Moved(s, s', WakeMove(s, h, p, t))
    requires ProcOk(s, p) && s.procs[p].cpu == Some(h)
    ensures |s'.procs| == |s.procs| && SelfEffect(s, s', p)
  {
  }

  lemma SelfExit(s: State, s': State, h: nat, p: nat, t: ExitStep)
    requires h < |s.harts| && p < |s.procs| && s.harts[h].ctl == On(p) && Moved(s, s', ExitMove(s, h, p, t))
    requires ProcOk(s, p) && s.procs[p].cpu == Some(h)
    ensures |s'.procs| == |s.procs| && SelfEffect(s, s', p)
  {
  }

  lemma SelfWait(s: State, s': State, h: nat, p: nat, t: WaitStep)
    requires h < |s.harts| && p < |s.procs| && s.harts[h].ctl == On(p) && Moved(s, s', WaitMove(s, h, p, t))
    requires ProcOk(s, p) && s.procs[p].cpu == Some(h)
    ensures |s'.procs| == |s.procs| && SelfEffect(s, s', p)
  {
  }

  lemma SelfFork(s: State, s': State, h: nat, p: nat, t: ForkStep)
    requires h < |s.harts| && p < |s.procs| && s.harts[h].ctl == On(p) && Moved(s, s', ForkMove(s, h, p, t))
    requires ProcOk(s, p) && s.procs[p].cpu == Some(h)
    ensures |s'.procs| == |s.procs| && SelfEffect(s, s', p)
  {
  }

  lemma Self(s: State, s': State, h: nat, p: nat, step: Step)
    requires ThreadStepped(s, s', h, p, step) && ProcOk(s, p) && s.procs[p].cpu == Some(h)
    ensures |s'.procs| == |s.procs| && SelfEffect(s, s', p)
  {
    hide SelfEffect, ProcOk, SleepMove, WakeMove, ExitMove, WaitMove, ForkMove;
    match step
    case ToSleep(t) => SelfSleep(s, s', h, p, t);
    case ToWake(t) => SelfWake(s, s', h, p, t);
    case ToExit(t) => SelfExit(s, s', h, p, t);
    case ToWait(t) => SelfWait(s, s', h, p, t);
    case ToFork(t) => SelfFork(s, s', h, p, t);
  }

  /** Slots in the making by others than p: p leaves them alone. */
  lemma MakerOther(s: State, s': State, p: nat, q: nat)
    requires p < |s.procs| == |s'.procs| && Procs(s) && Makers(s) && s.procs[p].cpu.Some? && q < |s.procs| && q != p
    requires SelfEffect(s, s', p) && forall x: nat :: x < |s.procs| && x != p ==> Effect(s, s', p, x)
    ensures MakerOk(s', q)
  {
    hide PcOk, Asleep, NewSleep;
    assert ProcOk(s, p) && ProcOk(s, q) && MakerOk(s, p) && MakerOk(s, q) && Effect(s, s', p, q);
    if Making(s'.procs[q].pc).Some? {
      var i := Making(s.procs[q].pc).value;
      assert i != p;
      assert Effect(s, s', p, i);
      forall x | 0 <= x < |s.procs| && x != q && x != p ensures Making(s'.procs[x].pc) != Making(s'.procs[q].pc) {
        assert Effect(s, s', p, x);
      }
    }
  }

  lemma MakerSelf(s: State, s': State, p: nat)
    requires p < |s.procs| == |s'.procs| && Procs(s) && Makers(s) && s.procs[p].cpu.Some?
    requires SelfEffect(s, s', p) && forall x: nat :: x < |s.procs| && x != p ==> Effect(s, s', p, x)
    ensures MakerOk(s', p)
  {
    hide PcOk, Asleep, NewSleep;
    assert ProcOk(s, p) && MakerOk(s, p);
    if Making(s'.procs[p].pc).Some? {
      var i := Making(s'.procs[p].pc).value;
      assert i != p && i < |s.procs|;
      assert Effect(s, s', p, i);
      forall x | 0 <= x < |s.procs| && x != p ensures Making(s'.procs[x].pc) != Making(s'.procs[p].pc) {
        assert Effect(s, s', p, x) && MakerOk(s, x);
      }
    }
  }

  // ---------------------------------------------------------------- no lost wakeups

  ghost predicate Stepped(s: State, s': State, p: nat)
  {
    && p < |s.procs| == |s'.procs| && s'.init == s.init
    && Procs(s) && Makers(s) && Locks(s) && Loops(s) && s.procs[p].cpu.Some?
    && SelfEffect(s, s', p) && LoopEffect(s, s', p)
    && (forall x: nat :: x < |s.procs| && x != p ==> Effect(s, s', p, x))
  }

  /** Who falls asleep in this step is p, having checked first. */
  lemma AsleepNew(s: State, s': State, p: nat, q: nat, k: Chan)
    requires Stepped(s, s', p) && q < |s.procs| && Asleep(s', q, k)
    ensures Asleep(s, q, k) || (q == p && NewSleep(s, p, k))
  {
    if q != p {
      assert Effect(s, s', p, q);
    }
  }

  /** How a zombie child can appear. */
  lemma ZombieNew(s: State, s': State, p: nat, x: nat, z: nat)
    requires Stepped(s, s', p) && ZombieChild(s', x, z) && !ZombieChild(s, x, z)
    ensures || (z == p && s.procs[p].pc.ExitWoken? && s.procs[p].parent == Some(x))
            || (s.procs[p].pc.ExitReparent? && x == s.init && s'.procs[p].pc == Wake(Child(x), 0, ThenReparent(z + 1)))
  {
    hide Asleep, NewSleep, PcOk;
    assert MakerOk(s, p);
    if z != p {
      assert Effect(s, s', p, z);
    }
  }

  /** How something waited for can happen. */
  lemma DueNew(s: State, s': State, p: nat, k: Chan)
    requires Stepped(s, s', p) && Due(s', k) && !Due(s, k)
    ensures || (s'.procs[p].pc.Wake? && s'.procs[p].pc.k == k && s'.procs[p].pc.i == 0)
            || (s.procs[p].pc.ExitWoken? && k.Child? && s.procs[p].parent == Some(k.p))
  {
    hide Asleep, NewSleep, PcOk, Effect, ProcOk;
    if k.Child? {
      var z :| ZombieChild(s', k.p, z);
      ZombieNew(s, s', p, k.p, z);
    }
  }

  /** How a thread moves through the loops of wakeup, exit and wait. */
  ghost predicate LoopEffect(s: State, s': State, p: nat)
    requires p < |s.procs| == |s'.procs|
  {
    var q, q', n := s.procs[p], s'.procs[p], |s.procs|;
    && (match q.pc
        case Wake(k, i, ret) => q'.pc == if i >= n then Resume(ret)
          else if i == p then Wake(k, i + 1, ret) else WakeLocked(k, i, ret)
        case WakeLocked(k, i, ret) => i < n && q'.pc == Wake(k, i + 1, ret)
          && !(s'.procs[i].state == Sleeping && s'.procs[i].chan == Some(k))
        case _ => true)
    && (match q'.pc
        case Wake(k, i, ret) => q.pc.Wake? || q.pc.WakeLocked?
          || (i == 0 && (ret == ThenDie ==> k.Child? && q.parent == Some(k.p)))
        case WakeLocked(k, i, ret) => q.pc.Wake?
        case ExitWoken => q.pc.Wake? || q.parent.None?
        case WaitScan(i, _) =>
          || i == 0
          || (q.pc.WaitScan? && q.pc.i == i - 1 && i <= n && s'.procs[i - 1].parent != Some(p))
          || (q.pc.WaitLocked? && q.pc.i == i - 1 && i <= n && s'.procs[i - 1].state != Zombie)
        case WaitLocked(i, _) => q.pc.WaitScan? && q.pc.i == i
        case _ => true)
  }

  lemma LoopSleep(s: State, s': State, h: nat, p: nat, t: SleepStep)
    requires h < |s.harts| && p < |s.procs| && s.harts[h].ctl == On(p) && Moved(s, s', SleepMove(s, h, p, t))
    requires ProcOk(s, p) && s.procs[p].cpu == Some(h)
    ensures |s'.procs| == |s.procs| && LoopEffect(s, s', p)
  {
  }

  lemma LoopWake(s: State, s': State, h: nat, p: nat, t: WakeStep)
    requires h < |s.harts| && p < |s.procs| && s.harts[h].ctl == On(p) && Moved(s, s', WakeMove(s, h, p, t))
    requires ProcOk(s, p) && s.procs[p].cpu == Some(h)
    ensures |s'.procs| == |s.procs| && LoopEffect(s, s', p)
  {
  }

  lemma LoopExit(s: State, s': State, h: nat, p: nat, t: ExitStep)
    requires h < |s.harts| && p < |s.procs| && s.harts[h].ctl == On(p) && Moved(s, s', ExitMove(s, h, p, t))
    requires ProcOk(s, p) && s.procs[p].cpu == Some(h)
    ensures |s'.procs| == |s.procs| && LoopEffect(s, s', p)
  {
  }

  lemma LoopWait(s: State, s': State, h: nat, p: nat, t: WaitStep)
    requires h < |s.harts| && p < |s.procs| && s.harts[h].ctl == On(p) && Moved(s, s', WaitMove(s, h, p, t))
    requires ProcOk(s, p) && s.procs[p].cpu == Some(h)
    ensures |s'.procs| == |s.procs| && LoopEffect(s, s', p)
  {
  }

  lemma LoopFork(s: State, s': State, h: nat, p: nat, t: ForkStep)
    requires h < |s.harts| && p < |s.procs| && s.harts[h].ctl == On(p) && Moved(s, s', ForkMove(s, h, p, t))
    requires ProcOk(s, p) && s.procs[p].cpu == Some(h)
    ensures |s'.procs| == |s.procs| && LoopEffect(s, s', p)
  {
  }

  lemma LoopMoves(s: State, s': State, h: nat, p: nat, step: Step)
    requires ThreadStepped(s, s', h, p, step) && ProcOk(s, p) && s.procs[p].cpu == Some(h)
    ensures |s'.procs| == |s.procs| && LoopEffect(s, s', p)
  {
    hide LoopEffect, ProcOk, SleepMove, WakeMove, ExitMove, WaitMove, ForkMove;
    match step
    case ToSleep(t) => LoopSleep(s, s', h, p, t);
    case ToWake(t) => LoopWake(s, s', h, p, t);
    case ToExit(t) => LoopExit(s, s', h, p, t);
    case ToWait(t) => LoopWait(s, s', h, p, t);
    case ToFork(t) => LoopFork(s, s', h, p, t);
  }

  /** The lock a thread holds because of the loop it is in. */
  function LoopLock(pc: Pc): Option<Lock> {
    match pc
    case Wake(_, _, ret) => Some(RetLock(ret))
    case WakeLocked(_, _, ret) => Some(RetLock(ret))
    case ExitReparent(_) => Some(WaitLock)
    case ExitWoken => Some(WaitLock)
    case WaitScan(_, _) => Some(WaitLock)
    case WaitLocked(_, _) => Some(WaitLock)
    case InEvent(c) => Some(EventLock(c))
    case _ => None
  }

  /** Two threads are never in loops under the same lock. */
  lemma OneLoop(s: State, p: nat, w: nat)
    requires Procs(s) && Locks(s) && p < |s.procs| && w < |s.procs|
    requires LoopLock(s.procs[p].pc).Some? && LoopLock(s.procs[p].pc) == LoopLock(s.procs[w].pc)
    ensures p == w
  {
    hide PcOk;
    assert ProcOk(s, p) && ProcOk(s, w);
    OneThread(s, LoopLock(s.procs[p].pc).value, p, w);
  }

  /** wakeup, holding the lock of slot i, cannot miss a sleeper there: it is either not asleep on k,
      or SLEEPING with its channel set. */
  lemma WakerFinds(s: State, p: nat, i: nat, k: Chan)
    requires Procs(s) && Locks(s) && p < |s.procs| && i < |s.procs| && s.procs[p].pc.WakeLocked? && s.procs[p].pc.i == i
    requires Asleep(s, i, k)
    ensures s.procs[i].state == Sleeping && s.procs[i].chan == Some(k)
  {
    assert ProcOk(s, p) && ProcOk(s, i);
    if s.procs[i].cpu.Some? {
      OneThread(s, ProcLock(i), p, i);
    }
  }

  /** A slot wakeup has dealt with is awake. */
  lemma Passed(s: State, s': State, p: nat, k: Chan, i: nat)
    requires Stepped(s, s', p) && i < |s.procs| && s.procs[p].pc.WakeLocked? && s.procs[p].pc.k == k
      && s.procs[p].pc.i == i
    ensures !Asleep(s', i, k)
  {
    hide NewSleep;
    assert ProcOk(s, p) && ProcOk(s, i);
    assert i != p && Effect(s, s', p, i);
    if Asleep(s', i, k) {
      AsleepNew(s, s', p, i, k);
      WakerFinds(s, p, i, k);
    }
  }

  lemma WakingKept(s: State, s': State, p: nat, w: nat, k: Chan, q: nat)
    requires Stepped(s, s', p) && q < |s.procs| && Waking(s, w, k, q) && Asleep(s', q, k)
    ensures Waking(s', w, k, q)
  {
    hide PcOk, NewSleep, SelfEffect;
    assert ProcOk(s, w) && MakerOk(s, p);
    if w != p {
      assert Effect(s, s', p, w);
    } else if s.procs[p].pc.WakeLocked? && s.procs[p].pc.i == q {
      Passed(s, s', p, k, q);
    }
  }

  lemma WakesNext(s: State, s': State, p: nat, q: nat, k: Chan)
    requires Stepped(s, s', p) && Wakes(s) && q < |s.procs|
    ensures WakeOk(s', q, k)
  {
    hide SelfEffect, Effect;
    assert WakeOk(s, q, k) && LoopOk(s, p) && ProcOk(s, q);
    if Asleep(s', q, k) && Due(s', k) {
      AsleepNew(s, s', p, q, k);
      if Due(s, k) {
        if Asleep(s, q, k) {
          var w :| Waking(s, w, k, q);
          WakingKept(s, s', p, w, k, q);
        }
      } else {
        DueNew(s, s', p, k);
        if s'.procs[p].pc.Wake? && s'.procs[p].pc.k == k {
          assert Waking(s', p, k, q);
        }
      }
    }
  }

  // ---------------------------------------------------------------- loops

  /** While another thread is in a loop, nothing the loop relies on changes. */
  lemma LoopOther(s: State, s': State, p: nat, w: nat)
    requires Stepped(s, s', p) && w < |s.procs| && w != p
    ensures LoopOk(s', w)
  {
    hide SelfEffect;
    assert ProcOk(s, w) && ProcOk(s, p) && MakerOk(s, p) && LoopOk(s, w) && Effect(s, s', p, w);
    var pc := s'.procs[w].pc;
    if LoopLock(pc).Some? {
      assert pc == s.procs[w].pc;
      if s.procs[p].pc.ExitReparent? || s.procs[p].pc.ExitWoken? {
        if LoopLock(pc).value == WaitLock {
          OneLoop(s, p, w);
        }
      }
      forall q: nat, k: Chan | NotAsleep(s, q, k) && LockOf(k) == LoopLock(pc).value ensures NotAsleep(s', q, k) {
        if q < |s.procs| && Asleep(s', q, k) {
          AsleepNew(s, s', p, q, k);
          OneLoop(s, p, w);
        }
      }
      forall z: nat | LoopLock(pc).value == WaitLock && ZombieChild(s', w, z) ensures ZombieChild(s, w, z) {
        if !ZombieChild(s, w, z) {
          ZombieNew(s, s', p, w, z);
        }
      }
    }
  }

  /** Each round of a loop extends what the loop has established. */
  lemma LoopSelf(s: State, s': State, p: nat)
    requires Stepped(s, s', p)
    ensures LoopOk(s', p)
  {
    assert s'.procs[p].parent == s.procs[p].parent;
    hide SelfEffect;
    assert ProcOk(s, p) && MakerOk(s, p) && LoopOk(s, p);
    var pc, pc' := s.procs[p].pc, s'.procs[p].pc;
    if pc'.Wake? || pc'.WakeLocked? || pc'.ExitWoken? {
      if pc.Wake? || pc.WakeLocked? {
        forall q: nat | q < |s.procs| && NotAsleep(s, q, pc.k) ensures NotAsleep(s', q, pc.k) {
          if Asleep(s', q, pc.k) {
            AsleepNew(s, s', p, q, pc.k);
          }
        }
        if pc.WakeLocked? {
          Passed(s, s', p, pc.k, pc.i);
        }
      }
    } else if pc'.WaitScan? || pc'.WaitLocked? {
      forall z: nat | ZombieChild(s', p, z) ensures ZombieChild(s, p, z) {
        if !ZombieChild(s, p, z) {
          ZombieNew(s, s', p, p, z);
        }
      }
    }
  }

  // ---------------------------------------------------------------- whole steps

  lemma ThreadEffects(s: State, s': State, h: nat, p: nat, step: Step)
    requires Inv(s) && ThreadStepped(s, s', h, p, step)
    ensures Stepped(s, s', p) && Confined(s, s', h, p, step) && s.procs[p].cpu == Some(h)
  {
    hide MoveOf, Effect, SelfEffect, LoopEffect, Locks, Makers, Wakes, Loops;
    assert HartOk(s, h) && ProcOk(s, p);
    Touches(s, s', h, p, step);
    Self(s, s', h, p, step);
    LoopMoves(s, s', h, p, step);
    forall x: nat | x < |s.procs| && x != p ensures Effect(s, s', p, x) {
      Effects(s, s', h, p, step, x);
    }
  }

  lemma ThreadProcs(s: State, s': State, h: nat, p: nat, step: Step)
    requires Inv(s) && ThreadStepped(s, s', h, p, step)
    ensures Procs(s') && Makers(s') && Wakes(s') && Loops(s')
  {
    hide MoveOf, ProcOk, MakerOk, WakeOk, LoopOk, Effect, SelfEffect, LoopEffect, HartOk;
    ThreadEffects(s, s', h, p, step);
    forall q | 0 <= q < |s'.procs| ensures ProcOk(s', q) {
      assert ProcOk(s, q);
      if q == p {
        Own(s, s', h, p, step);
      } else {
        OtherProc(s, s', h, p, step, q);
      }
    }
    forall q | 0 <= q < |s'.procs| ensures MakerOk(s', q) && LoopOk(s', q) {
      if q == p {
        MakerSelf(s, s', p);
        LoopSelf(s, s', p);
      } else {
        MakerOther(s, s', p, q);
        LoopOther(s, s', p, q);
      }
    }
    forall q, k | 0 <= q < |s'.procs| ensures WakeOk(s', q, k) {
      WakesNext(s, s', p, q, k);
    }
  }

  lemma OtherHeld(s: State, s': State, h: nat, p: nat, step: Step, g: nat)
    requires Inv(s) && ThreadStepped(s, s', h, p, step) && g < |s.harts| && g != h
    ensures g < |s'.harts| && s'.harts[g] == s.harts[g] && HeldBy(s', g) == HeldBy(s, g) && HartOk(s', g)
  {
    hide MoveOf, PcOk, Locks, Wakes, Loops, Held;
    ThreadEffects(s, s', h, p, step);
    assert HartOk(s, g);
    if s.harts[g].ctl.On? {
      var q := s.harts[g].ctl.p;
      OtherProc(s, s', h, p, step, q);
      assert ProcOk(s, q);
    }
  }

  /** The hart stays with its thread unless the step is a switch, and no thread leaves plain code
      with a push_off outstanding. */
  ghost predicate HartEffect(s: State, s': State, h: nat, p: nat, step: Step)
    requires h < |s'.harts| && p < |s'.procs|
  {
    && s'.procs[p].cpu == (if Switches(step) then None else Some(h))
    && (s'.harts[h].pushed > 0 ==> !Switches(step) && (s'.procs[p].pc.User? || s'.procs[p].pc.InEvent?))
  }

  lemma HartSleep(s: State, s': State, h: nat, p: nat, t: SleepStep)
    requires h < |s.harts| && p < |s.procs| && s.harts[h].ctl == On(p) && Moved(s, s', SleepMove(s, h, p, t))
    requires s.procs[p].cpu == Some(h) && ProcOk(s, p)
    requires s.harts[h].pushed > 0 ==> s.procs[p].pc.User? || s.procs[p].pc.InEvent?
    ensures h < |s'.harts| && p < |s'.procs| && HartEffect(s, s', h, p, ToSleep(t))
  {
  }

  lemma HartWake(s: State, s': State, h: nat, p: nat, t: WakeStep)
    requires h < |s.harts| && p < |s.procs| && s.harts[h].ctl == On(p) && Moved(s, s', WakeMove(s, h, p, t))
    requires s.procs[p].cpu == Some(h) && ProcOk(s, p)
    requires s.harts[h].pushed > 0 ==> s.procs[p].pc.User? || s.procs[p].pc.InEvent?
    ensures h < |s'.harts| && p < |s'.procs| && HartEffect(s, s', h, p, ToWake(t))
  {
  }

  lemma HartExit(s: State, s': State, h: nat, p: nat, t: ExitStep)
    requires h < |s.harts| && p < |s.procs| && s.harts[h].ctl == On(p) && Moved(s, s', ExitMove(s, h, p, t))
    requires s.procs[p].cpu == Some(h) && ProcOk(s, p)
    requires s.harts[h].pushed > 0 ==> s.procs[p].pc.User? || s.procs[p].pc.InEvent?
    ensures h < |s'.harts| && p < |s'.procs| && HartEffect(s, s', h, p, ToExit(t))
  {
  }

  lemma HartWait(s: State, s': State, h: nat, p: nat, t: WaitStep)
    requires h < |s.harts| && p < |s.procs| && s.harts[h].ctl == On(p) && Moved(s, s', WaitMove(s, h, p, t))
    requires s.procs[p].cpu == Some(h) && ProcOk(s, p)
    requires s.harts[h].pushed > 0 ==> s.procs[p].pc.User? || s.procs[p].pc.InEvent?
    ensures h < |s'.harts| && p < |s'.procs| && HartEffect(s, s', h, p, ToWait(t))
  {
  }

  lemma HartFork(s: State, s': State, h: nat, p: nat, t: ForkStep)
    requires h < |s.harts| && p < |s.procs| && s.harts[h].ctl == On(p) && Moved(s, s', ForkMove(s, h, p, t))
    requires s.procs[p].cpu == Some(h) && ProcOk(s, p)
    requires s.harts[h].pushed > 0 ==> s.procs[p].pc.User? || s.procs[p].pc.InEvent?
    ensures h < |s'.harts| && p < |s'.procs| && HartEffect(s, s', h, p, ToFork(t))
  {
  }

  lemma HartMoves(s: State, s': State, h: nat, p: nat, step: Step)
    requires ThreadStepped(s, s', h, p, step) && s.procs[p].cpu == Some(h) && ProcOk(s, p)
    requires s.harts[h].pushed > 0 ==> s.procs[p].pc.User? || s.procs[p].pc.InEvent?
    ensures h < |s'.harts| && p < |s'.procs| && HartEffect(s, s', h, p, step)
  {
    hide HartEffect, ProcOk, SleepMove, WakeMove, ExitMove, WaitMove, ForkMove;
    match step
    case ToSleep(t) => HartSleep(s, s', h, p, t);
    case ToWake(t) => HartWake(s, s', h, p, t);
    case ToExit(t) => HartExit(s, s', h, p, t);
    case ToWait(t) => HartWait(s, s', h, p, t);
    case ToFork(t) => HartFork(s, s', h, p, t);
  }

  lemma ThreadHarts(s: State, s': State, h: nat, p: nat, step: Step)
    requires Inv(s) && ThreadStepped(s, s', h, p, step)
    ensures Harts(s') && Locks(s')
  {
    hide MoveOf, PcOk, Wakes, Loops, Held, HeldBy, LockChange;
    ThreadEffects(s, s', h, p, step);
    assert HartOk(s, h) && ProcOk(s, p);
    LockStep(s, s', h, p, step);
    NoffNext(s, s', h);
    forall g | 0 <= g < |s.harts| && g != h ensures HeldBy(s', g) == HeldBy(s, g) && HartOk(s', g) {
      OtherHeld(s, s', h, p, step, g);
    }
    LocksNext(s, s', h);
    HartMoves(s, s', h, p, step);
  }

  // ---------------------------------------------------------------- scheduler steps

  /** The scheduler changes a process only by starting it. */
  ghost predicate Started(s: State, s': State, h: nat, p: nat) {
    && |s'.procs| == |s.procs| && s'.init == s.init && s'.flags == s.flags
    && (s'.procs == s.procs ||
        (p < |s.procs| && s.procs[p].state == Runnable
         && s'.procs == s.procs[p := s.procs[p].(state := Running, cpu := Some(h))]))
  }

  lemma SchedEffects(s: State, s': State, h: nat, step: SchedStep)
    requires Procs(s) && Harts(s) && SchedStepped(s, s', h, step)
    ensures |s'.harts| == |s.harts| && Started(s, s', h, if s.harts[h].ctl.Looking? then s.harts[h].ctl.p else 0)
    ensures forall g :: 0 <= g < |s.harts| && g != h ==> s'.harts[g] == s.harts[g]
    ensures !s.harts[h].ctl.On? && LockChange(s, s', h)
  {
    assert HartOk(s, h);
    match step
    case Look(p) => assert Took(s, s', h, ProcLock(p));
    case Skip => assert Dropped(s, s', h, ProcLock(s.harts[h].ctl.p));
    case Run => assert ProcOk(s, s.harts[h].ctl.p);
    case Retire => assert Dropped(s, s', h, ProcLock(s.harts[h].ctl.p));
  }

  lemma StartedProtocol(s: State, s': State, h: nat, p: nat)
    requires Inv(s) && Started(s, s', h, p)
    ensures Makers(s') && Wakes(s') && Loops(s')
  {
    hide PcOk, Locks, Harts;
    if s'.procs != s.procs {
      assert ProcOk(s, p);
    }
    forall q: nat, k | q < |s.procs| ensures Asleep(s', q, k) == Asleep(s, q, k) {
    }
    forall q, k | 0 <= q < |s.procs| ensures WakeOk(s', q, k) {
      assert WakeOk(s, q, k);
      StartedWake(s, s', h, p, q, k);
    }
    forall q | 0 <= q < |s.procs| ensures MakerOk(s', q) && LoopOk(s', q) {
      assert MakerOk(s, q) && LoopOk(s, q);
      forall x: nat, k ensures NotAsleep(s', x, k) == NotAsleep(s, x, k) {
      }
      forall x, z ensures ZombieChild(s', x, z) == ZombieChild(s, x, z) {
      }
    }
  }

  lemma StartedWake(s: State, s': State, h: nat, p: nat, q: nat, k: Chan)
    requires Started(s, s', h, p) && q < |s.procs| && WakeOk(s, q, k) && Asleep(s', q, k) == Asleep(s, q, k)
    ensures WakeOk(s', q, k)
  {
    forall x, z ensures ZombieChild(s', x, z) == ZombieChild(s, x, z) {
    }
    forall w | Waking(s, w, k, q) ensures Waking(s', w, k, q) {
    }
  }

  lemma SchedProcs(s: State, s': State, h: nat, step: SchedStep)
    requires Inv(s) && SchedStepped(s, s', h, step)
    ensures Procs(s')
  {
    hide Locks, Wakes, Loops, Held;
    assert HartOk(s, h);
    forall q | 0 <= q < |s'.procs| ensures ProcOk(s', q) {
      assert ProcOk(s, q);
    }
  }

  lemma SchedHarts(s: State, s': State, h: nat, step: SchedStep)
    requires Inv(s) && SchedStepped(s, s', h, step)
    ensures Harts(s') && Locks(s')
  {
    hide Wakes, Loops, Held, PcOk;
    assert HartOk(s, h);
    SchedEffects(s, s', h, step);
    NoffNext(s, s', h);
    hide HeldBy, LockChange;
    forall g | 0 <= g < |s.harts| && g != h ensures HeldBy(s', g) == HeldBy(s, g) && HartOk(s', g) {
      SchedOther(s, s', h, if s.harts[h].ctl.Looking? then s.harts[h].ctl.p else 0, g);
    }
    LocksNext(s, s', h);
  }

  lemma SchedOther(s: State, s': State, h: nat, p: nat, g: nat)
    requires Procs(s) && Harts(s) && Started(s, s', h, p)
    requires g < |s.harts| == |s'.harts| && s'.harts[g] == s.harts[g]
    ensures HeldBy(s', g) == HeldBy(s, g) && HartOk(s', g)
  {
    hide Held, PcOk;
    assert HartOk(s, g);
    if s.harts[g].ctl.On? {
      assert ProcOk(s, s.harts[g].ctl.p);
    }
  }

  lemma SchedInv(s: State, s': State, h: nat, step: SchedStep)
    requires Inv(s) && SchedStepped(s, s', h, step)
    ensures Inv(s')
  {
    SchedProcs(s, s', h, step);
    SchedHarts(s, s', h, step);
    SchedEffects(s, s', h, step);
    hide Procs, Harts, Locks, Makers, Wakes, Loops, Started;
    StartedProtocol(s, s', h, if s.harts[h].ctl.Looking? then s.harts[h].ctl.p else 0);
  }

  // ---------------------------------------------------------------- runs

  /** One transition of one hart. */
  ghost predicate Next(s: State, s': State) {
    || (exists h, step :: SchedStepped(s, s', h, step))
    || (exists h, p, step :: ThreadStepped(s, s', h, p, step))
  }

  lemma NextInv(s: State, s': State)
    requires Inv(s) && Next(s, s')
    ensures Inv(s')
  {
    hide Procs, Harts, Locks, Makers, Wakes, Loops, SchedStepped, ThreadStepped, Started;
    if exists h, step :: SchedStepped(s, s', h, step) {
      var h, step :| SchedStepped(s, s', h, step);
      SchedInv(s, s', h, step);
    } else {
      var h, p, step :| ThreadStepped(s, s', h, p, step);
      ThreadProcs(s, s', h, p, step);
      ThreadHarts(s, s', h, p, step);
    }
  }
}
