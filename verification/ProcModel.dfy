/** Processes, harts and spin locks as a transition system.  Each transition is one acquire, one
    release, one swtch, or a run of instructions whose effects only holders of the locks involved
    can see.  Harts interleave freely. */
module ProcModel {
  import opened Options

  datatype ProcState = Unused | Used | Sleeping | Runnable | Running | Zombie

  /** What a process can sleep on: its own struct proc in wait, or any other address c, protected by
      lock lk.  Any number of channels may share a lock. */
  datatype Chan = Child(p: nat) | Event(c: nat, lk: nat)

  datatype Lock = ProcLock(p: nat) | WaitLock | EventLock(lk: nat)

  function LockOf(k: Chan): Lock {
    match k
    case Child(_) => WaitLock
    case Event(_, lk) => EventLock(lk)
  }

  /** Where wakeup returns to. */
  datatype Then = ThenEvent(lk: nat) | ThenReparent(i: nat) | ThenDie

  /** Where a process's kernel thread is; for a thread off its hart, where it will continue. */
  datatype Pc =
    | User
    | Fresh                                            // forkret, still holding p->lock
    | YieldLocked(back: Pc) | YieldResumed(back: Pc)   // preempted at back
    | InEvent(lk: nat)                                 // holding the lock of some events
    | SleepLocked(k: Chan)                             // sleep: p->lock taken, lk not yet released
    | SleepReleased(k: Chan)                           // lk released
    | SleepResumed(k: Chan)                            // sched returned, p->lock held again
    | SleepReacquire(k: Chan)                          // p->lock released
    | Wake(k: Chan, i: nat, ret: Then)                // wakeup: next table slot to look at
    | WakeLocked(k: Chan, i: nat, ret: Then)          // wakeup: holding proc[i].lock
    | ExitReparent(i: nat)
    | ExitWoken                                        // parent woken
    | ExitZombie | ExitLast | Dead
    | WaitScan(i: nat, have: bool) | WaitLocked(i: nat, have: bool) | WaitEnd
    | ForkMade(i: nat)                                 // allocproc returned proc[i], locked
    | ForkCopied(i: nat) | ForkParent(i: nat) | ForkReady(i: nat) | ForkDone(i: nat)
    | KillLocked(i: nat)

  /** cpu is the hart on which this thread is executing, if any. */
  datatype Proc = Proc(state: ProcState, chan: Option<Chan>, parent: Option<nat>, pc: Pc, cpu: Option<nat>)

  /** Where a hart is: in the scheduler loop, holding p's lock before or after the switch, or on
      p's kernel stack. */
  datatype Ctl = Loop | Looking(p: nat) | On(p: nat) | Back(p: nat)

  /** cur is c->proc; pushed counts push_offs that no lock accounts for. */
  datatype Hart = Hart(ctl: Ctl, cur: Option<nat>, noff: nat, pushed: nat)

  /** owner gives lk->cpu of the locks held; flags are the events that have happened. */
  datatype State = State(procs: seq<Proc>, harts: seq<Hart>, owner: map<Lock, nat>, flags: set<Chan>, init: nat)

  datatype SchedStep = Look(p: nat) | Skip | Run | Retire

  datatype SleepStep =
    | Push | Pop | YieldLock | YieldSwitch | ReleaseOwn
    | EventEnter(lk: nat) | EventLeave | EventSet(c: nat) | EventClear(c: nat) | EventSleep(c: nat)
    | SleepRelease | SleepSwitch | SleepAgain

  datatype WakeStep = WakeNext | WakeLook | KillLock(i: nat) | KillHit(hit: bool)

  datatype ExitStep = ExitEnter | ExitNext | ExitDie | ExitRelease | ExitSwitch

  datatype WaitStep = WaitEnter | WaitNext | WaitLook(copied: bool) | WaitSleep | WaitGiveUp(killed: bool) | WaitLeave

  datatype ForkStep = ForkAlloc(i: nat) | ForkFail | ForkUnlock | ForkAdopt | ForkUnwait | ForkStart | ForkLeave

  datatype Step =
    | ToSleep(sleep: SleepStep) | ToWake(wake: WakeStep) | ToExit(exit: ExitStep)
    | ToWait(wait: WaitStep) | ToFork(fork: ForkStep)

  // ---------------------------------------------------------------- building blocks

  function Take(s: State, h: nat, lk: Lock): State
    requires h < |s.harts|
  {
    s.(owner := s.owner[lk := h], harts := s.harts[h := s.harts[h].(noff := s.harts[h].noff + 1)])
  }

  function Drop(s: State, h: nat, lk: Lock): State
    requires h < |s.harts|
  {
    s.(owner := s.owner - {lk},
       harts := s.harts[h := s.harts[h].(noff := if s.harts[h].noff > 0 then s.harts[h].noff - 1 else 0)])
  }

  function SetProc(s: State, p: nat, pr: Proc): State
    requires p < |s.procs|
  {
    s.(procs := s.procs[p := pr])
  }

  function Goto(s: State, p: nat, pc: Pc): State
    requires p < |s.procs|
  {
    SetProc(s, p, s.procs[p].(pc := pc))
  }

  function SetState(s: State, p: nat, st: ProcState): State
    requires p < |s.procs|
  {
    SetProc(s, p, s.procs[p].(state := st))
  }

  function SetCtl(s: State, h: nat, ctl: Ctl): State
    requires h < |s.harts|
  {
    s.(harts := s.harts[h := s.harts[h].(ctl := ctl)])
  }

  /** swtch from process p to the scheduler of its hart. */
  function Leave(s: State, h: nat, p: nat, pr: Proc): State
    requires h < |s.harts| && p < |s.procs|
  {
    SetCtl(SetProc(s, p, pr.(cpu := None)), h, Back(p))
  }

  /** Where a thread continues when wakeup returns. */
  function Resume(ret: Then): Pc {
    match ret
    case ThenEvent(lk) => InEvent(lk)
    case ThenReparent(i) => ExitReparent(i)
    case ThenDie => ExitWoken
  }

  /** Where sleep returns to once lk is held again. */
  function Awake(k: Chan): Pc {
    match k
    case Child(_) => WaitScan(0, false)
    case Event(_, lk) => InEvent(lk)
  }

  // ---------------------------------------------------------------- scheduler

  /** One transition of the scheduler on hart h. */
  ghost predicate SchedStepped(s: State, s': State, h: nat, step: SchedStep) {
    && h < |s.harts|
    && var c := s.harts[h];
    && match step
       case Look(p) =>
         && c.ctl == Loop && p < |s.procs| && ProcLock(p) !in s.owner
         && s' == SetCtl(Take(s, h, ProcLock(p)), h, Looking(p))
       case Skip =>
         && c.ctl.Looking? && c.ctl.p < |s.procs| && s.procs[c.ctl.p].state != Runnable
         && s' == SetCtl(Drop(s, h, ProcLock(c.ctl.p)), h, Loop)
       case Run =>
         && c.ctl.Looking? && c.ctl.p < |s.procs| && s.procs[c.ctl.p].state == Runnable
         && s' == SetProc(s, c.ctl.p, s.procs[c.ctl.p].(state := Running, cpu := Some(h))).(
                    harts := s.harts[h := c.(ctl := On(c.ctl.p), cur := Some(c.ctl.p))])
       case Retire =>
         && c.ctl.Back?
         && s' == SetCtl(Drop(s.(harts := s.harts[h := c.(cur := None)]), h, ProcLock(c.ctl.p)), h, Loop)
  }

  // ---------------------------------------------------------------- kernel threads

  /** A thread that holds no lock has interrupts on, so the timer may make it yield. */
  predicate Preemptible(pc: Pc) {
    pc.User? || pc.SleepReacquire? || pc.ForkCopied? || pc.ForkReady?
  }

  /** A transition of a thread: the lock it has to find free first, if any, and the new state. */
  datatype Move = Stuck | Local(to: State) | Acquire(lk: Lock, to: State)

  function SleepMove(s: State, h: nat, p: nat, step: SleepStep): Move
    requires h < |s.harts| && p < |s.procs|
  {
    var pr, c := s.procs[p], s.harts[h];
    var pc := pr.pc;
    var open := pc.User? || pc.InEvent?;
    match step
    case Push => if open then Local(s.(harts := s.harts[h := c.(noff := c.noff + 1, pushed := c.pushed + 1)]))
      else Stuck
    case Pop =>
      if open && c.pushed > 0 && c.noff > 0 then
        Local(s.(harts := s.harts[h := c.(noff := c.noff - 1, pushed := c.pushed - 1)]))
      else Stuck
    case YieldLock =>
      if Preemptible(pc) && c.pushed == 0 then Acquire(ProcLock(p), Goto(Take(s, h, ProcLock(p)), p, YieldLocked(pc)))
      else Stuck
    case YieldSwitch =>
      if pc.YieldLocked? then Local(Leave(s, h, p, pr.(state := Runnable, pc := YieldResumed(pc.back)))) else Stuck
    case ReleaseOwn =>
      (match pc
       case Fresh => Local(Goto(Drop(s, h, ProcLock(p)), p, User))
       case YieldResumed(back) => Local(Goto(Drop(s, h, ProcLock(p)), p, back))
       case SleepResumed(k) => Local(SetProc(Drop(s, h, ProcLock(p)), p, pr.(chan := None, pc := SleepReacquire(k))))
       case _ => Stuck)
    case EventEnter(e) =>
      if pc.User? then Acquire(EventLock(e), Goto(Take(s, h, EventLock(e)), p, InEvent(e))) else Stuck
    case EventLeave => if pc.InEvent? then Local(Goto(Drop(s, h, EventLock(pc.lk)), p, User)) else Stuck
    case EventSet(e) =>
      if pc.InEvent? && c.pushed == 0 then
        Local(Goto(s, p, Wake(Event(e, pc.lk), 0, ThenEvent(pc.lk))).(flags := s.flags + {Event(e, pc.lk)}))
      else Stuck
    case EventClear(e) => if pc.InEvent? then Local(s.(flags := s.flags - {Event(e, pc.lk)})) else Stuck
    case EventSleep(e) =>
      if pc.InEvent? && Event(e, pc.lk) !in s.flags && c.pushed == 0 then
        Acquire(ProcLock(p), Goto(Take(s, h, ProcLock(p)), p, SleepLocked(Event(e, pc.lk))))
      else Stuck
    case SleepRelease =>
      if pc.SleepLocked? then Local(Goto(Drop(s, h, LockOf(pc.k)), p, SleepReleased(pc.k))) else Stuck
    case SleepSwitch =>
      if pc.SleepReleased? then
        Local(Leave(s, h, p, pr.(state := Sleeping, chan := Some(pc.k), pc := SleepResumed(pc.k))))
      else Stuck
    case SleepAgain =>
      if pc.SleepReacquire? then Acquire(LockOf(pc.k), Goto(Take(s, h, LockOf(pc.k)), p, Awake(pc.k))) else Stuck
  }

  /** wakeup(k), one table slot at a time, and kill. */
  function WakeMove(s: State, h: nat, p: nat, step: WakeStep): Move
    requires h < |s.harts| && p < |s.procs|
  {
    var pc := s.procs[p].pc;
    match step
    case WakeNext =>
      if !pc.Wake? then Stuck
      else if pc.i >= |s.procs| then Local(Goto(s, p, Resume(pc.ret)))
      else if pc.i == p then Local(Goto(s, p, Wake(pc.k, pc.i + 1, pc.ret)))
      else Acquire(ProcLock(pc.i), Goto(Take(s, h, ProcLock(pc.i)), p, WakeLocked(pc.k, pc.i, pc.ret)))
    case WakeLook =>
      if !pc.WakeLocked? || pc.i >= |s.procs| then Stuck
      else
        var q := s.procs[pc.i];
        var t := if q.state == Sleeping && q.chan == Some(pc.k) then SetState(s, pc.i, Runnable) else s;
        Local(Goto(Drop(t, h, ProcLock(pc.i)), p, Wake(pc.k, pc.i + 1, pc.ret)))
    case KillLock(i) =>
      if pc.User? && s.harts[h].pushed == 0 && i < |s.procs| then
        Acquire(ProcLock(i), Goto(Take(s, h, ProcLock(i)), p, KillLocked(i)))
      else Stuck
    case KillHit(hit) =>
      if !pc.KillLocked? || pc.i >= |s.procs| then Stuck
      else
        var t := if hit && s.procs[pc.i].state == Sleeping then SetState(s, pc.i, Runnable) else s;
        Local(Goto(Drop(t, h, ProcLock(pc.i)), p, User))
  }

  /** exit's loop over the process table: a child goes to init, which is woken in case the child
      is a zombie already; after the last slot the exiting process's own parent is woken. */
  function ReparentNext(s: State, p: nat, i: nat): State
    requires p < |s.procs|
  {
    if i < |s.procs| then
      if s.procs[i].parent == Some(p) then
        Goto(SetProc(s, i, s.procs[i].(parent := Some(s.init))), p, Wake(Child(s.init), 0, ThenReparent(i + 1)))
      else
        Goto(s, p, ExitReparent(i + 1))
    else
      match s.procs[p].parent
      case Some(q) => Goto(s, p, Wake(Child(q), 0, ThenDie))
      case None => Goto(s, p, ExitWoken)
  }

  function ExitMove(s: State, h: nat, p: nat, step: ExitStep): Move
    requires h < |s.harts| && p < |s.procs|
  {
    var pr := s.procs[p];
    var pc := pr.pc;
    match step
    case ExitEnter =>
      if pc.User? && s.harts[h].pushed == 0 && p != s.init then
        Acquire(WaitLock, Goto(Take(s, h, WaitLock), p, ExitReparent(0)))
      else Stuck
    case ExitNext => if pc.ExitReparent? then Local(ReparentNext(s, p, pc.i)) else Stuck
    case ExitDie =>
      if pc.ExitWoken? then
        Acquire(ProcLock(p), SetProc(Take(s, h, ProcLock(p)), p, pr.(state := Zombie, pc := ExitZombie)))
      else Stuck
    case ExitRelease => if pc.ExitZombie? then Local(Goto(Drop(s, h, WaitLock), p, ExitLast)) else Stuck
    case ExitSwitch => if pc.ExitLast? then Local(Leave(s, h, p, pr.(pc := Dead))) else Stuck
  }

  function WaitMove(s: State, h: nat, p: nat, step: WaitStep): Move
    requires h < |s.harts| && p < |s.procs|
  {
    var pc := s.procs[p].pc;
    match step
    case WaitEnter =>
      if pc.User? && s.harts[h].pushed == 0 then Acquire(WaitLock, Goto(Take(s, h, WaitLock), p, WaitScan(0, false)))
      else Stuck
    case WaitNext =>
      if !pc.WaitScan? || pc.i >= |s.procs| then Stuck
      else if s.procs[pc.i].parent == Some(p) then
        Acquire(ProcLock(pc.i), Goto(Take(s, h, ProcLock(pc.i)), p, WaitLocked(pc.i, pc.have)))
      else Local(Goto(s, p, WaitScan(pc.i + 1, pc.have)))
    case WaitLook(copied) =>
      if !pc.WaitLocked? || pc.i >= |s.procs| then Stuck
      else
        var q := s.procs[pc.i];
        if q.state != Zombie then Local(Goto(Drop(s, h, ProcLock(pc.i)), p, WaitScan(pc.i + 1, true)))
        else if !copied then Local(Goto(Drop(s, h, ProcLock(pc.i)), p, WaitEnd))
        else
          var t := SetProc(s, pc.i, q.(state := Unused, chan := None, parent := None));
          Local(Goto(Drop(t, h, ProcLock(pc.i)), p, WaitEnd))
    case WaitSleep =>
      if pc.WaitScan? && pc.i == |s.procs| && pc.have then
        Acquire(ProcLock(p), Goto(Take(s, h, ProcLock(p)), p, SleepLocked(Child(p))))
      else Stuck
    case WaitGiveUp(killed) =>
      if pc.WaitScan? && pc.i == |s.procs| && (!pc.have || killed) then Local(Goto(s, p, WaitEnd)) else Stuck
    case WaitLeave => if pc.WaitEnd? then Local(Goto(Drop(s, h, WaitLock), p, User)) else Stuck
  }

  function ForkMove(s: State, h: nat, p: nat, step: ForkStep): Move
    requires h < |s.harts| && p < |s.procs|
  {
    var pc := s.procs[p].pc;
    match step
    case ForkAlloc(i) =>
      if pc.User? && s.harts[h].pushed == 0 && i < |s.procs| && s.procs[i].state == Unused then
        Acquire(ProcLock(i),
                Goto(SetProc(Take(s, h, ProcLock(i)), i, s.procs[i].(state := Used, pc := Fresh)), p, ForkMade(i)))
      else Stuck
    case ForkFail =>
      if pc.ForkMade? && pc.i < |s.procs| then
        var t := SetProc(s, pc.i, s.procs[pc.i].(state := Unused, chan := None, parent := None, pc := Dead));
        Local(Goto(Drop(t, h, ProcLock(pc.i)), p, User))
      else Stuck
    case ForkUnlock => if pc.ForkMade? then Local(Goto(Drop(s, h, ProcLock(pc.i)), p, ForkCopied(pc.i))) else Stuck
    case ForkAdopt =>
      if pc.ForkCopied? && pc.i < |s.procs| then
        Acquire(WaitLock,
                Goto(SetProc(Take(s, h, WaitLock), pc.i, s.procs[pc.i].(parent := Some(p))), p, ForkParent(pc.i)))
      else Stuck
    case ForkUnwait => if pc.ForkParent? then Local(Goto(Drop(s, h, WaitLock), p, ForkReady(pc.i))) else Stuck
    case ForkStart =>
      if pc.ForkReady? && pc.i < |s.procs| then
        Acquire(ProcLock(pc.i), Goto(SetState(Take(s, h, ProcLock(pc.i)), pc.i, Runnable), p, ForkDone(pc.i)))
      else Stuck
    case ForkLeave => if pc.ForkDone? then Local(Goto(Drop(s, h, ProcLock(pc.i)), p, User)) else Stuck
  }

  function MoveOf(s: State, h: nat, p: nat, step: Step): Move
    requires h < |s.harts| && p < |s.procs|
  {
    match step
    case ToSleep(t) => SleepMove(s, h, p, t)
    case ToWake(t) => WakeMove(s, h, p, t)
    case ToExit(t) => ExitMove(s, h, p, t)
    case ToWait(t) => WaitMove(s, h, p, t)
    case ToFork(t) => ForkMove(s, h, p, t)
  }

  /** Thread p on hart h makes a transition; an acquire has to find the lock free. */
  ghost predicate ThreadStepped(s: State, s': State, h: nat, p: nat, step: Step) {
    && h < |s.harts| && p < |s.procs| && s.harts[h].ctl == On(p)
    && Moved(s, s', MoveOf(s, h, p, step))
  }

  ghost predicate Moved(s: State, s': State, move: Move) {
    match move
    case Stuck => false
    case Local(t) => s' == t
    case Acquire(lk, t) => lk !in s.owner && s' == t
  }

  /** userinit has made init runnable; every hart is about to enter the scheduler. */
  ghost predicate Init(s: State) {
    && s.init < |s.procs|
    && s.owner == map[]
    && (forall p :: 0 <= p < |s.procs| ==>
          s.procs[p] == if p == s.init then Proc(Runnable, None, None, Fresh, None)
            else Proc(Unused, None, None, Dead, None))
    && (forall h :: 0 <= h < |s.harts| ==> s.harts[h] == Hart(Loop, None, 0, 0))
  }
}
