/** Parents and children in every run of the process protocol: nobody is orphaned, wait knows whether
    there are children, and a ZOMBIE stays until it is waited for. */
module ProcFamily {
  import opened ProcModel
  import opened ProcInv
  import opened ProcRuns
  import opened Options

  predicate Alive(s: State, p: nat) {
    p < |s.procs| && (s.procs[p].state == Sleeping || s.procs[p].state == Runnable || s.procs[p].state == Running)
  }

  predicate Kid(s: State, p: nat, q: nat) {
    q < |s.procs| && s.procs[q].parent == Some(p)
  }

  /** At pc, exit is done with process table slot q. */
  predicate Gone(pc: Pc, q: nat) {
    match pc
    case ExitReparent(i) => q < i
    case Wake(_, _, ret) => ret == ThenDie || (ret.ThenReparent? && q < ret.i)
    case WakeLocked(_, _, ret) => ret == ThenDie || (ret.ThenReparent? && q < ret.i)
    case ExitWoken => true
    case ExitZombie => true
    case ExitLast => true
    case Dead => true
    case _ => false
  }

  /** A process's parent is alive, and has not passed it in exit. */
  ghost predicate KidOk(s: State, q: nat)
    requires q < |s.procs|
  {
    s.procs[q].parent.Some? ==>
      && Alive(s, s.procs[q].parent.value)
      && !Gone(s.procs[s.procs[q].parent.value].pc, q)
  }

  /** havekids is what the scan of the table has seen so far. */
  ghost predicate ScanOk(s: State, w: nat)
    requires w < |s.procs|
  {
    match s.procs[w].pc
    case WaitScan(i, have) => Seen(s, w, i, have)
    case WaitLocked(i, have) => Seen(s, w, i, have) && Kid(s, w, i)
    case _ => true
  }

  ghost predicate Seen(s: State, w: nat, i: nat, have: bool) {
    have <==> exists q: nat :: q < i && Kid(s, w, q)
  }

  /** A slot that is being set up has somebody setting it up, and has a parent only from the time it is
      given one. */
  ghost predicate SlotOk(s: State, i: nat)
    requires i < |s.procs|
  {
    && (s.procs[i].state == Used ==> exists p :: Makes(s, p, i))
    && (s.procs[i].state == Unused ==> s.procs[i].parent.None?)
    && (forall p :: 0 <= p < |s.procs| && Unadopted(s.procs[p].pc) == Some(i) ==> s.procs[i].parent.None?)
  }

  /** A process past fork other than init has a parent, which is the one that forked until fork is done. */
  ghost predicate RootOk(s: State, i: nat)
    requires i < |s.procs|
  {
    && (i != s.init && s.procs[i].state != Unused && s.procs[i].state != Used ==> s.procs[i].parent.Some?)
    && (forall p: nat :: p < |s.procs| && Adopted(s.procs[p].pc) == Some(i) ==> s.procs[i].parent == Some(p))
  }

  /** The slot a fork at pc has given a parent. */
  function Adopted(pc: Pc): Option<nat> {
    match if pc.YieldLocked? || pc.YieldResumed? then pc.back else pc
    case ForkParent(i) => Some(i)
    case ForkReady(i) => Some(i)
    case _ => None
  }

  ghost predicate Makes(s: State, p: nat, i: nat) {
    p < |s.procs| && Making(s.procs[p].pc) == Some(i)
  }

  /** The slot a fork at pc has not yet given a parent. */
  function Unadopted(pc: Pc): Option<nat> {
    match if pc.YieldLocked? || pc.YieldResumed? then pc.back else pc
    case ForkMade(i) => Some(i)
    case ForkCopied(i) => Some(i)
    case _ => None
  }

  ghost predicate Family(s: State) {
    forall q {:trigger KidOk(s, q)} {:trigger ScanOk(s, q)} {:trigger SlotOk(s, q)} {:trigger RootOk(s, q)} ::
      0 <= q < |s.procs| ==> KidOk(s, q) && ScanOk(s, q) && SlotOk(s, q) && RootOk(s, q)
  }

  lemma InitFamily(s: State)
    requires Init(s)
    ensures Family(s)
  {
  }

  // ---------------------------------------------------------------- what one transition does

  /** Life and death of the thread itself, and its way through the loops of exit and wait. */
  ghost predicate LifeEffect(s: State, s': State, p: nat)
    requires p < |s.procs| == |s'.procs|
  {
    var pc, pc', n := s.procs[p].pc, s'.procs[p].pc, |s.procs|;
    && (Alive(s', p) || (s'.procs[p].state == Zombie && Gone(pc, n)))
    && (s.procs[p].state == Zombie ==> s'.procs[p].state == Zombie)
    && (forall q: nat :: q < n && Gone(pc', q) ==> Gone(pc, q) || (pc == ExitReparent(q) && !Kid(s', p, q)))
    && (match pc'
        case WaitScan(i, have) =>
          || (i == 0 && !have && !pc.WaitLocked?)
          || (i > 0 && pc == WaitScan(i - 1, have) && !Kid(s, p, i - 1))
          || (i > 0 && have && pc.WaitLocked? && pc.i == i - 1 && s'.procs == s.procs[p := s'.procs[p]])
        case WaitLocked(i, have) => pc == WaitScan(i, have) && Kid(s, p, i)
        case _ => true)
  }

  /** What becomes of the slot the thread is setting up. */
  ghost predicate MakeEffect(s: State, s': State, p: nat)
    requires p < |s.procs| == |s'.procs|
  {
    var m := Making(s.procs[p].pc);
    m.Some? && m.value < |s.procs| && Making(s'.procs[p].pc) != m ==> s'.procs[m.value].state != Used
  }

  ghost predicate SlotEffect(s: State, s': State, p: nat)
    requires p < |s.procs| == |s'.procs|
  {
    var u, u' := Unadopted(s.procs[p].pc), Unadopted(s'.procs[p].pc);
    u'.Some? && u'.value < |s.procs| ==>
      (u == u' || s.procs[u'.value].state == Unused) && s'.procs[u'.value].parent == s.procs[u'.value].parent
  }

  /** A slot that gets a parent from a thread gets that thread. */
  ghost predicate RootEffect(s: State, s': State, p: nat)
    requires p < |s.procs| == |s'.procs|
  {
    var a, a' := Adopted(s.procs[p].pc), Adopted(s'.procs[p].pc);
    a'.Some? && a'.value < |s.procs| ==> a == a' || s'.procs[a'.value].parent == Some(p)
  }

  /** fork gives its child a parent under wait_lock. */
  ghost predicate AdoptEffect(s: State, s': State, p: nat)
    requires p < |s.procs| == |s'.procs|
  {
    s.procs[p].pc.ForkCopied? ==>
      if s'.procs[p].pc.ForkParent? then WaitLock !in s.owner else s'.procs == s.procs[p := s'.procs[p]]
  }

  lemma AdoptMoves(s: State, s': State, h: nat, p: nat, step: Step)
    requires ThreadStepped(s, s', h, p, step)
    ensures |s'.procs| == |s.procs| && AdoptEffect(s, s', p)
  {
    hide ExitMove, WaitMove, WakeMove;
    Touches(s, s', h, p, step);
    if s.procs[p].pc.ForkCopied? {
      match step
      case ToWake(t) => StuckWake(s, h, p, t);
      case ToExit(t) => StuckExit(s, h, p, t);
      case ToWait(t) => StuckWait(s, h, p, t);
      case _ =>
    }
  }

  lemma StuckWake(s: State, h: nat, p: nat, t: WakeStep)
    requires h < |s.harts| && p < |s.procs| && s.procs[p].pc.ForkCopied?
    ensures WakeMove(s, h, p, t) == Stuck
  {
  }

  lemma StuckExit(s: State, h: nat, p: nat, t: ExitStep)
    requires h < |s.harts| && p < |s.procs| && s.procs[p].pc.ForkCopied?
    ensures ExitMove(s, h, p, t) == Stuck
  {
  }

  lemma StuckWait(s: State, h: nat, p: nat, t: WaitStep)
    requires h < |s.harts| && p < |s.procs| && s.procs[p].pc.ForkCopied?
    ensures WaitMove(s, h, p, t) == Stuck
  {
  }

  lemma LifeSleep(s: State, s': State, h: nat, p: nat, t: SleepStep)
    requires h < |s.harts| && p < |s.procs| && s.harts[h].ctl == On(p) && Moved(s, s', SleepMove(s, h, p, t))
    requires ProcOk(s, p) && s.procs[p].cpu == Some(h)
    ensures |s'.procs| == |s.procs| && LifeEffect(s, s', p)
  {
  }

  lemma LifeWake(s: State, s': State, h: nat, p: nat, t: WakeStep)
    requires h < |s.harts| && p < |s.procs| && s.harts[h].ctl == On(p) && Moved(s, s', WakeMove(s, h, p, t))
    requires ProcOk(s, p) && s.procs[p].cpu == Some(h)
    ensures |s'.procs| == |s.procs| && LifeEffect(s, s', p)
  {
  }

  lemma LifeExit(s: State, s': State, h: nat, p: nat, t: ExitStep)
    requires h < |s.harts| && p < |s.procs| && s.harts[h].ctl == On(p) && Moved(s, s', ExitMove(s, h, p, t))
    requires ProcOk(s, p) && s.procs[p].cpu == Some(h)
    ensures |s'.procs| == |s.procs| && LifeEffect(s, s', p)
  {
  }

  lemma LifeWait(s: State, s': State, h: nat, p: nat, t: WaitStep)
    requires h < |s.harts| && p < |s.procs| && s.harts[h].ctl == On(p) && Moved(s, s', WaitMove(s, h, p, t))
    requires ProcOk(s, p) && s.procs[p].cpu == Some(h)
    ensures |s'.procs| == |s.procs| && LifeEffect(s, s', p)
  {
  }

  lemma LifeFork(s: State, s': State, h: nat, p: nat, t: ForkStep)
    requires h < |s.harts| && p < |s.procs| && s.harts[h].ctl == On(p) && Moved(s, s', ForkMove(s, h, p, t))
    requires ProcOk(s, p) && s.procs[p].cpu == Some(h)
    ensures |s'.procs| == |s.procs| && LifeEffect(s, s', p)
  {
  }

  lemma SlotSleep(s: State, s': State, h: nat, p: nat, t: SleepStep)
    requires h < |s.harts| && p < |s.procs| && s.harts[h].ctl == On(p) && Moved(s, s', SleepMove(s, h, p, t))
    requires ProcOk(s, p) && s.procs[p].cpu == Some(h)
    ensures |s'.procs| == |s.procs| && SlotEffect(s, s', p)
  {
  }

  lemma SlotWake(s: State, s': State, h: nat, p: nat, t: WakeStep)
    requires h < |s.harts| && p < |s.procs| && s.harts[h].ctl == On(p) && Moved(s, s', WakeMove(s, h, p, t))
    requires ProcOk(s, p) && s.procs[p].cpu == Some(h)
    ensures |s'.procs| == |s.procs| && SlotEffect(s, s', p)
  {
  }

  lemma SlotExit(s: State, s': State, h: nat, p: nat, t: ExitStep)
    requires h < |s.harts| && p < |s.procs| && s.harts[h].ctl == On(p) && Moved(s, s', ExitMove(s, h, p, t))
    requires ProcOk(s, p) && s.procs[p].cpu == Some(h)
    ensures |s'.procs| == |s.procs| && SlotEffect(s, s', p)
  {
  }

  lemma SlotWait(s: State, s': State, h: nat, p: nat, t: WaitStep)
    requires h < |s.harts| && p < |s.procs| && s.harts[h].ctl == On(p) && Moved(s, s', WaitMove(s, h, p, t))
    requires ProcOk(s, p) && s.procs[p].cpu == Some(h)
    ensures |s'.procs| == |s.procs| && SlotEffect(s, s', p)
  {
  }

  lemma SlotFork(s: State, s': State, h: nat, p: nat, t: ForkStep)
    requires h < |s.harts| && p < |s.procs| && s.harts[h].ctl == On(p) && Moved(s, s', ForkMove(s, h, p, t))
    requires ProcOk(s, p) && s.procs[p].cpu == Some(h)
    ensures |s'.procs| == |s.procs| && SlotEffect(s, s', p)
  {
  }

  lemma MakeSleep(s: State, s': State, h: nat, p: nat, t: SleepStep)
    requires h < |s.harts| && p < |s.procs| && s.harts[h].ctl == On(p) && Moved(s, s', SleepMove(s, h, p, t))
    requires ProcOk(s, p) && s.procs[p].cpu == Some(h)
    ensures |s'.procs| == |s.procs| && MakeEffect(s, s', p)
  {
  }

  lemma MakeWake(s: State, s': State, h: nat, p: nat, t: WakeStep)
    requires h < |s.harts| && p < |s.procs| && s.harts[h].ctl == On(p) && Moved(s, s', WakeMove(s, h, p, t))
    requires ProcOk(s, p) && s.procs[p].cpu == Some(h)
    ensures |s'.procs| == |s.procs| && MakeEffect(s, s', p)
  {
  }

  lemma MakeExit(s: State, s': State, h: nat, p: nat, t: ExitStep)
    requires h < |s.harts| && p < |s.procs| && s.harts[h].ctl == On(p) && Moved(s, s', ExitMove(s, h, p, t))
    requires ProcOk(s, p) && s.procs[p].cpu == Some(h)
    ensures |s'.procs| == |s.procs| && MakeEffect(s, s', p)
  {
  }

  lemma MakeWait(s: State, s': State, h: nat, p: nat, t: WaitStep)
    requires h < |s.harts| && p < |s.procs| && s.harts[h].ctl == On(p) && Moved(s, s', WaitMove(s, h, p, t))
    requires ProcOk(s, p) && s.procs[p].cpu == Some(h)
    ensures |s'.procs| == |s.procs| && MakeEffect(s, s', p)
  {
  }

  lemma MakeFork(s: State, s': State, h: nat, p: nat, t: ForkStep)
    requires h < |s.harts| && p < |s.procs| && s.harts[h].ctl == On(p) && Moved(s, s', ForkMove(s, h, p, t))
    requires ProcOk(s, p) && s.procs[p].cpu == Some(h)
    ensures |s'.procs| == |s.procs| && MakeEffect(s, s', p)
  {
  }

  lemma RootSleep(s: State, s': State, h: nat, p: nat, t: SleepStep)
    requires h < |s.harts| && p < |s.procs| && s.harts[h].ctl == On(p) && Moved(s, s', SleepMove(s, h, p, t))
    requires ProcOk(s, p) && s.procs[p].cpu == Some(h)
    ensures |s'.procs| == |s.procs| && RootEffect(s, s', p)
  {
  }

  lemma RootWake(s: State, s': State, h: nat, p: nat, t: WakeStep)
    requires h < |s.harts| && p < |s.procs| && s.harts[h].ctl == On(p) && Moved(s, s', WakeMove(s, h, p, t))
    requires ProcOk(s, p) && s.procs[p].cpu == Some(h)
    ensures |s'.procs| == |s.procs| && RootEffect(s, s', p)
  {
  }

  lemma RootExit(s: State, s': State, h: nat, p: nat, t: ExitStep)
    requires h < |s.harts| && p < |s.procs| && s.harts[h].ctl == On(p) && Moved(s, s', ExitMove(s, h, p, t))
    requires ProcOk(s, p) && s.procs[p].cpu == Some(h)
    ensures |s'.procs| == |s.procs| && RootEffect(s, s', p)
  {
  }

  lemma RootWait(s: State, s': State, h: nat, p: nat, t: WaitStep)
    requires h < |s.harts| && p < |s.procs| && s.harts[h].ctl == On(p) && Moved(s, s', WaitMove(s, h, p, t))
    requires ProcOk(s, p) && s.procs[p].cpu == Some(h)
    ensures |s'.procs| == |s.procs| && RootEffect(s, s', p)
  {
  }

  lemma RootFork(s: State, s': State, h: nat, p: nat, t: ForkStep)
    requires h < |s.harts| && p < |s.procs| && s.harts[h].ctl == On(p) && Moved(s, s', ForkMove(s, h, p, t))
    requires ProcOk(s, p) && s.procs[p].cpu == Some(h)
    ensures |s'.procs| == |s.procs| && RootEffect(s, s', p)
  {
  }

  lemma KinMoves(s: State, s': State, h: nat, p: nat, step: Step)
    requires ThreadStepped(s, s', h, p, step) && ProcOk(s, p) && s.procs[p].cpu == Some(h)
    ensures |s'.procs| == |s.procs| && LifeEffect(s, s', p) && MakeEffect(s, s', p) && SlotEffect(s, s', p)
      && RootEffect(s, s', p) && AdoptEffect(s, s', p)
  {
    hide LifeEffect, MakeEffect, RootEffect, SlotEffect, AdoptEffect;
    hide ProcOk, SleepMove, WakeMove, ExitMove, WaitMove, ForkMove;
    AdoptMoves(s, s', h, p, step);
    match step
    case ToSleep(t) =>
      LifeSleep(s, s', h, p, t);
      MakeSleep(s, s', h, p, t);
      SlotSleep(s, s', h, p, t);
      RootSleep(s, s', h, p, t);
    case ToWake(t) =>
      LifeWake(s, s', h, p, t);
      MakeWake(s, s', h, p, t);
      SlotWake(s, s', h, p, t);
      RootWake(s, s', h, p, t);
    case ToExit(t) =>
      LifeExit(s, s', h, p, t);
      MakeExit(s, s', h, p, t);
      SlotExit(s, s', h, p, t);
      RootExit(s, s', h, p, t);
    case ToWait(t) =>
      LifeWait(s, s', h, p, t);
      MakeWait(s, s', h, p, t);
      SlotWait(s, s', h, p, t);
      RootWait(s, s', h, p, t);
    case ToFork(t) =>
      LifeFork(s, s', h, p, t);
      MakeFork(s, s', h, p, t);
      SlotFork(s, s', h, p, t);
      RootFork(s, s', h, p, t);
  }

  // ---------------------------------------------------------------- preservation

  /** Thread p has made a transition from a state in order. */
  ghost predicate KinStepped(s: State, s': State, p: nat) {
    && Stepped(s, s', p) && Procs(s') && Family(s)
    && LifeEffect(s, s', p) && MakeEffect(s, s', p) && SlotEffect(s, s', p) && RootEffect(s, s', p)
      && AdoptEffect(s, s', p)
  }

  /** Nobody but the thread itself ends its life or moves it on in exit. */
  lemma OthersLive(s: State, s': State, p: nat, x: nat)
    requires KinStepped(s, s', p) && x != p && Alive(s, x)
    ensures Alive(s', x) && s'.procs[x].pc == s.procs[x].pc
  {
    hide LifeEffect, MakeEffect, RootEffect, SlotEffect, SelfEffect, LoopEffect, PcOk;
    assert ProcOk(s, p) && MakerOk(s, p) && Effect(s, s', p, x);
  }

  lemma KidNext(s: State, s': State, p: nat, q: nat)
    requires KinStepped(s, s', p) && q < |s.procs|
    ensures KidOk(s', q)
  {
    hide MakeEffect, RootEffect, SlotEffect, LoopEffect, PcOk, ScanOk, SlotOk;
    assert KidOk(s, q) && ProcOk(s, p) && ProcOk(s, q) && MakerOk(s, p) && ProcOk(s', s'.init);
    if q != p {
      assert Effect(s, s', p, q);
    }
    if s'.procs[q].parent.Some? {
      var x := s'.procs[q].parent.value;
      if s'.procs[q].parent == s.procs[q].parent {
        if x != p {
          OthersLive(s, s', p, x);
        } else {
          assert Kid(s', p, q) && !Gone(s.procs[p].pc, q);
        }
      } else {
        NewParent(s, s', p, q);
      }
    }
  }

  /** A process is given a new parent by reparent, which picks init, or by fork. */
  lemma NewParent(s: State, s': State, p: nat, q: nat)
    requires KinStepped(s, s', p) && q < |s.procs| && s'.procs[q].parent.Some?
    requires s'.procs[q].parent != s.procs[q].parent
    ensures KidOk(s', q)
  {
    hide SlotEffect, LoopEffect, PcOk, ScanOk, SlotOk, SelfEffect;
    assert s'.procs[p].parent == s.procs[p].parent by { ParentKept(s, s', p); }
    assert Effect(s, s', p, q) && ProcOk(s, p) && ProcOk(s', s'.init) && MakerOk(s, p);
    if s.procs[p].pc.ForkCopied? {
      assert !Gone(s.procs[p].pc, q);
    }
  }

  lemma ParentKept(s: State, s': State, p: nat)
    requires Stepped(s, s', p)
    ensures s'.procs[p].parent == s.procs[p].parent
  {
  }

  /** While another thread is scanning for children under wait_lock, nobody's parent changes. */
  lemma ParentsFixed(s: State, s': State, p: nat, w: nat, q: nat)
    requires KinStepped(s, s', p) && w < |s.procs| && q < |s.procs|
    requires s.procs[w].pc.WaitScan? || (s.procs[w].pc.WaitLocked? && (p != w || s'.procs[p].pc.WaitScan?))
    ensures s'.procs[q].parent == s.procs[q].parent
  {
    hide LoopEffect, PcOk, ScanOk, KidOk, Seen, SlotEffect;
    ParentKept(s, s', p);
    hide SelfEffect;
    assert ProcOk(s, p) && ProcOk(s, w) && SlotOk(s, q) && MakerOk(s, p);
    if q != p {
      assert Effect(s, s', p, q);
      if w != p && LoopLock(s.procs[p].pc) == Some(WaitLock) {
        OneLoop(s, p, w);
      }
      if w != p && s.procs[p].pc.ForkCopied? {
        ScannerHolds(s, w);
      }
    }
  }

  lemma ScannerHolds(s: State, w: nat)
    requires Procs(s) && Locks(s) && w < |s.procs| && (s.procs[w].pc.WaitScan? || s.procs[w].pc.WaitLocked?)
    ensures WaitLock in s.owner
  {
    assert ProcOk(s, w);
    assert LockAt(s, WaitLock, s.procs[w].cpu.value);
  }

  lemma SeenSame(s: State, s': State, w: nat, i: nat, have: bool)
    requires Seen(s, w, i, have) && |s'.procs| == |s.procs|
    requires forall q: nat :: q < |s.procs| ==> s'.procs[q].parent == s.procs[q].parent
    ensures Seen(s', w, i, have)
  {
    assert forall q: nat :: Kid(s', w, q) == Kid(s, w, q);
  }

  lemma ScanOther(s: State, s': State, p: nat, w: nat)
    requires KinStepped(s, s', p) && w < |s.procs| && w != p
    ensures ScanOk(s', w)
  {
    hide LifeEffect, MakeEffect, RootEffect, SlotEffect, AdoptEffect, SelfEffect, LoopEffect, PcOk, KidOk, SlotOk, Seen;
    assert ScanOk(s, w) && Effect(s, s', p, w) && ProcOk(s, w) && MakerOk(s, p);
    var pc := s'.procs[w].pc;
    if pc.WaitScan? || pc.WaitLocked? {
      assert pc == s.procs[w].pc;
      hide Effect;
      forall q: nat | q < |s.procs| ensures s'.procs[q].parent == s.procs[q].parent {
        ParentsFixed(s, s', p, w, q);
      }
      SeenSame(s, s', w, pc.i, pc.have);
    }
  }

  lemma SeenNext(s: State, w: nat, i: nat, have: bool)
    requires Seen(s, w, i, have)
    ensures Seen(s, w, i + 1, have || Kid(s, w, i))
  {
    if exists q: nat :: q < i && Kid(s, w, q) {
      var q: nat :| q < i && Kid(s, w, q);
      assert q < i + 1 && Kid(s, w, q);
    }
  }

  lemma ScanSelf(s: State, s': State, p: nat)
    requires KinStepped(s, s', p)
    ensures ScanOk(s', p)
  {
    hide MakeEffect, RootEffect, SlotEffect, AdoptEffect, SelfEffect, LoopEffect, Effect, PcOk, KidOk, SlotOk, RootOk;
    hide Procs, Makers, Locks, Loops;
    assert ScanOk(s, p);
    var pc, pc' := s.procs[p].pc, s'.procs[p].pc;
    if pc'.WaitScan? || pc'.WaitLocked? {
      if pc.WaitScan? || pc.WaitLocked? {
        forall q: nat | q < |s.procs| ensures s'.procs[q].parent == s.procs[q].parent {
          ParentsFixed(s, s', p, p, q);
        }
        SeenSame(s, s', p, pc.i, pc.have);
        SeenNext(s', p, pc.i, pc.have);
      }
      assert Seen(s', p, 0, false);
      hide Seen;
    }
  }

  lemma SlotNext(s: State, s': State, p: nat, i: nat)
    requires KinStepped(s, s', p) && i < |s.procs|
    ensures SlotOk(s', i)
  {
    hide AdoptEffect, LoopEffect, PcOk, KidOk, ScanOk;
    if s'.procs[i].state == Used {
      UsedNext(s, s', p, i);
    }
    UnadoptedNext(s, s', p, i);
    ParentKept(s, s', p);
    hide SelfEffect, MakeEffect, SlotEffect;
    assert SlotOk(s, i) && ProcOk(s, p) && MakerOk(s, p);
    if i != p {
      assert Effect(s, s', p, i);
    }
  }

  lemma UsedNext(s: State, s': State, p: nat, i: nat)
    requires KinStepped(s, s', p) && i < |s.procs| && s'.procs[i].state == Used
    ensures exists x :: Makes(s', x, i)
  {
    hide SlotEffect, AdoptEffect, LoopEffect, SelfEffect, PcOk, KidOk, ScanOk;
    assert SlotOk(s, i) && ProcOk(s, p) && MakerOk(s, p);
    if i != p {
      assert Effect(s, s', p, i);
    }
    if s.procs[i].state == Used {
      var x :| Makes(s, x, i);
      if x != p {
        assert Effect(s, s', p, x) && MakerOk(s, x) && ProcOk(s, x);
      }
      assert Makes(s', x, i);
    } else {
      assert Makes(s', p, i);
    }
  }

  lemma UnadoptedNext(s: State, s': State, p: nat, i: nat)
    requires KinStepped(s, s', p) && i < |s.procs|
    ensures forall x :: 0 <= x < |s.procs| && Unadopted(s'.procs[x].pc) == Some(i) ==> s'.procs[i].parent.None?
  {
    hide LifeEffect, AdoptEffect, LoopEffect, SelfEffect, PcOk, KidOk, ScanOk;
    assert SlotOk(s, i);
    forall x | 0 <= x < |s.procs| && Unadopted(s'.procs[x].pc) == Some(i) ensures s'.procs[i].parent.None? {
      if x != p {
        UnadoptedOther(s, s', p, x, i);
      }
    }
  }

  lemma UnadoptedOther(s: State, s': State, p: nat, x: nat, i: nat)
    requires KinStepped(s, s', p) && i < |s.procs| && x < |s.procs| && x != p && Unadopted(s'.procs[x].pc) == Some(i)
    ensures s'.procs[i].parent.None?
  {
    ParentKept(s, s', p);
    hide LifeEffect, AdoptEffect, LoopEffect, SelfEffect, KidOk, ScanOk, SlotEffect;
    assert Effect(s, s', p, x) && SlotOk(s, i) && MakerOk(s, p) && MakerOk(s, x) && ProcOk(s, x);
    assert Unadopted(s.procs[x].pc) == Some(i);
    if i != p {
      assert Effect(s, s', p, i);
    }
  }

  lemma RootNext(s: State, s': State, p: nat, i: nat)
    requires KinStepped(s, s', p) && i < |s.procs|
    ensures RootOk(s', i)
  {
    AdoptedNext(s, s', p, i);
    ParentKept(s, s', p);
    hide AdoptEffect, LoopEffect, PcOk, KidOk, ScanOk, SlotOk, SelfEffect, MakeEffect, SlotEffect;
    assert RootOk(s, i) && ProcOk(s, p) && MakerOk(s, p);
    if i != p {
      assert Effect(s, s', p, i);
    }
  }

  lemma AdoptedNext(s: State, s': State, p: nat, i: nat)
    requires KinStepped(s, s', p) && i < |s.procs|
    ensures forall x: nat :: x < |s.procs| && Adopted(s'.procs[x].pc) == Some(i) ==> s'.procs[i].parent == Some(x)
  {
    hide LifeEffect, MakeEffect, AdoptEffect, LoopEffect, SelfEffect, KidOk, ScanOk, SlotOk;
    assert RootOk(s, i);
    forall x: nat | x < |s.procs| && Adopted(s'.procs[x].pc) == Some(i) ensures s'.procs[i].parent == Some(x) {
      if x != p || Adopted(s.procs[p].pc) == Some(i) {
        AdoptedKept(s, s', p, x, i);
      }
    }
  }

  lemma AdoptedKept(s: State, s': State, p: nat, x: nat, i: nat)
    requires KinStepped(s, s', p) && i < |s.procs| && x < |s.procs| && Adopted(s'.procs[x].pc) == Some(i)
    requires x != p || Adopted(s.procs[p].pc) == Some(i)
    ensures s'.procs[i].parent == Some(x)
  {
    ParentKept(s, s', p);
    hide LifeEffect, MakeEffect, AdoptEffect, LoopEffect, SelfEffect, KidOk, ScanOk, SlotOk, SlotEffect, RootEffect;
    assert RootOk(s, i) && MakerOk(s, p) && MakerOk(s, x) && ProcOk(s, x);
    if x != p {
      assert Effect(s, s', p, x);
      assert Adopted(s.procs[x].pc) == Some(i);
    }
    if i != p {
      assert Effect(s, s', p, i);
    }
  }

  lemma ThreadFamily(s: State, s': State, h: nat, p: nat, step: Step)
    requires Inv(s) && Inv(s') && Family(s) && ThreadStepped(s, s', h, p, step)
    ensures Family(s')
  {
    hide MoveOf, KidOk, ScanOk, SlotOk, RootOk, LifeEffect;
    hide MakeEffect, RootEffect, SlotEffect, AdoptEffect, Effect, SelfEffect, LoopEffect;
    ThreadEffects(s, s', h, p, step);
    assert ProcOk(s, p);
    KinMoves(s, s', h, p, step);
    forall q | 0 <= q < |s'.procs| ensures KidOk(s', q) && ScanOk(s', q) && SlotOk(s', q) && RootOk(s', q) {
      KidNext(s, s', p, q);
      SlotNext(s, s', p, q);
      RootNext(s, s', p, q);
      if q == p {
        ScanSelf(s, s', p);
      } else {
        ScanOther(s, s', p, q);
      }
    }
  }

  lemma SchedFamily(s: State, s': State, h: nat, step: SchedStep)
    requires Inv(s) && Family(s) && SchedStepped(s, s', h, step)
    ensures Family(s')
  {
    hide Locks, Makers, Wakes, Loops;
    SchedEffects(s, s', h, step);
    hide LockChange, SchedStepped;
    forall q | 0 <= q < |s'.procs| ensures KidOk(s', q) && ScanOk(s', q) && SlotOk(s', q) && RootOk(s', q) {
      StartedKin(s, s', h, if s.harts[h].ctl.Looking? then s.harts[h].ctl.p else 0, q);
    }
  }

  lemma StartedKin(s: State, s': State, h: nat, p: nat, q: nat)
    requires Started(s, s', h, p) && Family(s) && q < |s.procs|
    ensures KidOk(s', q) && ScanOk(s', q) && SlotOk(s', q) && RootOk(s', q)
  {
    assert KidOk(s, q) && ScanOk(s, q) && SlotOk(s, q) && RootOk(s, q);
    forall x: nat, y: nat ensures Kid(s', x, y) == Kid(s, x, y) && Makes(s', x, y) == Makes(s, x, y) {
    }
    if s.procs[q].state == Used {
      var x :| Makes(s, x, q);
      assert Makes(s', x, q);
    }
  }

  lemma {:induction false} RunFamily(run: seq<State>, i: nat)
    requires ProcRuns.Run(run) && i < |run|
    ensures Inv(run[i]) && Family(run[i])
  {
    hide Inv, Family, Init, SchedStepped, ThreadStepped;
    RunInv(run, i);
    if i == 0 {
      InitFamily(run[0]);
    } else {
      RunFamily(run, i - 1);
      var s, s' := run[i - 1], run[i - 1 + 1];
      assert Next(s, s');
      if h, step :| SchedStepped(s, s', h, step) {
        SchedFamily(s, s', h, step);
      } else {
        var h, p, step :| ThreadStepped(s, s', h, p, step);
        ThreadFamily(s, s', h, p, step);
      }
    }
  }

  // ---------------------------------------------------------------- in every run

  /** Every process but init has a parent, and one that is alive and can still wait for it: fork makes the
      parent known before the child can run, and exit gives every child away before the process becomes a
      ZOMBIE. */
  lemma NoOrphans(run: seq<State>, i: nat, q: nat)
    requires ProcRuns.Run(run) && i < |run| && q < |run[i].procs|
    ensures run[i].procs[q].parent.Some? ==> Alive(run[i], run[i].procs[q].parent.value)
    ensures q != run[i].init && run[i].procs[q].state != Unused && run[i].procs[q].state != Used ==>
      run[i].procs[q].parent.Some?
  {
    hide Inv;
    RunFamily(run, i);
    assert KidOk(run[i], q) && RootOk(run[i], q);
  }

  /** Until fork returns, its child has the caller for a parent. */
  lemma ForkedByParent(run: seq<State>, i: nat, p: nat, q: nat)
    requires ProcRuns.Run(run) && i < |run| && p < |run[i].procs| && q < |run[i].procs|
    requires run[i].procs[p].pc == ForkReady(q)
    ensures Kid(run[i], p, q) && run[i].procs[q].state == Used
  {
    hide Wakes, Loops, Harts, Locks, Procs;
    RunFamily(run, i);
    assert RootOk(run[i], q) && MakerOk(run[i], p);
  }

  /** After its scan of the table, wait's havekids says whether the caller has children: so wait fails for
      lack of children exactly when there are none, and never sleeps without one. */
  lemma WaitKnows(run: seq<State>, i: nat, p: nat)
    requires ProcRuns.Run(run) && i < |run| && p < |run[i].procs|
    requires run[i].procs[p].pc.WaitScan? && run[i].procs[p].pc.i == |run[i].procs|
    ensures run[i].procs[p].pc.have <==> exists q: nat :: Kid(run[i], p, q)
  {
    hide Inv;
    RunFamily(run, i);
    assert ScanOk(run[i], p);
    var n := run[i].procs[p].pc.i;
    assert forall q: nat :: Kid(run[i], p, q) ==> q < n;
  }

  /** A slot that allocproc has taken is in the hands of a fork until it is runnable or given back. */
  lemma NoneHalfMade(run: seq<State>, i: nat, q: nat)
    requires ProcRuns.Run(run) && i < |run| && q < |run[i].procs| && run[i].procs[q].state == Used
    ensures exists p :: Makes(run[i], p, q)
  {
    hide Inv;
    RunFamily(run, i);
    assert SlotOk(run[i], q);
  }

  /** Thread p, in wait, frees its ZOMBIE child z. */
  ghost predicate Reaps(s: State, s': State, h: nat, p: nat, z: nat) {
    && ThreadStepped(s, s', h, p, ToWait(WaitLook(true)))
    && s.procs[p].pc.WaitLocked? && s.procs[p].pc.i == z && Kid(s, p, z)
  }

  ghost predicate ReapedIn(s: State, s': State, z: nat) {
    exists h, p :: Reaps(s, s', h, p, z)
  }

  /** An exited process remains a ZOMBIE until its parent waits for it. */
  lemma ZombieUntilWaited(run: seq<State>, n: nat, z: nat)
    requires ProcRuns.Run(run) && n + 1 < |run| && z < |run[n].procs| && z < |run[n + 1].procs|
    requires run[n].procs[z].state == Zombie && run[n + 1].procs[z].state != Zombie
    ensures ReapedIn(run[n], run[n + 1], z)
  {
    hide Family, SchedStepped, ThreadStepped;
    var s, s' := run[n], run[n + 1];
    RunFamily(run, n);
    assert Next(s, s');
    if h, step :| SchedStepped(s, s', h, step) {
      SchedEffects(s, s', h, step);
    } else {
      var h, p, step :| ThreadStepped(s, s', h, p, step);
      ReapedBy(s, s', h, p, step, z);
    }
  }

  lemma ReapedBy(s: State, s': State, h: nat, p: nat, step: Step, z: nat)
    requires Inv(s) && Family(s) && ThreadStepped(s, s', h, p, step) && z < |s.procs| && z < |s'.procs|
    requires s.procs[z].state == Zombie && s'.procs[z].state != Zombie
    ensures Reaps(s, s', h, p, z)
  {
    hide SlotOk, KidOk, MakeEffect, SlotEffect, AdoptEffect, LoopEffect, SelfEffect, SleepMove, WakeMove, ExitMove,
      ForkMove;
    ThreadEffects(s, s', h, p, step);
    assert ProcOk(s, p) && MakerOk(s, p) && ScanOk(s, p);
    KinMoves(s, s', h, p, step);
    assert z != p && Effect(s, s', p, z);
    InWait(s, s', h, p, step);
  }

  /** A thread looking at a child in wait can only go on in wait. */
  lemma InWait(s: State, s': State, h: nat, p: nat, step: Step)
    requires ThreadStepped(s, s', h, p, step) && s.procs[p].pc.WaitLocked?
    ensures step.ToWait? && step.wait.WaitLook?
  {
  }

  /** A successful wait takes the child's slot back, for good. */
  lemma WaitReaps(run: seq<State>, n: nat, h: nat, p: nat, z: nat)
    requires ProcRuns.Run(run) && n + 1 < |run| && z < |run[n].procs| && run[n].procs[z].state == Zombie
    requires ThreadStepped(run[n], run[n + 1], h, p, ToWait(WaitLook(true)))
    requires run[n].procs[p].pc.WaitLocked? && run[n].procs[p].pc.i == z
    ensures Reaps(run[n], run[n + 1], h, p, z)
    ensures run[n + 1].procs[z] == Proc(Unused, None, None, Dead, None)
    ensures forall q: nat :: !Kid(run[n], z, q)
  {
    hide Wakes, Loops, MakerOk;
    RunFamily(run, n);
    var s := run[n];
    assert ScanOk(s, p) && HartOk(s, h) && ProcOk(s, z) && ProcOk(s, p);
    ZombieGone(s, h, p, z);
    forall q: nat ensures !Kid(s, z, q) {
      if q < |s.procs| {
        assert KidOk(s, q);
      }
    }
  }

  /** kill leaves nobody asleep: a victim that was SLEEPING is RUNNABLE when its lock is released. */
  lemma KillWakes(run: seq<State>, n: nat, h: nat, p: nat)
    requires ProcRuns.Run(run) && n + 1 < |run| && ThreadStepped(run[n], run[n + 1], h, p, ToWake(KillHit(true)))
    ensures var i := run[n].procs[p].pc.i;
      && i < |run[n].procs| && ProcLock(i) in run[n].owner && run[n].owner[ProcLock(i)] == h
      && run[n + 1].procs[i].state ==
         (if run[n].procs[i].state == Sleeping then Runnable else run[n].procs[i].state)
      && ProcLock(i) !in run[n + 1].owner
  {
    hide Wakes, Loops, Makers;
    RunInv(run, n);
    assert ProcOk(run[n], p) && HartOk(run[n], h);
    assert LockAt(run[n], ProcLock(run[n].procs[p].pc.i), h);
  }
}
