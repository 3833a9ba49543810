/** The space accounting of begin_op, log_write and end_op, abstracted from the protocol: how
    many header entries are taken and how many of them each open operation took. */
module LogReservation {
  import opened Blocks
  import opened LogDisk
  import P = LogProtocol

  /** mkfs gives the log LOGSIZE blocks in all, header included. */
  const NLOG := LOGSIZE

  datatype Counts = Counts(n: nat, added: seq<nat>, busy: bool)

  datatype Act = Begin | Add(i: nat) | Absorb(i: nat) | End(i: nat) | Committed | Restart | Other

  /** The condition under which log_write panics with "too big a transaction". */
  predicate TooBig(c: Counts) {
    c.n >= LOGSIZE || c.n >= NLOG - 1
  }

  /** One accounting step in which no operation takes more than limit entries. */
  ghost predicate Step(c: Counts, c': Counts, a: Act, limit: nat) {
    match a
    case Begin => !c.busy && c.n + (|c.added| + 1) * MAXOPBLOCKS <= LOGSIZE && c' == c.(added := c.added + [0])
    case Add(i) => !c.busy && i < |c.added| && c.added[i] < limit && !TooBig(c)
                   && c' == c.(n := c.n + 1, added := c.added[i := c.added[i] + 1])
    case Absorb(i) => !c.busy && i < |c.added| && !TooBig(c) && c' == c
    case End(i) => !c.busy && i < |c.added|
                   && c' == c.(added := c.added[..i] + c.added[i + 1..], busy := |c.added| == 1)
    case Committed => c.busy && c' == Counts(0, [], false)
    case Restart => c'.busy && c'.added == []
    case Other => c' == c
  }

  ghost predicate Run(run: seq<Counts>, limit: nat) {
    && run != [] && run[0] == Counts(0, [], false)
    && forall i :: 0 <= i < |run| - 1 ==> Moves(run[i], run[i + 1], limit)
  }

  ghost predicate Moves(c: Counts, c': Counts, limit: nat) {
    exists a :: Step(c, c', a, limit)
  }

  /** Entries the open operations may still take. */
  function Slack(added: seq<nat>, limit: nat): (r: int) {
    if added == [] then 0 else Slack(added[..|added| - 1], limit) + limit - added[|added| - 1]
  }

  lemma {:induction false} SlackConcat(a: seq<nat>, b: seq<nat>, limit: nat)
    ensures Slack(a + b, limit) == Slack(a, limit) + Slack(b, limit)
  {
    if b == [] {
      assert a + b == a;
    } else {
      SlackConcat(a, b[..|b| - 1], limit);
      assert (a + b)[..|a + b| - 1] == a + b[..|b| - 1];
    }
  }

  lemma SlackAt(added: seq<nat>, limit: nat, i: nat, x: nat)
    requires i < |added|
    ensures Slack(added[..i] + added[i + 1..], limit) == Slack(added, limit) + added[i] - limit
    ensures Slack(added[i := x], limit) == Slack(added, limit) + added[i] - x
  {
    var l, r := added[..i], added[i + 1..];
    assert added == l + ([added[i]] + r) && added[i := x] == l + ([x] + r);
    SlackConcat(l, r, limit);
    SlackConcat(l, [added[i]] + r, limit);
    SlackConcat(l, [x] + r, limit);
    SlackConcat([added[i]], r, limit);
    SlackConcat([x], r, limit);
  }

  lemma {:induction false} SlackBounds(added: seq<nat>, limit: nat)
    requires forall i :: 0 <= i < |added| ==> added[i] <= limit
    ensures 0 <= Slack(added, limit) <= |added| * limit
  {
    if added != [] {
      SlackBounds(added[..|added| - 1], limit);
      assert |added| * limit == (|added| - 1) * limit + limit;
    }
  }

  /** With at most 9 entries per operation, entries taken plus entries still to come stay at 28. */
  ghost predicate Bounded(c: Counts) {
    && (forall i :: 0 <= i < |c.added| ==> c.added[i] <= 9)
    && (c.busy ==> c.added == [])
    && (!c.busy && c.added == [] ==> c.n == 0)
    && (!c.busy ==> c.n + Slack(c.added, 9) <= 28)
  }

  lemma BoundedStep(c: Counts, c': Counts, a: Act)
    requires Bounded(c) && Step(c, c', a, 9)
    ensures Bounded(c')
  {
    match a
    case Begin => BoundedBegin(c, c');
    case Add(i) => SlackAt(c.added, 9, i, c.added[i] + 1);
    case End(i) => BoundedEnd(c, c', i);
    case _ =>
  }

  lemma BoundedBegin(c: Counts, c': Counts)
    requires Bounded(c) && Step(c, c', Begin, 9)
    ensures Bounded(c')
  {
    SlackBounds(c.added, 9);
    assert c'.added[..|c.added|] == c.added;
    assert Slack(c'.added, 9) == Slack(c.added, 9) + 9;
    assert |c.added| <= 2;
  }

  lemma BoundedEnd(c: Counts, c': Counts, i: nat)
    requires Bounded(c) && Step(c, c', End(i), 9)
    ensures Bounded(c')
  {
    SlackAt(c.added, 9, i, 0);
    forall j | 0 <= j < |c'.added| ensures c'.added[j] == c.added[if j < i then j else j + 1] {
    }
  }

  /** "too big a transaction" is unreachable when each operation takes at most 9 entries. */
  lemma {:induction false} NineFit(run: seq<Counts>, i: nat)
    requires Run(run, 9) && i < |run|
    ensures Bounded(run[i]) && (!run[i].busy ==> !TooBig(run[i]))
  {
    if i > 0 {
      NineFit(run, i - 1);
      assert Moves(run[i - 1], run[i - 1 + 1], 9);
      var a :| Step(run[i - 1], run[i], a, 9);
      BoundedStep(run[i - 1], run[i], a);
    }
    SlackBounds(run[i].added, 9);
  }

  /** A run in which operation i takes m more entries. */
  lemma {:induction false} Taking(run: seq<Counts>, i: nat, m: nat) returns (run': seq<Counts>)
    requires Run(run, 10)
    requires var c := run[|run| - 1]; !c.busy && i < |c.added| && c.added[i] + m <= 10 && c.n + m <= 29
    ensures Run(run', 10)
    ensures var c := run[|run| - 1];
      run'[|run'| - 1] == Counts(c.n + m, c.added[i := c.added[i] + m], false)
    decreases m
  {
    var c := run[|run| - 1];
    if m == 0 {
      run' := run;
      assert c.added[i := c.added[i] + m] == c.added;
    } else {
      var next := Counts(c.n + 1, c.added[i := c.added[i] + 1], false);
      var longer := Then(run, next, Add(i));
      run' := Taking(longer, i, m - 1);
      assert next.added[i := next.added[i] + (m - 1)] == c.added[i := c.added[i] + m];
    }
  }

  lemma Then(run: seq<Counts>, next: Counts, a: Act) returns (run': seq<Counts>)
    requires Run(run, 10) && Step(run[|run| - 1], next, a, 10)
    ensures Run(run', 10) && run'[|run'| - 1] == next
  {
    run' := run + [next];
    assert Moves(run[|run| - 1], next, 10);
    forall j | 0 <= j < |run'| - 1 ensures Moves(run'[j], run'[j + 1], 10) {
      assert j < |run| - 1 ==> Moves(run[j], run[j + 1], 10);
    }
  }

  /** The bound is exact: with 10 entries per operation, as MAXOPBLOCKS announces, three
      operations admitted by begin_op fill the log and a further log_write panics. */
  lemma TenDoNotFit() returns (run: seq<Counts>)
    ensures Run(run, 10)
    ensures var c := run[|run| - 1]; !c.busy && TooBig(c) && exists i :: 0 <= i < |c.added| && c.added[i] < 10
  {
    run := [Counts(0, [], false)];
    run := Then(run, Counts(0, [0], false), Begin);
    run := Then(run, Counts(0, [0, 0], false), Begin);
    run := Taking(run, 1, 10);
    assert [0, 0][1 := 10] == [0, 10];
    assert [0, 10][..1] + [0, 10][2..] == [0];
    run := Then(run, Counts(10, [0], false), End(1));
    run := Then(run, Counts(10, [0, 0], false), Begin);
    run := Taking(run, 0, 10);
    run := Taking(run, 1, 9);
    var c := run[|run| - 1];
    assert c.added[1] == 9;
  }

  // ---------------------------------------------------------------- the protocol keeps these accounts

  function Added(ops: seq<P.Op>): (r: seq<nat>)
    ensures |r| == |ops|
  {
    seq(|ops|, i requires 0 <= i < |ops| => ops[i].added)
  }

  function Abstract(s: P.State): (c: Counts) {
    Counts(|s.lh|, Added(s.ops), s.phase != P.Running)
  }

  /** The accounting step of a protocol step. */
  ghost function ActOf(s: P.State, s': P.State, step: P.Step): (a: Act) {
    match step
    case SBegin(_) => Begin
    case SLogWrite(b, i) => if b in s.lh then Absorb(i) else Add(i)
    case SEnd(i) => End(i)
    case SCommit => if s'.phase == P.Running then Committed else Other
    case SRecover => if s'.phase == P.Running then Committed else Other
    case SCrash(_) => Restart
    case _ => Other
  }

  /** Every protocol step is an accounting step; a log_write that takes an entry is Add. */
  lemma ProtocolCounts(g: Geometry, d0: Disk, s: P.State, s': P.State, step: P.Step, limit: nat)
    requires P.Inv(g, d0, s) && P.Next(g, s, s', step) && g.size == NLOG
    requires step.SLogWrite? && step.b !in s.lh ==> s.ops[step.i].added < limit
    ensures Step(Abstract(s), Abstract(s'), ActOf(s, s', step), limit)
  {
    hide P.Durable, P.Coherent, P.LogPhase, P.WholeOps, HeadBlock, HeadOk, Entries;
    match step
    case SBegin(_) => assert Added(s'.ops) == Added(s.ops) + [0];
    case SLogWrite(b, i) =>
      if b !in s.lh {
        assert Added(s'.ops) == Added(s.ops)[i := s.ops[i].added + 1];
      }
    case SEnd(i) => assert Added(s'.ops) == Added(s.ops)[..i] + Added(s.ops)[i + 1..];
    case SCommit => CommitCounts(g, d0, s, s', step, limit);
    case SRecover => CommitCounts(g, d0, s, s', step, limit);
    case _ =>
  }

  lemma CommitCounts(g: Geometry, d0: Disk, s: P.State, s': P.State, step: P.Step, limit: nat)
    requires P.Inv(g, d0, s) && P.Next(g, s, s', step) && (step.SCommit? || step.SRecover?)
    ensures Step(Abstract(s), Abstract(s'), ActOf(s, s', step), limit)
  {
    hide P.Durable, P.Coherent, P.LogPhase, P.Entered, HeadBlock, HeadOk, Entries;
    assert s.ops == [];
    assert Added(s.ops) == [];
  }

  /** Every operation open in any of the first n + 1 states has taken at most limit entries. */
  ghost predicate Within(run: seq<P.State>, n: nat, limit: nat)
    requires n < |run|
  {
    forall k, j :: 0 <= k <= n && 0 <= j < |run[k].ops| ==> run[k].ops[j].added <= limit
  }

  lemma {:induction false} ProtocolBounded(g: Geometry, d0: Disk, run: seq<P.State>, n: nat)
    requires P.Run(g, d0, run) && g.size == NLOG && n < |run| && Within(run, n, 9)
    ensures Bounded(Abstract(run[n]))
  {
    hide P.Inv, P.Next, Bounded;
    if n == 0 {
      BoundedInit(g, d0, run[0]);
    } else {
      ProtocolBounded(g, d0, run, n - 1);
      P.RunInv(g, d0, run, n - 1);
      assert P.Stepped(g, run[n - 1], run[n - 1 + 1]);
      var step :| P.Next(g, run[n - 1], run[n], step);
      RoomToAdd(g, run, n, step);
      ProtocolCounts(g, d0, run[n - 1], run[n], step, 9);
      BoundedStep(Abstract(run[n - 1]), Abstract(run[n]), ActOf(run[n - 1], run[n], step));
    }
  }

  lemma BoundedInit(g: Geometry, d0: Disk, s: P.State)
    requires P.Init(g, d0, s)
    ensures Bounded(Abstract(s))
  {
    assert Added([]) == [];
  }

  /** An operation that is within the limit after taking an entry was below it before. */
  lemma RoomToAdd(g: Geometry, run: seq<P.State>, n: nat, step: P.Step)
    requires 0 < n < |run| && Within(run, n, 9) && P.Next(g, run[n - 1], run[n], step)
    ensures step.SLogWrite? && step.b !in run[n - 1].lh ==> run[n - 1].ops[step.i].added < 9
  {
    if step.SLogWrite? && step.b !in run[n - 1].lh {
      assert run[n].ops[step.i].added == run[n - 1].ops[step.i].added + 1;
    }
  }

  /** The bound on the protocol itself: as long as no operation takes more than 9 entries, in every
      state of every run in which log_write can be called it finds room. */
  lemma ProtocolFits(g: Geometry, d0: Disk, run: seq<P.State>, n: nat)
    requires P.Run(g, d0, run) && g.size == NLOG && n < |run| && Within(run, n, 9) && run[n].phase == P.Running
    ensures |run[n].lh| < LOGSIZE && |run[n].lh| < g.size - 1
  {
    ProtocolBounded(g, d0, run, n);
    SlackBounds(Added(run[n].ops), 9);
  }
}
