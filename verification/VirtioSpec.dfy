/** The state the disk driver shares with the device, and what both sides keep true of it. */
module VirtioSpec {
  import opened Options

  const NUM := 8
  const WRAP := 0x1_0000

  /** A descriptor: does the chain go on, and where. */
  datatype Desc = Desc(more: bool, next: nat)

  /** Where a request is: announced to the device, being worked on, reported done, seen by the driver. */
  datatype Stage = Queued | Fetched | Used | Reaped

  /** A request in flight, known by its first descriptor: the other two, the buffer, and a number
      no other request has. */
  datatype Req = Req(second: nat, third: nat, buf: nat, ticket: nat, stage: Stage)

  // ---------------------------------------------------------------- descriptors

  ghost predicate ChainAt(desc: seq<Desc>, owner: map<nat, nat>, h: nat, r: Req)
    requires |desc| == NUM
  {
    && h < NUM && r.second < NUM && r.third < NUM && h != r.second && h != r.third && r.second != r.third
    && h in owner && r.second in owner && r.third in owner
    && owner[h] == owner[r.second] == owner[r.third] == h
    && desc[h] == Desc(true, r.second) && desc[r.second] == Desc(true, r.third) && !desc[r.third].more
  }

  /** Every descriptor is free or part of exactly one chain of three. */
  ghost predicate Slots(free: seq<bool>, desc: seq<Desc>, owner: map<nat, nat>, reqs: map<nat, Req>) {
    && |free| == |desc| == NUM
    && (forall i :: 0 <= i < NUM ==> (free[i] <==> i !in owner))
    && Owners(owner, reqs)
    && (forall h :: h in reqs ==> ChainAt(desc, owner, h, reqs[h]))
  }

  ghost predicate Owners(owner: map<nat, nat>, reqs: map<nat, Req>) {
    forall i :: i in owner ==> i < NUM && InChain(reqs, owner[i], i)
  }

  ghost predicate InChain(reqs: map<nat, Req>, h: nat, i: nat) {
    h in reqs && (i == h || i == reqs[h].second || i == reqs[h].third)
  }

  ghost function FreeSet(free: seq<bool>): (s: set<nat>) {
    set i: nat | i < |free| && free[i]
  }

  lemma TakeFree(free: seq<bool>, i: nat)
    requires i < |free| && free[i]
    ensures |FreeSet(free[i := false])| == |FreeSet(free)| - 1
  {
    assert FreeSet(free[i := false]) == FreeSet(free) - {i};
  }

  /** The descriptors of the requests in hs. */
  ghost function ChainsOf(owner: map<nat, nat>, hs: set<nat>): (s: set<nat>) {
    set i | i in owner && owner[i] in hs
  }

  lemma OneChain(free: seq<bool>, desc: seq<Desc>, owner: map<nat, nat>, reqs: map<nat, Req>, h: nat)
    requires Slots(free, desc, owner, reqs) && h in reqs
    ensures |ChainsOf(owner, {h})| == 3
  {
    assert ChainAt(desc, owner, h, reqs[h]);
    assert ChainsOf(owner, {h}) == {h, reqs[h].second, reqs[h].third};
  }

  lemma ChainsApart(owner: map<nat, nat>, hs: set<nat>, h: nat)
    requires h in hs
    ensures |ChainsOf(owner, hs)| == |ChainsOf(owner, hs - {h})| + |ChainsOf(owner, {h})|
  {
    assert ChainsOf(owner, hs) == ChainsOf(owner, hs - {h}) + ChainsOf(owner, {h});
  }

  lemma {:induction false} ThreeEach(free: seq<bool>, desc: seq<Desc>, owner: map<nat, nat>, reqs: map<nat, Req>,
                                     hs: set<nat>)
    requires Slots(free, desc, owner, reqs) && hs <= reqs.Keys
    ensures |ChainsOf(owner, hs)| == 3 * |hs|
  {
    hide Slots;
    if hs == {} {
      assert ChainsOf(owner, hs) == {};
    } else {
      var h :| h in hs;
      ThreeEach(free, desc, owner, reqs, hs - {h});
      OneChain(free, desc, owner, reqs, h);
      ChainsApart(owner, hs, h);
    }
  }

  lemma {:induction false} Complement(free: seq<bool>, taken: set<nat>)
    requires forall i :: i in taken ==> i < |free|
    requires forall i :: 0 <= i < |free| ==> (free[i] <==> i !in taken)
    ensures |FreeSet(free)| == |free| - |taken|
  {
    if |free| == 0 {
      assert taken == FreeSet(free) == {};
    } else {
      var n := |free| - 1;
      Complement(free[..n], taken - {n});
      if free[n] {
        assert taken - {n} == taken;
        assert FreeSet(free) == FreeSet(free[..n]) + {n};
      } else {
        assert FreeSet(free) == FreeSet(free[..n]);
      }
    }
  }

  /** Every request in flight takes three descriptors, and the others are free. */
  lemma FreeCount(free: seq<bool>, desc: seq<Desc>, owner: map<nat, nat>, reqs: map<nat, Req>)
    requires Slots(free, desc, owner, reqs)
    ensures |FreeSet(free)| == NUM - 3 * |reqs|
  {
    ThreeEach(free, desc, owner, reqs, reqs.Keys);
    assert ChainsOf(owner, reqs.Keys) == owner.Keys;
    Complement(free, owner.Keys);
  }

  // ---------------------------------------------------------------- rings

  /** The ring slot k entries after index from. */
  function Place(from: nat, k: nat): (i: nat)
    ensures i < NUM
  {
    (from + k) % NUM
  }

  /** The entries from one 16-bit index up to another, not yet consumed, are those of q in order. */
  ghost predicate RingHolds(ring: seq<nat>, from: nat, upto: nat, q: seq<nat>) {
    && |ring| == NUM && from < WRAP && upto == (from + |q|) % WRAP && |q| <= NUM
    && forall k :: 0 <= k < |q| ==> ring[Place(from, k)] == q[k]
  }

  ghost predicate Distinct(q: seq<nat>) {
    forall i, j :: 0 <= i < j < |q| ==> q[i] != q[j]
  }

  /** q lists exactly the requests at a stage. */
  ghost predicate Lists(q: seq<nat>, reqs: map<nat, Req>, stage: Stage) {
    && Distinct(q)
    && (forall k :: 0 <= k < |q| ==> q[k] in reqs && reqs[q[k]].stage == stage)
    && (forall h :: h in reqs && reqs[h].stage == stage ==> h in q)
  }

  lemma {:induction false} Pigeonhole(q: seq<nat>, n: nat)
    requires Distinct(q) && forall k :: 0 <= k < |q| ==> q[k] < n
    ensures |q| <= n
    decreases n
  {
    if q != [] {
      assert q[0] < n;
      if i :| 0 <= i < |q| && q[i] == n - 1 {
        Pigeonhole(q[..i] + q[i + 1..], n - 1);
      } else {
        Pigeonhole(q, n - 1);
      }
    }
  }

  /** Writing a new entry where the index points overwrites none that is still to be consumed. */
  lemma RingPush(ring: seq<nat>, from: nat, upto: nat, q: seq<nat>, h: nat)
    requires RingHolds(ring, from, upto, q) && |q| < NUM
    ensures RingHolds(Put(ring, upto, h), from, (upto + 1) % WRAP, q + [h])
  {
    var at := upto % NUM;
    IndexIs(from, |q|);
    forall k: nat | k < |q| ensures Place(from, k) != at {
      Apart(from + k, from + |q|);
    }
  }

  lemma IndexIs(from: nat, n: nat)
    requires from < WRAP && n <= NUM
    ensures (from + n) % WRAP % NUM == (from + n) % NUM
    ensures ((from + n) % WRAP + 1) % WRAP == (from + (n + 1)) % WRAP
  {
    if from + n >= WRAP {
      assert (from + n) % WRAP == from + n - WRAP;
      assert (from + n - WRAP) % NUM == (from + n) % NUM by {
        assert WRAP == 0x2000 * NUM;
      }
    }
  }

  lemma Apart(a: nat, b: nat)
    requires a < b < a + NUM
    ensures a % NUM != b % NUM
  {
  }

  /** The consumer's test sees an entry exactly when there is one, and takes the oldest. */
  lemma RingPop(ring: seq<nat>, from: nat, upto: nat, q: seq<nat>)
    requires RingHolds(ring, from, upto, q)
    ensures from != upto <==> q != []
    ensures q != [] ==> ring[from % NUM] == q[0] && RingHolds(ring, (from + 1) % WRAP, upto, q[1..])
  {
    if q != [] {
      IndexIs(from, 1);
      var from' := (from + 1) % WRAP;
      assert ring[Place(from, 0)] == q[0];
      forall k | 0 <= k < |q| - 1 ensures ring[Place(from', k)] == q[1..][k] {
        Wrapped(from + 1, k);
        assert ring[Place(from, k + 1)] == q[k + 1];
      }
      assert (from' + (|q| - 1)) % WRAP == (from + |q|) % WRAP;
    }
  }

  lemma Wrapped(a: nat, k: nat)
    requires a <= WRAP
    ensures (a % WRAP + k) % NUM == (a + k) % NUM
  {
    if a == WRAP {
      assert (WRAP + k) % NUM == k % NUM by {
        assert WRAP == 0x2000 * NUM;
      }
    }
  }

  // ---------------------------------------------------------------- requests and buffers

  /** Bookkeeping per request: its buffer is recorded under its head, no two requests share a buffer,
      b->disk is 1 until the driver has seen the completion, status is 0 from the completion on, and
      a request counts as completed only if the device completed that very one. */
  ghost predicate Bufs(info: seq<Option<nat>>, status: seq<nat>, busy: set<nat>, reqs: map<nat, Req>,
                       completed: set<nat>, tickets: nat) {
    && |info| == |status| == NUM
    && (forall h :: h in reqs ==> ReqOk(info, status, busy, reqs, completed, tickets, h))
    && (forall g, h :: g in reqs && h in reqs && g != h ==>
         reqs[g].buf != reqs[h].buf && reqs[g].ticket != reqs[h].ticket)
    && (forall t :: t in completed ==> t < tickets)
    && (forall b :: b in busy ==> exists h :: h in reqs && reqs[h].buf == b)
  }

  ghost predicate ReqOk(info: seq<Option<nat>>, status: seq<nat>, busy: set<nat>, reqs: map<nat, Req>,
                        completed: set<nat>, tickets: nat, h: nat)
    requires |info| == |status| == NUM && h in reqs
  {
    var r := reqs[h];
    && h < NUM && info[h] == Some(r.buf) && r.ticket < tickets
    && (r.buf in busy <==> r.stage != Reaped)
    && (r.stage == Used || r.stage == Reaped ==> status[h] == 0)
    && (r.ticket in completed <==> r.stage == Used || r.stage == Reaped)
  }

  // ---------------------------------------------------------------- transitions

  ghost function OwnerAdd(owner: map<nat, nat>, h: nat, r: Req): (m: map<nat, nat>)
    ensures forall i :: i in m <==> i in owner || i == h || i == r.second || i == r.third
    ensures forall i :: i in m ==> m[i] == if i == h || i == r.second || i == r.third then h else owner[i]
  {
    owner[h := h][r.second := h][r.third := h]
  }

  /** The ring with an entry stored at a 16-bit index. */
  function Put(ring: seq<nat>, at: nat, h: nat): (r: seq<nat>)
    requires |ring| == NUM
    ensures |r| == NUM
  {
    ring[at % NUM := h]
  }

  ghost predicate IsOne(h: nat, r: Req, i: nat) {
    i == h || i == r.second || i == r.third
  }

  /** Descriptors of a new chain taken and filled in. */
  ghost predicate Chained(free: seq<bool>, desc: seq<Desc>, free': seq<bool>, desc': seq<Desc>, h: nat, r: Req) {
    && |free| == |desc| == |free'| == |desc'| == NUM && h < NUM && r.second < NUM && r.third < NUM
    && h != r.second && h != r.third && r.second != r.third && free[h] && free[r.second] && free[r.third]
    && (forall i :: 0 <= i < NUM ==> free'[i] == (free[i] && !IsOne(h, r, i)))
    && desc'[h] == Desc(true, r.second) && desc'[r.second] == Desc(true, r.third) && !desc'[r.third].more
    && (forall i :: 0 <= i < NUM && !IsOne(h, r, i) ==> desc'[i] == desc[i])
  }

  lemma SlotsAdd(free: seq<bool>, desc: seq<Desc>, owner: map<nat, nat>, reqs: map<nat, Req>, h: nat, r: Req,
                 free': seq<bool>, desc': seq<Desc>)
    requires Slots(free, desc, owner, reqs) && Chained(free, desc, free', desc', h, r)
    ensures h !in reqs && Slots(free', desc', OwnerAdd(owner, h, r), reqs[h := r])
  {
    hide OwnerAdd;
    var owner', reqs' := OwnerAdd(owner, h, r), reqs[h := r];
    assert h in reqs ==> ChainAt(desc, owner, h, reqs[h]);
    OwnersAdd(owner, reqs, h, r);
    hide Owners;
    forall g | g in reqs' ensures ChainAt(desc', owner', g, reqs'[g]) {
      if g != h {
        ChainKept(desc, owner, g, reqs[g], h, r, desc');
      }
    }
  }

  lemma OwnersAdd(owner: map<nat, nat>, reqs: map<nat, Req>, h: nat, r: Req)
    requires Owners(owner, reqs) && h !in reqs && h < NUM && r.second < NUM && r.third < NUM
    ensures Owners(OwnerAdd(owner, h, r), reqs[h := r])
  {
    hide OwnerAdd;
    var owner', reqs' := OwnerAdd(owner, h, r), reqs[h := r];
    forall i | i in owner' ensures i < NUM && InChain(reqs', owner'[i], i) {
      assert i in owner ==> InChain(reqs, owner[i], i);
    }
  }

  lemma ChainKept(desc: seq<Desc>, owner: map<nat, nat>, g: nat, q: Req, h: nat, r: Req, desc': seq<Desc>)
    requires |desc| == |desc'| == NUM && ChainAt(desc, owner, g, q)
    requires h !in owner && r.second !in owner && r.third !in owner
    requires forall i :: 0 <= i < NUM && !IsOne(h, r, i) ==> desc'[i] == desc[i]
    ensures ChainAt(desc', OwnerAdd(owner, h, r), g, q)
  {
    hide OwnerAdd;
    assert !IsOne(h, r, g) && !IsOne(h, r, q.second) && !IsOne(h, r, q.third);
  }

  lemma OtherChain(desc: seq<Desc>, owner: map<nat, nat>, reqs: map<nat, Req>, h: nat, g: nat, desc': seq<Desc>)
    requires |desc| == |desc'| == NUM && g in reqs && g != h && h in reqs
    requires ChainAt(desc, owner, g, reqs[g]) && ChainAt(desc, owner, h, reqs[h])
    requires forall i :: 0 <= i < NUM && !InChain(reqs, h, i) ==> desc'[i] == desc[i]
    ensures ChainAt(desc', owner - {h, reqs[h].second, reqs[h].third}, g, reqs[g])
  {
    var r := reqs[g];
    assert !InChain(reqs, h, g) && !InChain(reqs, h, r.second) && !InChain(reqs, h, r.third);
  }

  /** The descriptors of chain h given back. */
  lemma SlotsRemove(free: seq<bool>, desc: seq<Desc>, owner: map<nat, nat>, reqs: map<nat, Req>, h: nat,
                    free': seq<bool>, desc': seq<Desc>)
    requires Slots(free, desc, owner, reqs) && h in reqs && |free'| == |desc'| == NUM
    requires forall i :: 0 <= i < NUM ==> free'[i] == (free[i] || InChain(reqs, h, i))
    requires forall i :: 0 <= i < NUM && !InChain(reqs, h, i) ==> desc'[i] == desc[i]
    ensures Slots(free', desc', owner - {h, reqs[h].second, reqs[h].third}, reqs - {h})
  {
    var owner', reqs' := owner - {h, reqs[h].second, reqs[h].third}, reqs - {h};
    assert ChainAt(desc, owner, h, reqs[h]);
    forall i: nat ensures InChain(reqs, h, i) <==> i in owner && owner[i] == h {
      assert i in owner ==> InChain(reqs, owner[i], i);
    }
    forall i | i in owner' ensures i < NUM && InChain(reqs', owner'[i], i) {
      assert InChain(reqs, owner[i], i) && !InChain(reqs, h, i);
    }
    forall g | g in reqs' ensures ChainAt(desc', owner', g, reqs'[g]) {
      OtherChain(desc, owner, reqs, h, g, desc');
    }
  }

  /** Changing only stages leaves the chains alone. */
  lemma SlotsStage(free: seq<bool>, desc: seq<Desc>, owner: map<nat, nat>, reqs: map<nat, Req>, h: nat, stage: Stage)
    requires Slots(free, desc, owner, reqs) && h in reqs
    ensures Slots(free, desc, owner, reqs[h := reqs[h].(stage := stage)])
  {
    var reqs' := reqs[h := reqs[h].(stage := stage)];
    forall i | i in owner ensures i < NUM && InChain(reqs', owner[i], i) {
      assert InChain(reqs, owner[i], i);
    }
    forall g | g in reqs' ensures ChainAt(desc, owner, g, reqs'[g]) {
      assert ChainAt(desc, owner, g, reqs[g]);
    }
  }

  lemma ListsIn(q: seq<nat>, reqs: map<nat, Req>, h: nat, r: Req)
    requires Lists(q, reqs, r.stage) && (h in reqs ==> reqs[h].stage != r.stage)
    ensures Lists(q + [h], reqs[h := r], r.stage)
  {
    var reqs' := reqs[h := r];
    forall g | g in reqs' && reqs'[g].stage == r.stage ensures g in q + [h] {
      assert g != h ==> g in q;
    }
  }

  lemma ListsOut(q: seq<nat>, reqs: map<nat, Req>, stage: Stage)
    requires q != [] && q[0] in reqs && Lists(q, reqs, reqs[q[0]].stage) && stage != reqs[q[0]].stage
    ensures Lists(q[1..], reqs[q[0] := reqs[q[0]].(stage := stage)], reqs[q[0]].stage)
  {
    var h := q[0];
    var reqs' := reqs[h := reqs[h].(stage := stage)];
    forall g | g in reqs' && reqs'[g].stage == reqs[h].stage ensures g in q[1..] {
      assert g in q;
    }
  }

  /** A request at another stage comes, goes or changes. */
  lemma ListsSame(q: seq<nat>, reqs: map<nat, Req>, stage: Stage, h: nat, r: Req)
    requires Lists(q, reqs, stage) && (h in reqs ==> reqs[h].stage != stage)
    ensures r.stage != stage ==> Lists(q, reqs[h := r], stage)
    ensures Lists(q, reqs - {h}, stage)
  {
    assert h !in q;
    forall g | g in reqs - {h} && reqs[g].stage == stage ensures g in q {
    }
  }

  ghost predicate Idle(reqs: map<nat, Req>, b: nat) {
    forall h :: h in reqs ==> reqs[h].buf != b
  }

  lemma BufsAdd(info: seq<Option<nat>>, status: seq<nat>, busy: set<nat>, reqs: map<nat, Req>,
                completed: set<nat>, tickets: nat, h: nat, r: Req)
    requires Bufs(info, status, busy, reqs, completed, tickets) && h < NUM && h !in reqs
    requires Idle(reqs, r.buf) && r.ticket == tickets && r.stage == Queued
    ensures Bufs(info[h := Some(r.buf)], status[h := 0xff], busy + {r.buf}, reqs[h := r], completed, tickets + 1)
  {
    var info', status', busy', reqs' := info[h := Some(r.buf)], status[h := 0xff], busy + {r.buf}, reqs[h := r];
    forall g | g in reqs' ensures ReqOk(info', status', busy', reqs', completed, tickets + 1, g) {
      assert g != h ==> ReqOk(info, status, busy, reqs, completed, tickets, g);
    }
    forall b | b in busy' ensures exists g :: g in reqs' && reqs'[g].buf == b {
      if b == r.buf {
        assert reqs'[h].buf == b;
      } else {
        var g :| g in reqs && reqs[g].buf == b;
        assert reqs'[g].buf == b;
      }
    }
  }

  lemma BufsStage(info: seq<Option<nat>>, status: seq<nat>, busy: set<nat>, reqs: map<nat, Req>,
                  completed: set<nat>, tickets: nat, h: nat, stage: Stage)
    requires Bufs(info, status, busy, reqs, completed, tickets) && h in reqs && h < NUM
    ensures reqs[h].stage == Queued && stage == Fetched ==>
      Bufs(info, status, busy, reqs[h := reqs[h].(stage := Fetched)], completed, tickets)
    ensures reqs[h].stage == Fetched && stage == Used ==>
      Bufs(info, status[h := 0], busy, reqs[h := reqs[h].(stage := Used)], completed + {reqs[h].ticket}, tickets)
    ensures reqs[h].stage == Used && stage == Reaped ==>
      Bufs(info, status, busy - {reqs[h].buf}, reqs[h := reqs[h].(stage := Reaped)], completed, tickets)
  {
    var reqs' := reqs[h := reqs[h].(stage := stage)];
    forall g | g in reqs
      ensures ReqOk(info, status, busy, reqs, completed, tickets, g)
      ensures g in reqs' && reqs'[g].buf == reqs[g].buf
    {
    }
  }

  lemma BufsRemove(info: seq<Option<nat>>, status: seq<nat>, busy: set<nat>, reqs: map<nat, Req>,
                   completed: set<nat>, tickets: nat, h: nat)
    requires Bufs(info, status, busy, reqs, completed, tickets) && h in reqs && reqs[h].buf !in busy
    ensures h < NUM && Bufs(info[h := None], status, busy, reqs - {h}, completed, tickets)
  {
    assert ReqOk(info, status, busy, reqs, completed, tickets, h);
    var info', reqs' := info[h := None], reqs - {h};
    forall g | g in reqs' ensures ReqOk(info', status, busy, reqs', completed, tickets, g) {
      assert ReqOk(info, status, busy, reqs, completed, tickets, g);
    }
    forall b | b in busy ensures exists g :: g in reqs' && reqs'[g].buf == b {
      var g :| g in reqs && reqs[g].buf == b;
      assert g in reqs';
    }
  }
}
