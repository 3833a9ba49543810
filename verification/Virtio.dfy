/** The disk driver and the device.  Driver methods run under vdisk_lock from a wakeup to the next
    sleep or return; Fetch and Complete are the device's moves.  All of them interleave freely. */
module Virtio {
  import opened VirtioSpec
  import opened Options

  class Disk {
    var free: seq<bool>
    var desc: seq<Desc>
    var availRing: seq<nat>
    var availIdx: nat               // driver's index into the avail ring, 16 bits
    var usedRing: seq<nat>
    var usedIdx: nat                // device's index into the used ring, 16 bits
    var seenIdx: nat                // used_idx: how far the driver has looked
    var fetchIdx: nat               // how far the device has looked
    var info: seq<Option<nat>>
    var status: seq<nat>
    var busy: set<nat>              // buffers with b->disk == 1
    ghost var owner: map<nat, nat>
    ghost var reqs: map<nat, Req>
    ghost var waiting: seq<nat>     // announced, not yet fetched
    ghost var reported: seq<nat>    // reported, not yet seen
    ghost var tickets: nat
    ghost var completed: set<nat>   // tickets of the requests the device has completed

    ghost predicate Valid()
      reads this
    {
      && Slots(free, desc, owner, reqs)
      && RingHolds(availRing, fetchIdx, availIdx, waiting) && Lists(waiting, reqs, Queued)
      && RingHolds(usedRing, seenIdx, usedIdx, reported) && Lists(reported, reqs, Used)
      && Bufs(info, status, busy, reqs, completed, tickets)
    }

    /** virtio_disk_init */
    constructor ()
      ensures Valid() && reqs == map[] && busy == {}
    {
      free, desc := seq(NUM, _ => true), seq(NUM, _ => Desc(false, 0));
      availRing, usedRing := seq(NUM, _ => 0), seq(NUM, _ => 0);
      availIdx, usedIdx, seenIdx, fetchIdx := 0, 0, 0, 0;
      info, status, busy := seq(NUM, _ => None), seq(NUM, _ => 0), {};
      owner, reqs, waiting, reported, tickets, completed := map[], map[], [], [], 0, {};
    }

    // ---------------------------------------------------------------- descriptors

    method AllocDesc() returns (i: int)
      requires |free| == NUM
      modifies this`free
      ensures i == -1 ==> free == old(free) && forall k :: 0 <= k < NUM ==> !free[k]
      ensures i != -1 ==> 0 <= i < NUM && old(free)[i] && free == old(free)[i := false]
    {
      i := 0;
      while i < NUM
        invariant 0 <= i <= NUM && free == old(free)
        invariant forall k :: 0 <= k < i ==> !free[k]
      {
        if free[i] {
          free := free[i := false];
          return;
        }
        i := i + 1;
      }
      i := -1;
    }

    method FreeDesc(i: nat) returns (panicked: bool)
      requires |free| == |desc| == NUM
      modifies this`free, this`desc
      ensures panicked <==> i >= NUM || old(free)[i]
      ensures !panicked ==> free == old(free)[i := true] && desc == old(desc)[i := Desc(false, 0)]
      ensures panicked ==> free == old(free) && desc == old(desc)
    {
      if i >= NUM {
        return true;
      }
      if free[i] {
        return true;
      }
      desc := desc[i := Desc(false, 0)];
      free := free[i := true];
      panicked := false;
    }

    /** alloc3_desc: three different free descriptors, or none taken at all. */
    method Alloc3() returns (ok: bool, i0: nat, i1: nat, i2: nat)
      requires |free| == |desc| == NUM
      modifies this`free, this`desc
      ensures ok <==> |FreeSet(old(free))| >= 3
      ensures ok ==>
        && i0 < NUM && i1 < NUM && i2 < NUM && i0 != i1 && i0 != i2 && i1 != i2
        && old(free)[i0] && old(free)[i1] && old(free)[i2]
        && |free| == NUM && desc == old(desc)
        && forall i :: 0 <= i < NUM ==> free[i] == (old(free)[i] && i != i0 && i != i1 && i != i2)
      ensures !ok ==> free == old(free) && |desc| == NUM && forall i :: 0 <= i < NUM && !free[i] ==>
        desc[i] == old(desc)[i]
    {
      var a := AllocDesc();
      if a < 0 {
        assert FreeSet(free) == {};
        return false, 0, 0, 0;
      }
      TakeFree(old(free), a);
      label A:
      var b := AllocDesc();
      if b < 0 {
        assert FreeSet(free) == {};
        var p := FreeDesc(a);
        assert free == old(free);
        return false, 0, 0, 0;
      }
      TakeFree(old@A(free), b);
      label B:
      var c := AllocDesc();
      if c < 0 {
        assert FreeSet(free) == {};
        var p := FreeDesc(a);
        p := FreeDesc(b);
        assert free == old(free);
        return false, 0, 0, 0;
      }
      TakeFree(old@B(free), c);
      return true, a, b, c;
    }

    /** free_chain: follows the chain to its end; free_desc never panics. */
    method FreeChain(h: nat)
      requires Slots(free, desc, owner, reqs) && h in reqs
      modifies this`free, this`desc
      ensures |free| == |desc| == NUM
      ensures forall i :: 0 <= i < NUM ==> free[i] == (old(free)[i] || InChain(reqs, h, i))
      ensures forall i :: 0 <= i < NUM && !InChain(reqs, h, i) ==> desc[i] == old(desc)[i]
    {
      ghost var r := reqs[h];
      assert ChainAt(desc, owner, h, r);
      var i, n := h, 0;
      while true
        invariant 0 <= n <= 2 && |free| == |desc| == NUM
        invariant i == if n == 0 then h else if n == 1 then r.second else r.third
        invariant free == if n == 0 then old(free)
          else if n == 1 then old(free)[h := true] else old(free)[h := true][r.second := true]
        invariant forall k :: 0 <= k < NUM && (n == 0 || k != h) && (n < 2 || k != r.second) ==> desc[k] == old(desc)[k]
        decreases 2 - n
      {
        var more, next := desc[i].more, desc[i].next;
        var panicked := FreeDesc(i);
        assert !panicked;
        if more {
          i, n := next, n + 1;
        } else {
          break;
        }
      }
    }

    // ---------------------------------------------------------------- driver

    /** Filling in the three descriptors and telling the device. */
    method Format(i0: nat, i1: nat, i2: nat, b: nat)
      requires |desc| == |info| == |status| == |availRing| == NUM && i0 < NUM && i1 < NUM && i2 < NUM
      modifies this`desc, this`status, this`busy, this`info, this`availRing, this`availIdx
      ensures |desc| == NUM
      ensures i0 != i1 && i0 != i2 && i1 != i2 ==>
        desc[i0] == Desc(true, i1) && desc[i1] == Desc(true, i2) && !desc[i2].more
      ensures forall i :: 0 <= i < NUM && i != i0 && i != i1 && i != i2 ==> desc[i] == old(desc)[i]
      ensures status == old(status)[i0 := 0xff] && busy == old(busy) + {b} && info == old(info)[i0 := Some(b)]
      ensures availRing == Put(old(availRing), old(availIdx), i0) && availIdx == (old(availIdx) + 1) % WRAP
    {
      desc := desc[i0 := Desc(true, i1)];
      desc := desc[i1 := Desc(true, i2)];
      status := status[i0 := 0xff];
      desc := desc[i2 := Desc(false, 0)];
      busy := busy + {b};
      info := info[i0 := Some(b)];
      availRing := Put(availRing, availIdx, i0);
      availIdx := (availIdx + 1) % WRAP;
    }

    /** virtio_disk_rw up to its wait: the request is announced to the device, or, with two
        requests in flight already, nothing has changed and the caller sleeps. */
    method Submit(b: nat) returns (r: Option<nat>)
      requires Valid() && Idle(reqs, b)
      modifies this
      ensures Valid()
      ensures |old(reqs)| <= 2 && (r.None? <==> |old(reqs)| == 2)
      ensures r.None? ==> free == old(free) && reqs == old(reqs) && busy == old(busy) && waiting == old(waiting)
      ensures r.Some? ==>
        && r.value !in old(reqs) && r.value in reqs && reqs == old(reqs)[r.value := reqs[r.value]]
        && reqs[r.value].buf == b && reqs[r.value].ticket == old(tickets) && reqs[r.value].stage == Queued && b in busy
      ensures completed == old(completed)
    {
      hide Slots, RingHolds, Lists, Bufs, Idle;
      SlotsShape(free, desc, owner, reqs);
      FreeCount(free, desc, owner, reqs);
      var ok, i0, i1, i2 := Alloc3();
      if !ok {
        SlotsUnused(free, old(desc), desc, owner, reqs);
        return None;
      }
      Announce(i0, i1, i2, b, old(free));
      r := Some(i0);
    }

    /** The request on descriptors i0, i1, i2, just taken from free0, goes to the device. */
    method Announce(i0: nat, i1: nat, i2: nat, b: nat, ghost free0: seq<bool>)
      requires Slots(free0, desc, owner, reqs) && Bufs(info, status, busy, reqs, completed, tickets) && Idle(reqs, b)
      requires RingHolds(availRing, fetchIdx, availIdx, waiting) && Lists(waiting, reqs, Queued)
      requires RingHolds(usedRing, seenIdx, usedIdx, reported) && Lists(reported, reqs, Used)
      requires |free0| == NUM && i0 < NUM && i1 < NUM && i2 < NUM && i0 != i1 && i0 != i2 && i1 != i2
      requires free0[i0] && free0[i1] && free0[i2] && |free| == NUM
      requires forall i :: 0 <= i < NUM ==> free[i] == (free0[i] && i != i0 && i != i1 && i != i2)
      modifies this`desc, this`status, this`busy, this`info, this`availRing, this`availIdx, this`owner, this`reqs,
               this`waiting, this`tickets
      ensures Valid() && b in busy
      ensures i0 !in old(reqs) && reqs == old(reqs)[i0 := Req(i1, i2, b, old(tickets), Queued)]
    {
      hide Slots, RingHolds, Lists, Bufs, Idle, OwnerAdd, Put, Chained;
      ghost var req := Req(i1, i2, b, tickets, Queued);
      SlotsShape(free0, desc, owner, reqs);
      Announced(free0, desc, owner, reqs, waiting, reported, i0, req);
      Booked(info, status, busy, reqs, completed, tickets, i0, req, availRing, fetchIdx, availIdx, waiting);
      Format(i0, i1, i2, b);
      NewChain(free0, old(desc), free, desc, i0, req);
      SlotsAdd(free0, old(desc), owner, reqs, i0, req, free, desc);
      owner, reqs, waiting, tickets := OwnerAdd(owner, i0, req), reqs[i0 := req], waiting + [i0], tickets + 1;
    }

    /** One round of virtio_disk_intr's loop: the oldest unseen completion, if there is one; its
        panic cannot happen. */
    method Reap() returns (r: Option<nat>)
      requires Valid()
      modifies this`busy, this`seenIdx, this`reqs, this`reported
      ensures Valid() && completed == old(completed)
      ensures r.None? <==> old(reported) == []
      ensures r.None? ==> busy == old(busy) && reqs == old(reqs)
      ensures r.Some? ==>
        && old(reported)[0] in old(reqs) && r.value == old(reqs)[old(reported)[0]].buf
        && busy == old(busy) - {r.value}
        && reqs == old(reqs)[old(reported)[0] := old(reqs)[old(reported)[0]].(stage := Reaped)]
    {
      hide Slots, RingHolds, Lists, Bufs;
      RingPop(usedRing, seenIdx, usedIdx, reported);
      if seenIdx == usedIdx {
        return None;
      }
      RingShape(usedRing, seenIdx, usedIdx, reported);
      var id := usedRing[seenIdx % NUM];
      ListsAt(reported, reqs, Used);
      UsedStatus(info, status, busy, reqs, completed, tickets, id);
      assert status[id] == 0;
      var b := info[id].value;
      SlotsStage(free, desc, owner, reqs, id, Reaped);
      BufsStage(info, status, busy, reqs, completed, tickets, id, Reaped);
      ListsOut(reported, reqs, Reaped);
      ListsSame(waiting, reqs, Queued, id, reqs[id].(stage := Reaped));
      busy := busy - {b};
      seenIdx := (seenIdx + 1) % WRAP;
      reqs, reported := reqs[id := reqs[id].(stage := Reaped)], reported[1..];
      r := Some(b);
    }

    /** The end of virtio_disk_rw: while b->disk is 1 the caller sleeps again; otherwise the device has
        completed this very request, and its three descriptors are free again. */
    method Finish(h: nat, b: nat) returns (done: bool)
      requires Valid() && h in reqs && reqs[h].buf == b
      modifies this`free, this`desc, this`info, this`reqs, this`owner
      ensures Valid() && done == (b !in busy)
      ensures !done ==> reqs == old(reqs) && free == old(free)
      ensures done ==>
        && old(reqs[h]).ticket in completed && reqs == old(reqs) - {h}
        && forall i :: 0 <= i < NUM ==> free[i] == (old(free)[i] || InChain(old(reqs), h, i))
    {
      hide RingHolds, Lists, Bufs, Slots;
      if b in busy {
        return false;
      }
      FinishedOne(info, status, busy, reqs, completed, tickets, h);
      BufsRemove(info, status, busy, reqs, completed, tickets, h);
      ListsSame(waiting, reqs, Queued, h, reqs[h]);
      ListsSame(reported, reqs, Used, h, reqs[h]);
      info := info[h := None];
      FreeChain(h);
      SlotsRemove(old(free), old(desc), owner, reqs, h, free, desc);
      SlotsShape(old(free), old(desc), owner, reqs);
      owner, reqs := owner - {h, reqs[h].second, reqs[h].third}, reqs - {h};
      done := true;
    }

    // ---------------------------------------------------------------- device

    /** The device takes the oldest announced request. */
    method Fetch() returns (h: Option<nat>)
      requires Valid()
      modifies this`fetchIdx, this`reqs, this`waiting
      ensures Valid()
      ensures h.None? <==> old(waiting) == []
      ensures h.None? ==> reqs == old(reqs)
      ensures h.Some? ==>
        && h.value == old(waiting)[0] && h.value in old(reqs)
        && reqs == old(reqs)[h.value := old(reqs)[h.value].(stage := Fetched)]
    {
      hide Slots, RingHolds, Lists, Bufs;
      RingPop(availRing, fetchIdx, availIdx, waiting);
      if fetchIdx == availIdx {
        return None;
      }
      RingShape(availRing, fetchIdx, availIdx, waiting);
      var id := availRing[fetchIdx % NUM];
      ListsAt(waiting, reqs, Queued);
      UsedStatus(info, status, busy, reqs, completed, tickets, id);
      SlotsStage(free, desc, owner, reqs, id, Fetched);
      BufsStage(info, status, busy, reqs, completed, tickets, id, Fetched);
      ListsOut(waiting, reqs, Fetched);
      ListsSame(reported, reqs, Used, id, reqs[id].(stage := Fetched));
      fetchIdx := (fetchIdx + 1) % WRAP;
      reqs, waiting := reqs[id := reqs[id].(stage := Fetched)], waiting[1..];
      h := Some(id);
    }

    /** The device completes any request it has taken, in whatever order. */
    method Complete(h: nat)
      requires Valid() && h in reqs && reqs[h].stage == Fetched
      modifies this`status, this`usedRing, this`usedIdx, this`reqs, this`reported, this`completed
      ensures Valid() && reqs == old(reqs)[h := old(reqs)[h].(stage := Used)] && reported == old(reported) + [h]
      ensures completed == old(completed) + {old(reqs)[h].ticket}
    {
      hide Slots, RingHolds, Lists, Bufs;
      UsedStatus(info, status, busy, reqs, completed, tickets, h);
      RingShape(usedRing, seenIdx, usedIdx, reported);
      SlotsStage(free, desc, owner, reqs, h, Used);
      BufsStage(info, status, busy, reqs, completed, tickets, h, Used);
      NewFits(reported, reqs, Used, h, free, desc, owner);
      ListsIn(reported, reqs, h, reqs[h].(stage := Used));
      ListsSame(waiting, reqs, Queued, h, reqs[h].(stage := Used));
      RingPush(usedRing, seenIdx, usedIdx, reported, h);
      status := status[h := 0];
      usedRing := Put(usedRing, usedIdx, h);
      usedIdx := (usedIdx + 1) % WRAP;
      completed := completed + {reqs[h].ticket};
      reqs, reported := reqs[h := reqs[h].(stage := Used)], reported + [h];
    }
  }

  /** A new chain, announced. */
  lemma Announced(free: seq<bool>, desc: seq<Desc>, owner: map<nat, nat>, reqs: map<nat, Req>, waiting: seq<nat>,
                  reported: seq<nat>, h: nat, r: Req)
    requires Slots(free, desc, owner, reqs) && Lists(waiting, reqs, Queued) && Lists(reported, reqs, Used)
    requires h < NUM && free[h] && r.stage == Queued
    ensures h !in reqs && |waiting| < NUM
    ensures Lists(waiting + [h], reqs[h := r], Queued) && Lists(reported, reqs[h := r], Used)
  {
    assert h in reqs ==> ChainAt(desc, owner, h, reqs[h]);
    hide Lists;
    NewFits(waiting, reqs, Queued, h, free, desc, owner);
    hide Slots;
    ListsIn(waiting, reqs, h, r);
    ListsSame(reported, reqs, Used, h, r);
  }

  lemma NewChain(free: seq<bool>, desc: seq<Desc>, free': seq<bool>, desc': seq<Desc>, h: nat, r: Req)
    requires |free| == |desc| == |free'| == |desc'| == NUM && h < NUM && r.second < NUM && r.third < NUM
    requires h != r.second && h != r.third && r.second != r.third && free[h] && free[r.second] && free[r.third]
    requires forall i :: 0 <= i < NUM ==> free'[i] == (free[i] && i != h && i != r.second && i != r.third)
    requires desc'[h] == Desc(true, r.second) && desc'[r.second] == Desc(true, r.third) && !desc'[r.third].more
    requires forall i :: 0 <= i < NUM && i != h && i != r.second && i != r.third ==> desc'[i] == desc[i]
    ensures Chained(free, desc, free', desc', h, r)
  {
  }

  lemma Booked(info: seq<Option<nat>>, status: seq<nat>, busy: set<nat>, reqs: map<nat, Req>, completed: set<nat>,
               tickets: nat, h: nat, r: Req, ring: seq<nat>, from: nat, upto: nat, waiting: seq<nat>)
    requires Bufs(info, status, busy, reqs, completed, tickets) && h < NUM && h !in reqs
    requires Idle(reqs, r.buf) && r.ticket == tickets && r.stage == Queued
    requires RingHolds(ring, from, upto, waiting) && |waiting| < NUM
    ensures |info| == |status| == |ring| == NUM
    ensures Bufs(info[h := Some(r.buf)], status[h := 0xff], busy + {r.buf}, reqs[h := r], completed, tickets + 1)
    ensures RingHolds(Put(ring, upto, h), from, (upto + 1) % WRAP, waiting + [h])
  {
    BufsAdd(info, status, busy, reqs, completed, tickets, h, r);
    RingPush(ring, from, upto, waiting, h);
  }

  lemma SlotsShape(free: seq<bool>, desc: seq<Desc>, owner: map<nat, nat>, reqs: map<nat, Req>)
    requires Slots(free, desc, owner, reqs)
    ensures |free| == |desc| == NUM && forall h :: h in reqs ==> h < NUM && reqs[h].second < NUM && reqs[h].third < NUM
  {
    forall h | h in reqs ensures h < NUM && reqs[h].second < NUM && reqs[h].third < NUM {
      assert ChainAt(desc, owner, h, reqs[h]);
    }
  }

  /** What free descriptors contain does not matter. */
  lemma SlotsUnused(free: seq<bool>, desc: seq<Desc>, desc': seq<Desc>, owner: map<nat, nat>, reqs: map<nat, Req>)
    requires Slots(free, desc, owner, reqs) && |desc'| == NUM
    requires forall i :: 0 <= i < NUM && !free[i] ==> desc'[i] == desc[i]
    ensures Slots(free, desc', owner, reqs)
  {
    forall h | h in reqs ensures ChainAt(desc', owner, h, reqs[h]) {
      assert ChainAt(desc, owner, h, reqs[h]);
    }
  }

  lemma RingShape(ring: seq<nat>, from: nat, upto: nat, q: seq<nat>)
    requires RingHolds(ring, from, upto, q)
    ensures |ring| == NUM
  {
  }

  /** A queue of different heads has room for one more. */
  lemma NewFits(q: seq<nat>, reqs: map<nat, Req>, stage: Stage, h: nat, free: seq<bool>, desc: seq<Desc>,
                owner: map<nat, nat>)
    requires Slots(free, desc, owner, reqs) && h < NUM && Lists(q, reqs, stage)
      && (h in reqs ==> reqs[h].stage != stage)
    ensures |q| < NUM
  {
    SlotsShape(free, desc, owner, reqs);
    Pigeonhole(q + [h], NUM);
  }

  lemma ListsAt(q: seq<nat>, reqs: map<nat, Req>, stage: Stage)
    requires Lists(q, reqs, stage) && q != []
    ensures q[0] in reqs && reqs[q[0]].stage == stage
  {
  }

  lemma UsedStatus(info: seq<Option<nat>>, status: seq<nat>, busy: set<nat>, reqs: map<nat, Req>,
                   completed: set<nat>, tickets: nat, h: nat)
    requires Bufs(info, status, busy, reqs, completed, tickets) && h in reqs
    ensures |info| == |status| == NUM && h < NUM && info[h] == Some(reqs[h].buf)
    ensures reqs[h].stage == Used ==> status[h] == 0
  {
    assert ReqOk(info, status, busy, reqs, completed, tickets, h);
  }

  lemma FinishedOne(info: seq<Option<nat>>, status: seq<nat>, busy: set<nat>, reqs: map<nat, Req>,
                    completed: set<nat>, tickets: nat, h: nat)
    requires Bufs(info, status, busy, reqs, completed, tickets) && h in reqs && reqs[h].buf !in busy
    ensures |info| == NUM && h < NUM && reqs[h].stage == Reaped && reqs[h].ticket in completed
  {
    assert ReqOk(info, status, busy, reqs, completed, tickets, h);
  }
}
