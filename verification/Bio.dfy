/** The buffer cache's list: a doubly linked ring through all buffers, most recently released first. */
module Bio {
  import opened Options

  /** Numbers of the buffers on a ring in order, going forward from the head; the head's own number
      is nbuf. */
  ghost function At(nbuf: nat, order: seq<nat>, k: nat): nat
    requires k <= |order| + 1
  {
    if 1 <= k <= |order| then order[k - 1] else nbuf
  }

  ghost predicate LinkAt(nbuf: nat, next: seq<nat>, prev: seq<nat>, order: seq<nat>, k: nat)
    requires k <= |order| && |next| == |prev| == nbuf + 1
  {
    var a, b := At(nbuf, order, k), At(nbuf, order, k + 1);
    a <= nbuf && b <= nbuf && next[a] == b && prev[b] == a
  }

  /** next and prev run through order, each other's inverse, and close at the head. */
  ghost predicate Ring(nbuf: nat, next: seq<nat>, prev: seq<nat>, order: seq<nat>) {
    && |next| == |prev| == nbuf + 1
    && (forall i :: 0 <= i < |order| ==> order[i] < nbuf)
    && (forall i, j :: 0 <= i < j < |order| ==> order[i] != order[j])
    && (forall k {:trigger LinkAt(nbuf, next, prev, order, k)} :: 0 <= k <= |order| ==>
         LinkAt(nbuf, next, prev, order, k))
  }

  /** b put right after the head. */
  lemma PushFront(nbuf: nat, next: seq<nat>, prev: seq<nat>, order: seq<nat>, b: nat)
    requires Ring(nbuf, next, prev, order) && b < nbuf && b !in order
    ensures next[nbuf] <= nbuf
    ensures Ring(nbuf, next[b := next[nbuf]][nbuf := b], prev[b := nbuf][next[nbuf] := b], [b] + order)
  {
    assert LinkAt(nbuf, next, prev, order, 0);
    var next', prev', order' := next[b := next[nbuf]][nbuf := b], prev[b := nbuf][next[nbuf] := b], [b] + order;
    forall k | 0 <= k <= |order'| ensures LinkAt(nbuf, next', prev', order', k) {
      if k >= 1 {
        assert LinkAt(nbuf, next, prev, order, k - 1);
        assert At(nbuf, order', k + 1) == At(nbuf, order, k);
        assert k >= 2 ==> At(nbuf, order', k) == At(nbuf, order, k - 1) && order[k - 2] in order;
        assert k <= |order| ==> order[k - 1] in order;
      }
    }
  }

  /** order[k] taken out. */
  lemma Unlink(nbuf: nat, next: seq<nat>, prev: seq<nat>, order: seq<nat>, k: nat)
    requires Ring(nbuf, next, prev, order) && k < |order|
    ensures next[order[k]] <= nbuf && prev[order[k]] <= nbuf
    ensures var b := order[k];
      Ring(nbuf, next[prev[b] := next[b]], prev[next[b] := prev[b]], order[..k] + order[k + 1..])
  {
    var b := order[k];
    assert LinkAt(nbuf, next, prev, order, k) && LinkAt(nbuf, next, prev, order, k + 1);
    var next', prev', order' := next[prev[b] := next[b]], prev[next[b] := prev[b]], order[..k] + order[k + 1..];
    forall j | 0 <= j <= |order'| ensures LinkAt(nbuf, next', prev', order', j) {
      var i := if j < k then j else j + 1;
      assert LinkAt(nbuf, next, prev, order, i);
      assert j > k ==> At(nbuf, order', j) == At(nbuf, order, j + 1);
      assert j >= k ==> At(nbuf, order', j + 1) == At(nbuf, order, j + 2);
    }
  }

  datatype Buf = Buf(dev: nat, blockno: nat, refcnt: nat, valid: bool)

  ghost predicate Holds(bufs: seq<Buf>, i: nat, dev: nat, blockno: nat) {
    i < |bufs| && bufs[i].dev == dev && bufs[i].blockno == blockno
  }

  /** No block of a device is in two buffers; device 0 stands for a buffer never used. */
  ghost predicate OneCopy(bufs: seq<Buf>) {
    forall i, j :: 0 <= i < j < |bufs| && bufs[i].dev != 0 ==> !Holds(bufs, j, bufs[i].dev, bufs[i].blockno)
  }

  ghost predicate Permutation(nbuf: nat, order: seq<nat>) {
    |order| == nbuf && forall b :: 0 <= b < nbuf ==> b in order
  }

  /** order with its k-th element moved to the front, the others in the order they had. */
  ghost function ToFront(order: seq<nat>, k: nat): seq<nat>
    requires k < |order|
  {
    [order[k]] + (order[..k] + order[k + 1..])
  }

  class Cache {
    const nbuf: nat
    var bufs: seq<Buf>
    var next: seq<nat>
    var prev: seq<nat>
    ghost var order: seq<nat>

    ghost predicate Valid()
      reads this
    {
      && |bufs| == nbuf && OneCopy(bufs)
      && Ring(nbuf, next, prev, order) && Permutation(nbuf, order)
    }

    /** binit: buffers enter at the front, so the last one ends up first. */
    constructor (nbuf: nat)
      ensures Valid() && this.nbuf == nbuf
      ensures forall i :: 0 <= i < nbuf ==> bufs[i] == Buf(0, 0, 0, false) && order[i] == nbuf - 1 - i
    {
      this.nbuf := nbuf;
      bufs := seq(nbuf, _ => Buf(0, 0, 0, false));
      var nx: seq<nat> := seq(nbuf + 1, _ => nbuf);
      var pv: seq<nat> := nx;
      ghost var ord: seq<nat> := [];
      assert LinkAt(nbuf, nx, pv, ord, 0);
      var b := 0;
      while b < nbuf
        invariant 0 <= b <= nbuf && Ring(nbuf, nx, pv, ord) && |ord| == b
        invariant forall i :: 0 <= i < b ==> ord[i] == b - 1 - i
      {
        PushFront(nbuf, nx, pv, ord, b);
        nx, pv := nx[b := nx[nbuf]][nbuf := b], pv[b := nbuf][nx[nbuf] := b];
        ord := [b] + ord;
        b := b + 1;
      }
      forall i | 0 <= i < nbuf ensures i in ord {
        assert ord[nbuf - 1 - i] == i;
      }
      next, prev, order := nx, pv, ord;
    }

    /** bget: the buffer that has the block, or else the least recently released buffer that nobody
        holds, now assigned to the block.  None is the panic: no such buffer. */
    method Bget(dev: nat, blockno: nat) returns (r: Option<nat>)
      requires Valid() && dev != 0
      modifies this`bufs
      ensures Valid()
      ensures r.None? ==> bufs == old(bufs)
      ensures r.None? <==> forall i :: 0 <= i < nbuf ==> !old(Holds(bufs, i, dev, blockno)) && old(bufs)[i].refcnt > 0
      ensures r.Some? ==>
        && r.value < nbuf && Holds(bufs, r.value, dev, blockno)
        && bufs == old(bufs)[r.value := bufs[r.value]]
      ensures r.Some? && old(Holds(bufs, r.value, dev, blockno)) ==>
        bufs[r.value] == old(bufs)[r.value].(refcnt := old(bufs)[r.value].refcnt + 1)
      ensures r.Some? && !old(Holds(bufs, r.value, dev, blockno)) ==>
        && bufs[r.value] == Buf(dev, blockno, 1, false)
        && (forall i :: 0 <= i < nbuf ==> !old(Holds(bufs, i, dev, blockno)))
        && Oldest(old(bufs), order, r.value)
    {
      hide Permutation;
      ghost var k := 0;
      AtHead(nbuf, next, prev, order);
      var b := next[nbuf];
      while b != nbuf
        invariant 0 <= k <= |order| && b == At(nbuf, order, k + 1)
        invariant forall i :: 0 <= i < k ==> !Holds(bufs, order[i], dev, blockno)
        decreases |order| - k
      {
        if bufs[b].dev == dev && bufs[b].blockno == blockno {
          Recounted(bufs, b, bufs[b].refcnt + 1);
          bufs := bufs[b := bufs[b].(refcnt := bufs[b].refcnt + 1)];
          return Some(b);
        }
        assert LinkAt(nbuf, next, prev, order, k + 1);
        b := next[b];
        k := k + 1;
      }
      AllSeen(nbuf, order, bufs, dev, blockno);
      b := prev[nbuf];
      k := |order|;
      while b != nbuf
        invariant 0 <= k <= |order| && b == At(nbuf, order, k)
        invariant forall i :: k <= i < |order| ==> bufs[order[i]].refcnt > 0
        decreases k
      {
        if bufs[b].refcnt == 0 {
          Reassigned(bufs, b, dev, blockno);
          bufs := bufs[b := Buf(dev, blockno, 1, false)];
          assert order[k - 1] == b;
          return Some(b);
        }
        assert LinkAt(nbuf, next, prev, order, k - 1);
        b := prev[b];
        k := k - 1;
      }
      AllHeld(nbuf, order, bufs);
      r := None;
    }

    /** brelse: one reference less; the last release moves the buffer to the front. */
    method Brelse(b: nat)
      requires Valid() && b < nbuf && bufs[b].refcnt > 0
      modifies this`bufs, this`next, this`prev, this`order
      ensures Valid() && bufs == old(bufs)[b := old(bufs)[b].(refcnt := old(bufs)[b].refcnt - 1)]
      ensures bufs[b].refcnt > 0 ==> order == old(order)
      ensures bufs[b].refcnt == 0 ==> exists k :: 0 <= k < nbuf && old(order)[k] == b && order == ToFront(old(order), k)
    {
      Recounted(bufs, b, bufs[b].refcnt - 1);
      bufs := bufs[b := bufs[b].(refcnt := bufs[b].refcnt - 1)];
      if bufs[b].refcnt == 0 {
        MoveToFront(b);
      }
    }

    /** The relinking in brelse. */
    method MoveToFront(b: nat)
      requires Valid() && b < nbuf
      modifies this`next, this`prev, this`order
      ensures Valid() && exists k :: 0 <= k < nbuf && old(order)[k] == b && order == ToFront(old(order), k)
    {
      assert b in order;
      ghost var k :| 0 <= k < |order| && order[k] == b;
      Unlink(nbuf, next, prev, order, k);
      ghost var rest := order[..k] + order[k + 1..];
      prev := prev[next[b] := prev[b]];
      next := next[prev[b] := next[b]];
      PushFront(nbuf, next, prev, rest, b);
      next := next[b := next[nbuf]];
      prev := prev[b := nbuf];
      prev := prev[next[nbuf] := b];
      next := next[nbuf := b];
      order := [b] + rest;
      StillPermutation(nbuf, old(order), k);
    }

    method Bpin(b: nat)
      requires Valid() && b < nbuf
      modifies this`bufs
      ensures Valid() && bufs == old(bufs)[b := old(bufs)[b].(refcnt := old(bufs)[b].refcnt + 1)]
    {
      Recounted(bufs, b, bufs[b].refcnt + 1);
      bufs := bufs[b := bufs[b].(refcnt := bufs[b].refcnt + 1)];
    }

    method Bunpin(b: nat)
      requires Valid() && b < nbuf && bufs[b].refcnt > 0
      modifies this`bufs
      ensures Valid() && bufs == old(bufs)[b := old(bufs)[b].(refcnt := old(bufs)[b].refcnt - 1)]
    {
      Recounted(bufs, b, bufs[b].refcnt - 1);
      bufs := bufs[b := bufs[b].(refcnt := bufs[b].refcnt - 1)];
    }
  }

  /** b is free, and every buffer released before it (later in order) is not. */
  ghost predicate Oldest(bufs: seq<Buf>, order: seq<nat>, b: nat) {
    exists k :: 0 <= k < |order| && order[k] == b < |bufs| && bufs[b].refcnt == 0
      && forall i :: k < i < |order| && order[i] < |bufs| ==> bufs[order[i]].refcnt > 0
  }

  lemma AtHead(nbuf: nat, next: seq<nat>, prev: seq<nat>, order: seq<nat>)
    requires Ring(nbuf, next, prev, order)
    ensures next[nbuf] == At(nbuf, order, 1) && prev[nbuf] == At(nbuf, order, |order|)
  {
    assert LinkAt(nbuf, next, prev, order, 0) && LinkAt(nbuf, next, prev, order, |order|);
  }

  lemma AllSeen(nbuf: nat, order: seq<nat>, bufs: seq<Buf>, dev: nat, blockno: nat)
    requires Permutation(nbuf, order) && |bufs| == nbuf
    requires forall i :: 0 <= i < |order| ==> !Holds(bufs, order[i], dev, blockno)
    ensures forall b :: 0 <= b < nbuf ==> !Holds(bufs, b, dev, blockno)
  {
    forall b | 0 <= b < nbuf ensures !Holds(bufs, b, dev, blockno) {
      assert b in order;
    }
  }

  lemma AllHeld(nbuf: nat, order: seq<nat>, bufs: seq<Buf>)
    requires Permutation(nbuf, order) && |bufs| == nbuf
    requires forall i :: 0 <= i < |order| ==> order[i] < nbuf && bufs[order[i]].refcnt > 0
    ensures forall b :: 0 <= b < nbuf ==> bufs[b].refcnt > 0
  {
    forall b | 0 <= b < nbuf ensures bufs[b].refcnt > 0 {
      assert b in order;
    }
  }

  lemma Recounted(bufs: seq<Buf>, b: nat, n: nat)
    requires OneCopy(bufs) && b < |bufs|
    ensures OneCopy(bufs[b := bufs[b].(refcnt := n)])
  {
    var bufs' := bufs[b := bufs[b].(refcnt := n)];
    forall i, j | 0 <= i < j < |bufs'| && bufs'[i].dev != 0 ensures !Holds(bufs', j, bufs'[i].dev, bufs'[i].blockno) {
      assert !Holds(bufs, j, bufs[i].dev, bufs[i].blockno);
    }
  }

  lemma Reassigned(bufs: seq<Buf>, b: nat, dev: nat, blockno: nat)
    requires OneCopy(bufs) && b < |bufs| && forall i :: 0 <= i < |bufs| ==> !Holds(bufs, i, dev, blockno)
    ensures OneCopy(bufs[b := Buf(dev, blockno, 1, false)])
  {
    var bufs' := bufs[b := Buf(dev, blockno, 1, false)];
    forall i, j | 0 <= i < j < |bufs'| && bufs'[i].dev != 0 ensures !Holds(bufs', j, bufs'[i].dev, bufs'[i].blockno) {
      assert !Holds(bufs, j, bufs[i].dev, bufs[i].blockno) || bufs[i].dev == 0;
      assert !Holds(bufs, i, dev, blockno) && !Holds(bufs, j, dev, blockno);
    }
  }

  lemma StillPermutation(nbuf: nat, order: seq<nat>, k: nat)
    requires Permutation(nbuf, order) && k < |order|
    ensures Permutation(nbuf, ToFront(order, k))
  {
    var r := ToFront(order, k);
    forall b | 0 <= b < nbuf ensures b in r {
      assert b in order;
      var i :| 0 <= i < |order| && order[i] == b;
      assert i == k ==> r[0] == b;
      assert i < k ==> r[i + 1] == b;
      assert i > k ==> r[i] == b;
    }
  }
}
