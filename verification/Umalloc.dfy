/** The user-level allocator: one circular list of free blocks in address order, kept in the
    headers of the blocks themselves.  Addresses and sizes count headers of UNIT bytes. */
module Umalloc {
  import opened FreeList
  import opened Options

  const UNIT := 16
  const CORE := 4096

  ghost predicate InLive(live: map<nat, nat>, u: nat) {
    exists a :: a in live && Covers(Block(a, live[a]), u)
  }

  /** Free and live blocks tile the memory obtained: they do not overlap, and together they are
      exactly the units in units. */
  ghost predicate Tiles(fl: seq<Block>, live: map<nat, nat>, units: set<nat>) {
    && (forall a :: a in live ==> live[a] > 0)
    && (forall a, i :: a in live && 0 <= i < |fl| ==> Apart(fl[i], Block(a, live[a])))
    && (forall a, b :: a in live && b in live && a != b ==> Apart(Block(a, live[a]), Block(b, live[b])))
    && (forall u: nat :: UnitOk(fl, live, units, u))
  }

  ghost predicate UnitOk(fl: seq<Block>, live: map<nat, nat>, units: set<nat>, u: nat) {
    u in units <==> InFree(fl, u) || InLive(live, u)
  }

  /** The pointers make one circle in address order, with one wrap point, starting at the sentinel. */
  ghost predicate Ring(base: nat, ptr: map<nat, nat>, size: map<nat, nat>, freep: nat, fl: seq<Block>) {
    && Ordered(fl) && fl[0] == Block(base, 0) && Linked(ptr, size, fl)
    && exists i :: 0 <= i < |fl| && fl[i].a == freep
  }

  class Heap {
    const base: nat
    var ptr: map<nat, nat>
    var size: map<nat, nat>
    var freep: Option<nat>
    ghost var fl: seq<Block>
    ghost var live: map<nat, nat>
    ghost var units: set<nat>

    ghost predicate Valid()
      reads this
    {
      && (freep.None? ==> fl == [Block(base, 0)] && live == map[])
      && (freep.Some? ==> Ring(base, ptr, size, freep.value, fl))
      && (forall a :: a in live ==> base < a && a in size && size[a] == live[a])
      && Ordered(fl) && Tiles(fl, live, units)
    }

    /** free's search: the block after which bp belongs.  It ends at the one place in the circle
        where bp lies between a block and its successor, or past the last block. */
    method Search(bp: nat, ghost b: Block) returns (p: nat, ghost t: nat)
      requires freep.Some? && Ring(base, ptr, size, freep.value, fl) && b.a == bp > base && b.n > 0
      requires forall i :: 0 <= i < |fl| ==> Apart(fl[i], b)
      ensures Fits(fl, t, b) && p == fl[t].a
    {
      p := freep.value;
      ghost var i :| 0 <= i < |fl| && fl[i].a == p;
      t := Place(fl, b);
      while !(bp > p && bp < ptr[p])
        invariant 0 <= i < |fl| && p == fl[i].a
        invariant LinkAt(ptr, size, fl, i)
        decreases if i <= t then t - i else |fl| - i + t
      {
        if p >= ptr[p] && (bp > p || bp < ptr[p]) {
          break;
        }
        p := ptr[p];
        i := if i + 1 < |fl| then i + 1 else 0;
      }
    }

    /** free of the block at bp: it joins the list, merged with its neighbours where they touch. */
    method Release(bp: nat, ghost b: Block) returns (ghost t: nat)
      requires freep.Some? && Ring(base, ptr, size, freep.value, fl)
      requires bp in size && b == Block(bp, size[bp]) && b.n > 0 && base < bp
      requires forall i :: 0 <= i < |fl| ==> Apart(fl[i], b)
      modifies this`ptr, this`size, this`freep, this`fl
      ensures Fits(old(fl), t, b) && fl == Insert(old(fl), t, b)
      ensures freep.Some? && Ring(base, ptr, size, freep.value, fl) && freep.value == old(fl)[t].a
      ensures forall a :: a in old(size) && a != bp && a != freep.value ==> a in size && size[a] == old(size)[a]
    {
      hide Insert, Linked, Ordered;
      var p;
      p, t := Search(bp, b);
      LowestFirst(fl, t);
      LinkedAt(ptr, size, fl, t);
      if t + 1 < |fl| {
        LinkedAt(ptr, size, fl, t + 1);
      }
      var next := ptr[p];
      if bp + size[bp] == next {
        size := size[bp := size[bp] + size[next]];
        ptr := ptr[bp := ptr[next]];
      } else {
        ptr := ptr[bp := next];
      }
      if p + size[p] == bp {
        size := size[p := size[p] + size[bp]];
        ptr := ptr[p := ptr[bp]];
      } else {
        ptr := ptr[p := bp];
      }
      freep := Some(p);
      Relinked(fl, t, b, old(ptr), old(size), ptr, size);
      fl := Insert(fl, t, b);
    }

    /** free: the block ap - 1 is live no more, its units are free, and nothing else changes. */
    method Free(ap: nat)
      requires Valid() && ap > 0 && ap - 1 in live
      modifies this`ptr, this`size, this`freep, this`fl, this`live
      ensures Valid() && live == old(live) - {ap - 1}
      ensures forall u: nat :: InFree(fl, u) <==> old(InFree(fl, u)) || Covers(Block(ap - 1, old(live[ap - 1])), u)
    {
      hide Insert, Ring, Covers, Tiles, Ordered;
      var bp := ap - 1;
      ghost var b := Block(bp, live[bp]);
      ListOrdered(base, ptr, size, freep.value, fl);
      LiveApart(fl, live, units, bp);
      ghost var t := Release(bp, b);
      TilesFreed(old(fl), live, units, t, bp);
      ListOrdered(base, ptr, size, freep.value, fl);
      forall u: nat ensures InFree(fl, u) <==> old(InFree(fl, u)) || Covers(b, u) {
        InsertCovers(old(fl), t, b, u);
      }
      live := live - {bp};
      LiveHeaders(old(fl), old(live), units, t, bp);
    }

    /** morecore: core is what sbrk returns, higher than anything obtained so far. */
    method Morecore(nu: nat, core: Option<nat>) returns (ok: bool)
      requires Valid() && freep.Some?
      requires core.Some? ==> base < core.value && forall u :: u in units ==> u < core.value
      modifies this`ptr, this`size, this`freep, this`fl, this`units
      ensures ok == core.Some?
      ensures !ok ==>
        && ptr == old(ptr) && size == old(size) && freep == old(freep) && fl == old(fl)
        && units == old(units)
      ensures ok ==>
        && Valid() && freep.Some? && units == old(units) + Range(Block(core.value, Max(nu, CORE)))
        && exists i :: 0 <= i < |fl| && fl[i].n >= nu
    {
      hide Insert, Ring, Covers, Tiles, Ordered, New, Range;
      var n := if nu < CORE then CORE else nu;
      if core.None? {
        return false;
      }
      var hp := core.value;
      ghost var b := Block(hp, n);
      ListOrdered(base, ptr, size, freep.value, fl);
      HigherIsNew(base, fl, live, units, b);
      NewApart(fl, live, b);
      RingElsewhere(base, ptr, size, freep.value, fl, hp, n);
      size := size[hp := n];
      ghost var t := Release(hp, b);
      ListOrdered(base, ptr, size, freep.value, fl);
      TilesGrown(old(fl), live, units, t, b);
      InsertBig(old(fl), t, b);
      NewHeaders(old(fl), live, old(units), t, b);
      units := units + Range(b);
      ok := true;
    }

    /** malloc takes n units from block i of the list, all of it or its tail. */
    method CarveOut(prevp: nat, p: nat, n: nat, ghost i: nat) returns (ap: nat)
      requires Valid() && freep.Some? && 1 <= i < |fl| && p == fl[i].a && prevp == fl[i - 1].a && 0 < n <= fl[i].n
      modifies this`ptr, this`size, this`freep, this`fl, this`live
      ensures Valid() && freep.Some? && ap > 0 && ap - 1 !in old(live) && live == old(live)[ap - 1 := n]
      ensures ap - 1 == old(fl[i].End()) - n && fl == Carve(old(fl), i, n)
    {
      hide Tiles, Ordered, Ring;
      ListOrdered(base, ptr, size, freep.value, fl);
      TilesCarved(fl, live, units, i, n);
      RingCarved(base, ptr, size, freep.value, fl, i, n);
      LiveNotFree(fl, live, units, i);
      var p' := p;
      if size[p] == n {
        ptr := ptr[prevp := ptr[p]];
      } else {
        size := size[p := size[p] - n];
        p' := p + size[p];
        size := size[p' := n];
      }
      freep := Some(prevp);
      fl, live := Carve(fl, i, n), live[p' := n];
      ap := p' + 1;
    }

    /** malloc's loop from the block after freep until a block is big enough or freep is reached. */
    method GoAround(nunits: nat) returns (found: bool, prevp: nat, p: nat, ghost i: nat)
      requires freep.Some? && Ring(base, ptr, size, freep.value, fl) && nunits > 0
      ensures !found ==> forall k :: 0 <= k < |fl| ==> fl[k].n < nunits
      ensures found ==> 1 <= i < |fl| && p == fl[i].a && prevp == fl[i - 1].a && fl[i].n >= nunits
    {
      hide Ordered, Linked, Around, Before, TooSmall;
      ListOrdered(base, ptr, size, freep.value, fl);
      prevp := freep.value;
      ghost var f :| 0 <= f < |fl| && fl[f].a == freep.value;
      LinkedAt(ptr, size, fl, f);
      AroundNext(fl, f, 0);
      StillTooSmall(fl, f, 0, nunits);
      p := ptr[prevp];
      i := Around(|fl|, f, 0);
      ghost var o := 0;
      while true
        invariant 0 <= o < |fl| && i == Around(|fl|, f, o)
        invariant p == fl[i].a && prevp == fl[Before(|fl|, i)].a
        invariant TooSmall(fl, f, o, nunits)
        decreases |fl| - o
      {
        LinkedAt(ptr, size, fl, i);
        if size[p] >= nunits {
          BeforeIs(fl, i);
          return true, prevp, p, i;
        }
        if p == freep.value {
          SameIndex(fl, i, f);
          WentAround(fl, f, o, nunits);
          return false, prevp, p, i;
        }
        AroundNext(fl, f, o);
        StillTooSmall(fl, f, o, nunits);
        o, i := o + 1, Around(|fl|, f, o + 1);
        prevp := p;
        p := ptr[p];
      }
    }

    /** malloc: a live block of the units asked for that was not live before, found going around the
        list, or, if no block is big enough, after extending memory by core and going around again;
        the second time around always finds one. */
    method Malloc(nbytes: nat, core: Option<nat>) returns (r: Option<nat>, calls: nat)
      requires Valid()
      requires core.Some? ==> base < core.value && forall u :: u in units ==> u < core.value
      modifies this`ptr, this`size, this`freep, this`fl, this`live, this`units
      ensures Valid() && calls <= 1
      ensures calls == 0 <==> exists i :: 0 <= i < |old(fl)| && old(fl)[i].n >= Units(nbytes)
      ensures r.None? <==> calls == 1 && core.None?
      ensures r.None? ==> fl == old(fl) && live == old(live) && units == old(units)
      ensures r.Some? ==> r.value > 0 && r.value - 1 !in old(live) && live == old(live)[r.value - 1 := Units(nbytes)]
      ensures units == old(units) +
        if calls == 1 && core.Some? then Range(Block(core.value, Max(Units(nbytes), CORE))) else {}
    {
      hide Tiles, Ordered, Range, Carve;
      var nunits := Units(nbytes);
      if freep.None? {
        ptr, size, freep := ptr[base := base], size[base := 0], Some(base);
        assert LinkAt(ptr, size, fl, 0);
      }
      hide Ring;
      calls := 0;
      var found, prevp, p; ghost var i;
      found, prevp, p, i := GoAround(nunits);
      if !found {
        var ok := Morecore(nunits, core);
        calls := 1;
        if !ok {
          return None, 1;
        }
        found, prevp, p, i := GoAround(nunits);
      }
      var ap := CarveOut(prevp, p, nunits, i);
      r := Some(ap);
    }
  }

  /** The two header updates of free, on the pointer circle. */
  lemma Relinked(fl: seq<Block>, t: nat, b: Block, ptr: map<nat, nat>, size: map<nat, nat>, ptr': map<nat, nat>,
                 size': map<nat, nat>)
    requires Ordered(fl) && Linked(ptr, size, fl) && Fits(fl, t, b)
    requires var m := Merged(fl, t, b);
      m.a in ptr' && m.a in size' && ptr'[m.a] == NextOf(fl, Upto(fl, t, b) - 1) && size'[m.a] == m.n
    requires !JoinsLeft(fl, t, b) ==>
      fl[t].a in ptr' && fl[t].a in size' && ptr'[fl[t].a] == b.a && size'[fl[t].a] == fl[t].n
    requires forall a :: a in ptr && a != b.a && a != fl[t].a ==> a in ptr' && ptr'[a] == ptr[a]
    requires forall a :: a in size && a != b.a && a != fl[t].a ==> a in size' && size'[a] == size[a]
    ensures Ordered(Insert(fl, t, b)) && Insert(fl, t, b)[0] == fl[0] && Linked(ptr', size', Insert(fl, t, b))
    ensures exists i :: 0 <= i < |Insert(fl, t, b)| && Insert(fl, t, b)[i].a == fl[t].a
  {
    forall i | 0 <= i < |fl| && i != t ensures fl[i].a != fl[t].a && fl[i].a != b.a {
    }
    hide Merged, Replace;
    InsertOrdered(fl, t, b);
    forall i | 0 <= i < |fl| && i != t && !(From(fl, t, b) <= i < Upto(fl, t, b)) ensures LinkAt(ptr', size', fl, i) {
      assert LinkAt(ptr, size, fl, i);
    }
    LinkInsert(fl, t, b, ptr', size');
    ReplaceAt(fl, From(fl, t, b), Upto(fl, t, b), Merged(fl, t, b), t);
    assert Insert(fl, t, b)[t].a == fl[t].a;
  }

  /** Units needed for nbytes and a header. */
  function Units(nbytes: nat): (n: nat)
    ensures 0 < n && nbytes <= (n - 1) * UNIT < nbytes + UNIT
  {
    (nbytes + UNIT - 1) / UNIT + 1
  }

  /** The index k + 1 steps after f in a circle of n. */
  ghost function Around(n: nat, f: nat, k: nat): (i: nat)
    requires f < n && k < n
    ensures i < n
  {
    if f + 1 + k < n then f + 1 + k else f + 1 + k - n
  }

  ghost function Before(n: nat, i: nat): (j: nat)
    requires i < n
    ensures j < n
  {
    if i == 0 then n - 1 else i - 1
  }

  lemma LinkedAt(ptr: map<nat, nat>, size: map<nat, nat>, fl: seq<Block>, i: nat)
    requires Linked(ptr, size, fl) && i < |fl|
    ensures LinkAt(ptr, size, fl, i)
  {
  }

  lemma LowestFirst(fl: seq<Block>, t: nat)
    requires Ordered(fl) && t < |fl|
    ensures fl[0].a <= fl[t].a
  {
  }

  lemma AroundNext(fl: seq<Block>, f: nat, o: nat)
    requires f < |fl| && o < |fl|
    ensures fl[Around(|fl|, f, 0)].a == NextOf(fl, f) && Before(|fl|, Around(|fl|, f, 0)) == f
    ensures Around(|fl|, f, o) != f ==>
      && o + 1 < |fl| && fl[Around(|fl|, f, o + 1)].a == NextOf(fl, Around(|fl|, f, o))
      && Before(|fl|, Around(|fl|, f, o + 1)) == Around(|fl|, f, o)
  {
  }

  lemma BeforeIs(fl: seq<Block>, i: nat)
    requires Ordered(fl) && i < |fl| && fl[i].n > 0
    ensures i >= 1 && Before(|fl|, i) == i - 1
  {
  }

  lemma SameIndex(fl: seq<Block>, i: nat, j: nat)
    requires Ordered(fl) && i < |fl| && j < |fl| && fl[i].a == fl[j].a
    ensures i == j
  {
  }

  /** The o blocks after f are smaller than n. */
  ghost predicate TooSmall(fl: seq<Block>, f: nat, o: nat, n: nat)
    requires f < |fl| && o <= |fl|
  {
    forall k :: 0 <= k < o ==> fl[Around(|fl|, f, k)].n < n
  }

  lemma StillTooSmall(fl: seq<Block>, f: nat, o: nat, n: nat)
    requires f < |fl| && o < |fl|
    ensures TooSmall(fl, f, 0, n)
    ensures TooSmall(fl, f, o, n) && fl[Around(|fl|, f, o)].n < n ==> TooSmall(fl, f, o + 1, n)
  {
  }

  /** Back at f after looking at every block. */
  lemma WentAround(fl: seq<Block>, f: nat, o: nat, n: nat)
    requires f < |fl| && o < |fl| && Around(|fl|, f, o) == f && TooSmall(fl, f, o, n) && fl[f].n < n
    ensures forall k :: 0 <= k < |fl| ==> fl[k].n < n
  {
    forall k | 0 <= k < |fl| ensures fl[k].n < n {
      var j := if k > f then k - f - 1 else k - f - 1 + |fl|;
      assert Around(|fl|, f, j) == k;
    }
  }

  lemma RingCarved(base: nat, ptr: map<nat, nat>, size: map<nat, nat>, freep: nat, fl: seq<Block>, i: nat, n: nat)
    requires Ring(base, ptr, size, freep, fl) && 1 <= i < |fl| && 0 < n <= fl[i].n
    ensures LinkAt(ptr, size, fl, i) && LinkAt(ptr, size, fl, i - 1)
    ensures n == fl[i].n ==> Ring(base, ptr[fl[i - 1].a := ptr[fl[i].a]], size, fl[i - 1].a, Carve(fl, i, n))
    ensures n < fl[i].n ==>
      Ring(base, ptr, size[fl[i].a := fl[i].n - n][fl[i].End() - n := n], fl[i - 1].a, Carve(fl, i, n))
  {
    CarveOrdered(fl, i, n);
    assert LinkAt(ptr, size, fl, i) && LinkAt(ptr, size, fl, i - 1);
    assert Carve(fl, i, n)[i - 1].a == fl[i - 1].a;
    if n == fl[i].n {
      LinkCarveWhole(ptr, size, fl, i);
    } else {
      LinkCarvePart(ptr, size, fl, i, n);
    }
  }

  lemma LiveNotFree(fl: seq<Block>, live: map<nat, nat>, units: set<nat>, i: nat)
    requires Ordered(fl) && Tiles(fl, live, units) && 1 <= i < |fl|
    ensures fl[0].a < fl[i].a && forall a :: a in live ==> a != fl[i].a
  {
    forall a | a in live ensures a != fl[i].a {
      assert Apart(fl[i], Block(a, live[a]));
    }
  }

  function Max(a: nat, b: nat): nat {
    if a < b then b else a
  }

  lemma ListOrdered(base: nat, ptr: map<nat, nat>, size: map<nat, nat>, freep: nat, fl: seq<Block>)
    requires Ring(base, ptr, size, freep, fl)
    ensures Ordered(fl) && fl[0] == Block(base, 0)
  {
  }

  /** Live blocks other than bp are neither bp nor on the list, so free leaves their headers alone. */
  lemma LiveHeaders(fl: seq<Block>, live: map<nat, nat>, units: set<nat>, t: nat, bp: nat)
    requires Ordered(fl) && Tiles(fl, live, units) && t < |fl| && (t == 0 ==> forall a :: a in live ==> fl[0].a < a)
    ensures forall a :: a in live && a != bp ==> a != fl[t].a
  {
    forall a | a in live ensures a != fl[t].a {
      assert Apart(fl[t], Block(a, live[a]));
    }
  }

  lemma NewApart(fl: seq<Block>, live: map<nat, nat>, b: Block)
    requires New(fl, live, b)
    ensures forall i :: 0 <= i < |fl| ==> Apart(fl[i], b)
  {
  }

  lemma LiveApart(fl: seq<Block>, live: map<nat, nat>, units: set<nat>, a: nat)
    requires Tiles(fl, live, units) && a in live
    ensures live[a] > 0 && forall i :: 0 <= i < |fl| ==> Apart(fl[i], Block(a, live[a]))
  {
  }

  lemma HigherIsNew(base: nat, fl: seq<Block>, live: map<nat, nat>, units: set<nat>, b: Block)
    requires Ordered(fl) && fl[0] == Block(base, 0) && Tiles(fl, live, units) && base < b.a && b.n > 0
    requires forall u :: u in units ==> u < b.a
    ensures New(fl, live, b) && b.a !in live && forall i :: 0 <= i < |fl| ==> fl[i].End() <= b.a && fl[i].a != b.a
  {
    forall i | 0 <= i < |fl| ensures fl[i].End() <= b.a && fl[i].a != b.a {
      if i > 0 {
        var u := fl[i].End() - 1;
        assert Covers(fl[i], u);
        assert UnitOk(fl, live, units, u);
      }
    }
    forall a | a in live ensures a + live[a] <= b.a {
      var u := a + live[a] - 1;
      assert Covers(Block(a, live[a]), u);
      assert UnitOk(fl, live, units, u);
    }
  }

  lemma RingElsewhere(base: nat, ptr: map<nat, nat>, size: map<nat, nat>, freep: nat, fl: seq<Block>, hp: nat, n: nat)
    requires Ring(base, ptr, size, freep, fl) && forall i :: 0 <= i < |fl| ==> fl[i].a != hp
    ensures Ring(base, ptr, size[hp := n], freep, fl)
  {
    var size' := size[hp := n];
    forall i | 0 <= i < |fl| ensures LinkAt(ptr, size', fl, i) {
      assert LinkAt(ptr, size, fl, i);
    }
  }

  lemma InsertBig(fl: seq<Block>, t: nat, b: Block)
    requires Ordered(fl) && Fits(fl, t, b)
    ensures exists i :: 0 <= i < |Insert(fl, t, b)| && Insert(fl, t, b)[i].n >= b.n
  {
    ReplaceAt(fl, From(fl, t, b), Upto(fl, t, b), Merged(fl, t, b), From(fl, t, b));
    assert Insert(fl, t, b)[From(fl, t, b)].n >= b.n;
  }

  lemma NewHeaders(fl: seq<Block>, live: map<nat, nat>, units: set<nat>, t: nat, b: Block)
    requires New(fl, live, b) && Ordered(fl) && Tiles(fl, live, units) && t < |fl|
    requires forall a :: a in live ==> fl[0].a < a
    ensures forall a :: a in live ==> a != b.a && a != fl[t].a
  {
    forall a | a in live ensures a != fl[t].a && a != b.a {
      assert Apart(fl[t], Block(a, live[a]));
      assert Apart(Block(a, live[a]), b);
    }
  }

  // ---------------------------------------------------------------- tiling

  lemma TilesFreed(fl: seq<Block>, live: map<nat, nat>, units: set<nat>, t: nat, bp: nat)
    requires Ordered(fl) && Tiles(fl, live, units) && bp in live && Fits(fl, t, Block(bp, live[bp]))
    ensures Tiles(Insert(fl, t, Block(bp, live[bp])), live - {bp}, units)
  {
    hide Insert, Fits;
    var b := Block(bp, live[bp]);
    var fl', live' := Insert(fl, t, b), live - {bp};
    forall a, i | a in live' && 0 <= i < |fl'| ensures Apart(fl'[i], Block(a, live'[a])) {
      assert Apart(b, Block(a, live[a]));
      InsertApart(fl, t, b, Block(a, live[a]), i);
    }
    forall u: nat ensures UnitOk(fl', live', units, u) {
      assert UnitOk(fl, live, units, u);
      InsertCovers(fl, t, b, u);
      LiveSplit(live, bp, u);
    }
  }

  lemma LiveSplit(live: map<nat, nat>, bp: nat, u: nat)
    requires bp in live
    ensures InLive(live, u) <==> InLive(live - {bp}, u) || Covers(Block(bp, live[bp]), u)
  {
    hide Covers;
    var live' := live - {bp};
    forall a | a in live' && Covers(Block(a, live'[a]), u) ensures a in live && Covers(Block(a, live[a]), u) {
    }
  }

  ghost function Range(b: Block): (us: set<nat>)
    ensures forall u :: u in us <==> Covers(b, u)
  {
    set u: nat | b.a <= u < b.End() && Covers(b, u)
  }

  /** b is memory not obtained before. */
  ghost predicate New(fl: seq<Block>, live: map<nat, nat>, b: Block) {
    && b.n > 0
    && (forall i :: 0 <= i < |fl| ==> Apart(fl[i], b))
    && (forall a :: a in live ==> Apart(Block(a, live[a]), b))
  }

  lemma TilesGrown(fl: seq<Block>, live: map<nat, nat>, units: set<nat>, t: nat, b: Block)
    requires Ordered(fl) && Tiles(fl, live, units) && New(fl, live, b) && Fits(fl, t, b)
    ensures Tiles(Insert(fl, t, b), live, units + Range(b))
  {
    hide Insert, Fits;
    var fl' := Insert(fl, t, b);
    forall a, i | a in live && 0 <= i < |fl'| ensures Apart(fl'[i], Block(a, live[a])) {
      assert Apart(Block(a, live[a]), b);
      InsertApart(fl, t, b, Block(a, live[a]), i);
    }
    forall u: nat ensures UnitOk(fl', live, units + Range(b), u) {
      assert UnitOk(fl, live, units, u);
      InsertCovers(fl, t, b, u);
    }
  }

  lemma TilesCarved(fl: seq<Block>, live: map<nat, nat>, units: set<nat>, i: nat, n: nat)
    requires Ordered(fl) && Tiles(fl, live, units) && 1 <= i < |fl| && 0 < n <= fl[i].n
    ensures fl[i].End() - n !in live
    ensures Tiles(Carve(fl, i, n), live[fl[i].End() - n := n], units)
  {
    hide Carve;
    var b := Block(fl[i].End() - n, n);
    var fl', live' := Carve(fl, i, n), live[b.a := n];
    forall a | a in live ensures Apart(b, Block(a, live[a])) && a != b.a {
      assert Apart(fl[i], Block(a, live[a]));
    }
    forall a, k | a in live' && 0 <= k < |fl'| ensures Apart(fl'[k], Block(a, live'[a])) {
      CarveApart(fl, i, n, k);
    }
    forall u: nat ensures UnitOk(fl', live', units, u) {
      assert UnitOk(fl, live, units, u);
      CarveCovers(fl, i, n, u);
      LiveSplit(live', b.a, u);
      assert live' - {b.a} == live;
    }
  }

  /** The last block below b. */
  ghost function Place(fl: seq<Block>, b: Block): (t: nat)
    requires Ordered(fl) && fl[0].a < b.a && b.n > 0 && forall i :: 0 <= i < |fl| ==> Apart(fl[i], b)
    ensures Fits(fl, t, b)
    ensures forall i :: 0 <= i < |fl| ==> (fl[i].a < b.a <==> i <= t)
  {
    PlaceFrom(fl, b, 0)
  }

  ghost function PlaceFrom(fl: seq<Block>, b: Block, i: nat): (t: nat)
    requires Ordered(fl) && i < |fl| && fl[i].a < b.a && b.n > 0 && forall i :: 0 <= i < |fl| ==> Apart(fl[i], b)
    ensures Fits(fl, t, b)
    ensures forall i :: 0 <= i < |fl| ==> (fl[i].a < b.a <==> i <= t)
    decreases |fl| - i
  {
    if i + 1 < |fl| && fl[i + 1].a < b.a then PlaceFrom(fl, b, i + 1)
    else
      assert Apart(fl[i], b) && (i + 1 < |fl| ==> Apart(fl[i + 1], b));
      i
  }

  // ---------------------------------------------------------------- the list is determined

  lemma FreeIsRest(fl: seq<Block>, live: map<nat, nat>, units: set<nat>, u: nat)
    requires Tiles(fl, live, units)
    ensures InFree(fl, u) <==> u in units && !InLive(live, u)
  {
    assert UnitOk(fl, live, units, u);
    forall i, a | 0 <= i < |fl| && Covers(fl[i], u) && a in live ensures !Covers(Block(a, live[a]), u) {
      assert Apart(fl[i], Block(a, live[a]));
    }
  }

  /** Whatever calls led there, the memory obtained and the blocks live determine the free list: in
      particular free undoes the malloc before it. */
  lemma ListDetermined(fl: seq<Block>, gl: seq<Block>, live: map<nat, nat>, units: set<nat>)
    requires Ordered(fl) && Ordered(gl) && fl[0] == gl[0] && Tiles(fl, live, units) && Tiles(gl, live, units)
    ensures fl == gl
  {
    hide Ordered, Tiles, InFree, InLive;
    forall u: nat ensures InFree(fl, u) <==> InFree(gl, u) {
      FreeIsRest(fl, live, units, u);
      FreeIsRest(gl, live, units, u);
    }
    Unique(fl, gl);
  }
}
