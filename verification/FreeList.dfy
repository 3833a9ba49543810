/** Free lists of the user-level allocator as values: blocks in address order, no two abutting.
    Addresses and sizes are in units of one header. */
module FreeList {
  datatype Block = Block(a: nat, n: nat) {
    function End(): nat {
      a + n
    }
  }

  /** The first block is the empty sentinel, the lowest of all; between any two blocks there is a gap. */
  ghost predicate Ordered(fl: seq<Block>) {
    && |fl| > 0 && fl[0].n == 0
    && (forall i :: 1 <= i < |fl| ==> fl[i].n > 0)
    && (forall i, j :: 0 <= i < j < |fl| ==> fl[i].End() < fl[j].a)
  }

  ghost predicate Covers(b: Block, u: nat) {
    b.a <= u < b.End()
  }

  ghost predicate InFree(fl: seq<Block>, u: nat) {
    exists i :: 0 <= i < |fl| && Covers(fl[i], u)
  }

  ghost predicate Apart(b: Block, c: Block) {
    b.End() <= c.a || c.End() <= b.a
  }

  // ---------------------------------------------------------------- the list as a circle of pointers

  /** Address of the block after block i, going around. */
  function NextOf(fl: seq<Block>, i: nat): nat
    requires i < |fl|
  {
    if i + 1 < |fl| then fl[i + 1].a else fl[0].a
  }

  ghost predicate LinkAt(ptr: map<nat, nat>, size: map<nat, nat>, fl: seq<Block>, i: nat)
    requires i < |fl|
  {
    var a := fl[i].a;
    a in ptr && a in size && ptr[a] == NextOf(fl, i) && size[a] == fl[i].n
  }

  ghost predicate Linked(ptr: map<nat, nat>, size: map<nat, nat>, fl: seq<Block>) {
    forall i {:trigger LinkAt(ptr, size, fl, i)} :: 0 <= i < |fl| ==> LinkAt(ptr, size, fl, i)
  }

  // ---------------------------------------------------------------- inserting a freed block

  /** b belongs right after block t. */
  ghost predicate Fits(fl: seq<Block>, t: nat, b: Block) {
    && t < |fl| && b.n > 0
    && fl[t].a < b.a && fl[t].End() <= b.a
    && (t + 1 < |fl| ==> b.End() <= fl[t + 1].a)
  }

  ghost predicate JoinsRight(fl: seq<Block>, t: nat, b: Block) {
    t + 1 < |fl| && b.End() == fl[t + 1].a
  }

  ghost predicate JoinsLeft(fl: seq<Block>, t: nat, b: Block)
    requires t < |fl|
  {
    fl[t].End() == b.a
  }

  /** Blocks at to skip - 1 give way to block b. */
  ghost function Replace(fl: seq<Block>, at: nat, skip: nat, b: Block): (r: seq<Block>)
    requires at <= skip <= |fl|
  {
    fl[..at] + [b] + fl[skip..]
  }

  lemma ReplaceAt(fl: seq<Block>, at: nat, skip: nat, b: Block, i: nat)
    requires at <= skip <= |fl| && i < at + 1 + |fl| - skip
    ensures |Replace(fl, at, skip, b)| == at + 1 + |fl| - skip
    ensures Replace(fl, at, skip, b)[i] == if i < at then fl[i] else if i == at then b else fl[i - at - 1 + skip]
  {
  }

  lemma ReplaceOrdered(fl: seq<Block>, at: nat, skip: nat, b: Block)
    requires Ordered(fl) && 1 <= at <= skip <= |fl| && b.n > 0
    requires fl[at - 1].End() < b.a && (skip < |fl| ==> b.End() < fl[skip].a)
    ensures Ordered(Replace(fl, at, skip, b)) && Replace(fl, at, skip, b)[0] == fl[0]
  {
    hide Replace;
    var r := Replace(fl, at, skip, b);
    ReplaceAt(fl, at, skip, b, 0);
    forall i | 1 <= i < |r| ensures r[i].n > 0 {
      ReplaceAt(fl, at, skip, b, i);
    }
    forall i, j | 0 <= i < j < |r| ensures r[i].End() < r[j].a {
      ReplaceAt(fl, at, skip, b, i);
      ReplaceAt(fl, at, skip, b, j);
    }
  }

  /** Where Insert puts the new block, how far it reaches, and the block itself: b merged with the
      block after it if they touch, and with the block before it if they touch. */
  ghost function From(fl: seq<Block>, t: nat, b: Block): nat
    requires Fits(fl, t, b)
  {
    if JoinsLeft(fl, t, b) then t else t + 1
  }

  ghost function Upto(fl: seq<Block>, t: nat, b: Block): nat
    requires Fits(fl, t, b)
  {
    if JoinsRight(fl, t, b) then t + 2 else t + 1
  }

  ghost function Merged(fl: seq<Block>, t: nat, b: Block): Block
    requires Fits(fl, t, b)
  {
    var n := if JoinsRight(fl, t, b) then b.n + fl[t + 1].n else b.n;
    if JoinsLeft(fl, t, b) then Block(fl[t].a, fl[t].n + n) else Block(b.a, n)
  }

  ghost function Insert(fl: seq<Block>, t: nat, b: Block): (r: seq<Block>)
    requires Fits(fl, t, b)
  {
    Replace(fl, From(fl, t, b), Upto(fl, t, b), Merged(fl, t, b))
  }

  lemma InsertOrdered(fl: seq<Block>, t: nat, b: Block)
    requires Ordered(fl) && Fits(fl, t, b)
    ensures Ordered(Insert(fl, t, b)) && Insert(fl, t, b)[0] == fl[0]
  {
    hide Replace;
    ReplaceOrdered(fl, From(fl, t, b), Upto(fl, t, b), Merged(fl, t, b));
  }

  lemma MergedCovers(fl: seq<Block>, t: nat, b: Block, u: nat)
    requires Ordered(fl) && Fits(fl, t, b)
    ensures Covers(Merged(fl, t, b), u) <==>
      Covers(b, u) || exists i :: From(fl, t, b) <= i < Upto(fl, t, b) && Covers(fl[i], u)
  {
    assert JoinsRight(fl, t, b) ==> (Covers(fl[t + 1], u) <==> b.End() <= u < fl[t + 1].End());
    assert JoinsLeft(fl, t, b) ==> (Covers(fl[t], u) <==> fl[t].a <= u < b.a);
  }

  lemma ReplaceCovers(fl: seq<Block>, at: nat, skip: nat, b: Block, u: nat)
    requires at <= skip <= |fl|
    ensures InFree(Replace(fl, at, skip, b), u) <==>
      Covers(b, u) || exists i :: 0 <= i < |fl| && !(at <= i < skip) && Covers(fl[i], u)
  {
    hide Covers, Replace;
    var r := Replace(fl, at, skip, b);
    ReplaceAt(fl, at, skip, b, at);
    if InFree(r, u) {
      var i :| 0 <= i < |r| && Covers(r[i], u);
      ReplaceAt(fl, at, skip, b, i);
    }
    if i :| 0 <= i < |fl| && !(at <= i < skip) && Covers(fl[i], u) {
      var k := if i < at then i else i - skip + at + 1;
      ReplaceAt(fl, at, skip, b, k);
      assert Covers(r[k], u);
    }
  }

  lemma InsertCovers(fl: seq<Block>, t: nat, b: Block, u: nat)
    requires Ordered(fl) && Fits(fl, t, b)
    ensures InFree(Insert(fl, t, b), u) <==> InFree(fl, u) || Covers(b, u)
  {
    hide Covers, Replace, Merged;
    MergedCovers(fl, t, b, u);
    ReplaceCovers(fl, From(fl, t, b), Upto(fl, t, b), Merged(fl, t, b), u);
  }

  /** Something apart from every block of the list and from b is apart from every block of the result. */
  lemma InsertApart(fl: seq<Block>, t: nat, b: Block, c: Block, i: nat)
    requires Ordered(fl) && Fits(fl, t, b) && Apart(b, c) && c.n > 0 && i < |Insert(fl, t, b)|
    requires forall k :: 0 <= k < |fl| ==> Apart(fl[k], c)
    ensures Apart(Insert(fl, t, b)[i], c)
  {
    ReplaceAt(fl, From(fl, t, b), Upto(fl, t, b), Merged(fl, t, b), i);
    assert Apart(fl[t], c) && (t + 1 < |fl| ==> Apart(fl[t + 1], c));
  }

  // ---------------------------------------------------------------- carving out an allocated block

  /** Block i gives up its last n units, or all of itself. */
  ghost function Carve(fl: seq<Block>, i: nat, n: nat): (r: seq<Block>)
    requires i < |fl| && n <= fl[i].n
  {
    if fl[i].n == n then fl[..i] + fl[i + 1..] else fl[i := Block(fl[i].a, fl[i].n - n)]
  }

  lemma CarveOrdered(fl: seq<Block>, i: nat, n: nat)
    requires Ordered(fl) && 1 <= i < |fl| && 0 < n <= fl[i].n
    ensures Ordered(Carve(fl, i, n)) && Carve(fl, i, n)[0] == fl[0]
  {
  }

  lemma CarveInsertWhole(fl: seq<Block>, i: nat)
    requires Ordered(fl) && 1 <= i < |fl|
    ensures var r := fl[..i] + fl[i + 1..]; Fits(r, i - 1, fl[i]) && Insert(r, i - 1, fl[i]) == fl
  {
    var r := fl[..i] + fl[i + 1..];
    assert r[i - 1] == fl[i - 1] && (i < |r| ==> r[i] == fl[i + 1]);
    assert Fits(r, i - 1, fl[i]) && !JoinsRight(r, i - 1, fl[i]) && !JoinsLeft(r, i - 1, fl[i]);
    assert r[..i] + [fl[i]] + r[i..] == fl;
  }

  lemma CarveInsertPart(fl: seq<Block>, i: nat, n: nat)
    requires Ordered(fl) && 1 <= i < |fl| && 0 < n < fl[i].n
    ensures var r, b := fl[i := Block(fl[i].a, fl[i].n - n)], Block(fl[i].End() - n, n);
      Fits(r, i, b) && Insert(r, i, b) == fl
  {
    var r, b := fl[i := Block(fl[i].a, fl[i].n - n)], Block(fl[i].End() - n, n);
    assert i + 1 < |fl| ==> r[i + 1] == fl[i + 1] && fl[i].End() < fl[i + 1].a;
    assert Fits(r, i, b) && !JoinsRight(r, i, b) && JoinsLeft(r, i, b) && Merged(r, i, b) == fl[i];
    assert r[..i] + [fl[i]] + r[i + 1..] == fl;
  }

  /** Freeing a block right after carving it out gives the list back. */
  lemma CarveInsert(fl: seq<Block>, i: nat, n: nat)
    requires Ordered(fl) && 1 <= i < |fl| && 0 < n <= fl[i].n
    ensures var b, t := Block(fl[i].End() - n, n), if fl[i].n == n then i - 1 else i;
      Fits(Carve(fl, i, n), t, b) && Insert(Carve(fl, i, n), t, b) == fl
  {
    hide Insert, Fits;
    if fl[i].n == n {
      CarveInsertWhole(fl, i);
    } else {
      CarveInsertPart(fl, i, n);
    }
  }

  lemma CarveCovers(fl: seq<Block>, i: nat, n: nat, u: nat)
    requires Ordered(fl) && 1 <= i < |fl| && 0 < n <= fl[i].n
    ensures InFree(fl, u) <==> InFree(Carve(fl, i, n), u) || Covers(Block(fl[i].End() - n, n), u)
  {
    hide InFree, Covers, Insert, Carve;
    CarveOrdered(fl, i, n);
    CarveInsert(fl, i, n);
    InsertCovers(Carve(fl, i, n), if fl[i].n == n then i - 1 else i, Block(fl[i].End() - n, n), u);
  }

  /** What is left lies apart from the block carved out, and inside the blocks there were. */
  lemma CarveApart(fl: seq<Block>, i: nat, n: nat, k: nat)
    requires Ordered(fl) && 1 <= i < |fl| && 0 < n <= fl[i].n && k < |Carve(fl, i, n)|
    ensures Apart(Carve(fl, i, n)[k], Block(fl[i].End() - n, n))
    ensures exists j :: 0 <= j < |fl| && fl[j].a <= Carve(fl, i, n)[k].a && Carve(fl, i, n)[k].End() <= fl[j].End()
  {
    var j := if k < i || fl[i].n > n then k else k + 1;
    assert fl[j].a <= Carve(fl, i, n)[k].a && Carve(fl, i, n)[k].End() <= fl[j].End();
    assert j < i ==> fl[j].End() < fl[i].a;
    assert j > i ==> fl[i].End() < fl[j].a;
  }

  // ---------------------------------------------------------------- relinking

  /** The pointer circle after Insert: the merged block points past what it swallowed, and the block
      before it points to it. */
  lemma LinkInsert(fl: seq<Block>, t: nat, b: Block, ptr': map<nat, nat>, size': map<nat, nat>)
    requires Ordered(fl) && Fits(fl, t, b)
    requires var m := Merged(fl, t, b);
      m.a in ptr' && m.a in size' && ptr'[m.a] == NextOf(fl, Upto(fl, t, b) - 1) && size'[m.a] == m.n
    requires !JoinsLeft(fl, t, b) ==>
      fl[t].a in ptr' && fl[t].a in size' && ptr'[fl[t].a] == b.a && size'[fl[t].a] == fl[t].n
    requires forall i :: 0 <= i < |fl| && i != t && !(From(fl, t, b) <= i < Upto(fl, t, b)) ==>
      LinkAt(ptr', size', fl, i)
    ensures Linked(ptr', size', Insert(fl, t, b))
  {
    hide Replace;
    var at, skip, m := From(fl, t, b), Upto(fl, t, b), Merged(fl, t, b);
    var r := Insert(fl, t, b);
    ReplaceAt(fl, at, skip, m, 0);
    forall i | 0 <= i < |r| ensures LinkAt(ptr', size', r, i) {
      ReplaceAt(fl, at, skip, m, i);
      if i + 1 < |r| {
        ReplaceAt(fl, at, skip, m, i + 1);
      }
      assert i < at && i != t ==> LinkAt(ptr', size', fl, i);
      assert i > at ==> LinkAt(ptr', size', fl, i - at - 1 + skip);
    }
  }

  lemma LinkCarveWhole(ptr: map<nat, nat>, size: map<nat, nat>, fl: seq<Block>, i: nat)
    requires Ordered(fl) && Linked(ptr, size, fl) && 1 <= i < |fl|
    ensures Linked(ptr[fl[i - 1].a := NextOf(fl, i)], size, fl[..i] + fl[i + 1..])
  {
    var r := fl[..i] + fl[i + 1..];
    var ptr' := ptr[fl[i - 1].a := NextOf(fl, i)];
    forall k | 0 <= k < |r| ensures LinkAt(ptr', size, r, k) {
      assert LinkAt(ptr, size, fl, if k < i then k else k + 1);
      assert k < i - 1 ==> fl[k].End() < fl[i - 1].a;
      assert k >= i ==> fl[i - 1].End() < fl[k + 1].a;
    }
  }

  lemma LinkCarvePart(ptr: map<nat, nat>, size: map<nat, nat>, fl: seq<Block>, i: nat, n: nat)
    requires Ordered(fl) && Linked(ptr, size, fl) && 1 <= i < |fl| && 0 < n < fl[i].n
    ensures Linked(ptr, size[fl[i].a := fl[i].n - n][fl[i].End() - n := n], fl[i := Block(fl[i].a, fl[i].n - n)])
  {
    var r := fl[i := Block(fl[i].a, fl[i].n - n)];
    var size' := size[fl[i].a := fl[i].n - n][fl[i].End() - n := n];
    forall k | 0 <= k < |r| ensures LinkAt(ptr, size', r, k) {
      assert LinkAt(ptr, size, fl, k);
      assert k < i ==> fl[k].End() < fl[i].a;
      assert k > i ==> fl[i].End() < fl[k].a;
    }
  }

  // ---------------------------------------------------------------- a free list is determined by its units

  lemma FirstBlock(fl: seq<Block>, gl: seq<Block>)
    requires Ordered(fl) && Ordered(gl) && |fl| > 1 && forall u: nat :: InFree(fl, u) ==> InFree(gl, u)
    ensures |gl| > 1 && gl[1].a <= fl[1].a
  {
    var u := fl[1].a;
    assert Covers(fl[1], u);
    assert InFree(fl, u);
    var k :| 0 <= k < |gl| && Covers(gl[k], u);
    assert k >= 1 && gl[1].a <= gl[k].a;
  }

  lemma GapAfter(gl: seq<Block>)
    requires Ordered(gl) && |gl| > 1
    ensures !InFree(gl, gl[1].End())
  {
    forall k | 0 <= k < |gl| ensures !Covers(gl[k], gl[1].End()) {
      assert k >= 2 ==> gl[1].End() < gl[k].a;
    }
  }

  /** The first blocks start together; the one of fl is not the longer one. */
  lemma FirstSize(fl: seq<Block>, gl: seq<Block>)
    requires Ordered(fl) && Ordered(gl) && |fl| > 1 && |gl| > 1 && fl[1].a == gl[1].a
    requires forall u: nat :: InFree(fl, u) ==> InFree(gl, u)
    ensures fl[1].n <= gl[1].n
  {
    GapAfter(gl);
    assert !InFree(fl, gl[1].End());
    assert !Covers(fl[1], gl[1].End());
  }

  lemma TailUnits(fl: seq<Block>, gl: seq<Block>, u: nat)
    requires Ordered(fl) && Ordered(gl) && |fl| > 1 && |gl| > 1 && fl[1] == gl[1]
    requires InFree(fl, u) ==> InFree(gl, u)
    ensures InFree([fl[0]] + fl[2..], u) ==> InFree([gl[0]] + gl[2..], u)
  {
    var f, g := [fl[0]] + fl[2..], [gl[0]] + gl[2..];
    if InFree(f, u) {
      var k :| 0 <= k < |f| && Covers(f[k], u);
      assert k >= 1 && f[k] == fl[k + 1];
      assert InFree(fl, u);
      var j :| 0 <= j < |gl| && Covers(gl[j], u);
      assert j >= 2;
      assert g[j - 1] == gl[j];
    }
  }

  /** Two free lists with the same sentinel that cover the same units are the same list. */
  lemma {:induction false} Unique(fl: seq<Block>, gl: seq<Block>)
    requires Ordered(fl) && Ordered(gl) && fl[0] == gl[0]
    requires forall u: nat :: InFree(fl, u) <==> InFree(gl, u)
    ensures fl == gl
    decreases |fl|
  {
    if |fl| > 1 {
      FirstBlock(fl, gl);
      FirstBlock(gl, fl);
      FirstSize(fl, gl);
      FirstSize(gl, fl);
      forall u: nat ensures InFree([fl[0]] + fl[2..], u) <==> InFree([gl[0]] + gl[2..], u) {
        TailUnits(fl, gl, u);
        TailUnits(gl, fl, u);
      }
      Unique([fl[0]] + fl[2..], [gl[0]] + gl[2..]);
      assert fl == [fl[0], fl[1]] + ([fl[0]] + fl[2..])[1..];
      assert gl == [gl[0], gl[1]] + ([gl[0]] + gl[2..])[1..];
    } else if |gl| > 1 {
      FirstBlock(gl, fl);
    }
  }
}
