/** The page allocator (kalloc.c) and the user virtual-memory code (vm.c) over one pool of physical
    pages.  Ghost fields hold the abstract state that VmSpec talks about. */
module Vm {
  import opened PageTable
  import opened Blocks
  import opened VmSpec
  import opened UserBytes
  import opened Options

  class Machine {
    const lo: nat
    const hi: nat
    var ptes: Tables
    var data: map<nat, seq<Byte>>
    var free: seq<nat>
    ghost var tbl: map<nat, Node>
    ghost var roots: set<nat>
    ghost var view: map<Place, Pte>
    ghost var leaf: map<nat, Place>
    ghost var held: set<nat>

    ghost predicate Valid()
      reads this
    {
      Good(lo, hi, ptes, data, free, tbl, roots, view, leaf, held)
    }

    // ---------------------------------------------------------------- kalloc.c

    /** kinit and freerange: all pages of the pool are free. */
    constructor (lo: nat, hi: nat)
      requires 0 < lo <= hi
      ensures Valid() && this.lo == lo && this.hi == hi
      ensures roots == {} && view == map[] && leaf == map[] && held == {} && |free| == hi - lo
    {
      this.lo, this.hi := lo, hi;
      ptes, data, free := map[], map[], [];
      tbl, roots, view, leaf, held := map[], {}, map[], map[], {};
      new;
      var p := lo;
      while p < hi
        modifies this`free
        invariant lo <= p <= hi
        invariant |free| == p - lo && forall i :: 0 <= i < |free| ==> free[i] == p - 1 - i
      {
        free := [p] + free;
        p := p + 1;
      }
      forall q | lo <= q < hi ensures q in free {
        assert free[hi - 1 - q] == q;
      }
    }

    /** kalloc: the head of the free list, None when memory is exhausted. */
    method Kalloc() returns (r: Option<nat>)
      requires Valid()
      modifies this`free, this`held
      ensures Valid()
      ensures r.None? <==> old(free) == []
      ensures r.None? ==> free == old(free) && held == old(held)
      ensures r.Some? ==> r.value == old(free)[0] && free == old(free)[1..] && held == old(held) + {r.value}
                          && r.value !in tbl && r.value !in leaf && r.value !in old(held)
    {
      if free == [] {
        r := None;
      } else {
        r := Some(free[0]);
        TakeFree(lo, hi, free, tbl, leaf, held);
        free, held := free[1..], held + {free[0]};
      }
    }

    /** kfree of a page that its caller owns; the range test cannot fail for such a page. */
    method Kfree(p: nat)
      requires Valid() && p in held
      modifies this`free, this`held, this`data
      ensures Valid()
      ensures free == [p] + old(free) && held == old(held) - {p} && data == old(data) - {p}
    {
      assert lo <= p < hi;
      GiveBack(lo, hi, free, tbl, leaf, held, p);
      free, held, data := [p] + free, held - {p}, data - {p};
    }

    // ---------------------------------------------------------------- walk

    /** One level of walk(): the table under the entry for k, created on demand. */
    method Descend(page: nat, ghost root: nat, vpn: nat, level: nat, alloc: bool) returns (r: Option<nat>)
      requires Valid() && 0 < level <= 2 && vpn < MAXVPN && root in roots && OnPath(tbl, page, Place(root, vpn), level)
      modifies this`ptes, this`free, this`tbl, this`held
      ensures Valid() && held == old(held)
      ensures !alloc ==> ptes == old(ptes) && free == old(free) && tbl == old(tbl)
      ensures r.None? ==> (alloc ==> free == []) && free == old(free) && Place(root, vpn) !in view
      ensures r.Some? ==> OnPath(tbl, r.value, Place(root, vpn), level - 1) && |free| + 1 >= |old(free)|
    {
      assert TableOk(ptes, tbl, page);
      PrefixStep(vpn, level);
      var i := Index(vpn, level);
      var pte := ptes[page][i];
      if IsValid(pte) {
        return Some(pte.ppn);
      }
      AbsentFromView(ptes, tbl, roots, view, Place(root, vpn), page);
      if !alloc {
        return None;
      }
      r := Kalloc();
      if r.Some? {
        Link(page, i, r.value);
      }
    }

    /** walk()'s *pte = PA2PTE(page) | PTE_V for a fresh zeroed page. */
    method Link(p: nat, i: nat, page: nat)
      requires Valid() && CanLink(ptes, tbl, p, i, page) && page in held
      modifies this`ptes, this`tbl, this`held
      ensures Valid() && held == old(held) - {page}
      ensures tbl == LinkedPlaces(old(tbl), p, i, page)
    {
      LinkGood(lo, hi, ptes, data, free, tbl, roots, view, leaf, held, p, i, page);
      ptes, tbl, held := Linked(ptes, p, i, page), LinkedPlaces(tbl, p, i, page), held - {page};
    }

    /** walk(): the location of the leaf entry for va.  Creating tables changes no translation
        of any address space, and without alloc nothing changes at all. */
    method Walk(root: nat, va: nat, alloc: bool) returns (r: WalkResult)
      requires Valid() && root in roots
      modifies this`ptes, this`free, this`tbl, this`held
      ensures Valid() && held == old(held)
      ensures r.WalkPanic? <==> va >= MAXVA
      ensures r.WalkPanic? || !alloc ==> ptes == old(ptes) && free == old(free) && tbl == old(tbl)
      ensures r.Entry? ==> AtLeaf(tbl, Place(root, va / PGSIZE), r)
      ensures r.Absent? ==> Place(root, va / PGSIZE) !in view && (alloc ==> free == [] && |old(free)| < 2)
      ensures |free| + 2 >= |old(free)|
    {
      if va >= MAXVA {
        return WalkPanic;
      }
      var vpn := va / PGSIZE;
      var page, level := root, 2;
      assert TableOk(ptes, tbl, root);
      while level > 0
        invariant 0 <= level <= 2
        invariant Valid() && held == old(held)
        invariant !alloc ==> ptes == old(ptes) && free == old(free) && tbl == old(tbl)
        invariant OnPath(tbl, page, Place(root, vpn), level) && |free| + 2 - level >= |old(free)|
      {
        var next := Descend(page, root, vpn, level, alloc);
        if next.None? {
          return Absent;
        }
        page, level := next.value, level - 1;
      }
      return Entry(page, Index(vpn, 0));
    }

    /** *pte = pte: one translation of one address space changes. */
    method SetEntry(ghost k: Place, at: WalkResult, pte: Pte)
      requires Valid() && k.root in roots && k.vpn < MAXVPN && AtLeaf(tbl, k, at)
      requires forall p :: p in leaf ==> leaf[p] != k
      modifies this`ptes, this`view
      ensures Valid()
      ensures view == Put(old(view), k, pte)
    {
      SetGood(lo, hi, ptes, data, free, tbl, roots, view, leaf, held, k, at, pte);
      ptes, view := ptes[at.page := ptes[at.page][at.index := pte]], Put(view, k, pte);
    }

    // ---------------------------------------------------------------- mappages

    /** One round of mappages, for virtual page vpn: it becomes mapped, unless it already is. */
    method MapOne(root: nat, vpn: nat, pte: Pte) returns (r: MapResult)
      requires Valid() && root in roots && IsValid(pte)
      modifies this`ptes, this`free, this`tbl, this`held, this`view
      ensures Valid() && held == old(held)
      ensures r == MapOk ==>
        && vpn < MAXVPN && Place(root, vpn) !in old(view)
        && view == old(view)[Place(root, vpn) := pte]
      ensures r != MapOk ==> view == old(view)
      ensures r == MapFail ==> free == [] && |old(free)| < 2
      ensures r == MapOk ==> |free| + 2 >= |old(free)|
      ensures r == MapPanic ==> vpn >= MAXVPN || Place(root, vpn) in view
    {
      var at := Walk(root, vpn * PGSIZE, true);
      assert vpn * PGSIZE / PGSIZE == vpn;
      if at == WalkPanic {
        return MapPanic;
      }
      if at == Absent {
        return MapFail;
      }
      EntryIsView(ptes, tbl, roots, view, Place(root, vpn), at);
      if IsValid(ptes[at.page][at.index]) {
        return MapPanic;
      }
      SetEntry(Place(root, vpn), at, pte);
      return MapOk;
    }

    /** The loop of mappages, from virtual page `first` to `last`. */
    method MapLoop(root: nat, first: nat, last: nat, ppn: nat, flags: nat) returns (r: MapResult, ghost n: nat)
      requires Valid() && root in roots && flags % 2 == 1
      modifies this`ptes, this`free, this`tbl, this`held, this`view
      ensures Valid() && held == old(held)
      ensures AddedRange(old(view), view, root, first, n, ppn, flags)
      ensures r == MapOk ==> last == first + n - 1
      ensures r != MapOk && first <= last ==> first + n <= last
      ensures r == MapFail ==> free == [] && |old(free)| < 2 * n + 2
      ensures r == MapOk ==> |free| + 2 * n >= |old(free)|
      ensures r == MapPanic ==> first + n >= MAXVPN || Place(root, first + n) in old(view)
    {
      hide Good, Refines, Partition;
      n, r := 0, MapOk;
      var v, p, done := first, ppn, false;
      while !done && r == MapOk
        invariant Valid() && held == old(held)
        invariant !done ==> v == first + n && p == ppn + n
        invariant done ==> r == MapOk && last == first + n - 1
        invariant !done && first <= last ==> first + n <= last
        invariant AddedRange(old(view), view, root, first, n, ppn, flags)
        invariant r == MapFail ==> free == [] && |old(free)| < 2 * n + 2
        invariant r == MapOk ==> |free| + 2 * n >= |old(free)|
        invariant r == MapPanic ==> first + n >= MAXVPN || Place(root, first + n) in old(view)
        decreases r == MapOk, !done, MAXVPN + 1 - v
      {
        ghost var before := view;
        assert Place(root, v) == Place(root, first + n) && Pte(p, flags) == Pte(ppn + n, flags);
        AddedAt(old(view), before, root, first, n, ppn, flags);
        ghost var mapped := Place(root, first + n) in old(view);
        assert mapped <==> Place(root, v) in view;
        r := MapOne(root, v, Pte(p, flags));
        assert r == MapPanic ==> first + n >= MAXVPN || mapped;
        if r == MapOk {
          AddedMore(old(view), before, view, root, first, n, ppn, flags);
          n := n + 1;
          if v == last {
            done := true;
          } else {
            v, p := v + 1, p + 1;
          }
        }
      }
    }

    /** mappages: on success exactly the pages of [va, va + size) become mapped, in order, and
        were unmapped before; when memory runs out, a prefix of them; no other translation of
        any address space changes. */
    method MapPages(root: nat, va: nat, size: nat, pa: nat, perm: nat) returns (r: MapResult, ghost n: nat)
      requires Valid() && root in roots && va < 0x1_0000_0000_0000_0000 && perm < 1024
      modifies this`ptes, this`free, this`tbl, this`held, this`view
      ensures Valid() && held == old(held)
      ensures AddedRange(old(view), view, root, va / PGSIZE, n, pa / PGSIZE, WithValid(perm))
      ensures r == MapOk ==> 0 < size && LastPage(va, size) == va / PGSIZE + n - 1
      ensures r != MapOk && 0 < size && va / PGSIZE <= LastPage(va, size) ==> va / PGSIZE + n <= LastPage(va, size)
      ensures r == MapFail ==> 0 < size && free == [] && |old(free)| < 2 * n + 2
      ensures r == MapOk ==> |free| + 2 * n >= |old(free)|
      ensures r == MapPanic ==> size == 0 || va / PGSIZE + n >= MAXVPN || Place(root, va / PGSIZE + n) in old(view)
    {
      if size == 0 {
        return MapPanic, 0;
      }
      r, n := MapLoop(root, va / PGSIZE, LastPage(va, size), pa / PGSIZE, WithValid(perm));
    }

    /** mappages of a single page, as uvmalloc and uvmcopy call it. */
    method MapPage(root: nat, vpn: nat, ppn: nat, perm: nat) returns (r: MapResult)
      requires Valid() && root in roots && vpn < 0x10_0000_0000_0000 && perm < 1024
      modifies this`ptes, this`free, this`tbl, this`held, this`view
      ensures Valid() && held == old(held)
      ensures r == MapOk ==> vpn < MAXVPN && Place(root, vpn) !in old(view)
                             && view == old(view)[Place(root, vpn) := Pte(ppn, WithValid(perm))]
      ensures r != MapOk ==> view == old(view)
      ensures r == MapFail ==> free == [] && |old(free)| < 2
      ensures r == MapOk ==> |free| + 2 >= |old(free)|
      ensures r == MapPanic ==> vpn >= MAXVPN || Place(root, vpn) in view
    {
      hide Good, Refines, Partition;
      ghost var n;
      r, n := MapPages(root, vpn * PGSIZE, PGSIZE, ppn * PGSIZE, perm);
      assert vpn * PGSIZE / PGSIZE == vpn && ppn * PGSIZE / PGSIZE == ppn && LastPage(vpn * PGSIZE, PGSIZE) == vpn;
      SinglePage(old(view), view, root, vpn, n, ppn, WithValid(perm), r);
    }

    // ---------------------------------------------------------------- uvmunmap

    /** One round of uvmunmap.  Nothing changes when it panics. */
    method UnmapOne(root: nat, vpn: nat, doFree: bool, ghost freed: set<nat>) returns (ok: bool)
      requires Valid() && root in roots
      requires if doFree then OwnsRange(view, leaf, root, vpn, 1) else OwnsNone(leaf, root, vpn, 1)
      requires freed == if doFree && Place(root, vpn) in view then {view[Place(root, vpn)].ppn} else {}
      modifies this`ptes, this`free, this`tbl, this`held, this`view, this`leaf, this`data
      ensures ok <==> vpn < MAXVPN && CanUnmap(old(view), Place(root, vpn))
      ensures tbl == old(tbl) && held == old(held)
      ensures ok ==> Valid() && view == old(view) - {Place(root, vpn)}
      ensures ok ==> data == old(data) - freed && leaf == old(leaf) - freed
      ensures ok && !doFree ==> free == old(free)
    {
      hide Good, Refines, Partition;
      var at := Walk(root, vpn * PGSIZE, false);
      assert vpn * PGSIZE / PGSIZE == vpn;
      ghost var k := Place(root, vpn);
      GoodParts(lo, hi, ptes, data, free, tbl, roots, view, leaf, held);
      if !at.Entry? {
        return false;
      }
      EntryIsView(ptes, tbl, roots, view, k, at);
      var pte := ptes[at.page][at.index];
      if !IsValid(pte) || pte.flags == PTE_V {
        return false;
      }
      assert InRange(k, root, vpn, 1);
      if doFree {
        Disown(pte.ppn);
        Kfree(pte.ppn);
      }
      SetEntry(k, at, NullPte);
      return true;
    }

    /** uvmunmap: it succeeds exactly when every page of the range is a mapped leaf, and then
        removes exactly those translations; with doFree their frames, and no others, are back
        on the free list. */
    method UvmUnmap(root: nat, va: nat, npages: nat, doFree: bool) returns (ok: bool)
      requires Valid() && root in roots
      requires doFree ==> OwnsRange(view, leaf, root, va / PGSIZE, npages)
      requires !doFree ==> OwnsNone(leaf, root, va / PGSIZE, npages)
      modifies this`ptes, this`free, this`tbl, this`held, this`view, this`leaf, this`data
      ensures ok <==> va % PGSIZE == 0 && CanUnmapRange(old(view), root, va / PGSIZE, npages)
      ensures ok ==> Valid() && view == RemoveRange(old(view), root, va / PGSIZE, npages)
      ensures ok ==> tbl == old(tbl) && held == old(held) && SameData(old(data), data, leaf)
      ensures ok ==> leaf == LeafOutside(old(leaf), root, va / PGSIZE, npages)
      ensures ok && !doFree ==> free == old(free) && leaf == old(leaf) && data == old(data)
    {
      if va % PGSIZE != 0 {
        return false;
      }
      ok := UnmapLoop(root, va / PGSIZE, npages, doFree);
    }

    method UnmapLoop(root: nat, first: nat, npages: nat, doFree: bool) returns (ok: bool)
      requires Valid() && root in roots
      requires doFree ==> OwnsRange(view, leaf, root, first, npages)
      requires !doFree ==> OwnsNone(leaf, root, first, npages)
      modifies this`ptes, this`free, this`tbl, this`held, this`view, this`leaf, this`data
      ensures ok <==> CanUnmapRange(old(view), root, first, npages)
      ensures ok ==> Valid() && view == RemoveRange(old(view), root, first, npages)
      ensures ok ==> tbl == old(tbl) && held == old(held) && SameData(old(data), data, leaf)
      ensures ok ==> leaf == LeafOutside(old(leaf), root, first, npages)
      ensures ok && !doFree ==> free == old(free) && leaf == old(leaf) && data == old(data)
    {
      hide Good, Unmapping, Refines, Partition;
      var i := 0;
      GoodParts(lo, hi, ptes, data, free, tbl, roots, view, leaf, held);
      UnmappingStart(view, data, leaf, root, first, npages, doFree);
      while i < npages
        invariant 0 <= i <= npages
        invariant Valid() && tbl == old(tbl) && held == old(held)
        invariant Unmapping(old(view), old(data), old(leaf), view, data, leaf, root, first, i, npages, doFree)
        invariant !doFree ==> free == old(free) && leaf == old(leaf) && data == old(data)
      {
        ghost var k := Place(root, first + i);
        ghost var freed := if doFree && k in view then {view[k].ppn} else {};
        GoodParts(lo, hi, ptes, data, free, tbl, roots, view, leaf, held);
        UnmappingStep(old(view), old(data), old(leaf), view, data, leaf, root, first, i, npages, doFree, freed);
        ok := UnmapOne(root, first + i, doFree, freed);
        if !ok {
          return false;
        }
        i := i + 1;
      }
      UnmappingEnd(old(view), old(data), old(leaf), view, data, leaf, root, first, npages, doFree);
      return true;
    }

    // ---------------------------------------------------------------- uvmalloc, uvmdealloc

    /** uvmdealloc: shrink from oldsz to newsz; nothing happens when newsz is not smaller.  It
        fails only by the panics of uvmunmap. */
    method UvmDealloc(root: nat, oldsz: nat, newsz: nat) returns (ok: bool, sz: nat)
      requires Valid() && root in roots && (newsz < oldsz ==> oldsz <= MAXVA)
      requires newsz < oldsz ==> OwnsRange(view, leaf, root, Pages(newsz), Pages(oldsz) - Pages(newsz))
      modifies this`ptes, this`free, this`tbl, this`held, this`view, this`leaf, this`data
      ensures ok <==> newsz >= oldsz || CanUnmapRange(old(view), root, Pages(newsz), Pages(oldsz) - Pages(newsz))
      ensures ok ==> sz == if newsz < oldsz then newsz else oldsz
      ensures ok ==> Valid() && tbl == old(tbl) && held == old(held) && SameData(old(data), data, leaf)
      ensures ok ==> var n := if newsz < oldsz then Pages(oldsz) - Pages(newsz) else 0;
        view == RemoveRange(old(view), root, Pages(newsz), n) && leaf == LeafOutside(old(leaf), root, Pages(newsz), n)
    {
      hide Good, Refines, Partition;
      GoodParts(lo, hi, ptes, data, free, tbl, roots, view, leaf, held);
      OutsideNone(leaf, root, Pages(newsz));
      if newsz >= oldsz {
        return true, oldsz;
      }
      if RoundUp(newsz) < RoundUp(oldsz) {
        var npages := (RoundUp(oldsz) - RoundUp(newsz)) / PGSIZE;
        assert npages == Pages(oldsz) - Pages(newsz);
        ok := UvmUnmap(root, RoundUp(newsz), npages, true);
        if !ok {
          return false, 0;
        }
      }
      return true, newsz;
    }

    /** One round of uvmalloc or uvmcopy: a fresh page holding `bytes` becomes user page vpn, or
        nothing has changed except for table pages. */
    method AddPage(root: nat, vpn: nat, perm: nat, bytes: seq<Byte>) returns (r: MapResult, ghost p: nat)
      requires Valid() && root in roots && vpn < 0x10_0000_0000_0000 && perm < 1024 && |bytes| == PGSIZE
      modifies this`ptes, this`free, this`tbl, this`held, this`view, this`leaf, this`data
      ensures r != MapPanic ==> Valid() && held == old(held)
      ensures r == MapOk ==> vpn < MAXVPN && Place(root, vpn) !in old(view) && p in old(free) && p !in old(leaf)
                             && view == old(view)[Place(root, vpn) := Pte(p, WithValid(perm))]
                             && leaf == old(leaf)[p := Place(root, vpn)] && data == old(data)[p := bytes]
      ensures r == MapOk ==> |free| + 3 >= |old(free)|
      ensures r == MapFail ==>
        && view == old(view) && leaf == old(leaf) && SameData(old(data), data, leaf)
        && |old(free)| < 3
      ensures r == MapPanic ==> vpn >= MAXVPN || Place(root, vpn) in old(view)
    {
      hide Good, Refines, Partition;
      GoodParts(lo, hi, ptes, data, free, tbl, roots, view, leaf, held);
      p := 0;
      var mem := Kalloc();
      if mem.None? {
        return MapFail, 0;
      }
      SetData(mem.value, bytes);
      r := MapPage(root, vpn, mem.value, perm);
      p := mem.value;
      if r == MapOk {
        Adopt(p, Place(root, vpn));
      } else if r == MapFail {
        Kfree(mem.value);
      }
    }

    /** uvmalloc: grow from oldsz to newsz.  On success exactly the new pages are mapped, each to
        a zeroed page of its own that was free, readable, writable, executable and open to the user;
        when memory runs out, every address space has the leaf mappings and every user page the
        bytes it started with. */
    method UvmAlloc(root: nat, oldsz: nat, newsz: nat) returns (r: MapResult, sz: nat)
      requires Valid() && root in roots && newsz < 0x1_0000_0000_0000_0000
      modifies this`ptes, this`free, this`tbl, this`held, this`view, this`leaf, this`data
      ensures r != MapPanic ==> Valid() && held == old(held)
      ensures r == MapOk ==> sz == if newsz < oldsz then oldsz else newsz
      ensures r == MapOk ==> Grown(old(view), old(data), old(leaf), view, data, leaf, root, Pages(oldsz),
                                   NewPages(oldsz, newsz), None)
      ensures r == MapOk ==>
        && Blank(view, data, root, Pages(oldsz), NewPages(oldsz, newsz))
        && Accessible(view, root, Pages(oldsz) * PGSIZE, NewPages(oldsz, newsz) * PGSIZE)
        && (OwnUser(old(view), old(leaf), root) ==> OwnUser(view, leaf, root))
      ensures r == MapOk && oldsz <= newsz && Accessible(old(view), root, 0, oldsz) ==> Accessible(view, root, 0, newsz)
      ensures r == MapFail ==> |old(free)| < 3 * NewPages(oldsz, newsz)
      ensures r == MapFail ==> sz == 0 && view == old(view) && leaf == old(leaf) && SameData(old(data), data, leaf)
      ensures r == MapPanic ==> !Unmapped(old(view), root, Pages(oldsz), NewPages(oldsz, newsz))
    {
      hide Good, Grown, Refines, Partition, Blank, Accessible, OwnUser;
      GoodParts(lo, hi, ptes, data, free, tbl, roots, view, leaf, held);
      GrownNone(view, data, leaf, root, Pages(oldsz), None);
      if newsz < oldsz {
        Usable(old(view), old(data), old(leaf), root, oldsz, newsz);
        return MapOk, oldsz;
      }
      var start := RoundUp(oldsz);
      var a := start;
      ghost var i := 0;
      while a < newsz
        invariant a == (Pages(oldsz) + i) * PGSIZE && i <= NewPages(oldsz, newsz)
        invariant Valid() && held == old(held)
        invariant Grown(old(view), old(data), old(leaf), view, data, leaf, root, Pages(oldsz), i, None)
        invariant |free| + 3 * i >= |old(free)|
      {
        PagesBound(newsz, Pages(oldsz) + i);
        assert a / PGSIZE == Pages(oldsz) + i;
        ghost var view0, data0, leaf0 := view, data, leaf;
        ghost var p;
        GrownAt(old(view), old(data), old(leaf), view, data, leaf, root, Pages(oldsz), i, NewPages(oldsz, newsz), None);
        r, p := AddPage(root, a / PGSIZE, UserPerm, ZeroPage());
        if r == MapPanic {
          return MapPanic, 0;
        }
        if r == MapFail {
          GrownSame(old(view), old(data), old(leaf), view0, data0, leaf0, data, root, Pages(oldsz), i, None);
          Ungrow(root, a, start, old(view), old(data), old(leaf), i);
          return MapFail, 0;
        }
        GrownStep(old(view), old(data), old(leaf), view0, data0, leaf0, root, Pages(oldsz), i, p, UserFlags,
                  ZeroPage(), None);
        a, i := a + PGSIZE, i + 1;
      }
      PagesBound(newsz, Pages(oldsz) + i);
      Usable(old(view), old(data), old(leaf), root, oldsz, newsz);
      return MapOk, newsz;
    }

    lemma Usable(view0: map<Place, Pte>, data0: map<nat, seq<Byte>>, leaf0: map<nat, Place>, root: nat,
                 oldsz: nat, newsz: nat)
      requires Valid()
      requires Grown(view0, data0, leaf0, view, data, leaf, root, Pages(oldsz), NewPages(oldsz, newsz), None)
      ensures Blank(view, data, root, Pages(oldsz), NewPages(oldsz, newsz))
      ensures Accessible(view, root, Pages(oldsz) * PGSIZE, NewPages(oldsz, newsz) * PGSIZE)
      ensures OwnUser(view0, leaf0, root) ==> OwnUser(view, leaf, root)
      ensures oldsz <= newsz && Accessible(view0, root, 0, oldsz) ==> Accessible(view, root, 0, newsz)
    {
      hide Grown, Refines, Blank, Accessible, OwnUser;
      assert 0 !in leaf;
      GrownBlank(view0, data0, leaf0, view, data, leaf, root, Pages(oldsz), NewPages(oldsz, newsz));
      if oldsz <= newsz && Accessible(view0, root, 0, oldsz) {
        GrownFurther(view0, data0, leaf0, view, data, leaf, root, oldsz, newsz);
      }
    }

    /** The failure path of uvmalloc: uvmdealloc takes back exactly what was added. */
    method Ungrow(root: nat, a: nat, start: nat, ghost view0: map<Place, Pte>, ghost data0: map<nat, seq<Byte>>,
                  ghost leaf0: map<nat, Place>, ghost i: nat)
      requires Valid() && root in roots && start % PGSIZE == 0 && a == start + i * PGSIZE
      requires Leaves(view0, data0, leaf0)
      requires Grown(view0, data0, leaf0, view, data, leaf, root, start / PGSIZE, i, None)
      modifies this`ptes, this`free, this`tbl, this`held, this`view, this`leaf, this`data
      ensures Valid() && held == old(held)
      ensures view == view0 && leaf == leaf0 && SameData(data0, data, leaf)
    {
      hide Good, Grown, Refines, Partition;
      assert Pages(start) == start / PGSIZE && Pages(a) == start / PGSIZE + i;
      GrownOwned(view0, data0, leaf0, view, data, leaf, root, start / PGSIZE, i, None);
      GrownUndo(view0, data0, leaf0, view, data, leaf, root, start / PGSIZE, i, None);
      ghost var data1 := data;
      var ok, sz := UvmDealloc(root, a, start);
      assert SameData(data0, data, leaf) by {
        assert SameData(data1, data, leaf) && SameData(data0, data1, leaf0);
      }
    }

    // ---------------------------------------------------------------- uvmcopy

    /** walk without alloc followed by the test of PTE_V: reads the abstract map. */
    method ReadPte(root: nat, vpn: nat) returns (r: Option<Pte>)
      requires Valid() && root in roots
      modifies this`ptes, this`free, this`tbl, this`held
      ensures Valid() && ptes == old(ptes) && free == old(free) && tbl == old(tbl) && held == old(held)
      ensures r == Get(view, Place(root, vpn))
    {
      var at := Walk(root, vpn * PGSIZE, false);
      assert vpn * PGSIZE / PGSIZE == vpn;
      if at == Absent || at == WalkPanic {
        return None;
      }
      EntryIsView(ptes, tbl, roots, view, Place(root, vpn), at);
      if IsValid(ptes[at.page][at.index]) {
        return Some(ptes[at.page][at.index]);
      }
      return None;
    }

    /** uvmcopy: on success the child has, for every page of the parent, a page of its own with
        the parent's flags and bytes; when memory runs out everything is as before. */
    method UvmCopy(parent: nat, child: nat, sz: nat) returns (r: MapResult)
      requires Valid() && parent in roots && child in roots && parent != child && sz < 0x1_0000_0000_0000_0000
      requires Copyable(view, leaf, parent, Pages(sz))
      modifies this`ptes, this`free, this`tbl, this`held, this`view, this`leaf, this`data
      ensures r != MapPanic ==> Valid() && held == old(held)
      ensures r == MapOk ==> AllMapped(old(view), parent, Pages(sz))
      ensures r == MapOk ==> Grown(old(view), old(data), old(leaf), view, data, leaf, child, 0, Pages(sz), Some(parent))
      ensures r == MapFail ==> |old(free)| < 3 * Pages(sz)
      ensures r == MapFail ==> view == old(view) && leaf == old(leaf) && SameData(old(data), data, leaf)
      ensures r == MapPanic ==> !AllMapped(old(view), parent, Pages(sz)) || !Unmapped(old(view), child, 0, Pages(sz))
    {
      hide Good, Grown, Refines, Partition;
      GoodParts(lo, hi, ptes, data, free, tbl, roots, view, leaf, held);
      GrownNone(view, data, leaf, child, 0, Some(parent));
      var a, i := 0, 0;
      while a < sz
        invariant a == i * PGSIZE && i <= Pages(sz)
        invariant Valid() && held == old(held)
        invariant AllMapped(old(view), parent, i)
        invariant Grown(old(view), old(data), old(leaf), view, data, leaf, child, 0, i, Some(parent))
        invariant |free| + 3 * i >= |old(free)|
      {
        PagesBound(sz, i);
        ghost var view0, data0, leaf0 := view, data, leaf;
        GrownSource(old(view), old(data), old(leaf), view, data, leaf, child, i, parent, Pages(sz));
        var pte := ReadPte(parent, i);
        if pte.None? {
          return MapPanic;
        }
        assert pte.value.ppn in data && |data[pte.value.ppn]| == PGSIZE by {
          GoodParts(lo, hi, ptes, data, free, tbl, roots, view, leaf, held);
        }
        GrownAt(old(view), old(data), old(leaf), view, data, leaf, child, 0, i, Pages(sz), Some(parent));
        var bytes := data[pte.value.ppn];
        ghost var p;
        assert WithValid(pte.value.flags) == pte.value.flags by {
          GoodParts(lo, hi, ptes, data, free, tbl, roots, view, leaf, held);
          ViewValid(ptes, tbl, roots, view, Place(parent, i));
        }
        r, p := AddPage(child, i, pte.value.flags, bytes);
        if r == MapPanic {
          return MapPanic;
        }
        if r == MapFail {
          GrownSame(old(view), old(data), old(leaf), view0, data0, leaf0, data, child, 0, i, Some(parent));
          Uncopy(parent, child, i, old(view), old(data), old(leaf));
          return MapFail;
        }
        GrownStep(old(view), old(data), old(leaf), view0, data0, leaf0, child, 0, i, p, pte.value.flags, bytes,
                  Some(parent));
        a, i := a + PGSIZE, i + 1;
      }
      PagesBound(sz, i);
      return MapOk;
    }

    /** The failure path of uvmcopy. */
    method Uncopy(ghost parent: nat, child: nat, i: nat, ghost view0: map<Place, Pte>, ghost data0: map<nat, seq<Byte>>,
                  ghost leaf0: map<nat, Place>)
      requires Valid() && child in roots && Leaves(view0, data0, leaf0)
      requires AllMapped(view0, parent, i) && Copyable(view0, leaf0, parent, i)
      requires Grown(view0, data0, leaf0, view, data, leaf, child, 0, i, Some(parent))
      modifies this`ptes, this`free, this`tbl, this`held, this`view, this`leaf, this`data
      ensures Valid() && held == old(held)
      ensures view == view0 && leaf == leaf0 && SameData(data0, data, leaf)
    {
      hide Good, Grown, Refines, Partition;
      forall v | 0 <= v < i ensures ImageFlags(view0, Some(parent), v) != PTE_V {
        assert InRange(Place(parent, v), parent, 0, i);
      }
      GrownOwned(view0, data0, leaf0, view, data, leaf, child, 0, i, Some(parent));
      GrownUndo(view0, data0, leaf0, view, data, leaf, child, 0, i, Some(parent));
      ghost var data1 := data;
      var ok := UvmUnmap(child, 0, i, true);
      assert SameData(data0, data, leaf) by {
        assert SameData(data1, data, leaf) && SameData(data0, data1, leaf0);
      }
    }

    // ---------------------------------------------------------------- freewalk, uvmfree

    /** uvmcreate: a fresh address space that maps nothing. */
    method UvmCreate() returns (r: Option<nat>)
      requires Valid()
      modifies this`ptes, this`free, this`tbl, this`held, this`roots
      ensures Valid() && held == old(held)
      ensures r.None? <==> old(free) == []
      ensures r.None? ==> roots == old(roots) && free == old(free) && tbl == old(tbl)
      ensures r.Some? ==> r.value !in old(roots) && roots == old(roots) + {r.value} && free == old(free)[1..]
                          && forall k :: k in view ==> k.root != r.value
    {
      hide Partition;
      r := Kalloc();
      if r.Some? {
        ghost var root := r.value;
        RootRefines(ptes, tbl, roots, view, root);
        HeldToTable(lo, hi, free, tbl, leaf, held, root, tbl[root := Node(root, 2, 0, 0)]);
        assert root !in roots;
        ptes := ptes[r.value := EmptyTable()];
        tbl, roots, held := tbl[root := Node(root, 2, 0, 0)], roots + {root}, held - {root};
      }
    }

    /** freewalk: every table page at and below `page`, and nothing else, goes back to the free
        list, once.  It panics exactly when a leaf is still mapped there. */
    method FreeWalk(page: nat) returns (ok: bool)
      requires SubtreeOk(ptes, tbl, page) && Partition(lo, hi, free, tbl, leaf, held)
      modifies this`ptes, this`free, this`tbl, this`held, this`data
      ensures ok <==> NoLeaves(old(ptes), old(tbl), page)
      ensures ok ==> Partition(lo, hi, free, tbl, leaf, held) && held == old(held)
      ensures ok ==> data == old(data) - Subtree(old(tbl), page)
      ensures ok ==> ptes == old(ptes) - Subtree(old(tbl), page) && tbl == old(tbl) - Subtree(old(tbl), page)
      decreases if page in tbl then tbl[page].level else 0
    {
      hide Partition, SubtreeOk, NoLeaves, Freeing, Below, Subtree;
      var i := 0;
      FreeingStart(ptes, tbl, page);
      while i < ENTRIES
        invariant 0 <= i <= ENTRIES
        invariant Partition(lo, hi, free, tbl, leaf, held) && held == old(held)
        invariant data == old(data) - Below(old(tbl), page, i)
        invariant Freeing(old(ptes), old(tbl), ptes, tbl, page, i)
      {
        EntryFacts(old(ptes), old(tbl), ptes, tbl, page, i);
        var pte := ptes[page][i];
        if IsValid(pte) && !IsLeafPte(pte) {
          SkipSubtree(old(ptes), old(tbl), ptes, tbl, page, i);
          ghost var ptes1, tbl1, data1 := ptes, tbl, data;
          ok := FreeWalk(pte.ppn);
          if !ok {
            LeafBelow(old(ptes), old(tbl), ptes1, tbl1, page, i);
            return false;
          }
          FreeingChild(old(ptes), old(tbl), ptes1, tbl1, page, i);
          assert data == old(data) - Below(old(tbl), page, i + 1) by {
            BelowMore(old(ptes), old(tbl), ptes1, tbl1, page, i);
          }
          ptes := ptes[page := ptes[page][i := NullPte]];
        } else if IsValid(pte) {
          return false;
        } else {
          FreeingSkip(old(ptes), old(tbl), ptes, tbl, page, i);
          assert Below(old(tbl), page, i + 1) == Below(old(tbl), page, i) by {
            SkippedBelow(old(ptes), old(tbl), ptes, tbl, page, i);
          }
        }
        i := i + 1;
      }
      FreeingEnd(old(ptes), old(tbl), ptes, tbl, page);
      TableToFree(lo, hi, free, tbl, leaf, held, page);
      ptes, tbl, data := ptes - {page}, tbl - {page}, data - {page};
      free := [page] + free;
      ok := true;
    }

    /** uvmfree: succeeds exactly when every page below sz, and none above, is mapped.  Then the
        address space is gone, its user pages and its table pages are free, and no other address
        space has changed. */
    method UvmFree(root: nat, sz: nat) returns (ok: bool)
      requires Valid() && root in roots && OwnsRange(view, leaf, root, 0, Pages(sz))
      requires forall k :: k in view && k.root == root ==> IsLeafPte(view[k])
      modifies this`ptes, this`free, this`tbl, this`held, this`view, this`leaf, this`data, this`roots
      ensures ok <==> CanUnmapRange(old(view), root, 0, Pages(sz)) && MapsOnly(old(view), root, Pages(sz))
      ensures ok ==> Valid() && roots == old(roots) - {root} && held == old(held)
      ensures ok ==>
        && view == RemoveRange(old(view), root, 0, Pages(sz))
        && leaf == LeafOutside(old(leaf), root, 0, Pages(sz))
      ensures ok ==> SameData(old(data), data, leaf)
      ensures ok ==> forall q :: q in tbl <==> q in old(tbl) && old(tbl)[q].root != root
    {
      hide Good, Refines, Partition;
      ghost var n := Pages(sz);
      if sz > 0 {
        ok := UvmUnmap(root, 0, RoundUp(sz) / PGSIZE, true);
        if !ok {
          return false;
        }
      } else {
        OutsideNone(leaf, root, 0);
        GoodParts(lo, hi, ptes, data, free, tbl, roots, view, leaf, held);
      }
      AfterUnmap(old(view), root, n);
      ghost var tbl0, data0, free0 := tbl, data, free;
      GoodParts(lo, hi, ptes, data, free, tbl, roots, view, leaf, held);
      Freeable(ptes, tbl, roots, view, root);
      ok := FreeWalk(root);
      if ok {
        roots := roots - {root};
        AssembleGood(lo, hi, ptes, data0, data, free, free0, tbl0, tbl, roots, view, leaf, held, Subtree(tbl0, root));
        SameDataTrans(old(data), data0, data, leaf);
      }
    }

    // ---------------------------------------------------------------- copyout, copyin

    /** walkaddr: the frame of a user-accessible page. */
    method WalkAddr(root: nat, va: nat) returns (r: Option<nat>)
      requires Valid() && root in roots
      modifies this`ptes, this`free, this`tbl, this`held
      ensures Valid() && ptes == old(ptes) && free == old(free) && tbl == old(tbl) && held == old(held)
      ensures r == UserFrame(view, root, va / PGSIZE)
    {
      hide Good, Refines, Partition;
      if va >= MAXVA {
        GoodParts(lo, hi, ptes, data, free, tbl, roots, view, leaf, held);
        AboveMax(ptes, tbl, roots, view, Place(root, va / PGSIZE));
        return None;
      }
      var pte := ReadPte(root, va / PGSIZE);
      if pte.None? || !IsUser(pte.value) || pte.value.ppn == 0 {
        return None;
      }
      return Some(pte.value.ppn);
    }

    /** memmove into a user page keeps every user page a page. */
    method WriteUser(f: nat, page: seq<Byte>)
      requires Valid() && f in data && |data[f]| == PGSIZE && |page| == PGSIZE
      modifies this`data
      ensures Valid() && data == old(data)[f := page]
    {
      data := data[f := page];
    }

    /** copyout: succeeds exactly when every byte of the destination is user accessible; bytes
        are stored in order up to the first page that is not. */
    method CopyOut(root: nat, dstva: nat, src: seq<Byte>) returns (ok: bool, ghost m: nat)
      requires Valid() && root in roots && UserPages(view, data, root)
      modifies this`ptes, this`free, this`tbl, this`held, this`data
      ensures Valid() && ptes == old(ptes) && free == old(free) && tbl == old(tbl) && held == old(held)
      ensures ok <==> Accessible(view, root, dstva, |src|)
      ensures ok ==> m == |src|
      ensures !ok ==> !Accessible(view, root, dstva, m + 1)
      ensures m <= |src| && Accessible(view, root, dstva, m) && data == Stored(view, old(data), root, dstva, src, m)
    {
      hide Good, Refines, Partition, Stored, Splice, Accessible, UserFrame;
      NothingCopied(view, data, root, dstva, src);
      var va, done := dstva, 0;
      while done < |src|
        invariant done <= |src| && va == dstva + done
        invariant Valid() && ptes == old(ptes) && free == old(free) && tbl == old(tbl) && held == old(held)
        invariant Accessible(view, root, dstva, done) && data == Stored(view, old(data), root, dstva, src, done)
      {
        var va0 := RoundDown(va);
        assert va0 / PGSIZE == va / PGSIZE && va - va0 == va % PGSIZE;
        var pa0 := WalkAddr(root, va0);
        var n := PGSIZE - (va - va0);
        if n > |src| - done {
          n := |src| - done;
        }
        AccessibleChunk(view, root, dstva, done, n);
        if pa0.None? {
          return false, done;
        }
        ChunkStored(view, old(data), root, dstva, src, done, n);
        WriteUser(pa0.value, Splice(data[pa0.value], va - va0, src[done..done + n]));
        va, done := va + n, done + n;
      }
      return true, done;
    }

    /** copyin: succeeds exactly when every byte of the source is user accessible, and then
        returns those bytes. */
    method CopyIn(root: nat, srcva: nat, len: nat) returns (ok: bool, dst: seq<Byte>)
      requires Valid() && root in roots && UserPages(view, data, root)
      modifies this`ptes, this`free, this`tbl, this`held
      ensures Valid() && ptes == old(ptes) && free == old(free) && tbl == old(tbl) && held == old(held)
      ensures ok <==> Accessible(view, root, srcva, len)
      ensures ok ==> dst == UserSeq(view, data, root, srcva, len)
    {
      hide Good, Refines, Partition, UserSeq, Accessible, UserFrame;
      NothingCopied(view, data, root, srcva, []);
      var va := srcva;
      dst := [];
      while |dst| < len
        invariant |dst| <= len && va == srcva + |dst|
        invariant Valid() && ptes == old(ptes) && free == old(free) && tbl == old(tbl) && held == old(held)
        invariant Accessible(view, root, srcva, |dst|) && dst == UserSeq(view, data, root, srcva, |dst|)
      {
        var va0 := RoundDown(va);
        assert va0 / PGSIZE == va / PGSIZE && va - va0 == va % PGSIZE;
        var pa0 := WalkAddr(root, va0);
        var n := PGSIZE - (va - va0);
        if n > len - |dst| {
          n := len - |dst|;
        }
        AccessibleChunk(view, root, srcva, |dst|, n);
        if pa0.None? {
          return false, [];
        }
        ChunkRead(view, data, root, srcva, |dst|, n);
        dst := dst + data[pa0.value][va - va0..va - va0 + n];
        va := va + n;
      }
      return true, dst;
    }

    /** The inner loop of copyinstr: how many of the n bytes at off precede the first NUL. */
    static method ScanNul(page: seq<Byte>, off: nat, n: nat) returns (k: nat)
      requires off + n <= |page|
      ensures k <= n && NoNul(page[off..off + k]) && (k < n ==> page[off + k] == 0)
    {
      k := 0;
      while k < n
        invariant k <= n && NoNul(page[off..off + k])
      {
        if page[off + k] == 0 {
          break;
        }
        assert page[off..off + k + 1] == page[off..off + k] + [page[off + k]];
        k := k + 1;
      }
    }

    /** copyinstr: succeeds exactly when a string, with its NUL, lies within the first max bytes
        and is user accessible, and then returns it including the NUL. */
    method CopyInStr(root: nat, srcva: nat, max: nat) returns (ok: bool, dst: seq<Byte>)
      requires Valid() && root in roots && UserPages(view, data, root)
      modifies this`ptes, this`free, this`tbl, this`held
      ensures Valid() && ptes == old(ptes) && free == old(free) && tbl == old(tbl) && held == old(held)
      ensures ok <==> exists n :: 0 <= n < max && StringAt(view, data, root, srcva, n)
      ensures ok ==>
        && 0 < |dst| <= max && StringAt(view, data, root, srcva, |dst| - 1)
        && dst == UserSeq(view, data, root, srcva, |dst|)
    {
      hide Good, Refines, Partition, UserSeq, Accessible, UserFrame, StringAt, NoNul;
      NothingCopied(view, data, root, srcva, []);
      NoNulNone();
      var va := srcva;
      dst := [];
      while |dst| < max
        invariant |dst| <= max && va == srcva + |dst|
        invariant Valid() && ptes == old(ptes) && free == old(free) && tbl == old(tbl) && held == old(held)
        invariant Accessible(view, root, srcva, |dst|) && dst == UserSeq(view, data, root, srcva, |dst|) && NoNul(dst)
      {
        var va0 := RoundDown(va);
        assert va0 / PGSIZE == va / PGSIZE && va - va0 == va % PGSIZE;
        var pa0 := WalkAddr(root, va0);
        var n := PGSIZE - (va - va0);
        if n > max - |dst| {
          n := max - |dst|;
        }
        AccessibleChunk(view, root, srcva, |dst|, n);
        NoStringYet(view, data, root, srcva, |dst|);
        if pa0.None? {
          return false, [];
        }
        ChunkRead(view, data, root, srcva, |dst|, n);
        var off := va - va0;
        var k := ScanNul(data[pa0.value], off, n);
        if k < n {
          AccessibleChunk(view, root, srcva, |dst|, k + 1);
          StringFound(view, data, root, srcva, |dst|, k, off);
          dst := dst + data[pa0.value][off..off + k] + [0];
          return true, dst;
        }
        NoNulMore(dst, data[pa0.value][off..off + n]);
        dst, va := dst + data[pa0.value][off..off + n], va + n;
      }
      NoStringYet(view, data, root, srcva, |dst|);
      return false, [];
    }

    /** memset or memmove of a whole page that the caller holds. */
    method SetData(p: nat, bytes: seq<Byte>)
      requires Valid() && p in held && |bytes| == PGSIZE
      modifies this`data
      ensures Valid() && data == old(data)[p := bytes]
    {
      data := data[p := bytes];
    }

    /** From now on the page is accounted to its mapping. */
    ghost method Adopt(p: nat, k: Place)
      requires Valid() && p in held && k in view && view[k].ppn == p && p in data && |data[p]| == PGSIZE
      modifies this`leaf, this`held
      ensures Valid() && leaf == old(leaf)[p := k] && held == old(held) - {p} && p !in old(leaf)
    {
      HeldToLeaf(lo, hi, free, tbl, leaf, held, p, k);
      leaf, held := leaf[p := k], held - {p};
    }

    /** The user page stops being accounted to its mapping. */
    ghost method Disown(p: nat)
      requires Valid() && p in leaf
      modifies this`leaf, this`held
      ensures Valid() && leaf == old(leaf) - {p} && held == old(held) + {p} && p !in old(held)
    {
      LeafToHeld(lo, hi, free, tbl, leaf, held, p);
      leaf, held := leaf - {p}, held + {p};
    }
  }

  /** uvmdealloc with a size beyond what is mapped: an empty address space said to be one page long. */
  method ShrinkUnmapped() returns (ok: bool)
    ensures !ok
  {
    var machine := new Machine(1, 2);
    var root := machine.UvmCreate();
    assert InRange(Place(root.value, 0), root.value, Pages(0), Pages(PGSIZE) - Pages(0));
    var sz;
    ok, sz := machine.UvmDealloc(root.value, PGSIZE, 0);
  }

  /** Memory gained by uvmalloc is memory: copyout into it cannot fail, and copyin reads back what
      copyout stored. */
  method GrowAndStore(machine: Machine, root: nat, oldsz: nat, newsz: nat, va: nat, src: seq<Byte>)
    returns (r: MapResult, ok: bool, back: seq<Byte>)
    requires machine.Valid() && root in machine.roots && newsz < 0x1_0000_0000_0000_0000
    requires OwnUser(machine.view, machine.leaf, root)
    requires RoundUp(oldsz) <= va && va + |src| <= newsz
    modifies machine
    ensures r == MapOk ==> ok && back == src
    ensures r == MapFail ==> |old(machine.free)| < 3 * NewPages(oldsz, newsz)
  {
    hide Accessible, OwnUser, Injective, Blank, UserPages, Grown, Stored, UserSeq, Good;
    ok, back := false, [];
    var sz;
    r, sz := machine.UvmAlloc(root, oldsz, newsz);
    if r == MapOk {
      GoodParts(machine.lo, machine.hi, machine.ptes, machine.data, machine.free, machine.tbl, machine.roots,
                machine.view, machine.leaf, machine.held);
      WithinNew(machine.view, root, oldsz, newsz, va, |src|);
      OwnUserMemory(machine.view, machine.data, machine.leaf, root, va, |src|);
      CopyRoundTrip(machine.view, machine.data, root, va, src);
      ghost var m;
      ok, m := machine.CopyOut(root, va, src);
      var read;
      read, back := machine.CopyIn(root, va, |src|);
      ok := ok && read;
    }
  }

  lemma WithinNew(view: map<Place, Pte>, root: nat, oldsz: nat, newsz: nat, va: nat, n: nat)
    requires RoundUp(oldsz) <= va && va + n <= newsz
    requires Accessible(view, root, Pages(oldsz) * PGSIZE, NewPages(oldsz, newsz) * PGSIZE)
    ensures Accessible(view, root, va, n)
  {
    assert newsz <= Pages(newsz) * PGSIZE;
  }
}
