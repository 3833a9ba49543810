/** The abstract state of user virtual memory and what its operations do to it: a map `view` from
    (address space, virtual page) to page-table entry, the bytes `data` of the user pages, and the
    accounting of every page of the pool. */
module VmSpec {
  import opened PageTable
  import opened Blocks
  import opened Options

  /** A virtual page of an address space; the space is named by its root table page. */
  datatype Place = Place(root: nat, vpn: nat)

  datatype WalkResult = Entry(page: nat, index: nat) | Absent | WalkPanic

  function Get(view: map<Place, Pte>, k: Place): (r: Option<Pte>) {
    if k in view then Some(view[k]) else None
  }

  ghost predicate NoDup(s: seq<nat>) {
    forall i, j :: 0 <= i < j < |s| ==> s[i] != s[j]
  }

  // ---------------------------------------------------------------- invariant

  /** The three-level tables stand for `view`. */
  ghost predicate Refines(ptes: Tables, tbl: map<nat, Node>, roots: set<nat>, view: map<Place, Pte>) {
    && Trees(ptes, tbl)
    && (forall r :: r in roots <==> IsRoot(tbl, r))
    && (forall k :: k in view ==> k.root in roots && k.vpn < MAXVPN)
    && (forall r, v {:trigger Lookup(ptes, r, v)} | r in roots && 0 <= v < MAXVPN ::
         Lookup(ptes, r, v) == Get(view, Place(r, v)))
  }

  /** Every page of the pool is free, a table page, a mapped user page or held by someone else,
      and only one of these. */
  ghost predicate Partition(lo: nat, hi: nat, free: seq<nat>, tbl: map<nat, Node>, leaf: map<nat, Place>,
                            held: set<nat>) {
    && 0 < lo <= hi
    && NoDup(free)
    && (forall p :: p in free ==> lo <= p < hi && p !in tbl && p !in leaf && p !in held)
    && (forall p :: p in tbl ==> lo <= p < hi && p !in leaf && p !in held)
    && (forall p :: p in leaf ==> lo <= p < hi && p !in held)
    && (forall p :: p in held ==> lo <= p < hi)
    && (forall p :: lo <= p < hi ==> p in free || p in tbl || p in leaf || p in held)
  }

  /** An owned user page is mapped exactly where its record says and holds bytes. */
  ghost predicate Leaves(view: map<Place, Pte>, data: map<nat, seq<Byte>>, leaf: map<nat, Place>) {
    forall p :: p in leaf ==> leaf[p] in view && view[leaf[p]].ppn == p && p in data && |data[p]| == PGSIZE
  }

  ghost predicate Good(lo: nat, hi: nat, ptes: Tables, data: map<nat, seq<Byte>>, free: seq<nat>, tbl: map<nat, Node>,
                       roots: set<nat>, view: map<Place, Pte>, leaf: map<nat, Place>, held: set<nat>)
  {
    && Refines(ptes, tbl, roots, view)
    && Partition(lo, hi, free, tbl, leaf, held)
    && Leaves(view, data, leaf)
  }

  lemma GoodParts(lo: nat, hi: nat, ptes: Tables, data: map<nat, seq<Byte>>, free: seq<nat>, tbl: map<nat, Node>,
                  roots: set<nat>, view: map<Place, Pte>, leaf: map<nat, Place>, held: set<nat>)
    requires Good(lo, hi, ptes, data, free, tbl, roots, view, leaf, held)
    ensures Refines(ptes, tbl, roots, view) && Partition(lo, hi, free, tbl, leaf, held) && Leaves(view, data, leaf)
  {
  }

  lemma TakeFree(lo: nat, hi: nat, free: seq<nat>, tbl: map<nat, Node>, leaf: map<nat, Place>, held: set<nat>)
    requires Partition(lo, hi, free, tbl, leaf, held) && free != []
    ensures Partition(lo, hi, free[1..], tbl, leaf, held + {free[0]})
  {
    var x, rest := free[0], free[1..];
    forall p ensures p in free <==> p == x || p in rest {
      assert free == [x] + rest;
    }
    assert x !in rest;
  }

  lemma GiveBack(lo: nat, hi: nat, free: seq<nat>, tbl: map<nat, Node>, leaf: map<nat, Place>, held: set<nat>, p: nat)
    requires Partition(lo, hi, free, tbl, leaf, held) && p in held
    ensures Partition(lo, hi, [p] + free, tbl, leaf, held - {p})
  {
    assert p !in free;
  }

  lemma HeldToTable(lo: nat, hi: nat, free: seq<nat>, tbl: map<nat, Node>, leaf: map<nat, Place>, held: set<nat>,
                    p: nat, tbl': map<nat, Node>)
    requires Partition(lo, hi, free, tbl, leaf, held) && p in held && tbl'.Keys == tbl.Keys + {p}
    ensures Partition(lo, hi, free, tbl', leaf, held - {p})
  {
  }

  lemma HeldToLeaf(lo: nat, hi: nat, free: seq<nat>, tbl: map<nat, Node>, leaf: map<nat, Place>, held: set<nat>,
                   p: nat, k: Place)
    requires Partition(lo, hi, free, tbl, leaf, held) && p in held
    ensures Partition(lo, hi, free, tbl, leaf[p := k], held - {p})
  {
  }

  lemma TableToFree(lo: nat, hi: nat, free: seq<nat>, tbl: map<nat, Node>, leaf: map<nat, Place>, held: set<nat>,
                    p: nat)
    requires Partition(lo, hi, free, tbl, leaf, held) && p in tbl
    ensures Partition(lo, hi, [p] + free, tbl - {p}, leaf, held)
  {
    assert p !in free;
  }

  lemma LeafToHeld(lo: nat, hi: nat, free: seq<nat>, tbl: map<nat, Node>, leaf: map<nat, Place>, held: set<nat>, p: nat)
    requires Partition(lo, hi, free, tbl, leaf, held) && p in leaf
    ensures Partition(lo, hi, free, tbl, leaf - {p}, held + {p})
  {
  }

  /** The elements of a list without repetitions, counted. */
  ghost function Elements(s: seq<nat>): (r: set<nat>)
    requires NoDup(s)
    ensures |r| == |s| && forall p :: p in r <==> p in s
  {
    if s == [] then {}
    else
      var init, last := s[..|s| - 1], s[|s| - 1];
      assert s == init + [last] && last !in init;
      Elements(init) + {last}
  }

  ghost function Pool(lo: nat, hi: nat): (r: set<nat>)
    requires lo <= hi
    ensures |r| == hi - lo && forall p :: p in r <==> lo <= p < hi
    decreases hi - lo
  {
    if lo == hi then {} else Pool(lo, hi - 1) + {hi - 1}
  }

  lemma DisjointSizes(a: set<nat>, b: set<nat>, c: set<nat>, d: set<nat>)
    requires a !! b !! c !! d
    ensures |a + b + c + d| == |a| + |b| + |c| + |d|
  {
    assert |a + b| == |a| + |b|;
    assert |a + b + c| == |a + b| + |c|;
  }

  /** Pages are conserved: free, table, user and held pages always add up to the pool. */
  lemma PagesAddUp(lo: nat, hi: nat, free: seq<nat>, tbl: map<nat, Node>, leaf: map<nat, Place>, held: set<nat>)
    requires Partition(lo, hi, free, tbl, leaf, held)
    ensures |free| + |tbl.Keys| + |leaf.Keys| + |held| == hi - lo
  {
    hide Elements, Pool, NoDup;
    var f, t, l := Elements(free), tbl.Keys, leaf.Keys;
    forall p ensures p in Pool(lo, hi) <==> p in f + t + l + held {
    }
    assert Pool(lo, hi) == f + t + l + held;
    DisjointSizes(f, t, l, held);
  }

  // ---------------------------------------------------------------- refinement of the primitive updates

  lemma LinkRefines(ptes: Tables, tbl: map<nat, Node>, roots: set<nat>, view: map<Place, Pte>, p: nat, i: nat,
                    page: nat)
    requires Refines(ptes, tbl, roots, view) && CanLink(ptes, tbl, p, i, page)
    ensures Refines(Linked(ptes, p, i, page), LinkedPlaces(tbl, p, i, page), roots, view)
  {
    LinkTrees(ptes, tbl, p, i, page);
    forall r, v | r in roots && 0 <= v < MAXVPN
      ensures Lookup(Linked(ptes, p, i, page), r, v) == Get(view, Place(r, v))
    {
      LinkLookup(ptes, tbl, p, i, page, r, v);
    }
  }

  /** view with one entry set, or removed when the entry is not valid. */
  function Put(view: map<Place, Pte>, k: Place, pte: Pte): (r: map<Place, Pte>) {
    if IsValid(pte) then view[k := pte] else view - {k}
  }

  lemma SetRefines(ptes: Tables, tbl: map<nat, Node>, roots: set<nat>, view: map<Place, Pte>, k: Place,
                   at: WalkResult, pte: Pte)
    requires Refines(ptes, tbl, roots, view) && AtLeaf(tbl, k, at) && k.root in roots && k.vpn < MAXVPN
    ensures at.page in ptes && at.index < |ptes[at.page]|
    ensures Refines(ptes[at.page := ptes[at.page][at.index := pte]], tbl, roots, Put(view, k, pte))
  {
    SetLeafTrees(ptes, tbl, at.page, at.index, pte);
    PrefixStep(k.vpn, 0);
    var ptes' := ptes[at.page := ptes[at.page][at.index := pte]];
    forall r, v | r in roots && 0 <= v < MAXVPN ensures Lookup(ptes', r, v) == Get(Put(view, k, pte), Place(r, v)) {
      SetRefinesAt(ptes, tbl, roots, view, k, at, pte, r, v);
    }
  }

  lemma SetRefinesAt(ptes: Tables, tbl: map<nat, Node>, roots: set<nat>, view: map<Place, Pte>, k: Place,
                     at: WalkResult, pte: Pte, r: nat, v: nat)
    requires Refines(ptes, tbl, roots, view) && AtLeaf(tbl, k, at) && k.root in roots && k.vpn < MAXVPN
    requires r in roots && v < MAXVPN
    ensures at.page in ptes && at.index < |ptes[at.page]|
    ensures Lookup(ptes[at.page := ptes[at.page][at.index := pte]], r, v) == Get(Put(view, k, pte), Place(r, v))
  {
    assert tbl[at.page].base * ENTRIES + at.index == k.vpn by {
      PrefixStep(k.vpn, 0);
    }
    assert Lookup(ptes, r, v) == Get(view, Place(r, v));
    SetLeafAt(ptes, tbl, at.page, at.index, pte, r, v);
    var l := Lookup(ptes[at.page := ptes[at.page][at.index := pte]], r, v);
    if Place(r, v) == k {
      assert l == if IsValid(pte) then Some(pte) else None;
    } else {
      assert l == Get(view, Place(r, v));
    }
  }

  lemma LinkGood(lo: nat, hi: nat, ptes: Tables, data: map<nat, seq<Byte>>, free: seq<nat>, tbl: map<nat, Node>,
                 roots: set<nat>, view: map<Place, Pte>, leaf: map<nat, Place>, held: set<nat>, p: nat, i: nat,
                 page: nat)
    requires Good(lo, hi, ptes, data, free, tbl, roots, view, leaf, held)
    requires CanLink(ptes, tbl, p, i, page) && page in held
    ensures Good(lo, hi, Linked(ptes, p, i, page), data, free, LinkedPlaces(tbl, p, i, page), roots, view, leaf,
                 held - {page})
  {
    LinkRefines(ptes, tbl, roots, view, p, i, page);
    HeldToTable(lo, hi, free, tbl, leaf, held, page, LinkedPlaces(tbl, p, i, page));
  }

  lemma RootRefines(ptes: Tables, tbl: map<nat, Node>, roots: set<nat>, view: map<Place, Pte>, root: nat)
    requires Refines(ptes, tbl, roots, view) && root !in tbl
    ensures Refines(ptes[root := EmptyTable()], tbl[root := Node(root, 2, 0, 0)], roots + {root}, view)
  {
    NewRoot(ptes, tbl, root);
    assert root !in roots;
  }

  lemma SetGood(lo: nat, hi: nat, ptes: Tables, data: map<nat, seq<Byte>>, free: seq<nat>, tbl: map<nat, Node>,
                roots: set<nat>, view: map<Place, Pte>, leaf: map<nat, Place>, held: set<nat>, k: Place,
                at: WalkResult, pte: Pte)
    requires Good(lo, hi, ptes, data, free, tbl, roots, view, leaf, held)
    requires AtLeaf(tbl, k, at) && k.root in roots && k.vpn < MAXVPN
    requires forall p :: p in leaf ==> leaf[p] != k
    ensures at.page in ptes && at.index < |ptes[at.page]|
    ensures Good(lo, hi, ptes[at.page := ptes[at.page][at.index := pte]], data, free, tbl, roots,
                 Put(view, k, pte), leaf, held)
  {
    SetRefines(ptes, tbl, roots, view, k, at, pte);
  }

  ghost predicate OnPath(tbl: map<nat, Node>, page: nat, k: Place, level: nat)
    requires level <= 2
  {
    page in tbl && tbl[page].root == k.root && tbl[page].level == level && tbl[page].base == Prefix(k.vpn, level + 1)
  }

  /** at locates the leaf entry of virtual page k. */
  ghost predicate AtLeaf(tbl: map<nat, Node>, k: Place, at: WalkResult) {
    at.Entry? && OnPath(tbl, at.page, k, 0) && at.index == Index(k.vpn, 0)
  }

  lemma EntryIsView(ptes: Tables, tbl: map<nat, Node>, roots: set<nat>, view: map<Place, Pte>, k: Place, at: WalkResult)
    requires Refines(ptes, tbl, roots, view) && k.root in roots && k.vpn < MAXVPN && AtLeaf(tbl, k, at)
    ensures at.page in ptes && at.index < |ptes[at.page]|
    ensures Get(view, k) == if IsValid(ptes[at.page][at.index]) then Some(ptes[at.page][at.index]) else None
  {
    assert TableOk(ptes, tbl, at.page);
    FindPath(ptes, tbl, at.page, k.vpn);
    assert Lookup(ptes, k.root, k.vpn) == Get(view, Place(k.root, k.vpn));
  }

  /** Only valid entries are in the map. */
  lemma ViewValid(ptes: Tables, tbl: map<nat, Node>, roots: set<nat>, view: map<Place, Pte>, k: Place)
    requires Refines(ptes, tbl, roots, view) && k in view
    ensures IsValid(view[k])
  {
    assert Lookup(ptes, k.root, k.vpn) == Get(view, Place(k.root, k.vpn));
  }

  lemma AboveMax(ptes: Tables, tbl: map<nat, Node>, roots: set<nat>, view: map<Place, Pte>, k: Place)
    requires Refines(ptes, tbl, roots, view) && k.vpn >= MAXVPN
    ensures k !in view
  {
  }

  lemma AbsentFromView(ptes: Tables, tbl: map<nat, Node>, roots: set<nat>, view: map<Place, Pte>, k: Place, page: nat)
    requires Refines(ptes, tbl, roots, view) && k.root in roots && k.vpn < MAXVPN
    requires page in tbl && 0 < tbl[page].level <= 2 && OnPath(tbl, page, k, tbl[page].level)
    requires page in ptes && |ptes[page]| == ENTRIES && !IsValid(ptes[page][Index(k.vpn, tbl[page].level)])
    ensures k !in view
  {
    FindPath(ptes, tbl, page, k.vpn);
    assert FindTable(ptes, k.root, k.vpn, tbl[page].level - 1) == None;
    assert FindTable(ptes, k.root, k.vpn, 0) == None;
    assert Lookup(ptes, k.root, k.vpn) == Get(view, Place(k.root, k.vpn));
  }

  /** PTE_W | PTE_X | PTE_R | PTE_U, and the same with PTE_V */
  const UserPerm := 30
  const UserFlags := 31

  function ZeroPage(): (z: seq<Byte>)
    ensures |z| == PGSIZE && forall i :: 0 <= i < PGSIZE ==> z[i] == 0
  {
    seq(PGSIZE, _ => 0)
  }

  function Pages(sz: nat): (n: nat) {
    RoundUp(sz) / PGSIZE
  }

  /** How many pages uvmalloc adds. */
  function NewPages(oldsz: nat, newsz: nat): (n: nat) {
    if newsz < oldsz then 0 else Pages(newsz) - Pages(oldsz)
  }

  lemma PagesBound(sz: nat, m: nat)
    ensures m * PGSIZE < sz <==> m < Pages(sz)
  {
  }

  /** view', data', leaf' add to view, data, leaf the n pages from `first` on, each mapped
      read-write to its own zeroed page, and change nothing else. */
  ghost predicate Grown(view: map<Place, Pte>, data: map<nat, seq<Byte>>, leaf: map<nat, Place>,
                        view': map<Place, Pte>, data': map<nat, seq<Byte>>, leaf': map<nat, Place>,
                        root: nat, first: nat, n: nat, src: Option<nat>)
  {
    && (forall k :: if InRange(k, root, first, n) then GrownPage(view, data, leaf, view', data', leaf', k, src)
         else Get(view', k) == Get(view, k))
    && (forall p :: p in leaf ==> p in leaf' && leaf'[p] == leaf[p])
    && (forall p :: p in leaf' ==> p in leaf || InRange(leaf'[p], root, first, n))
    && SameData(data, data', leaf)
  }

  ghost predicate GrownPage(view: map<Place, Pte>, data: map<nat, seq<Byte>>, leaf: map<nat, Place>,
                            view': map<Place, Pte>, data': map<nat, seq<Byte>>, leaf': map<nat, Place>, k: Place,
                            src: Option<nat>)
  {
    && k.vpn < MAXVPN && k !in view && k in view' && view'[k].flags == ImageFlags(view, src, k.vpn)
    && view'[k].ppn !in leaf && view'[k].ppn in leaf' && leaf'[view'[k].ppn] == k
    && view'[k].ppn in data' && data'[view'[k].ppn] == ImageBytes(view, data, src, k.vpn)
  }

  /** Flags and contents of a new page: zeroed and read-write, or those of the same virtual page
      of another address space. */
  ghost function ImageFlags(view: map<Place, Pte>, src: Option<nat>, vpn: nat): (flags: nat) {
    if src.Some? && Place(src.value, vpn) in view then view[Place(src.value, vpn)].flags else UserFlags
  }

  ghost function ImageBytes(view: map<Place, Pte>, data: map<nat, seq<Byte>>, src: Option<nat>,
                            vpn: nat): (bytes: seq<Byte>) {
    if src.Some? && Place(src.value, vpn) in view && view[Place(src.value, vpn)].ppn in data
    then data[view[Place(src.value, vpn)].ppn] else ZeroPage()
  }

  ghost predicate MapsOnly(view: map<Place, Pte>, root: nat, n: nat) {
    forall k :: k in view && k.root == root ==> k.vpn < n
  }

  lemma AfterUnmap(view: map<Place, Pte>, root: nat, n: nat)
    ensures MapsOnly(view, root, n) <==> forall k :: k in RemoveRange(view, root, 0, n) ==> k.root != root
    ensures forall k :: k in RemoveRange(view, root, 0, n) ==> k in view && RemoveRange(view, root, 0, n)[k] == view[k]
  {
    var r := RemoveRange(view, root, 0, n);
    forall k ensures Get(r, k) == if InRange(k, root, 0, n) then None else Get(view, k) {
      RemoveRangeAt(view, root, 0, n, k);
    }
    if MapsOnly(view, root, n) {
      forall k | k in r ensures k.root != root {
        assert Get(r, k) == Some(r[k]);
      }
    }
    if forall k :: k in r ==> k.root != root {
      forall k | k in view && k.root == root ensures k.vpn < n {
        assert Get(view, k) == Some(view[k]);
      }
    }
    forall k | k in r ensures k in view && r[k] == view[k] {
      assert Get(r, k) == Some(r[k]);
    }
  }

  lemma Freeable(ptes: Tables, tbl: map<nat, Node>, roots: set<nat>, view: map<Place, Pte>, root: nat)
    requires Refines(ptes, tbl, roots, view) && root in roots
    requires forall k :: k in view && k.root == root ==> IsLeafPte(view[k])
    ensures SubtreeOk(ptes, tbl, root) && root in tbl
    ensures NoLeaves(ptes, tbl, root) <==> forall k :: k in view ==> k.root != root
    ensures forall q :: q in tbl ==> (q in Subtree(tbl, root) <==> tbl[q].root == root)
    ensures (forall k :: k in view ==> k.root != root) ==>
      Refines(ptes - Subtree(tbl, root), tbl - Subtree(tbl, root), roots - {root}, view)
  {
    forall v | 0 <= v < MAXVPN ensures Lookup(ptes, root, v) == Get(view, Place(root, v)) {
    }
    RootSubtreeOk(ptes, tbl, root);
    RootNoLeaves(ptes, tbl, root);
    if NoLeaves(ptes, tbl, root) {
      forall k | k in view ensures k.root != root {
        assert k == Place(k.root, k.vpn);
        assert Lookup(ptes, k.root, k.vpn) == Get(view, k);
      }
      FreedRefines(ptes, tbl, roots, view, root, Subtree(tbl, root));
    }
  }

  lemma AssembleGood(lo: nat, hi: nat, ptes: Tables, data: map<nat, seq<Byte>>, data': map<nat, seq<Byte>>,
                     free: seq<nat>, free0: seq<nat>, tbl0: map<nat, Node>, tbl: map<nat, Node>,
                     roots: set<nat>, view: map<Place, Pte>, leaf: map<nat, Place>, held: set<nat>, gone: set<nat>)
    requires Refines(ptes, tbl, roots, view) && Partition(lo, hi, free, tbl, leaf, held) && Leaves(view, data, leaf)
    requires Partition(lo, hi, free0, tbl0, leaf, held) && data' == data - gone && forall q :: q in gone ==> q in tbl0
    ensures Good(lo, hi, ptes, data', free, tbl, roots, view, leaf, held) && SameData(data, data', leaf)
  {
  }

  lemma SameDataTrans(data: map<nat, seq<Byte>>, data': map<nat, seq<Byte>>, data'': map<nat, seq<Byte>>,
                      leaf: map<nat, Place>)
    requires SameData(data, data', leaf) && SameData(data', data'', leaf)
    ensures SameData(data, data'', leaf)
  {
  }

  lemma FreedRefines(ptes: Tables, tbl: map<nat, Node>, roots: set<nat>, view: map<Place, Pte>, root: nat,
                     gone: set<nat>)
    requires Refines(ptes, tbl, roots, view) && root in roots
    requires forall q :: q in tbl ==> (q in gone <==> tbl[q].root == root)
    requires forall k :: k in view ==> k.root != root
    ensures Refines(ptes - gone, tbl - gone, roots - {root}, view)
  {
    DropRoot(ptes, tbl, root, gone);
    forall r, v | r in roots - {root} && 0 <= v < MAXVPN ensures Lookup(ptes - gone, r, v) == Get(view, Place(r, v)) {
      assert IsRoot(tbl, r);
    }
  }

  /** The first n pages of the address space are mapped. */
  ghost predicate AllMapped(view: map<Place, Pte>, root: nat, n: nat) {
    forall k :: InRange(k, root, 0, n) ==> k in view
  }

  /** The mapped ones among the first n pages are ordinary user pages with frames of their own. */
  ghost predicate Copyable(view: map<Place, Pte>, leaf: map<nat, Place>, root: nat, n: nat) {
    forall k :: InRange(k, root, 0, n) && k in view ==>
      view[k].flags < 1024 && view[k].flags != PTE_V && view[k].ppn in leaf
  }

  /** The parent's i-th page is still what it was, and so are its bytes. */
  lemma GrownSource(view: map<Place, Pte>, data: map<nat, seq<Byte>>, leaf: map<nat, Place>,
                    view': map<Place, Pte>, data': map<nat, seq<Byte>>, leaf': map<nat, Place>,
                    child: nat, i: nat, parent: nat, n: nat)
    requires Grown(view, data, leaf, view', data', leaf', child, 0, i, Some(parent)) && i < n && parent != child
    requires Copyable(view, leaf, parent, n) && AllMapped(view, parent, i)
    ensures var k := Place(parent, i);
      && Get(view', k) == Get(view, k)
      && (k in view ==>
            && view[k].flags < 1024 && view[k].ppn in leaf' && view[k].ppn in data' && AllMapped(view, parent, i + 1)
            && view[k].flags == ImageFlags(view, Some(parent), i)
            && data'[view[k].ppn] == ImageBytes(view, data, Some(parent), i))
      && (k !in view ==> !AllMapped(view, parent, n))
      && Copyable(view, leaf, parent, i)
  {
    var k := Place(parent, i);
    assert InRange(k, parent, 0, n) && !InRange(k, child, 0, i);
    forall x | InRange(x, parent, 0, i + 1) ensures x == k || InRange(x, parent, 0, i) {
    }
    forall x | InRange(x, parent, 0, i) ensures InRange(x, parent, 0, n) {
    }
  }

  lemma GrownNone(view: map<Place, Pte>, data: map<nat, seq<Byte>>, leaf: map<nat, Place>, root: nat, first: nat,
                  src: Option<nat>)
    requires Leaves(view, data, leaf)
    ensures Grown(view, data, leaf, view, data, leaf, root, first, 0, src)
  {
  }

  /** The next page is mapped now exactly if it was mapped at the start. */
  lemma GrownAt(view: map<Place, Pte>, data: map<nat, seq<Byte>>, leaf: map<nat, Place>,
                view': map<Place, Pte>, data': map<nat, seq<Byte>>, leaf': map<nat, Place>,
                root: nat, first: nat, i: nat, n: nat, src: Option<nat>)
    requires Grown(view, data, leaf, view', data', leaf', root, first, i, src) && i < n
    ensures var k := Place(root, first + i);
      (k in view' <==> k in view) && (k.vpn >= MAXVPN || k in view ==> !Unmapped(view, root, first, n))
  {
    var k := Place(root, first + i);
    assert !InRange(k, root, first, i) && InRange(k, root, first, n);
    assert Get(view', k) == Get(view, k);
  }

  lemma GrownSame(view: map<Place, Pte>, data: map<nat, seq<Byte>>, leaf: map<nat, Place>,
                  view': map<Place, Pte>, data': map<nat, seq<Byte>>, leaf': map<nat, Place>,
                  data'': map<nat, seq<Byte>>, root: nat, first: nat, n: nat, src: Option<nat>)
    requires Grown(view, data, leaf, view', data', leaf', root, first, n, src)
    requires SameData(data', data'', leaf')
    ensures Grown(view, data, leaf, view', data'', leaf', root, first, n, src)
  {
    forall k | InRange(k, root, first, n) ensures GrownPage(view, data, leaf, view', data'', leaf', k, src) {
      assert GrownPage(view, data, leaf, view', data', leaf', k, src);
    }
  }

  lemma GrownStep(view: map<Place, Pte>, data: map<nat, seq<Byte>>, leaf: map<nat, Place>,
                  view': map<Place, Pte>, data': map<nat, seq<Byte>>, leaf': map<nat, Place>,
                  root: nat, first: nat, i: nat, p: nat, flags: nat, bytes: seq<Byte>, src: Option<nat>)
    requires Grown(view, data, leaf, view', data', leaf', root, first, i, src)
    requires first + i < MAXVPN && Place(root, first + i) !in view' && p !in leaf'
    requires flags == ImageFlags(view, src, first + i) && bytes == ImageBytes(view, data, src, first + i)
    ensures var k := Place(root, first + i);
      Grown(view, data, leaf, view'[k := Pte(p, flags)], data'[p := bytes], leaf'[p := k], root, first, i + 1, src)
  {
    var k := Place(root, first + i);
    assert !InRange(k, root, first, i);
    var view'', data'', leaf'' := view'[k := Pte(p, flags)], data'[p := bytes], leaf'[p := k];
    forall x | InRange(x, root, first, i + 1) ensures GrownPage(view, data, leaf, view'', data'', leaf'', x, src) {
      if x != k {
        assert InRange(x, root, first, i) && GrownPage(view, data, leaf, view', data', leaf', x, src);
      } else {
        assert Get(view', k) == Get(view, k);
      }
    }
    forall x | !InRange(x, root, first, i + 1) ensures Get(view'', x) == Get(view, x) {
      assert !InRange(x, root, first, i) && x != k;
    }
  }

  lemma GrownOwned(view: map<Place, Pte>, data: map<nat, seq<Byte>>, leaf: map<nat, Place>,
                   view': map<Place, Pte>, data': map<nat, seq<Byte>>, leaf': map<nat, Place>,
                   root: nat, first: nat, n: nat, src: Option<nat>)
    requires Grown(view, data, leaf, view', data', leaf', root, first, n, src)
    requires forall v :: first <= v < first + n ==> ImageFlags(view, src, v) != PTE_V
    ensures OwnsRange(view', leaf', root, first, n) && CanUnmapRange(view', root, first, n)
      && SameData(data, data', leaf)
    ensures n > 0 ==> first + n <= MAXVPN
  {
    forall k | InRange(k, root, first, n) ensures GrownPage(view, data, leaf, view', data', leaf', k, src) {
    }
    if n > 0 {
      assert InRange(Place(root, first + n - 1), root, first, n);
    }
  }

  lemma GrownUndo(view: map<Place, Pte>, data: map<nat, seq<Byte>>, leaf: map<nat, Place>,
                  view': map<Place, Pte>, data': map<nat, seq<Byte>>, leaf': map<nat, Place>,
                  root: nat, first: nat, n: nat, src: Option<nat>)
    requires Grown(view, data, leaf, view', data', leaf', root, first, n, src) && Leaves(view, data, leaf)
    ensures RemoveRange(view', root, first, n) == view && LeafOutside(leaf', root, first, n) == leaf
  {
    var r := RemoveRange(view', root, first, n);
    forall k ensures Get(r, k) == Get(view, k) {
      RemoveRangeAt(view', root, first, n, k);
      assert InRange(k, root, first, n) ==> GrownPage(view, data, leaf, view', data', leaf', k, src);
    }
    SameGets(r, view);
    forall p | p in leaf ensures !InRange(leaf[p], root, first, n) {
      assert InRange(leaf[p], root, first, n) ==> GrownPage(view, data, leaf, view', data', leaf', leaf[p], src);
    }
  }

  datatype MapResult = MapOk | MapFail | MapPanic

  /** The page of the last byte, with the 64-bit wrap of va + size - 1. */
  function LastPage(va: nat, size: nat): (v: nat)
    requires 0 < size
  {
    (va + size - 1) % 0x1_0000_0000_0000_0000 / PGSIZE
  }

  /** view with n pages from `first` on mapped to consecutive frames. */
  function AddRange(view: map<Place, Pte>, root: nat, first: nat, n: nat, ppn: nat, flags: nat): (r: map<Place, Pte>) {
    if n == 0 then view
    else AddRange(view, root, first, n - 1, ppn, flags)[Place(root, first + n - 1) := Pte(ppn + n - 1, flags)]
  }

  /** view without the n pages from `first` on. */
  function RemoveRange(view: map<Place, Pte>, root: nat, first: nat, n: nat): (r: map<Place, Pte>) {
    if n == 0 then view else RemoveRange(view, root, first, n - 1) - {Place(root, first + n - 1)}
  }

  /** The n pages from `first` on are virtual pages that view does not map. */
  ghost predicate Unmapped(view: map<Place, Pte>, root: nat, first: nat, n: nat) {
    forall k :: InRange(k, root, first, n) ==> k.vpn < MAXVPN && k !in view
  }

  /** A mapping that uvmunmap accepts: a valid leaf. */
  predicate CanUnmap(view: map<Place, Pte>, k: Place) {
    k in view && view[k].flags != PTE_V
  }

  /** The frames mapped at these n pages belong to exactly these mappings. */
  ghost predicate OwnsRange(view: map<Place, Pte>, leaf: map<nat, Place>, root: nat, first: nat, n: nat) {
    forall k :: InRange(k, root, first, n) && k in view ==> view[k].ppn in leaf && leaf[view[k].ppn] == k
  }

  /** No ownership record points into these n pages. */
  ghost predicate OwnsNone(leaf: map<nat, Place>, root: nat, first: nat, n: nat) {
    forall p :: p in leaf ==> !InRange(leaf[p], root, first, n)
  }

  /** The first page of a range and what remains once it is unmapped. */
  lemma RangeHead(view: map<Place, Pte>, data: map<nat, seq<Byte>>, leaf: map<nat, Place>, root: nat, first: nat,
                  n: nat, doFree: bool, freed: set<nat>)
    requires Leaves(view, data, leaf) && 0 < n
    requires if doFree then OwnsRange(view, leaf, root, first, n) else OwnsNone(leaf, root, first, n)
    requires freed == if doFree && Place(root, first) in view then {view[Place(root, first)].ppn} else {}
    ensures if doFree then OwnsRange(view, leaf, root, first, 1) else OwnsNone(leaf, root, first, 1)
    ensures forall p :: p in freed <==> p in leaf && leaf[p] == Place(root, first)
    ensures var k := Place(root, first);
      if doFree then OwnsRange(view - {k}, leaf - freed, root, first + 1, n - 1)
        else OwnsNone(leaf, root, first + 1, n - 1)
  {
    var k := Place(root, first);
    assert InRange(k, root, first, n);
    forall x | InRange(x, root, first, 1) ensures x == k && InRange(x, root, first, n) {
    }
    forall x | InRange(x, root, first + 1, n - 1) ensures InRange(x, root, first, n) && x != k {
    }
  }

  lemma SameDataLess(data: map<nat, seq<Byte>>, data': map<nat, seq<Byte>>, leaf: map<nat, Place>, freed: set<nat>)
    requires SameData(data, data', leaf)
    ensures SameData(data, data' - freed, leaf - freed)
  {
  }

  /** What the loop of uvmunmap has achieved after i of n pages. */
  ghost predicate Unmapping(view: map<Place, Pte>, data: map<nat, seq<Byte>>, leaf: map<nat, Place>,
                            view': map<Place, Pte>, data': map<nat, seq<Byte>>, leaf': map<nat, Place>,
                            root: nat, first: nat, i: nat, n: nat, doFree: bool)
  {
    && i <= n
    && view' == RemoveRange(view, root, first, i)
    && CanUnmapRange(view, root, first, i)
    && leaf' == LeafOutside(leaf, root, first, i)
    && SameData(data, data', leaf')
    && if doFree then OwnsRange(view', leaf', root, first + i, n - i) else OwnsNone(leaf', root, first + i, n - i)
  }

  lemma UnmappingStart(view: map<Place, Pte>, data: map<nat, seq<Byte>>, leaf: map<nat, Place>, root: nat,
                       first: nat, n: nat, doFree: bool)
    requires Leaves(view, data, leaf)
    requires if doFree then OwnsRange(view, leaf, root, first, n) else OwnsNone(leaf, root, first, n)
    ensures Unmapping(view, data, leaf, view, data, leaf, root, first, 0, n, doFree)
  {
    OutsideNone(leaf, root, first);
  }

  lemma UnmappingStep(view: map<Place, Pte>, data: map<nat, seq<Byte>>, leaf: map<nat, Place>,
                      view': map<Place, Pte>, data': map<nat, seq<Byte>>, leaf': map<nat, Place>,
                      root: nat, first: nat, i: nat, n: nat, doFree: bool, freed: set<nat>)
    requires Unmapping(view, data, leaf, view', data', leaf', root, first, i, n, doFree) && i < n
    requires Leaves(view', data', leaf')
    requires freed == if doFree && Place(root, first + i) in view' then {view'[Place(root, first + i)].ppn} else {}
    ensures if doFree then OwnsRange(view', leaf', root, first + i, 1) else OwnsNone(leaf', root, first + i, 1)
    ensures var k := Place(root, first + i);
      if k.vpn < MAXVPN && CanUnmap(view', k)
      then Unmapping(view, data, leaf, view' - {k}, data' - freed, leaf' - freed, root, first, i + 1, n, doFree)
      else !CanUnmapRange(view, root, first, n)
  {
    var k := Place(root, first + i);
    RangeHead(view', data', leaf', root, first + i, n - i, doFree, freed);
    RemoveRangeAt(view, root, first, i, k);
    assert InRange(k, root, first, n);
    if k.vpn < MAXVPN && CanUnmap(view', k) {
      assert view' - {k} == RemoveRange(view, root, first, i + 1);
      OutsideMore(leaf, leaf', root, first, i, freed);
      CanUnmapMore(view, root, first, i);
      SameDataLess(data, data', leaf', freed);
    }
  }

  lemma UnmappingEnd(view: map<Place, Pte>, data: map<nat, seq<Byte>>, leaf: map<nat, Place>,
                     view': map<Place, Pte>, data': map<nat, seq<Byte>>, leaf': map<nat, Place>,
                     root: nat, first: nat, n: nat, doFree: bool)
    requires Unmapping(view, data, leaf, view', data', leaf', root, first, n, n, doFree)
    ensures view' == RemoveRange(view, root, first, n) && CanUnmapRange(view, root, first, n)
    ensures leaf' == LeafOutside(leaf, root, first, n) && SameData(data, data', leaf')
  {
  }

  lemma OutsideNone(leaf: map<nat, Place>, root: nat, first: nat)
    ensures LeafOutside(leaf, root, first, 0) == leaf
  {
  }

  lemma OutsideMore(leaf: map<nat, Place>, mid: map<nat, Place>, root: nat, first: nat, i: nat, freed: set<nat>)
    requires mid == LeafOutside(leaf, root, first, i)
    requires forall p :: p in freed <==> p in mid && mid[p] == Place(root, first + i)
    ensures mid - freed == LeafOutside(leaf, root, first, i + 1)
  {
    forall k: Place
      ensures InRange(k, root, first, i + 1) <==> InRange(k, root, first, i) || k == Place(root, first + i)
    {
    }
  }

  lemma CanUnmapMore(view: map<Place, Pte>, root: nat, first: nat, i: nat)
    requires CanUnmapRange(view, root, first, i) && first + i < MAXVPN && CanUnmap(view, Place(root, first + i))
    ensures CanUnmapRange(view, root, first, i + 1)
  {
    forall k | InRange(k, root, first, i + 1) ensures k.vpn < MAXVPN && CanUnmap(view, k) {
      assert InRange(k, root, first, i) || k == Place(root, first + i);
    }
  }

  ghost predicate CanUnmapRange(view: map<Place, Pte>, root: nat, first: nat, n: nat) {
    forall k :: InRange(k, root, first, n) ==> k.vpn < MAXVPN && CanUnmap(view, k)
  }

  /** The ownership records other than those of the n pages from `first` on. */
  ghost function LeafOutside(leaf: map<nat, Place>, root: nat, first: nat, n: nat): (r: map<nat, Place>) {
    map p | p in leaf && !InRange(leaf[p], root, first, n) :: leaf[p]
  }

  /** The owned pages in leaf hold the bytes they held in data. */
  ghost predicate SameData(data: map<nat, seq<Byte>>, data': map<nat, seq<Byte>>, leaf: map<nat, Place>) {
    forall p :: p in leaf ==> p in data && p in data' && data'[p] == data[p]
  }

  predicate InRange(k: Place, root: nat, first: nat, n: nat) {
    k.root == root && first <= k.vpn < first + n
  }

  lemma {:induction false} AddRangeAt(view: map<Place, Pte>, root: nat, first: nat, n: nat, ppn: nat, flags: nat,
                                      k: Place)
    ensures Get(AddRange(view, root, first, n, ppn, flags), k) ==
      if InRange(k, root, first, n) then Some(Pte(ppn + k.vpn - first, flags)) else Get(view, k)
  {
    if n > 0 {
      AddRangeAt(view, root, first, n - 1, ppn, flags, k);
    }
  }

  lemma AddedAt(view: map<Place, Pte>, view': map<Place, Pte>, root: nat, first: nat, n: nat, ppn: nat, flags: nat)
    requires AddedRange(view, view', root, first, n, ppn, flags)
    ensures Place(root, first + n) in view <==> Place(root, first + n) in view'
  {
    AddRangeAt(view, root, first, n, ppn, flags, Place(root, first + n));
  }

  /** Extending the range by one page, when that page was unmapped so far. */
  lemma AddedMore(view: map<Place, Pte>, mid: map<Place, Pte>, view': map<Place, Pte>, root: nat, first: nat,
                  n: nat, ppn: nat, flags: nat)
    requires AddedRange(view, mid, root, first, n, ppn, flags)
    requires first + n < MAXVPN && Place(root, first + n) !in mid
    requires view' == mid[Place(root, first + n) := Pte(ppn + n, flags)]
    ensures AddedRange(view, view', root, first, n + 1, ppn, flags)
  {
    AddedAt(view, mid, root, first, n, ppn, flags);
    assert AddRange(view, root, first, n + 1, ppn, flags)
        == AddRange(view, root, first, n, ppn, flags)[Place(root, first + n) := Pte(ppn + n, flags)];
    forall k | InRange(k, root, first, n + 1) ensures k.vpn < MAXVPN && k !in view {
      assert InRange(k, root, first, n) || k == Place(root, first + n);
    }
  }

  lemma SinglePage(view: map<Place, Pte>, view': map<Place, Pte>, root: nat, vpn: nat, n: nat, ppn: nat, flags: nat,
                   r: MapResult)
    requires AddedRange(view, view', root, vpn, n, ppn, flags)
    requires if r == MapOk then n == 1 else n == 0
    ensures r == MapOk ==>
      && vpn < MAXVPN && Place(root, vpn) !in view
      && view' == view[Place(root, vpn) := Pte(ppn, flags)]
    ensures r != MapOk ==> view' == view
  {
    if r == MapOk {
      assert InRange(Place(root, vpn), root, vpn, n);
      assert AddRange(view, root, vpn, 0, ppn, flags) == view;
    }
  }

  ghost predicate AddedRange(view: map<Place, Pte>, view': map<Place, Pte>, root: nat, first: nat, n: nat, ppn: nat,
                             flags: nat) {
    && view' == AddRange(view, root, first, n, ppn, flags)
    && Unmapped(view, root, first, n)
  }

  lemma {:induction false} RemoveRangeAt(view: map<Place, Pte>, root: nat, first: nat, n: nat, k: Place)
    ensures Get(RemoveRange(view, root, first, n), k) == if InRange(k, root, first, n) then None else Get(view, k)
  {
    if n > 0 {
      RemoveRangeAt(view, root, first, n - 1, k);
    }
  }

  /** uvmunmap undoes mappages. */
  lemma RemoveUndoesAdd(view: map<Place, Pte>, root: nat, first: nat, n: nat, ppn: nat, flags: nat)
    requires Unmapped(view, root, first, n)
    ensures RemoveRange(AddRange(view, root, first, n, ppn, flags), root, first, n) == view
  {
    var added := AddRange(view, root, first, n, ppn, flags);
    var r := RemoveRange(added, root, first, n);
    forall k ensures Get(r, k) == Get(view, k) {
      AddRangeAt(view, root, first, n, ppn, flags, k);
      RemoveRangeAt(added, root, first, n, k);
    }
    SameGets(r, view);
  }

  lemma SameGets(a: map<Place, Pte>, b: map<Place, Pte>)
    requires forall k :: Get(a, k) == Get(b, k)
    ensures a == b
  {
    forall k ensures (k in a <==> k in b) && (k in a ==> a[k] == b[k]) {
      assert Get(a, k) == Get(b, k);
    }
  }
}
