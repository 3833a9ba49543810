/** Sv39 page tables as they lie in physical memory, and the translation they stand for.
    A page number names a 4096-byte frame; `ptes` gives the contents of the frames that hold
    page-table pages. */
module PageTable {
  import opened Options

  const PGSIZE := 4096
  const ENTRIES := 512
  const MAXVA := 0x40_0000_0000        // 1 << 38
  const MAXVPN := 0x400_0000           // MAXVA / PGSIZE

  const PTE_V := 1
  const PTE_R := 2
  const PTE_W := 4
  const PTE_X := 8
  const PTE_U := 16

  /** A page-table entry, split into its two fields. */
  datatype Pte = Pte(ppn: nat, flags: nat)

  const NullPte := Pte(0, 0)

  predicate IsValid(p: Pte) { p.flags % 2 == 1 }
  predicate Has(p: Pte, bit: nat)
    requires bit > 0
  {
    p.flags / bit % 2 == 1
  }

  predicate IsUser(p: Pte) { Has(p, PTE_U) }
  predicate IsLeafPte(p: Pte) { p.flags / 2 % 8 != 0 }    // any of R, W, X

  /** perm | PTE_V */
  function WithValid(perm: nat): (flags: nat)
    ensures flags % 2 == 1 && flags / 2 == perm / 2
  {
    perm + 1 - perm % 2
  }

  function RoundDown(a: nat): (r: nat)
    ensures r % PGSIZE == 0 && r <= a < r + PGSIZE
  {
    a - a % PGSIZE
  }

  function RoundUp(a: nat): (r: nat)
    ensures r % PGSIZE == 0 && a <= r < a + PGSIZE
  {
    RoundDown(a + PGSIZE - 1)
  }

  // ---------------------------------------------------------------- the 64-bit format

  /** PX(level, va) for the page number vpn of va. */
  function Index(vpn: nat, level: nat): (i: nat)
    requires level <= 2
    ensures i < ENTRIES
  {
    Prefix(vpn, level) % ENTRIES
  }

  /** The part of vpn above its lowest `level` indices. */
  function Prefix(vpn: nat, level: nat): (b: nat)
    requires level <= 3
  {
    if level == 0 then vpn
    else if level == 1 then vpn / 512
    else if level == 2 then vpn / 0x4_0000
    else vpn / 0x800_0000
  }

  lemma PrefixStep(vpn: nat, level: nat)
    requires level <= 2
    ensures Prefix(vpn, level) == Prefix(vpn, level + 1) * ENTRIES + Index(vpn, level)
    ensures Prefix(vpn, level) / ENTRIES == Prefix(vpn, level + 1)
  {
  }

  // ---------------------------------------------------------------- the tree

  type Tables = map<nat, seq<Pte>>

  /** The place of a table page: in the tree of which root, at which level, for which prefix,
      and which page points to it. */
  datatype Node = Node(root: nat, level: nat, base: nat, parent: nat)

  /** Bound on the bases of tables of a level: addresses stay below MAXVA. */
  function BaseBound(level: nat): (b: nat) {
    if level == 2 then 1 else if level == 1 then 0x100 else 0x2_0000
  }

  ghost predicate TableOk(ptes: Tables, tbl: map<nat, Node>, p: nat)
    requires p in tbl
  {
    var node := tbl[p];
    && p in ptes && |ptes[p]| == ENTRIES
    && node.level <= 2 && node.base < BaseBound(node.level)
    && (if node.level == 2 then node.root == p && node.base == 0
        else
          && node.parent in tbl && node.parent in ptes && |ptes[node.parent]| == ENTRIES
          && tbl[node.parent].root == node.root && tbl[node.parent].level == node.level + 1
          && tbl[node.parent].base == node.base / ENTRIES
          && ptes[node.parent][node.base % ENTRIES] == Pte(p, PTE_V))
    && (node.level > 0 ==> forall i :: 0 <= i < ENTRIES && IsValid(ptes[p][i]) ==>
          PointsTo(ptes[p][i], tbl, p, i))
  }

  /** An interior entry: a pure pointer to a table page that knows its place. */
  ghost predicate PointsTo(e: Pte, tbl: map<nat, Node>, p: nat, i: nat)
    requires p in tbl && tbl[p].level > 0
  {
    && e.flags == PTE_V
    && e.ppn in tbl
    && tbl[e.ppn] == Node(tbl[p].root, tbl[p].level - 1, tbl[p].base * ENTRIES + i, p)
  }

  /** All table pages of all address spaces form unshared trees. */
  ghost predicate Trees(ptes: Tables, tbl: map<nat, Node>) {
    && ptes.Keys == tbl.Keys
    && forall p {:trigger TableOk(ptes, tbl, p)} :: p in tbl ==> TableOk(ptes, tbl, p)
  }

  ghost predicate IsRoot(tbl: map<nat, Node>, root: nat) {
    root in tbl && tbl[root].level == 2 && tbl[root].root == root
  }

  // ---------------------------------------------------------------- translation

  /** The table page of the given level on the path to vpn, if it exists. */
  function FindTable(ptes: Tables, root: nat, vpn: nat, level: nat): (r: Option<nat>)
    requires level <= 2
    decreases 2 - level
  {
    if level == 2 then Some(root)
    else
      var up := FindTable(ptes, root, vpn, level + 1);
      var i := Index(vpn, level + 1);
      if up.Some? && up.value in ptes && i < |ptes[up.value]| && IsValid(ptes[up.value][i])
      then Some(ptes[up.value][i].ppn) else None
  }

  /** The mapping of vpn: its leaf entry, when that is valid. */
  function Lookup(ptes: Tables, root: nat, vpn: nat): (r: Option<Pte>) {
    var t := FindTable(ptes, root, vpn, 0);
    var i := Index(vpn, 0);
    if t.Some? && t.value in ptes && i < |ptes[t.value]| && IsValid(ptes[t.value][i])
    then Some(ptes[t.value][i]) else None
  }

  /** The table found on the path is the one whose place says so. */
  lemma {:induction false} FindNode(ptes: Tables, tbl: map<nat, Node>, root: nat, vpn: nat, level: nat)
    requires Trees(ptes, tbl) && IsRoot(tbl, root) && level <= 2 && vpn < MAXVPN
    ensures var t := FindTable(ptes, root, vpn, level);
      t.Some? ==> t.value in tbl && tbl[t.value].root == root && tbl[t.value].level == level
                  && tbl[t.value].base == Prefix(vpn, level + 1)
    decreases 2 - level
  {
    if level == 2 {
      assert TableOk(ptes, tbl, root);
    } else {
      FindNode(ptes, tbl, root, vpn, level + 1);
      PrefixStep(vpn, level + 1);
      var up := FindTable(ptes, root, vpn, level + 1);
      if up.Some? {
        assert TableOk(ptes, tbl, up.value);
      }
    }
  }

  /** Every table page is where the walk for its prefix leads. */
  lemma {:induction false} FindPath(ptes: Tables, tbl: map<nat, Node>, p: nat, vpn: nat)
    requires Trees(ptes, tbl) && p in tbl && vpn < MAXVPN
    requires tbl[p].level <= 2 && tbl[p].base == Prefix(vpn, tbl[p].level + 1)
    ensures FindTable(ptes, tbl[p].root, vpn, tbl[p].level) == Some(p)
    decreases 2 - tbl[p].level
  {
    assert TableOk(ptes, tbl, p);
    var node := tbl[p];
    if node.level < 2 {
      PrefixStep(vpn, node.level + 1);
      FindPath(ptes, tbl, node.parent, vpn);
    }
  }

  // ---------------------------------------------------------------- updates

  lemma SetLeafTrees(ptes: Tables, tbl: map<nat, Node>, p: nat, i: nat, e: Pte)
    requires Trees(ptes, tbl) && p in tbl && tbl[p].level == 0 && i < ENTRIES
    ensures p in ptes && |ptes[p]| == ENTRIES
    ensures Trees(ptes[p := ptes[p][i := e]], tbl)
  {
    assert TableOk(ptes, tbl, p);
    var ptes' := ptes[p := ptes[p][i := e]];
    forall q | q in tbl ensures TableOk(ptes', tbl, q) {
      assert TableOk(ptes, tbl, q);
    }
  }

  /** Writing one leaf entry changes one translation of one address space. */
  lemma SetLeafAt(ptes: Tables, tbl: map<nat, Node>, p: nat, i: nat, e: Pte, r: nat, v: nat)
    requires Trees(ptes, tbl) && p in tbl && tbl[p].level == 0 && i < ENTRIES
    requires IsRoot(tbl, r) && v < MAXVPN
    ensures p in ptes && |ptes[p]| == ENTRIES
    ensures Lookup(ptes[p := ptes[p][i := e]], r, v) ==
      if r == tbl[p].root && v == tbl[p].base * ENTRIES + i
      then (if IsValid(e) then Some(e) else None) else Lookup(ptes, r, v)
  {
    assert TableOk(ptes, tbl, p);
    var ptes' := ptes[p := ptes[p][i := e]];
    SetLeafTrees(ptes, tbl, p, i, e);
    SamePath(ptes, ptes', tbl, p, r, v, 0);
    FindNode(ptes, tbl, r, v, 0);
    PrefixStep(v, 0);
    if r == tbl[p].root && v == tbl[p].base * ENTRIES + i {
      FindPath(ptes, tbl, p, v);
    }
  }

  /** Interior tables, hence paths, do not depend on a level-0 page. */
  lemma {:induction false} SamePath(ptes: Tables, ptes': Tables, tbl: map<nat, Node>, p: nat, r: nat, v: nat,
                                    level: nat)
    requires Trees(ptes, tbl) && p in tbl && tbl[p].level == 0
    requires p in ptes' && ptes' == ptes[p := ptes'[p]]
    requires IsRoot(tbl, r) && v < MAXVPN && level <= 2
    ensures FindTable(ptes', r, v, level) == FindTable(ptes, r, v, level)
    decreases 2 - level
  {
    if level < 2 {
      SamePath(ptes, ptes', tbl, p, r, v, level + 1);
      FindNode(ptes, tbl, r, v, level + 1);
    }
  }

  /** memset(page, 0, PGSIZE), read as a page table. */
  function EmptyTable(): (t: seq<Pte>)
    ensures |t| == ENTRIES && forall i :: 0 <= i < ENTRIES ==> t[i] == NullPte
  {
    seq(ENTRIES, _ => NullPte)
  }

  /** Memory after walk() has linked the zeroed page `page` under entry i of page p. */
  function Linked(ptes: Tables, p: nat, i: nat, page: nat): (r: Tables)
    requires p in ptes && i < |ptes[p]|
  {
    ptes[page := EmptyTable()][p := ptes[p][i := Pte(page, PTE_V)]]
  }

  ghost function LinkedPlaces(tbl: map<nat, Node>, p: nat, i: nat, page: nat): (r: map<nat, Node>)
    requires p in tbl && tbl[p].level > 0
  {
    tbl[page := Node(tbl[p].root, tbl[p].level - 1, tbl[p].base * ENTRIES + i, p)]
  }

  ghost predicate CanLink(ptes: Tables, tbl: map<nat, Node>, p: nat, i: nat, page: nat) {
    && Trees(ptes, tbl) && p in tbl && tbl[p].level > 0 && i < ENTRIES && TableOk(ptes, tbl, p)
    && !IsValid(ptes[p][i]) && page !in tbl
    && tbl[p].base * ENTRIES + i < BaseBound(tbl[p].level - 1)
  }

  lemma LinkTrees(ptes: Tables, tbl: map<nat, Node>, p: nat, i: nat, page: nat)
    requires CanLink(ptes, tbl, p, i, page)
    ensures Trees(Linked(ptes, p, i, page), LinkedPlaces(tbl, p, i, page))
  {
    var ptes', tbl' := Linked(ptes, p, i, page), LinkedPlaces(tbl, p, i, page);
    forall q | q in tbl' ensures TableOk(ptes', tbl', q) {
      if q != page {
        assert TableOk(ptes, tbl, q);
        LinkOther(ptes, tbl, p, i, page, q);
      }
    }
  }

  lemma LinkOther(ptes: Tables, tbl: map<nat, Node>, p: nat, i: nat, page: nat, q: nat)
    requires CanLink(ptes, tbl, p, i, page) && q in tbl && TableOk(ptes, tbl, q)
    ensures TableOk(Linked(ptes, p, i, page), LinkedPlaces(tbl, p, i, page), q)
  {
    var ptes', tbl' := Linked(ptes, p, i, page), LinkedPlaces(tbl, p, i, page);
    if tbl[q].level > 0 {
      forall j | 0 <= j < ENTRIES && IsValid(ptes'[q][j]) ensures PointsTo(ptes'[q][j], tbl', q, j) {
        if q != p || j != i {
          assert PointsTo(ptes[q][j], tbl, q, j);
        }
      }
    }
  }

  /** Linking an empty table extends paths but adds no translation. */
  lemma {:induction false} LinkPath(ptes: Tables, tbl: map<nat, Node>, p: nat, i: nat, page: nat, r: nat, v: nat,
                                    level: nat)
    requires CanLink(ptes, tbl, p, i, page) && IsRoot(tbl, r) && v < MAXVPN && level <= 2
    ensures var t, t' := FindTable(ptes, r, v, level), FindTable(Linked(ptes, p, i, page), r, v, level);
      if t.Some? then t' == t else t' == None || t' == Some(page)
    decreases 2 - level
  {
    if level < 2 {
      LinkPath(ptes, tbl, p, i, page, r, v, level + 1);
      FindNode(ptes, tbl, r, v, level + 1);
      var up := FindTable(ptes, r, v, level + 1);
      if up.Some? {
        assert TableOk(ptes, tbl, up.value);
      }
    }
  }

  lemma LinkLookup(ptes: Tables, tbl: map<nat, Node>, p: nat, i: nat, page: nat, r: nat, v: nat)
    requires CanLink(ptes, tbl, p, i, page) && IsRoot(tbl, r) && v < MAXVPN
    ensures Lookup(Linked(ptes, p, i, page), r, v) == Lookup(ptes, r, v)
  {
    LinkPath(ptes, tbl, p, i, page, r, v, 0);
    FindNode(ptes, tbl, r, v, 0);
  }

  /** A new address space translates nothing and disturbs no other. */
  lemma NewRoot(ptes: Tables, tbl: map<nat, Node>, root: nat)
    requires Trees(ptes, tbl) && root !in tbl
    ensures Trees(ptes[root := EmptyTable()], tbl[root := Node(root, 2, 0, 0)])
    ensures var ptes' := ptes[root := EmptyTable()];
      && (forall v :: 0 <= v < MAXVPN ==> Lookup(ptes', root, v) == None)
      && forall r, v | IsRoot(tbl, r) && 0 <= v < MAXVPN :: Lookup(ptes', r, v) == Lookup(ptes, r, v)
  {
    var ptes', tbl' := ptes[root := EmptyTable()], tbl[root := Node(root, 2, 0, 0)];
    forall q | q in tbl' ensures TableOk(ptes', tbl', q) {
      if q != root {
        assert TableOk(ptes, tbl, q);
      }
    }
    forall v | 0 <= v < MAXVPN ensures Lookup(ptes', root, v) == None {
      assert FindTable(ptes', root, v, 2) == Some(root);
      assert FindTable(ptes', root, v, 1) == None;
      assert FindTable(ptes', root, v, 0) == None;
    }
    forall r, v | IsRoot(tbl, r) && 0 <= v < MAXVPN ensures Lookup(ptes', r, v) == Lookup(ptes, r, v) {
      KeptLookup(ptes, ptes', tbl, r, v);
    }
  }

  /** Translations depend only on the pages of their own tree. */
  lemma {:induction false} KeptPath(ptes: Tables, ptes': Tables, tbl: map<nat, Node>, r: nat, v: nat, level: nat)
    requires Trees(ptes, tbl) && IsRoot(tbl, r) && v < MAXVPN && level <= 2
    requires forall q :: q in tbl && tbl[q].root == r ==> q in ptes' && ptes'[q] == ptes[q]
    ensures FindTable(ptes', r, v, level) == FindTable(ptes, r, v, level)
    decreases 2 - level
  {
    if level < 2 {
      KeptPath(ptes, ptes', tbl, r, v, level + 1);
      FindNode(ptes, tbl, r, v, level + 1);
    }
  }

  lemma KeptLookup(ptes: Tables, ptes': Tables, tbl: map<nat, Node>, r: nat, v: nat)
    requires Trees(ptes, tbl) && IsRoot(tbl, r) && v < MAXVPN
    requires forall q :: q in tbl && tbl[q].root == r ==> q in ptes' && ptes'[q] == ptes[q]
    ensures Lookup(ptes', r, v) == Lookup(ptes, r, v)
  {
    KeptPath(ptes, ptes', tbl, r, v, 0);
    FindNode(ptes, tbl, r, v, 0);
  }

  // ---------------------------------------------------------------- subtrees

  /** The table pages at and below p. */
  ghost predicate Under(tbl: map<nat, Node>, q: nat, p: nat)
    requires q in tbl && p in tbl
  {
    && tbl[q].root == tbl[p].root
    && tbl[q].level <= tbl[p].level <= 2
    && Prefix(tbl[q].base, tbl[p].level - tbl[q].level) == tbl[p].base
  }

  ghost function Subtree(tbl: map<nat, Node>, p: nat): (s: set<nat>)
    requires p in tbl
  {
    set q | q in tbl && Under(tbl, q, p)
  }

  /** The entry of p through which q, strictly below p, is reached. */
  ghost function Branch(tbl: map<nat, Node>, q: nat, p: nat): (i: nat)
    requires q in tbl && p in tbl && tbl[q].level < tbl[p].level <= 2
  {
    Prefix(tbl[q].base, tbl[p].level - 1 - tbl[q].level) % ENTRIES
  }

  /** No two table pages have the same place. */
  lemma {:induction false} UniquePlace(ptes: Tables, tbl: map<nat, Node>, p: nat, q: nat)
    requires Trees(ptes, tbl) && p in tbl && q in tbl
    requires tbl[p].root == tbl[q].root && tbl[p].level == tbl[q].level && tbl[p].base == tbl[q].base
    ensures p == q
    decreases 2 - tbl[p].level
  {
    assert TableOk(ptes, tbl, p) && TableOk(ptes, tbl, q);
    if tbl[p].level < 2 {
      UniquePlace(ptes, tbl, tbl[p].parent, tbl[q].parent);
    }
  }

  /** Page q of the subtree of p: reachable from p through its parent, and with only pointers
      to tables or, at the bottom, only genuine leaves. */
  ghost predicate SubNodeOk(ptes: Tables, tbl: map<nat, Node>, p: nat, q: nat)
    requires p in tbl && q in tbl
  {
    && q in ptes && |ptes[q]| == ENTRIES
    && (q != p ==> HangsFrom(ptes, tbl, p, q))
    && (forall i :: 0 <= i < ENTRIES && IsValid(ptes[q][i]) ==>
         if tbl[q].level > 0 then PointsTo(ptes[q][i], tbl, q, i) else IsLeafPte(ptes[q][i]))
  }

  ghost predicate HangsFrom(ptes: Tables, tbl: map<nat, Node>, p: nat, q: nat)
    requires p in tbl && q in tbl
  {
    var u := tbl[q].parent;
    && tbl[q].level < tbl[p].level
    && u in tbl && u in ptes && |ptes[u]| == ENTRIES && Under(tbl, u, p)
    && tbl[u].level == tbl[q].level + 1 && tbl[u].base == tbl[q].base / ENTRIES
    && ptes[u][tbl[q].base % ENTRIES] == Pte(q, PTE_V)
  }

  ghost predicate SubtreeOk(ptes: Tables, tbl: map<nat, Node>, p: nat) {
    && p in tbl && tbl[p].level <= 2
    && forall q {:trigger SubNodeOk(ptes, tbl, p, q)} :: q in tbl && Under(tbl, q, p) ==> SubNodeOk(ptes, tbl, p, q)
  }

  /** The pages below p that are reached through its first n entries. */
  ghost function Below(tbl: map<nat, Node>, p: nat, n: nat): (s: set<nat>)
    requires p in tbl
  {
    set q | q in tbl && Under(tbl, q, p) && tbl[q].level < tbl[p].level && Branch(tbl, q, p) < n
  }

  /** Below p, a page hangs from the entry that its base names. */
  lemma {:induction false} ClimbValid(ptes: Tables, tbl: map<nat, Node>, p: nat, q: nat)
    requires SubtreeOk(ptes, tbl, p) && q in tbl && Under(tbl, q, p) && tbl[q].level < tbl[p].level
    ensures p in ptes && |ptes[p]| == ENTRIES && IsValid(ptes[p][Branch(tbl, q, p)])
    decreases tbl[p].level - tbl[q].level
  {
    assert SubNodeOk(ptes, tbl, p, q) && SubNodeOk(ptes, tbl, p, p);
    var u := tbl[q].parent;
    if u == p {
    } else {
      assert SubNodeOk(ptes, tbl, p, u);
      ClimbValid(ptes, tbl, p, u);
      PrefixStep(tbl[q].base, 0);
    }
  }

  /** The pages reached through entry i of p are the subtree of the child there. */
  lemma ChildSubtree(tbl: map<nat, Node>, p: nat, i: nat, c: nat, q: nat)
    requires p in tbl && 0 < tbl[p].level <= 2 && i < ENTRIES && q in tbl
    requires c in tbl && tbl[c].root == tbl[p].root && tbl[c].level == tbl[p].level - 1
      && tbl[c].base == tbl[p].base * ENTRIES + i
    ensures Under(tbl, q, c) <==> Under(tbl, q, p) && tbl[q].level < tbl[p].level && Branch(tbl, q, p) == i
  {
    if tbl[q].level < tbl[p].level {
      PrefixStep(tbl[q].base, tbl[p].level - 1 - tbl[q].level);
    }
  }

  /** Freeing the subtrees of earlier entries leaves the child's subtree intact. */
  lemma ChildSubtreeOk(ptes: Tables, tbl: map<nat, Node>, ptes': Tables, p: nat, i: nat)
    requires SubtreeOk(ptes, tbl, p) && 0 < tbl[p].level && i < ENTRIES
    requires SubNodeOk(ptes, tbl, p, p) && IsValid(ptes[p][i])
    requires forall q :: q in tbl && q != p && q !in Below(tbl, p, i) ==> q in ptes ==>
      q in ptes' && ptes'[q] == ptes[q]
    ensures var c := ptes[p][i].ppn;
      && c in tbl && c !in Below(tbl, p, i) && c != p
      && tbl[c] == Node(tbl[p].root, tbl[p].level - 1, tbl[p].base * ENTRIES + i, p)
      && SubtreeOk(ptes', tbl - Below(tbl, p, i), c)
  {
    var c := ptes[p][i].ppn;
    var tbl' := tbl - Below(tbl, p, i);
    ChildSubtree(tbl, p, i, c, c);
    forall q | q in tbl' && Under(tbl', q, c) ensures SubNodeOk(ptes', tbl', c, q) {
      ChildNodeOk(ptes, tbl, ptes', p, i, c, q);
    }
  }

  lemma ChildNodeOk(ptes: Tables, tbl: map<nat, Node>, ptes': Tables, p: nat, i: nat, c: nat, q: nat)
    requires SubtreeOk(ptes, tbl, p) && 0 < tbl[p].level && i < ENTRIES
    requires SubNodeOk(ptes, tbl, p, p) && IsValid(ptes[p][i]) && c == ptes[p][i].ppn && c in tbl
    requires tbl[c] == Node(tbl[p].root, tbl[p].level - 1, tbl[p].base * ENTRIES + i, p)
    requires forall q :: q in tbl && q != p && q !in Below(tbl, p, i) ==> q in ptes ==>
      q in ptes' && ptes'[q] == ptes[q]
    requires q in tbl && Under(tbl, q, c) && c !in Below(tbl, p, i)
    ensures q !in Below(tbl, p, i) && SubNodeOk(ptes', tbl - Below(tbl, p, i), c, q)
  {
    var tbl' := tbl - Below(tbl, p, i);
    ChildSubtree(tbl, p, i, c, q);
    assert SubNodeOk(ptes, tbl, p, q);
    if q != c {
      ChildHangs(ptes, tbl, ptes', p, i, c, q);
    }
    if tbl[q].level > 0 {
      forall j | 0 <= j < ENTRIES && IsValid(ptes'[q][j]) ensures PointsTo(ptes'[q][j], tbl', q, j) {
        assert PointsTo(ptes[q][j], tbl, q, j);
        var x := ptes[q][j].ppn;
        ChildSubtree(tbl, q, j, x, x);
        ChildSubtree(tbl, p, i, c, x);
        PrefixStep(tbl[x].base, 0);
      }
    }
  }

  lemma ChildHangs(ptes: Tables, tbl: map<nat, Node>, ptes': Tables, p: nat, i: nat, c: nat, q: nat)
    requires SubtreeOk(ptes, tbl, p) && 0 < tbl[p].level && i < ENTRIES
    requires SubNodeOk(ptes, tbl, p, p) && IsValid(ptes[p][i]) && c == ptes[p][i].ppn && c in tbl
    requires tbl[c] == Node(tbl[p].root, tbl[p].level - 1, tbl[p].base * ENTRIES + i, p)
    requires forall q :: q in tbl && q != p && q !in Below(tbl, p, i) ==> q in ptes ==>
      q in ptes' && ptes'[q] == ptes[q]
    requires q in tbl && q != c && Under(tbl, q, c) && q !in Below(tbl, p, i) && c !in Below(tbl, p, i)
    ensures HangsFrom(ptes', tbl - Below(tbl, p, i), c, q)
  {
    ChildSubtree(tbl, p, i, c, q);
    assert SubNodeOk(ptes, tbl, p, q);
    var u := tbl[q].parent;
    PrefixStep(tbl[q].base, 0);
    ChildSubtree(tbl, p, i, c, u);
    assert SubNodeOk(ptes, tbl, p, u);
  }

  /** The whole tree of an address space hangs from its root. */
  lemma {:induction false} AllUnderRoot(ptes: Tables, tbl: map<nat, Node>, root: nat, q: nat)
    requires Trees(ptes, tbl) && IsRoot(tbl, root) && q in tbl && tbl[q].root == root
    ensures Under(tbl, q, root) && (q != root ==> HangsFrom(ptes, tbl, root, q))
    decreases 2 - tbl[q].level
  {
    assert TableOk(ptes, tbl, q) && TableOk(ptes, tbl, root);
    if tbl[q].level < 2 {
      AllUnderRoot(ptes, tbl, root, tbl[q].parent);
    }
  }

  /** Dropping the whole tree of one address space leaves the others alone. */
  lemma DropRoot(ptes: Tables, tbl: map<nat, Node>, root: nat, gone: set<nat>)
    requires Trees(ptes, tbl) && IsRoot(tbl, root)
    requires forall q :: q in tbl ==> (q in gone <==> tbl[q].root == root)
    ensures Trees(ptes - gone, tbl - gone)
    ensures forall r, v | IsRoot(tbl, r) && r != root && 0 <= v < MAXVPN ::
      Lookup(ptes - gone, r, v) == Lookup(ptes, r, v)
  {
    var ptes', tbl' := ptes - gone, tbl - gone;
    forall q | q in tbl' ensures TableOk(ptes', tbl', q) {
      assert TableOk(ptes, tbl, q);
      if tbl[q].level > 0 {
        forall i | 0 <= i < ENTRIES && IsValid(ptes[q][i]) ensures PointsTo(ptes[q][i], tbl', q, i) {
          assert PointsTo(ptes[q][i], tbl, q, i);
        }
      }
    }
    forall r, v | IsRoot(tbl, r) && r != root && 0 <= v < MAXVPN ensures Lookup(ptes', r, v) == Lookup(ptes, r, v) {
      KeptLookup(ptes, ptes', tbl, r, v);
    }
  }

  // ---------------------------------------------------------------- freewalk

  /** No leaf is mapped at or below p. */
  ghost predicate NoLeaves(ptes: Tables, tbl: map<nat, Node>, p: nat)
    requires p in tbl
  {
    forall q :: q in tbl && Under(tbl, q, p) && tbl[q].level == 0 ==> AllInvalid(ptes, q, ENTRIES)
  }

  ghost predicate AllInvalid(ptes: Tables, q: nat, n: nat) {
    q in ptes && n <= |ptes[q]| && forall j :: 0 <= j < n ==> !IsValid(ptes[q][j])
  }

  /** What freewalk(p) has achieved after its first i entries. */
  ghost predicate Freeing(ptes: Tables, tbl: map<nat, Node>, ptes': Tables, tbl': map<nat, Node>, p: nat, i: nat)
    requires p in tbl
  {
    && SubtreeOk(ptes, tbl, p) && SubNodeOk(ptes, tbl, p, p) && i <= ENTRIES
    && tbl' == tbl - Below(tbl, p, i)
    && ptes' - {p} == ptes - {p} - Below(tbl, p, i)
    && p in ptes' && |ptes'[p]| == ENTRIES
    && (forall j :: i <= j < ENTRIES ==> ptes'[p][j] == ptes[p][j])
    && (forall q :: q in Below(tbl, p, i) && tbl[q].level == 0 ==> AllInvalid(ptes, q, ENTRIES))
    && (tbl[p].level == 0 ==> AllInvalid(ptes, p, i))
  }

  lemma FreeingStart(ptes: Tables, tbl: map<nat, Node>, p: nat)
    requires SubtreeOk(ptes, tbl, p)
    ensures p in tbl && Below(tbl, p, 0) == {} && Freeing(ptes, tbl, ptes, tbl, p, 0)
  {
    assert SubNodeOk(ptes, tbl, p, p);
    assert Below(tbl, p, 0) == {};
    assert tbl - {} == tbl;
  }

  /** An entry that is not valid leads nowhere. */
  lemma FreeingSkip(ptes: Tables, tbl: map<nat, Node>, ptes': Tables, tbl': map<nat, Node>, p: nat, i: nat)
    requires p in tbl && Freeing(ptes, tbl, ptes', tbl', p, i) && i < ENTRIES && !IsValid(ptes[p][i])
    ensures Freeing(ptes, tbl, ptes', tbl', p, i + 1)
  {
    forall q | q in Below(tbl, p, i + 1) ensures q in Below(tbl, p, i) {
      ClimbValid(ptes, tbl, p, q);
    }
    assert Below(tbl, p, i + 1) == Below(tbl, p, i);
  }

  lemma SkippedBelow(ptes: Tables, tbl: map<nat, Node>, ptes': Tables, tbl': map<nat, Node>, p: nat, i: nat)
    requires p in tbl && Freeing(ptes, tbl, ptes', tbl', p, i) && i < ENTRIES && !IsValid(ptes[p][i])
    ensures Below(tbl, p, i + 1) == Below(tbl, p, i)
  {
    forall q | q in Below(tbl, p, i + 1) ensures q in Below(tbl, p, i) {
      ClimbValid(ptes, tbl, p, q);
    }
  }

  lemma BelowMore(ptes: Tables, tbl: map<nat, Node>, ptes': Tables, tbl': map<nat, Node>, p: nat, i: nat)
    requires p in tbl && Freeing(ptes, tbl, ptes', tbl', p, i) && i < ENTRIES && IsValid(ptes[p][i]) && tbl[p].level > 0
    ensures ptes[p][i].ppn in tbl' && Below(tbl, p, i + 1) == Below(tbl, p, i) + Subtree(tbl', ptes[p][i].ppn)
  {
    SkipSubtree(ptes, tbl, ptes', tbl', p, i);
  }

  /** The entry freewalk looks at next is still the original one: a pointer or, at the bottom, a
      leaf that makes it panic. */
  lemma EntryFacts(ptes: Tables, tbl: map<nat, Node>, ptes': Tables, tbl': map<nat, Node>, p: nat, i: nat)
    requires p in tbl && Freeing(ptes, tbl, ptes', tbl', p, i) && i < ENTRIES
    ensures p in ptes' && |ptes'[p]| == ENTRIES && ptes'[p][i] == ptes[p][i]
    ensures IsValid(ptes[p][i]) ==> (IsLeafPte(ptes[p][i]) <==> tbl[p].level == 0)
    ensures IsValid(ptes[p][i]) && tbl[p].level == 0 ==> !NoLeaves(ptes, tbl, p)
  {
    if IsValid(ptes[p][i]) && tbl[p].level == 0 {
      assert Under(tbl, p, p) && !AllInvalid(ptes, p, ENTRIES);
    }
  }

  lemma SkipSubtree(ptes: Tables, tbl: map<nat, Node>, ptes': Tables, tbl': map<nat, Node>, p: nat, i: nat)
    requires p in tbl && Freeing(ptes, tbl, ptes', tbl', p, i) && i < ENTRIES && IsValid(ptes[p][i]) && tbl[p].level > 0
    ensures var c := ptes[p][i].ppn;
      && c in tbl' && c in tbl && c != p && SubtreeOk(ptes', tbl', c) && tbl'[c].level == tbl[p].level - 1
      && (forall q :: q in tbl && q in Below(tbl, p, i + 1) <==>
           q in tbl && (q in Below(tbl, p, i) || q in Subtree(tbl', c)))
  {
    forall q | q in tbl && q != p && q !in Below(tbl, p, i) && q in ptes ensures q in ptes' && ptes'[q] == ptes[q] {
      assert q in ptes - {p} - Below(tbl, p, i);
      assert q in ptes' - {p} && (ptes' - {p})[q] == (ptes - {p} - Below(tbl, p, i))[q];
    }
    ChildSubtreeOk(ptes, tbl, ptes', p, i);
    var c := ptes[p][i].ppn;
    forall q | q in tbl ensures q in Below(tbl, p, i + 1) <==> q in Below(tbl, p, i) || q in Subtree(tbl', c) {
      ChildSubtree(tbl, p, i, c, q);
      if q in tbl' {
        assert Under(tbl', q, c) <==> Under(tbl, q, c);
      }
    }
  }

  /** After the child's subtree is gone and its entry cleared. */
  lemma FreeingChild(ptes: Tables, tbl: map<nat, Node>, ptes': Tables, tbl': map<nat, Node>, p: nat, i: nat)
    requires p in tbl && Freeing(ptes, tbl, ptes', tbl', p, i) && i < ENTRIES && IsValid(ptes[p][i]) && tbl[p].level > 0
    requires ptes[p][i].ppn in tbl' && NoLeaves(ptes', tbl', ptes[p][i].ppn)
    ensures var c := ptes[p][i].ppn;
      var ptes'' := ptes' - Subtree(tbl', c);
      p in ptes'' && i < |ptes''[p]|
        && Freeing(ptes, tbl, ptes''[p := ptes''[p][i := NullPte]], tbl' - Subtree(tbl', c), p, i + 1)
  {
    var c := ptes[p][i].ppn;
    SkipSubtree(ptes, tbl, ptes', tbl', p, i);
    var gone := Subtree(tbl', c);
    assert p !in gone by {
      ChildSubtree(tbl, p, i, c, p);
      assert p in tbl' ==> (Under(tbl', p, c) <==> Under(tbl, p, c));
    }
    assert Below(tbl, p, i + 1) == Below(tbl, p, i) + gone;
    var ptes'' := ptes' - gone;
    var ptes3 := ptes''[p := ptes''[p][i := NullPte]];
    assert tbl' - gone == tbl - Below(tbl, p, i + 1);
    assert ptes3 - {p} == ptes' - {p} - gone;
    assert ptes3 - {p} == ptes - {p} - Below(tbl, p, i + 1);
    forall q | q in Below(tbl, p, i + 1) && tbl[q].level == 0 ensures AllInvalid(ptes, q, ENTRIES) {
      if q in gone {
        assert AllInvalid(ptes', q, ENTRIES);
        assert q != p && q in ptes' - {p};
      }
    }
  }

  /** A leaf below the child is a leaf below p. */
  lemma LeafBelow(ptes: Tables, tbl: map<nat, Node>, ptes': Tables, tbl': map<nat, Node>, p: nat, i: nat)
    requires p in tbl && Freeing(ptes, tbl, ptes', tbl', p, i) && i < ENTRIES && IsValid(ptes[p][i]) && tbl[p].level > 0
    requires ptes[p][i].ppn in tbl' && !NoLeaves(ptes', tbl', ptes[p][i].ppn)
    ensures !NoLeaves(ptes, tbl, p)
  {
    var c := ptes[p][i].ppn;
    SkipSubtree(ptes, tbl, ptes', tbl', p, i);
    var q :| q in tbl' && Under(tbl', q, c) && tbl'[q].level == 0 && !AllInvalid(ptes', q, ENTRIES);
    ChildSubtree(tbl, p, i, c, q);
    assert SubNodeOk(ptes', tbl', c, q);
    assert q != p;
    assert q in ptes' - {p};
    assert ptes'[q] == ptes[q];
    assert !AllInvalid(ptes, q, ENTRIES);
  }

  lemma FreeingEnd(ptes: Tables, tbl: map<nat, Node>, ptes': Tables, tbl': map<nat, Node>, p: nat)
    requires p in tbl && Freeing(ptes, tbl, ptes', tbl', p, ENTRIES)
    ensures NoLeaves(ptes, tbl, p) && p in tbl' && Subtree(tbl, p) == Below(tbl, p, ENTRIES) + {p}
    ensures ptes' - {p} == ptes - Subtree(tbl, p) && tbl' - {p} == tbl - Subtree(tbl, p)
  {
    forall q | q in tbl && Under(tbl, q, p) && q != p ensures q in Below(tbl, p, ENTRIES) {
      assert SubNodeOk(ptes, tbl, p, q);
    }
    assert Subtree(tbl, p) == Below(tbl, p, ENTRIES) + {p};
  }

  /** A whole address space can be handed to freewalk; it holds leaves exactly if it maps pages. */
  lemma RootSubtreeOk(ptes: Tables, tbl: map<nat, Node>, root: nat)
    requires Trees(ptes, tbl) && IsRoot(tbl, root)
    requires forall v | 0 <= v < MAXVPN :: Lookup(ptes, root, v).Some? ==> IsLeafPte(Lookup(ptes, root, v).value)
    ensures SubtreeOk(ptes, tbl, root)
    ensures forall q :: q in tbl ==> (q in Subtree(tbl, root) <==> tbl[q].root == root)
  {
    assert TableOk(ptes, tbl, root);
    forall q | q in tbl && tbl[q].root == root ensures Under(tbl, q, root) && SubNodeOk(ptes, tbl, root, q) {
      AllUnderRoot(ptes, tbl, root, q);
      assert TableOk(ptes, tbl, q);
      if tbl[q].level == 0 {
        forall i | 0 <= i < ENTRIES && IsValid(ptes[q][i]) ensures IsLeafPte(ptes[q][i]) {
          LowEntry(ptes, tbl, q, i);
        }
      }
    }
  }

  /** An entry of a bottom table is the translation of one page. */
  lemma LowEntry(ptes: Tables, tbl: map<nat, Node>, q: nat, i: nat)
    requires Trees(ptes, tbl) && q in tbl && tbl[q].level == 0 && i < ENTRIES
    ensures q in ptes && |ptes[q]| == ENTRIES
    ensures tbl[q].base * ENTRIES + i < MAXVPN
    ensures Lookup(ptes, tbl[q].root, tbl[q].base * ENTRIES + i) ==
      if IsValid(ptes[q][i]) then Some(ptes[q][i]) else None
  {
    assert TableOk(ptes, tbl, q);
    FindPath(ptes, tbl, q, tbl[q].base * ENTRIES + i);
  }

  lemma RootNoLeaves(ptes: Tables, tbl: map<nat, Node>, root: nat)
    requires Trees(ptes, tbl) && IsRoot(tbl, root)
    ensures NoLeaves(ptes, tbl, root) <==> forall v | 0 <= v < MAXVPN :: Lookup(ptes, root, v) == None
  {
    if forall v | 0 <= v < MAXVPN :: Lookup(ptes, root, v) == None {
      forall q | q in tbl && Under(tbl, q, root) && tbl[q].level == 0 ensures AllInvalid(ptes, q, ENTRIES) {
        LowEntry(ptes, tbl, q, 0);
        forall i | 0 <= i < ENTRIES ensures !IsValid(ptes[q][i]) {
          LowEntry(ptes, tbl, q, i);
        }
      }
    }
    if NoLeaves(ptes, tbl, root) {
      forall v | 0 <= v < MAXVPN ensures Lookup(ptes, root, v) == None {
        FindNode(ptes, tbl, root, v, 0);
        var t := FindTable(ptes, root, v, 0);
        if t.Some? {
          AllUnderRoot(ptes, tbl, root, t.value);
          assert AllInvalid(ptes, t.value, ENTRIES);
        }
      }
    }
  }
}
