/** Bytes of user memory as seen through an address space, and what copyout and copyin do to
    them byte by byte. */
module UserBytes {
  import opened Blocks
  import opened PageTable
  import opened VmSpec
  import opened Options

  type Data = map<nat, seq<Byte>>

  /** walkaddr(): the frame of a user-accessible page. */
  function UserFrame(view: map<Place, Pte>, root: nat, vpn: nat): (r: Option<nat>) {
    var k := Place(root, vpn);
    if k in view && IsUser(view[k]) && view[k].ppn != 0 then Some(view[k].ppn) else None
  }

  /** User-accessible pages hold bytes. */
  ghost predicate UserPages(view: map<Place, Pte>, data: Data, root: nat) {
    forall v: nat :: UserFrame(view, root, v).Some? ==>
      UserFrame(view, root, v).value in data && |data[UserFrame(view, root, v).value]| == PGSIZE
  }

  /** The n bytes at va are user accessible. */
  ghost predicate Accessible(view: map<Place, Pte>, root: nat, va: nat, n: nat) {
    forall a: nat :: va <= a < va + n ==> UserFrame(view, root, a / PGSIZE).Some?
  }

  /** The user byte at va. */
  ghost function UserByte(view: map<Place, Pte>, data: Data, root: nat, va: nat): (b: Byte)
    requires UserPages(view, data, root) && UserFrame(view, root, va / PGSIZE).Some?
  {
    data[UserFrame(view, root, va / PGSIZE).value][va % PGSIZE]
  }

  /** memmove of a chunk into a page. */
  function Splice(page: seq<Byte>, off: nat, src: seq<Byte>): (r: seq<Byte>)
    requires off + |src| <= |page|
    ensures |r| == |page|
  {
    page[..off] + src + page[off + |src|..]
  }

  ghost function Poke(view: map<Place, Pte>, data: Data, root: nat, va: nat, b: Byte): (r: Data)
    requires UserPages(view, data, root) && UserFrame(view, root, va / PGSIZE).Some?
    ensures UserPages(view, r, root) && r.Keys == data.Keys
  {
    var f := UserFrame(view, root, va / PGSIZE).value;
    data[f := Splice(data[f], va % PGSIZE, [b])]
  }

  /** Memory after the first n bytes of src have been stored at va, one after the other. */
  ghost function Stored(view: map<Place, Pte>, data: Data, root: nat, va: nat, src: seq<Byte>, n: nat): (r: Data)
    requires UserPages(view, data, root) && n <= |src| && Accessible(view, root, va, n)
    ensures UserPages(view, r, root) && r.Keys == data.Keys
  {
    if n == 0 then data else Poke(view, Stored(view, data, root, va, src, n - 1), root, va + n - 1, src[n - 1])
  }

  /** One more byte of a chunk that stays within the page of va + m. */
  lemma StoreNext(view: map<Place, Pte>, data: Data, root: nat, va: nat, src: seq<Byte>, m: nat, n: nat)
    requires UserPages(view, data, root) && m + n + 1 <= |src| && Accessible(view, root, va, m + n + 1)
    requires (va + m) % PGSIZE + n + 1 <= PGSIZE
    ensures var f := UserFrame(view, root, (va + m) / PGSIZE); f.Some? && f.value in data && |data[f.value]| == PGSIZE
    ensures var f := UserFrame(view, root, (va + m) / PGSIZE).value;
      var prev := Stored(view, data, root, va, src, m + n);
      && |prev[f]| == PGSIZE
      && Stored(view, data, root, va, src, m + n + 1) == prev[f := Splice(prev[f], (va + m) % PGSIZE + n, [src[m + n]])]
  {
    var last := va + (m + n + 1) - 1;
    assert last / PGSIZE == (va + m) / PGSIZE && last % PGSIZE == (va + m) % PGSIZE + n by {
      SamePage(va + m, n);
    }
    assert UserFrame(view, root, last / PGSIZE).Some?;
  }

  lemma SliceMore(src: seq<Byte>, m: nat, n: nat)
    requires m + n + 1 <= |src|
    ensures src[m..m + n + 1] == src[m..m + n] + [src[m + n]]
  {
  }

  /** Moving a chunk that stays within one page stores its bytes. */
  lemma {:induction false} ChunkStored(view: map<Place, Pte>, data: Data, root: nat, va: nat, src: seq<Byte>,
                                       m: nat, n: nat)
    requires UserPages(view, data, root) && m + n <= |src| && Accessible(view, root, va, m + n)
    requires 0 < n && (va + m) % PGSIZE + n <= PGSIZE
    ensures var f := UserFrame(view, root, (va + m) / PGSIZE); f.Some? && f.value in data && |data[f.value]| == PGSIZE
    ensures var f := UserFrame(view, root, (va + m) / PGSIZE).value;
      var before := Stored(view, data, root, va, src, m);
      && |before[f]| == PGSIZE
      && Stored(view, data, root, va, src, m + n) == before[f := Splice(before[f], (va + m) % PGSIZE, src[m..m + n])]
  {
    hide Stored, Splice;
    StoreNext(view, data, root, va, src, m, n - 1);
    SliceMore(src, m, n - 1);
    if n == 1 {
      assert src[m..m + n] == [src[m]];
    } else {
      ChunkStored(view, data, root, va, src, m, n - 1);
      var f := UserFrame(view, root, (va + m) / PGSIZE).value;
      SpliceMore(Stored(view, data, root, va, src, m)[f], (va + m) % PGSIZE, src[m..m + (n - 1)], src[m + n - 1]);
    }
  }

  lemma SamePage(a: nat, i: nat)
    requires a % PGSIZE + i < PGSIZE
    ensures (a + i) / PGSIZE == a / PGSIZE && (a + i) % PGSIZE == a % PGSIZE + i
  {
  }

  lemma SpliceMore(page: seq<Byte>, off: nat, s: seq<Byte>, b: Byte)
    requires off + |s| + 1 <= |page|
    ensures Splice(Splice(page, off, s), off + |s|, [b]) == Splice(page, off, s + [b])
  {
  }

  /** No two pages of the n bytes at va share a frame. */
  ghost predicate Injective(view: map<Place, Pte>, root: nat, va: nat, n: nat) {
    forall a: nat, b: nat | va <= a < va + n && va <= b < va + n ::
      UserFrame(view, root, a / PGSIZE) == UserFrame(view, root, b / PGSIZE) ==> a / PGSIZE == b / PGSIZE
  }

  /** copyout then reading: with frames of their own, the stored bytes are read back. */
  lemma {:induction false} ReadBack(view: map<Place, Pte>, data: Data, root: nat, va: nat, src: seq<Byte>, n: nat,
                                    i: nat)
    requires UserPages(view, data, root) && n <= |src| && Accessible(view, root, va, n)
      && Injective(view, root, va, n) && i < n
    ensures UserFrame(view, root, (va + i) / PGSIZE).Some?
    ensures UserByte(view, Stored(view, data, root, va, src, n), root, va + i) == src[i]
  {
    assert UserFrame(view, root, (va + i) / PGSIZE).Some?;
    var last := va + n - 1;
    if i < n - 1 {
      ReadBack(view, data, root, va, src, n - 1, i);
      if (va + i) / PGSIZE == last / PGSIZE {
        assert (va + i) % PGSIZE != last % PGSIZE;
      } else {
        assert UserFrame(view, root, (va + i) / PGSIZE) != UserFrame(view, root, last / PGSIZE);
      }
    }
  }

  /** Every byte of memory that is not one of the n bytes at va keeps its value, also in the pages
      the range begins and ends in. */
  lemma {:induction false} StoredElsewhere(view: map<Place, Pte>, data: Data, root: nat, va: nat, src: seq<Byte>,
                                           n: nat, p: nat, off: nat)
    requires UserPages(view, data, root) && n <= |src| && Accessible(view, root, va, n) && p in data && off < |data[p]|
    requires forall a: nat :: va <= a < va + n && a % PGSIZE == off ==> UserFrame(view, root, a / PGSIZE) != Some(p)
    ensures var data' := Stored(view, data, root, va, src, n);
      p in data' && |data'[p]| == |data[p]| && data'[p][off] == data[p][off]
  {
    if n > 0 {
      StoredElsewhere(view, data, root, va, src, n - 1, p, off);
      var last := va + n - 1;
      assert last % PGSIZE == off ==> UserFrame(view, root, last / PGSIZE) != Some(p);
    }
  }

  /** The n user bytes at va. */
  ghost function UserSeq(view: map<Place, Pte>, data: Data, root: nat, va: nat, n: nat): (s: seq<Byte>)
    requires UserPages(view, data, root) && Accessible(view, root, va, n)
    ensures |s| == n && forall i :: 0 <= i < n ==>
      UserFrame(view, root, (va + i) / PGSIZE).Some? && s[i] == UserByte(view, data, root, va + i)
  {
    if n == 0 then [] else UserSeq(view, data, root, va, n - 1) + [UserByte(view, data, root, va + n - 1)]
  }

  /** copyout then copyin: over frames of their own the bytes come back, across page boundaries. */
  lemma CopyRoundTrip(view: map<Place, Pte>, data: Data, root: nat, va: nat, src: seq<Byte>)
    requires UserPages(view, data, root) && Accessible(view, root, va, |src|) && Injective(view, root, va, |src|)
    ensures UserSeq(view, Stored(view, data, root, va, src, |src|), root, va, |src|) == src
  {
    forall i | 0 <= i < |src|
      ensures UserSeq(view, Stored(view, data, root, va, src, |src|), root, va, |src|)[i] == src[i]
    {
      ReadBack(view, data, root, va, src, |src|, i);
    }
  }

  /** A chunk within one page, read byte by byte, is a slice of the page. */
  lemma ChunkRead(view: map<Place, Pte>, data: Data, root: nat, va: nat, m: nat, n: nat)
    requires UserPages(view, data, root) && Accessible(view, root, va, m + n)
    requires 0 < n && (va + m) % PGSIZE + n <= PGSIZE
    ensures var f := UserFrame(view, root, (va + m) / PGSIZE); f.Some? && f.value in data && |data[f.value]| == PGSIZE
    ensures var f := UserFrame(view, root, (va + m) / PGSIZE).value;
      var off := (va + m) % PGSIZE;
      UserSeq(view, data, root, va, m + n) == UserSeq(view, data, root, va, m) + data[f][off..off + n]
  {
    var f := UserFrame(view, root, (va + m) / PGSIZE).value;
    var off := (va + m) % PGSIZE;
    var l, r := UserSeq(view, data, root, va, m + n), UserSeq(view, data, root, va, m) + data[f][off..off + n];
    forall i | 0 <= i < m + n ensures l[i] == r[i] {
      if i >= m {
        SamePage(va + m, i - m);
        assert (va + m) + (i - m) == va + i;
      }
    }
  }

  /** The whole page is accessible or none of it is. */
  lemma AccessibleChunk(view: map<Place, Pte>, root: nat, va: nat, m: nat, n: nat)
    requires Accessible(view, root, va, m) && 0 < n && (va + m) % PGSIZE + n <= PGSIZE
    ensures Accessible(view, root, va, m + n) <==> UserFrame(view, root, (va + m) / PGSIZE).Some?
    ensures UserFrame(view, root, (va + m) / PGSIZE).None? ==> forall k: nat :: k > m ==> !Accessible(view, root, va, k)
  {
    if UserFrame(view, root, (va + m) / PGSIZE).Some? {
      forall a: nat | va <= a < va + m + n ensures UserFrame(view, root, a / PGSIZE).Some? {
        if a >= va + m {
          SamePage(va + m, a - (va + m));
          assert (va + m) + (a - (va + m)) == a;
        }
      }
    } else {
      forall k: nat | k > m ensures !Accessible(view, root, va, k) {
        assert va <= va + m < va + k && UserFrame(view, root, (va + m) / PGSIZE).None?;
      }
    }
  }

  lemma NothingCopied(view: map<Place, Pte>, data: Data, root: nat, va: nat, src: seq<Byte>)
    requires UserPages(view, data, root)
    ensures Accessible(view, root, va, 0) && Stored(view, data, root, va, src, 0) == data
      && UserSeq(view, data, root, va, 0) == []
  {
  }

  /** The string at va: n bytes without a NUL, then a NUL, all accessible. */
  ghost predicate StringAt(view: map<Place, Pte>, data: Data, root: nat, va: nat, n: nat)
    requires UserPages(view, data, root)
  {
    && Accessible(view, root, va, n + 1)
    && NoNul(UserSeq(view, data, root, va, n))
    && UserSeq(view, data, root, va, n + 1)[n] == 0
  }

  ghost predicate NoNul(s: seq<Byte>) {
    forall i :: 0 <= i < |s| ==> s[i] != 0
  }

  lemma NoNulNone()
    ensures NoNul([])
  {
  }

  lemma NoNulMore(s: seq<Byte>, t: seq<Byte>)
    requires NoNul(s) && NoNul(t)
    ensures NoNul(s + t)
  {
  }

  /** Without a NUL in its first m bytes, no string at va ends within them; and none ends at all
      if the next byte is out of reach. */
  lemma NoStringYet(view: map<Place, Pte>, data: Data, root: nat, va: nat, m: nat)
    requires UserPages(view, data, root) && Accessible(view, root, va, m) && NoNul(UserSeq(view, data, root, va, m))
    ensures forall n :: 0 <= n < m ==> !StringAt(view, data, root, va, n)
    ensures (forall k: nat :: k > m ==> !Accessible(view, root, va, k)) ==>
      forall n: nat :: !StringAt(view, data, root, va, n)
  {
    forall n | 0 <= n < m ensures !StringAt(view, data, root, va, n) {
      assert UserSeq(view, data, root, va, m)[n] == UserByte(view, data, root, va + n) != 0;
    }
  }

  lemma StringFound(view: map<Place, Pte>, data: Data, root: nat, va: nat, m: nat, k: nat, off: nat)
    requires UserPages(view, data, root) && Accessible(view, root, va, m + k + 1)
    requires Accessible(view, root, va, m) && NoNul(UserSeq(view, data, root, va, m))
    requires off == (va + m) % PGSIZE && off + k + 1 <= PGSIZE
    ensures var f := UserFrame(view, root, (va + m) / PGSIZE); f.Some? && f.value in data && |data[f.value]| == PGSIZE
    ensures var page := data[UserFrame(view, root, (va + m) / PGSIZE).value];
      NoNul(page[off..off + k]) && page[off + k] == 0 ==>
        StringAt(view, data, root, va, m + k) &&
        UserSeq(view, data, root, va, m + k + 1) == UserSeq(view, data, root, va, m) + page[off..off + k] + [0]
  {
    ChunkRead(view, data, root, va, m, k + 1);
    var page := data[UserFrame(view, root, (va + m) / PGSIZE).value];
    assert page[off..off + k + 1] == page[off..off + k] + [page[off + k]];
    forall a: nat | va <= a < va + m + k ensures UserFrame(view, root, a / PGSIZE).Some? {
    }
    var whole := UserSeq(view, data, root, va, m + k + 1);
    assert whole[..m + k] == UserSeq(view, data, root, va, m + k);
    assert whole == UserSeq(view, data, root, va, m) + page[off..off + k] + [page[off + k]];
  }

  // ---------------------------------------------------------------- pages gained

  /** Every user page of the address space has a frame of its own. */
  ghost predicate OwnUser(view: map<Place, Pte>, leaf: map<nat, Place>, root: nat) {
    forall v: nat :: UserFrame(view, root, v).Some? ==>
      UserFrame(view, root, v).value in leaf && leaf[UserFrame(view, root, v).value] == Place(root, v)
  }

  /** Then its memory can be read, and no two pages of it overlap. */
  lemma OwnUserMemory(view: map<Place, Pte>, data: Data, leaf: map<nat, Place>, root: nat, va: nat, n: nat)
    requires OwnUser(view, leaf, root) && Leaves(view, data, leaf)
    ensures UserPages(view, data, root)
    ensures Accessible(view, root, va, n) ==> Injective(view, root, va, n)
  {
  }

  /** The n pages from first on are readable, writable, executable and open to the user, and every byte of
      them is 0. */
  ghost predicate Blank(view: map<Place, Pte>, data: Data, root: nat, first: nat, n: nat) {
    forall v: nat {:trigger UserFrame(view, root, v)} | first <= v < first + n ::
      && UserFrame(view, root, v).Some? && UserFrame(view, root, v).value in data
      && data[UserFrame(view, root, v).value] == ZeroPage()
      && var pte := view[Place(root, v)]; Has(pte, PTE_R) && Has(pte, PTE_W) && Has(pte, PTE_X)
  }

  /** What uvmalloc adds is blank memory that copyout and copyin reach. */
  lemma GrownBlank(view: map<Place, Pte>, data: Data, leaf: map<nat, Place>,
                   view': map<Place, Pte>, data': Data, leaf': map<nat, Place>, root: nat, first: nat, n: nat)
    requires Grown(view, data, leaf, view', data', leaf', root, first, n, None) && 0 !in leaf'
    ensures Blank(view', data', root, first, n)
    ensures Accessible(view', root, first * PGSIZE, n * PGSIZE)
    ensures OwnUser(view, leaf, root) ==> OwnUser(view', leaf', root)
  {
    forall v: nat | first <= v < first + n
      ensures UserFrame(view', root, v).Some? && UserFrame(view', root, v).value in data'
      ensures data'[UserFrame(view', root, v).value] == ZeroPage()
      ensures var pte := view'[Place(root, v)]; Has(pte, PTE_R) && Has(pte, PTE_W) && Has(pte, PTE_X)
    {
      assert InRange(Place(root, v), root, first, n);
    }
    if OwnUser(view, leaf, root) {
      forall v: nat | UserFrame(view', root, v).Some?
        ensures UserFrame(view', root, v).value in leaf' && leaf'[UserFrame(view', root, v).value] == Place(root, v)
      {
        if !InRange(Place(root, v), root, first, n) {
          assert Get(view', Place(root, v)) == Get(view, Place(root, v));
          assert UserFrame(view', root, v) == UserFrame(view, root, v);
        }
      }
    }
  }

  /** A user range that reaches the first new page goes on through the new ones. */
  lemma GrownFurther(view: map<Place, Pte>, data: Data, leaf: map<nat, Place>,
                     view': map<Place, Pte>, data': Data, leaf': map<nat, Place>, root: nat, oldsz: nat, newsz: nat)
    requires oldsz <= newsz && 0 !in leaf'
    requires Grown(view, data, leaf, view', data', leaf', root, Pages(oldsz), NewPages(oldsz, newsz), None)
    requires Accessible(view, root, 0, oldsz)
    ensures Accessible(view', root, 0, newsz)
  {
    GrownBlank(view, data, leaf, view', data', leaf', root, Pages(oldsz), NewPages(oldsz, newsz));
    forall a: nat | a < newsz ensures UserFrame(view', root, a / PGSIZE).Some? {
      PagesBound(newsz, a / PGSIZE);
      PagesBound(oldsz, a / PGSIZE);
      var k := Place(root, a / PGSIZE);
      if a / PGSIZE < Pages(oldsz) {
        assert UserFrame(view, root, a / PGSIZE * PGSIZE / PGSIZE).Some?;
        assert Get(view', k) == Get(view, k);
      }
    }
  }

  /** What uvmcopy gives the child: at every page the same access and the same bytes as the parent had,
      in a frame that was nobody's; and the parent has what it had. */
  lemma ForkImage(view: map<Place, Pte>, data: Data, leaf: map<nat, Place>,
                  view': map<Place, Pte>, data': Data, leaf': map<nat, Place>, parent: nat, child: nat, n: nat, v: nat)
    requires Grown(view, data, leaf, view', data', leaf', child, 0, n, Some(parent)) && parent != child && v < n
    requires AllMapped(view, parent, n) && Copyable(view, leaf, parent, n) && Leaves(view, data, leaf)
    requires 0 !in leaf && 0 !in leaf'
    ensures UserFrame(view', parent, v) == UserFrame(view, parent, v)
    ensures UserFrame(view', child, v).Some? <==> UserFrame(view, parent, v).Some?
    ensures UserFrame(view', child, v).Some? ==>
      var f, f' := UserFrame(view, parent, v).value, UserFrame(view', child, v).value;
      && f' !in leaf && f in data && f' in data' && f in data' && data'[f'] == data[f] == data'[f]
  {
    assert InRange(Place(child, v), child, 0, n) && InRange(Place(parent, v), parent, 0, n);
    assert Get(view', Place(parent, v)) == Get(view, Place(parent, v));
  }
}
