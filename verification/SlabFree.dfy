/** Freeing slab objects: what the cascade of slab.c:62-93 and slab.c:119-180 does to the state. */
module SlabFree {
  import opened Basics
  import opened Counting
  import opened SlabSpec
  import opened SlabSteps
  import opened SlabRelations

  // ----- the elementary steps on the closed invariant -----

  /** An object that may be freed: a user's, or metadata nobody refers to any more. */
  ghost predicate Freeable(pages: set<int>, unhashed: set<int>, homeless: set<Owner>, who: Owner) {
    && Loose(homeless, who)
    && (who.DescOf? ==> who.page !in pages)
    && (who.NodeOf? ==> who.page !in pages || who.page in unhashed)
  }

  /** What nobody refers to any more belongs to pages that are unlinked or no longer hashed. */
  ghost predicate Adrift(homeless: set<Owner>, pages: set<int>, unhashed: set<int>) {
    forall o :: o in homeless ==> !o.User? && Freeable(pages, unhashed, homeless, o)
  }

  lemma PushSealed(base: nat, lists: seq<seq<int>>, pages: Pages, hash: seq<seq<HNode>>, owner: Owners,
                   unhashed: set<int>, homeless: set<Owner>, x: int)
    requires Sealed(base, lists, pages, hash, owner, unhashed, homeless) && x in owner
    requires Freeable(pages.Keys, unhashed, homeless, owner[x])
    ensures var p := PageOf(x);
            && p in pages && pages[p].idx < SLAB_NUM && pages[p].inUse >= 1
            && Sealed(base, lists, pages[p := Pushed(pages[p], x)], hash, owner - {x}, unhashed,
               homeless - Ref(owner[x]))
  {
    Unseal(base, lists, pages, hash, owner, unhashed, homeless);
    PushKeeps(base, lists, pages, hash, owner, unhashed, homeless, x);
    var p := PageOf(x);
    InUseCounts(p, pages[p], x);
    Unseal(base, lists, pages[p := Pushed(pages[p], x)], hash, owner - {x}, unhashed, homeless - Ref(owner[x]));
  }

  lemma HashRemoveSealed(base: nat, lists: seq<seq<int>>, pages: Pages, hash: seq<seq<HNode>>, owner: Owners,
                         unhashed: set<int>, homeless: set<Owner>, h: nat, k: nat)
    requires Sealed(base, lists, pages, hash, owner, unhashed, homeless) && h < HASH_SIZE == |hash| && k < |hash[h]|
    ensures var nd := hash[h][k];
            && nd.page in pages && nd.page !in unhashed && nd.at in owner && owner[nd.at] == NodeOf(nd.page)
            && nd.idx == pages[nd.page].idx < SLAB_NUM
            && Sealed(base, lists, pages, hash[h := hash[h][..k] + hash[h][k + 1..]], owner, unhashed + {nd.page},
               homeless + {NodeOf(nd.page)})
  {
    Unseal(base, lists, pages, hash, owner, unhashed, homeless);
    HashRemoveKeeps(base, hash, pages, owner, unhashed, homeless, h, k);
    var nd := hash[h][k];
    assert ChainOk(base, h, hash[h], pages, owner, unhashed);
    assert PageOk(nd.page, pages[nd.page]);
    assert DescsOk(pages, owner, homeless + {NodeOf(nd.page)});
    Unseal(base, lists, pages, hash[h := hash[h][..k] + hash[h][k + 1..]], owner, unhashed + {nd.page},
      homeless + {NodeOf(nd.page)});
  }

  lemma AnotherElement(e: set<int>, p: int)
    requires |e| >= 2
    ensures exists q :: q in e && q != p
  {
    if forall q :: q in e ==> q == p {
      SubsetSize(e, {p});
    }
  }

  /** return_slab_page takes the page out of its list. */
  lemma UnlinkSealed(base: nat, lists: seq<seq<int>>, pages: Pages, hash: seq<seq<HNode>>, owner: Owners,
                     unhashed: set<int>, homeless: set<Owner>, p: int)
    requires Sealed(base, lists, pages, hash, owner, unhashed, homeless) && |lists| == SLAB_NUM
    requires p in pages && pages[p].idx < SLAB_NUM && pages[p].inUse == 0 && p in unhashed
    requires |Empties(pages, pages[p].idx)| >= 2
    requires DescOf(p) !in homeless
    ensures Sealed(base, lists[pages[p].idx := Without(lists[pages[p].idx], p)], pages - {p}, hash, owner,
      unhashed - {p}, homeless + {DescOf(p)})
    ensures pages[p].desc != STATIC ==> pages[p].desc in owner && owner[pages[p].desc] == DescOf(p)
    ensures pages[p].desc == STATIC ==>
              Sealed(base, lists[pages[p].idx := Without(lists[pages[p].idx], p)], pages - {p}, hash, owner,
                unhashed - {p}, homeless - {DescOf(p)})
  {
    Unseal(base, lists, pages, hash, owner, unhashed, homeless);
    AnotherEmpty(pages, p);
    UnlinkKeeps(base, lists, pages, hash, owner, unhashed, homeless, p);
    var ls := lists[pages[p].idx := Without(lists[pages[p].idx], p)];
    Unseal(base, ls, pages - {p}, hash, owner, unhashed - {p}, homeless + {DescOf(p)});
    if pages[p].desc == STATIC {
      NoDescObject(pages, owner, homeless, p);
      DropRef(base, ls, pages - {p}, hash, owner, unhashed - {p}, homeless, DescOf(p));
    }
  }

  /** A page with a static descriptor has no descriptor object. */
  lemma NoDescObject(pages: Pages, owner: Owners, homeless: set<Owner>, p: int)
    requires PagesOk(pages) && OwnersOk(pages, owner) && DescsOk(pages, owner, homeless)
    requires p in pages && pages[p].desc == STATIC && DescOf(p) !in homeless
    ensures forall y :: y in owner ==> owner[y] != DescOf(p)
  {
    forall y | y in owner ensures owner[y] != DescOf(p) { NotStatic(pages, owner, y); }
  }

  lemma AnotherEmpty(pages: Pages, p: int)
    requires p in pages && |Empties(pages, pages[p].idx)| >= 2
    ensures exists q :: q in pages && q != p && pages[q].idx == pages[p].idx
  {
    var e := Empties(pages, pages[p].idx);
    AnotherElement(e, p);
    var q :| q in e && q != p;
  }

  lemma NotStatic(pages: Pages, owner: Owners, y: int)
    requires PagesOk(pages) && OwnersOk(pages, owner) && y in owner
    ensures y != STATIC
  {
    assert IsLive(pages, y);
    assert PageOk(PageOf(y), pages[PageOf(y)]);
    SlotNotStatic(PageOf(y), pages[PageOf(y)].idx, y);
  }

  lemma DropRef(base: nat, lists: seq<seq<int>>, pages: Pages, hash: seq<seq<HNode>>, owner: Owners,
                unhashed: set<int>, homeless: set<Owner>, who: Owner)
    requires Inv(base, lists, pages, hash, owner, unhashed, homeless + {who})
    requires forall y :: y in owner ==> owner[y] != who
    ensures Sealed(base, lists, pages, hash, owner, unhashed, homeless - {who})
  {
    assert DescsOk(pages, owner, homeless - {who});
    assert HashOk(base, hash, pages, owner, unhashed, homeless - {who});
    Unseal(base, lists, pages, hash, owner, unhashed, homeless - {who});
  }

  // ----- looking an object up -----

  /** Pages on their way out have no object in use. */
  ghost predicate Drained(unhashed: set<int>, pages: Pages) {
    forall p :: p in unhashed ==> p in pages && pages[p].inUse == 0
  }

  /** A live object is found: its page is hashed, its address aligned, and it is off the free list. */
  lemma LiveIsFound(base: nat, lists: seq<seq<int>>, pages: Pages, hash: seq<seq<HNode>>, owner: Owners,
                    unhashed: set<int>, homeless: set<Owner>, x: int)
    requires Sealed(base, lists, pages, hash, owner, unhashed, homeless) && Drained(unhashed, pages)
    requires |hash| == HASH_SIZE
    ensures var p := PageOf(x);
            && (Holds(hash[HashIdx(base, p)], p) <==> p in pages && p !in unhashed)
            && (p in pages ==> pages[p].idx < SLAB_NUM)
            && (x in owner <==> p in pages && p !in unhashed && Slot(p, pages[p].idx, x) && x !in pages[p].free)
  {
    Unseal(base, lists, pages, hash, owner, unhashed, homeless);
    var p := PageOf(x);
    assert x in owner <==> IsLive(pages, x);
    assert ChainOk(base, HashIdx(base, p), hash[HashIdx(base, p)], pages, owner, unhashed);
    if p in pages {
      assert PageOk(p, pages[p]);
      if Slot(p, pages[p].idx, x) { InUseCounts(p, pages[p], x); }
    }
  }

  lemma HashedNode(base: nat, lists: seq<seq<int>>, pages: Pages, hash: seq<seq<HNode>>, owner: Owners,
                   unhashed: set<int>, homeless: set<Owner>, h: nat, k: nat)
    requires Sealed(base, lists, pages, hash, owner, unhashed, homeless) && h < HASH_SIZE == |hash| && k < |hash[h]|
    ensures var nd := hash[h][k]; nd.page in pages && nd.page !in unhashed && nd.idx == pages[nd.page].idx < SLAB_NUM
  {
    HashRemoveSealed(base, lists, pages, hash, owner, unhashed, homeless, h, k);
  }

  /** check_slab_obj tests exactly whether the address is a slot. */
  lemma CheckIsSlot(x: int, idx: nat)
    requires idx < SLAB_NUM
    ensures (x % PGSIZE) % ObjSize(idx) == 0 <==> Slot(PageOf(x), idx, x)
  {
    assert x - PageOf(x) == x % PGSIZE;
  }

  // ----- the relation between the states before and after -----

  /** The counters never fall behind the number of free pages, and only run ahead of it where enough
      free pages are linked. */
  ghost predicate CountersAhead(pages: Pages, counts: seq<int>) {
    && |counts| == SLAB_NUM
    && forall i :: 0 <= i < SLAB_NUM ==>
         counts[i] >= |Empties(pages, i)| && (counts[i] > |Empties(pages, i)| ==> |Empties(pages, i)| >= MAX_FREE_PAGE)
  }

  ghost predicate Calm(pages: Pages, counts: seq<int>) {
    forall k {:trigger Key(k, (pages, counts))} :: Key(k, (pages, counts)) ==> CountersAhead(pages, counts)
  }

  lemma OpenCalm(pages: Pages, counts: seq<int>)
    ensures Calm(pages, counts) <==> CountersAhead(pages, counts)
  {
    assert Key(0, (pages, counts));
  }

  function Max(a: int, b: int): int { if a < b then b else a }

  ghost predicate CountsShrink(s: Snap, t: Snap) {
    && |s.counts| == |t.counts| == SLAB_NUM
    && (forall i :: 0 <= i < SLAB_NUM ==> t.counts[i] - |Empties(t.pages, i)| == s.counts[i] - |Empties(s.pages, i)|)
    && (forall i :: 0 <= i < SLAB_NUM ==> |Empties(s.pages, i)| <= |Empties(t.pages, i)|)
    && (forall i :: 0 <= i < SLAB_NUM ==> t.counts[i] <= Max(s.counts[i], MAX_FREE_PAGE))
  }

  ghost predicate ObjectsShrink(s: Snap, t: Snap, x: int, keep: set<int>) {
    && (forall y :: y in t.owner ==> y in s.owner && t.owner[y] == s.owner[y])
    && (forall y :: y in s.owner ==> y in t.owner || y == x || !s.owner[y].User?)
    && x !in t.owner && |t.owner| < |s.owner|
    && (forall p :: p in t.pages ==>
         p in s.pages && t.pages[p].idx == s.pages[p].idx && t.pages[p].desc == s.pages[p].desc)
    && (forall p :: p in keep && p in s.pages ==> p in t.pages && t.pages[p] == s.pages[p])
  }

  /** Freeing x takes away x, metadata, and whole pages; pages in `keep` stay as they are; no cache
      ends up with fewer free pages, and the counters keep their distance from the truth. */
  ghost predicate Shrank(s: Snap, t: Snap, x: int, keep: set<int>) {
    forall k {:trigger Key(k, (s, t, x, keep))} :: Key(k, (s, t, x, keep)) ==>
      ObjectsShrink(s, t, x, keep) && CountsShrink(s, t)
  }

  lemma OpenShrank(s: Snap, t: Snap, x: int, keep: set<int>)
    ensures Shrank(s, t, x, keep) <==> ObjectsShrink(s, t, x, keep) && CountsShrink(s, t)
  {
    assert Key(0, (s, t, x, keep));
  }

  lemma ShrankKeeps(s: Snap, t: Snap, x: int, keep: set<int>)
    requires Shrank(s, t, x, keep)
    ensures |t.owner| < |s.owner| && t.pages.Keys <= s.pages.Keys
    ensures forall p :: p in keep && p in s.pages ==> p in t.pages && t.pages[p] == s.pages[p]
    ensures forall i :: 0 <= i < SLAB_NUM ==> |Empties(s.pages, i)| <= |Empties(t.pages, i)|
    ensures forall y :: y in t.owner ==> y in s.owner && t.owner[y] == s.owner[y]
    ensures forall y :: y in s.owner ==> y in t.owner || y == x || !s.owner[y].User?
  {
    OpenShrank(s, t, x, keep);
    assert forall p :: p in t.pages ==> p in s.pages;
  }

  lemma ShrankCalm(s: Snap, t: Snap, x: int, keep: set<int>)
    requires Shrank(s, t, x, keep) && Calm(s.pages, s.counts)
    ensures Calm(t.pages, t.counts)
  {
    OpenShrank(s, t, x, keep);
    OpenCalm(s.pages, s.counts);
    OpenCalm(t.pages, t.counts);
  }

  /** push_free_list, and the counter if the page has become free. */
  ghost predicate PushedTo(s: Snap, t: Snap, x: int) {
    var p := PageOf(x);
    && p in s.pages && s.pages[p].idx < SLAB_NUM && s.pages[p].inUse >= 1 && x in s.owner && |s.counts| == SLAB_NUM
    && t.lists == s.lists && t.pages == s.pages[p := Pushed(s.pages[p], x)] && t.owner == s.owner - {x}
    && t.counts
       == (if s.pages[p].inUse == 1 then s.counts[s.pages[p].idx := s.counts[s.pages[p].idx] + 1] else s.counts)
  }

  /** Freeing x makes its page one free page too many. */
  ghost predicate Overflows(s: Snap, x: int) {
    && PageOf(x) in s.pages && s.pages[PageOf(x)].inUse == 1 && s.pages[PageOf(x)].idx < |s.counts|
    && s.counts[s.pages[PageOf(x)].idx] >= MAX_FREE_PAGE
  }

  lemma PushEmpties(s: Snap, t: Snap, x: int)
    requires PushedTo(s, t, x)
    ensures var p := PageOf(x);
            forall i :: 0 <= i < SLAB_NUM ==>
              |Empties(t.pages, i)| ==
                |Empties(s.pages, i)| + if i == s.pages[p].idx && s.pages[p].inUse == 1 then 1 else 0
  {
    var p := PageOf(x);
    forall i | 0 <= i < SLAB_NUM
      ensures |Empties(t.pages, i)| ==
        |Empties(s.pages, i)| + if i == s.pages[p].idx && s.pages[p].inUse == 1 then 1 else 0
    {
      if i == s.pages[p].idx && s.pages[p].inUse == 1 {
        assert Empties(t.pages, i) == Empties(s.pages, i) + {p};
      } else {
        assert Empties(t.pages, i) == Empties(s.pages, i);
      }
    }
  }

  lemma OwnerLess(o: Owners, x: int)
    requires x in o
    ensures |o - {x}| == |o| - 1
  {
    assert (o - {x}).Keys == o.Keys - {x};
  }

  /** Without a page to return, one push is all. */
  lemma PushShrank(s: Snap, t: Snap, x: int, keep: set<int>)
    requires PushedTo(s, t, x) && PageOf(x) !in keep
    requires t.counts[s.pages[PageOf(x)].idx] <= Max(s.counts[s.pages[PageOf(x)].idx], MAX_FREE_PAGE)
    ensures Shrank(s, t, x, keep)
  {
    PushEmpties(s, t, x);
    OwnerLess(s.owner, x);
    OpenShrank(s, t, x, keep);
  }

  /** When a page is returned at least two other free pages of its cache stay linked. */
  lemma EnoughRemain(s: Snap, t: Snap, x: int)
    requires PushedTo(s, t, x) && Calm(s.pages, s.counts) && s.pages[PageOf(x)].inUse == 1
    requires t.counts[s.pages[PageOf(x)].idx] > MAX_FREE_PAGE
    ensures |Empties(t.pages, s.pages[PageOf(x)].idx)| > MAX_FREE_PAGE
    ensures Calm(t.pages, t.counts)
  {
    PushEmpties(s, t, x);
    OpenCalm(s.pages, s.counts);
    OpenCalm(t.pages, t.counts);
  }

  function Unlinked(s: Snap, p: int): Snap
    requires p in s.pages && s.pages[p].idx < |s.lists|
  {
    s.(lists := s.lists[s.pages[p].idx := Without(s.lists[s.pages[p].idx], p)], pages := s.pages - {p})
  }

  lemma UnlinkEmpties(s: Snap, p: int)
    requires p in s.pages && s.pages[p].idx < SLAB_NUM == |s.lists| && s.pages[p].inUse == 0
    ensures forall i :: 0 <= i < SLAB_NUM ==>
              |Empties(Unlinked(s, p).pages, i)| == |Empties(s.pages, i)| - if i == s.pages[p].idx then 1 else 0
  {
    forall i | 0 <= i < SLAB_NUM
      ensures |Empties(Unlinked(s, p).pages, i)| == |Empties(s.pages, i)| - if i == s.pages[p].idx then 1 else 0
    {
      if i == s.pages[p].idx {
        assert Empties(s.pages - {p}, i) == Empties(s.pages, i) - {p};
      } else {
        assert Empties(s.pages - {p}, i) == Empties(s.pages, i);
      }
    }
  }

  /** With the page unlinked but still counted, the counters may run ahead. */
  lemma UnlinkCalm(s: Snap, p: int)
    requires Calm(s.pages, s.counts)
    requires p in s.pages && s.pages[p].idx < SLAB_NUM == |s.lists| && s.pages[p].inUse == 0
    requires |Empties(s.pages, s.pages[p].idx)| > MAX_FREE_PAGE
    ensures Calm(Unlinked(s, p).pages, s.counts)
  {
    UnlinkEmpties(s, p);
    OpenCalm(s.pages, s.counts);
    OpenCalm(Unlinked(s, p).pages, s.counts);
  }

  function Uncounted(s: Snap, idx: nat): Snap
    requires idx < |s.counts|
  {
    s.(counts := s.counts[idx := s.counts[idx] - 1])
  }

  /** The whole cascade: the object, the page's hash node, the page, its descriptor. */
  lemma Cascade(s0: Snap, s1: Snap, x: int, keep: set<int>, n: int, s3: Snap, d: int, s6: Snap)
    requires PushedTo(s0, s1, x) && PageOf(x) !in keep && s0.pages[PageOf(x)].inUse == 1 && |s3.lists| == SLAB_NUM
    requires s1.counts[s0.pages[PageOf(x)].idx] > MAX_FREE_PAGE
    requires Shrank(s1, s3, n, keep + {PageOf(x)}) && n in s1.owner && !s1.owner[n].User?
    requires PageOf(x) in s3.pages && s3.pages[PageOf(x)].idx == s0.pages[PageOf(x)].idx
    requires s3.pages[PageOf(x)].inUse == 0
    requires var s4 := Unlinked(s3, PageOf(x));
             s6 == s4 || (Shrank(s4, s6, d, keep) && d in s4.owner && !s4.owner[d].User?)
    ensures |s6.counts| == SLAB_NUM && Shrank(s0, Uncounted(s6, s0.pages[PageOf(x)].idx), x, keep)
  {
    var p := PageOf(x);
    var s4 := Unlinked(s3, p);
    OpenShrank(s1, s3, n, keep + {p});
    if s6 != s4 { OpenShrank(s4, s6, d, keep); }
    CascadeCounts(s0, s1, x, s3, s6);
    CascadeObjects(s0, s1, x, keep, n, s3, d, s6);
    OpenShrank(s0, Uncounted(s6, s0.pages[p].idx), x, keep);
  }

  lemma CascadeCounts(s0: Snap, s1: Snap, x: int, s3: Snap, s6: Snap)
    requires PushedTo(s0, s1, x) && s0.pages[PageOf(x)].inUse == 1 && |s3.lists| == SLAB_NUM
    requires s1.counts[s0.pages[PageOf(x)].idx] > MAX_FREE_PAGE && CountsShrink(s1, s3)
    requires PageOf(x) in s3.pages && s3.pages[PageOf(x)].idx == s0.pages[PageOf(x)].idx
    requires s3.pages[PageOf(x)].inUse == 0
    requires var s4 := Unlinked(s3, PageOf(x)); s6 == s4 || CountsShrink(s4, s6)
    ensures |s6.counts| == SLAB_NUM && CountsShrink(s0, Uncounted(s6, s0.pages[PageOf(x)].idx))
  {
    PushEmpties(s0, s1, x);
    UnlinkEmpties(s3, PageOf(x));
  }

  lemma CascadeObjects(s0: Snap, s1: Snap, x: int, keep: set<int>, n: int, s3: Snap, d: int, s6: Snap)
    requires PushedTo(s0, s1, x) && PageOf(x) !in keep && |s3.lists| == SLAB_NUM && |s6.counts| == SLAB_NUM
    requires ObjectsShrink(s1, s3, n, keep + {PageOf(x)}) && n in s1.owner && !s1.owner[n].User?
    requires PageOf(x) in s3.pages && s3.pages[PageOf(x)].idx == s0.pages[PageOf(x)].idx
    requires var s4 := Unlinked(s3, PageOf(x));
             s6 == s4 || (ObjectsShrink(s4, s6, d, keep) && d in s4.owner && !s4.owner[d].User?)
    ensures ObjectsShrink(s0, Uncounted(s6, s0.pages[PageOf(x)].idx), x, keep)
  {
    PushedThenShrank(s0, s1, x, keep, n, s3);
    var s4 := Unlinked(s3, PageOf(x));
    assert ObjectsShrink(s0, s4, x, keep);
    if s6 != s4 { ShrankTwice(s0, s4, x, keep, d, s6); }
  }

  lemma PushedThenShrank(s0: Snap, s1: Snap, x: int, keep: set<int>, n: int, s3: Snap)
    requires PushedTo(s0, s1, x) && PageOf(x) !in keep
    requires ObjectsShrink(s1, s3, n, keep + {PageOf(x)}) && n in s1.owner && !s1.owner[n].User?
    ensures ObjectsShrink(s0, s3, x, keep)
  {
    OwnerLess(s0.owner, x);
  }

  lemma ShrankTwice(s0: Snap, s4: Snap, x: int, keep: set<int>, d: int, s6: Snap)
    requires ObjectsShrink(s0, s4, x, keep) && ObjectsShrink(s4, s6, d, keep) && d in s4.owner && !s4.owner[d].User?
    ensures ObjectsShrink(s0, s6, x, keep)
  {
    forall p | p in s6.pages
      ensures p in s0.pages && s6.pages[p].idx == s0.pages[p].idx && s6.pages[p].desc == s0.pages[p].desc
    {
      assert p in s4.pages;
    }
  }

  // ----- blocks given back -----

  lemma PageReturned(live: map<int, int>, pages: set<int>, reserved: set<int>, bigs: map<int, int>, p: int)
    requires Backed(live, pages, reserved, bigs) && p in pages
    ensures p in live && p !in reserved && Backed(live - {p}, pages - {p}, reserved, bigs)
    ensures Backed(live, pages - {p}, reserved + {p}, bigs)
  {
    OpenBacked(live, pages, reserved, bigs);
    OpenBacked(live - {p}, pages - {p}, reserved, bigs);
    OpenBacked(live, pages - {p}, reserved + {p}, bigs);
  }

  lemma ReservedReleased(live: map<int, int>, pages: set<int>, reserved: set<int>, bigs: map<int, int>, p: int)
    requires Backed(live, pages, reserved, bigs) && p in reserved
    ensures p in live && Backed(live - {p}, pages, reserved - {p}, bigs)
  {
    OpenBacked(live, pages, reserved, bigs);
    OpenBacked(live - {p}, pages, reserved - {p}, bigs);
  }

  // ----- which pages go back to the buddy allocator -----

  /** The pages of t are pages of s, with the descriptors they had. */
  ghost predicate Fewer(s: Pages, t: Pages) {
    forall p :: p in t ==> p in s && t[p].desc == s[p].desc
  }

  /** The static pages among those of s that t has no more: their buddy pages are kept. */
  ghost function Gone(s: Pages, t: Pages): set<int> { set p | p in s && p !in t && s[p].desc == STATIC }

  /** The others: their buddy pages are free again. */
  ghost function Returned(s: Pages, t: Pages): set<int> { set p | p in s && p !in t && s[p].desc != STATIC }

  lemma ShrankFewer(s: Snap, t: Snap, x: int, keep: set<int>)
    requires Shrank(s, t, x, keep)
    ensures Fewer(s.pages, t.pages)
  {
    OpenShrank(s, t, x, keep);
  }

  lemma GoneTwice(s: Pages, t: Pages, u: Pages)
    requires Fewer(s, t) && Fewer(t, u)
    ensures Gone(s, u) == Gone(s, t) + Gone(t, u) && Fewer(s, u)
  {
    forall p ensures p in Gone(s, u) <==> p in Gone(s, t) + Gone(t, u) {
      if p in t { assert t[p].desc == s[p].desc; }
    }
  }

  /** The whole cascade keeps exactly the buddy pages of the static pages it unlinks. */
  lemma CascadeGone(s0: Snap, s1: Snap, x: int, n: int, keep: set<int>, s3: Snap, u: Pages, r0: set<int>, r1: set<int>,
                    r2: set<int>)
    requires PushedTo(s0, s1, x) && Shrank(s1, s3, n, keep) && Fewer(s3.pages, u)
    requires r1 == r0 + Gone(s1.pages, s3.pages) && r2 == r1 + Gone(s3.pages, u)
    ensures r2 == r0 + Gone(s0.pages, u)
  {
    PushGone(s0, s1, x);
    ShrankFewer(s1, s3, n, keep);
    GoneTwice(s0.pages, s1.pages, s3.pages);
    GoneTwice(s0.pages, s3.pages, u);
  }

  lemma PushGone(s: Snap, t: Snap, x: int)
    requires PushedTo(s, t, x)
    ensures Gone(s.pages, t.pages) == {} && Fewer(s.pages, t.pages)
  {
    assert forall p :: p in s.pages ==> p in t.pages;
  }

  lemma UnlinkGone(s: Pages, p: int)
    requires p in s
    ensures Gone(s, s - {p}) == (if s[p].desc == STATIC then {p} else {}) && Fewer(s, s - {p})
  {
  }
}
