/** dmalloc, dfree and slab_init over the two allocators (buddy.c:81-112, buddy.c:254-280,
    slab.c:223-239, slab.c:307-317). */
module KernelHeap {
  import opened Basics
  import opened Counting
  import opened SlabSpec
  import opened SlabSteps
  import opened SlabRelations
  import opened SlabFree
  import opened Slab
  import Buddy
  import BuddyTiles
  import BuddyLayout
  import BuddyIndex
  import BuddyPages

  /** calc_slab_idx: the smallest cache whose objects hold n bytes. */
  method CalcSlabIdx(n: int) returns (idx: nat)
    requires n <= 2048
    ensures CacheFor(n, idx) && forall i :: CacheFor(n, i) ==> i == idx
  {
    var power2 := 4;
    idx := 0;
    if n < 4 { return; }
    while n > power2
      invariant idx < SLAB_NUM && power2 == ObjSize(idx)
      invariant idx > 0 ==> ObjSize(idx - 1) < n
      decreases n - power2
    {
      power2 := power2 * 2;
      idx := idx + 1;
    }
  }

  // ----- between operations -----

  /** The counters are exact and no cache keeps more than MAX_FREE_PAGE free pages. */
  ghost predicate Settled(s: Snap) {
    |s.counts| == SLAB_NUM && forall i :: 0 <= i < SLAB_NUM ==> s.counts[i] == |Empties(s.pages, i)| <= MAX_FREE_PAGE
  }

  /** Every user's object is as large as was asked for. */
  ghost predicate Fitting(pages: Pages, owner: Owners) {
    forall x :: x in owner && owner[x].User? ==>
      PageOf(x) in pages && pages[PageOf(x)].idx < SLAB_NUM && 1 <= owner[x].size <= ObjSize(pages[PageOf(x)].idx)
  }

  ghost predicate Resting(s: Snap) {
    forall k {:trigger Key(k, s)} :: Key(k, s) ==> Settled(s) && Fitting(s.pages, s.owner)
  }

  lemma OpenResting(s: Snap)
    ensures Resting(s) <==> Settled(s) && Fitting(s.pages, s.owner)
  {
    assert Key(0, s);
  }

  /** The state between two calls of dmalloc and dfree. */
  ghost predicate Valid(sys: SlabSystem)
    reads sys, sys.bd
  {
    sys.Sound() && sys.Memory() && sys.bd.vstart >= 0 && sys.unhashed == {} && sys.homeless == {} && Resting(sys.Now())
  }

  lemma RestingGrew(s: Snap, t: Snap, x: int)
    requires Resting(s) && Grew(s, t, x) && NoMoreThan(s.counts, t.counts, 0, 0) && x in t.owner
    requires t.owner[x].User? ==> PageOf(x) in t.pages && t.pages[PageOf(x)].idx < SLAB_NUM
    requires t.owner[x].User? ==> 1 <= t.owner[x].size <= ObjSize(t.pages[PageOf(x)].idx)
    ensures Resting(t)
  {
    OpenResting(s);
    OpenGrew(s, t, x);
    OpenResting(t);
  }

  lemma RestingShrank(s: Snap, t: Snap, x: int)
    requires Resting(s) && Shrank(s, t, x, {}) && forall y :: y in t.owner ==> PageOf(y) in t.pages
    ensures Resting(t)
  {
    OpenResting(s);
    OpenShrank(s, t, x, {});
    OpenResting(t);
  }

  lemma RestingFrees(sys: SlabSystem)
    requires Valid(sys)
    ensures sys.Freeing() && sys.Tidy()
  {
    OpenResting(sys.Now());
    OpenCalm(sys.pages, sys.counts);
    OpenInFlight({}, sys.reserved, {}, sys.pages.Keys);
  }

  /** What an outside caller holds: addresses and the sizes asked for. */
  ghost function Users(owner: Owners): map<int, int> {
    map x | x in owner && owner[x].User? :: owner[x].size
  }

  ghost function Ledger(sys: SlabSystem): map<int, int>
    reads sys
  {
    Users(sys.owner) + sys.bigs
  }

  lemma UsersGrew(s: Snap, t: Snap, x: int, size: int)
    requires Grew(s, t, x) && x in t.owner && t.owner[x] == User(size) && x !in s.owner
    ensures Users(t.owner) == Users(s.owner)[x := size]
  {
    OpenGrew(s, t, x);
    var u, v := Users(t.owner), Users(s.owner)[x := size];
    assert forall y :: y in u <==> y in v;
    assert forall y :: y in u ==> u[y] == v[y];
  }

  lemma UsersShrank(s: Snap, t: Snap, x: int)
    requires Shrank(s, t, x, {})
    ensures Users(t.owner) == Users(s.owner) - {x}
  {
    OpenShrank(s, t, x, {});
    var u, v := Users(t.owner), Users(s.owner) - {x};
    assert forall y :: y in u <==> y in v;
    assert forall y :: y in u ==> u[y] == v[y];
  }

  // ----- the blocks handed out -----

  lemma OwnedPages(sys: SlabSystem, x: int)
    requires sys.Sound() && sys.Memory() && x in sys.owner
    ensures PageOf(x) in sys.pages && PageOf(x) in Buddy.LiveOf(sys.bd.tiles)
    ensures Buddy.LiveOf(sys.bd.tiles)[PageOf(x)] == PGSIZE
    ensures x !in sys.bigs && PageOf(x) !in sys.bigs
    ensures sys.pages[PageOf(x)].idx < SLAB_NUM && Slot(PageOf(x), sys.pages[PageOf(x)].idx, x)
  {
    Unseal(sys.base, sys.lists, sys.pages, sys.hash, sys.owner, sys.unhashed, sys.homeless);
    OpenBacked(Buddy.LiveOf(sys.bd.tiles), sys.pages.Keys, sys.reserved, sys.bigs);
    assert IsLive(sys.pages, x);
    if x in sys.bigs {
      OpenSolid(sys.bd);
      Buddy.LiveApart(sys.bd.tiles, sys.bd.top);
    }
  }

  /** Where a block of the ledger lies: inside one live buddy block, which is its own or a slab page. */
  lemma BlockInside(sys: SlabSystem, a: int)
    requires Valid(sys) && a in Ledger(sys)
    ensures var live := Buddy.LiveOf(sys.bd.tiles); var p := if a in sys.bigs then a else PageOf(a);
            && p in live && p <= a && a + Ledger(sys)[a] <= p + live[p]
            && (a in sys.bigs <==> p in sys.bigs)
  {
    OpenBacked(Buddy.LiveOf(sys.bd.tiles), sys.pages.Keys, sys.reserved, sys.bigs);
    if a !in sys.bigs {
      OwnedPages(sys, a);
      OpenResting(sys.Now());
      var p, idx := PageOf(a), sys.pages[PageOf(a)].idx;
      SlotEnd(p, idx, a);
    }
  }

  lemma SlotEnd(p: int, idx: nat, x: int)
    requires idx < SLAB_NUM && Slot(p, idx, x)
    ensures x + ObjSize(idx) <= p + PGSIZE
  {
    var sz := ObjSize(idx);
    SlotIndex(x - p, idx);
    SlotsExact(idx);
    var n := (x - p) / sz;
    assert (n + 1) * sz <= Slots(idx) * sz;
  }

  lemma SlotsApart(p: int, idx: nat, x: int, y: int)
    requires idx < SLAB_NUM && Slot(p, idx, x) && Slot(p, idx, y) && x < y
    ensures x + ObjSize(idx) <= y
  {
    var sz := ObjSize(idx);
    var m, n := (x - p) / sz, (y - p) / sz;
    assert x - p == sz * m && y - p == sz * n;
    assert m < n;
    assert sz * n >= sz * (m + 1);
  }

  /** Blocks that callers hold, from both layers, are pairwise disjoint, inside the managed region and
      as large as requested. */
  lemma BlocksDisjoint(sys: SlabSystem, a: int, b: int)
    requires Valid(sys) && a in Ledger(sys) && b in Ledger(sys)
    ensures 0 <= a && Ledger(sys)[a] >= 1 && a + Ledger(sys)[a] <= BuddyTiles.Size(sys.bd.top)
    ensures a < b ==> a + Ledger(sys)[a] <= b
  {
    LedgerPositive(sys, a);
    LedgerPositive(sys, b);
    BlockInside(sys, a);
    BlockInside(sys, b);
    if a !in sys.bigs && b !in sys.bigs && PageOf(a) == PageOf(b) {
      SamePage(sys, a, b);
    }
    ApartInBuddy(sys, if a in sys.bigs then a else PageOf(a), if b in sys.bigs then b else PageOf(b));
  }

  lemma ApartInBuddy(sys: SlabSystem, p: int, q: int)
    requires sys.Memory() && p in Buddy.LiveOf(sys.bd.tiles) && q in Buddy.LiveOf(sys.bd.tiles)
    ensures 0 <= p && p + Buddy.LiveOf(sys.bd.tiles)[p] <= BuddyTiles.Size(sys.bd.top)
    ensures p < q ==> p + Buddy.LiveOf(sys.bd.tiles)[p] <= q
    ensures p > q ==> q + Buddy.LiveOf(sys.bd.tiles)[q] <= p
  {
    OpenSolid(sys.bd);
    Buddy.LiveApart(sys.bd.tiles, sys.bd.top);
  }

  lemma SamePage(sys: SlabSystem, a: int, b: int)
    requires Valid(sys) && a in sys.owner && b in sys.owner && sys.owner[a].User? && PageOf(a) == PageOf(b)
    ensures a < b ==> a + sys.owner[a].size <= b
  {
    OwnedPages(sys, a);
    OwnedPages(sys, b);
    OpenResting(sys.Now());
    if a < b { SlotsApart(PageOf(a), sys.pages[PageOf(a)].idx, a, b); }
  }

  lemma LedgerPositive(sys: SlabSystem, a: int)
    requires Valid(sys) && a in Ledger(sys)
    ensures Ledger(sys)[a] >= 1
  {
    OpenBacked(Buddy.LiveOf(sys.bd.tiles), sys.pages.Keys, sys.reserved, sys.bigs);
    OpenSolid(sys.bd);
    OpenResting(sys.Now());
  }

  /** A page that holds its own descriptor, or its own hash node, never becomes free. */
  lemma OwnMetadataPins(sys: SlabSystem, p: int, h: nat, k: nat)
    requires Valid(sys) && p in sys.pages
    ensures sys.pages[p].desc != STATIC && PageOf(sys.pages[p].desc) == p ==> sys.pages[p].inUse >= 1
    ensures h < HASH_SIZE && k < |sys.hash[h]| && sys.hash[h][k].page == p && PageOf(sys.hash[h][k].at) == p ==>
      sys.pages[p].inUse >= 1
  {
    Unseal(sys.base, sys.lists, sys.pages, sys.hash, sys.owner, sys.unhashed, sys.homeless);
    if PageOf(sys.pages[p].desc) == p && sys.pages[p].desc != STATIC {
      assert IsLive(sys.pages, sys.pages[p].desc);
      InUseCounts(p, sys.pages[p], sys.pages[p].desc);
    }
    if h < HASH_SIZE && k < |sys.hash[h]| && sys.hash[h][k].page == p && PageOf(sys.hash[h][k].at) == p {
      assert ChainOk(sys.base, h, sys.hash[h], sys.pages, sys.owner, sys.unhashed);
      assert IsLive(sys.pages, sys.hash[h][k].at);
      InUseCounts(p, sys.pages[p], sys.hash[h][k].at);
    }
  }

  /** What holds of every cache between operations. */
  lemma CachesAtRest(sys: SlabSystem)
    requires Valid(sys)
    ensures Inv(sys.base, sys.lists, sys.pages, sys.hash, sys.owner, {}, {})
    ensures forall i :: 0 <= i < SLAB_NUM ==>
      sys.lists[i] != [] && sys.counts[i] == |Empties(sys.pages, i)| <= MAX_FREE_PAGE
  {
    Unseal(sys.base, sys.lists, sys.pages, sys.hash, sys.owner, sys.unhashed, sys.homeless);
    OpenResting(sys.Now());
  }

  // ----- dmalloc and dfree -----

  /** dmalloc's large case; None stands for the panic. */
  method AllocBig(sys: SlabSystem, size: int) returns (r: Option<int>)
    requires Valid(sys) && 1 <= size <= Buddy.MAXSIZE
    modifies sys.bd, sys`bigs
    ensures r.Some? <==> Buddy.Fits(old(sys.bd.tiles), size)
    ensures Valid(sys)
    ensures r.None? ==> sys.bigs == old(sys.bigs) && sys.bd.tiles == old(sys.bd.tiles)
    ensures r.Some? ==> sys.bigs == old(sys.bigs)[r.value := size] && r.value !in old(Ledger(sys))
    ensures r.Some? ==> Buddy.BestFit(old(sys.bd.tiles), old(sys.bd.heads), sys.bd.tiles, size, r.value)
    ensures r.Some? ==> Ledger(sys) == old(Ledger(sys))[r.value := size]
  {
    r := TakeBig(sys, size);
    if r.Some? && r.value in sys.owner { OwnedPages(sys, r.value); }
  }

  method TakeBig(sys: SlabSystem, size: int) returns (r: Option<int>)
    requires sys.Memory() && 1 <= size <= Buddy.MAXSIZE
    modifies sys.bd, sys`bigs
    ensures r.Some? <==> Buddy.Fits(old(sys.bd.tiles), size)
    ensures sys.Memory()
    ensures r.None? ==> sys.bigs == old(sys.bigs) && sys.bd.tiles == old(sys.bd.tiles)
    ensures r.Some? ==> sys.bigs == old(sys.bigs)[r.value := size] && r.value !in old(sys.bigs)
    ensures r.Some? ==> Buddy.BestFit(old(sys.bd.tiles), old(sys.bd.heads), sys.bd.tiles, size, r.value)
  {
    OpenSolid(sys.bd);
    ghost var live := Buddy.LiveOf(sys.bd.tiles);
    r := sys.bd.Alloc(size);
    OpenSolid(sys.bd);
    if r.None? { return; }
    BigTaken(live, sys.pages.Keys, sys.reserved, sys.bigs, r.value, size);
    sys.bigs := sys.bigs[r.value := size];
  }

  lemma BigTaken(live: map<int, int>, pages: set<int>, reserved: set<int>, bigs: map<int, int>, a: int, size: int)
    requires Backed(live, pages, reserved, bigs) && a !in live
    ensures Backed(live[a := size], pages, reserved, bigs[a := size]) && a !in bigs
  {
    OpenBacked(live, pages, reserved, bigs);
    OpenBacked(live[a := size], pages, reserved, bigs[a := size]);
  }

  /** Why dmalloc panics: no size, no free block large enough, or no page left for a small object. */
  ghost predicate Refused(sys: SlabSystem, size: int)
    reads sys, sys.bd
  {
    size < 1 || if size > PGSIZE / 2 then !Buddy.Fits(sys.bd.tiles, size) else sys.Free() == 0
  }

  /** dmalloc; None stands for a panic, after which the kernel has stopped. */
  method Dmalloc(sys: SlabSystem, size: int) returns (r: Option<int>)
    requires Valid(sys) && size <= Buddy.MAXSIZE
    modifies sys, sys.bd
    ensures size < 1 ==> r.None?
    ensures size > PGSIZE / 2 ==> (r.Some? <==> Buddy.Fits(old(sys.bd.tiles), size))
    ensures r.None? ==> Refused(sys, size)
    ensures r.Some? ==> Valid(sys) && r.value !in old(Ledger(sys)) && Ledger(sys) == old(Ledger(sys))[r.value := size]
    ensures forall i :: 1 <= size <= PGSIZE / 2 && CacheFor(size, i) && Room(old(sys.lists), old(sys.pages), i) ==>
      r.Some? && TookFirst(old(sys.Now()), i, User(size), sys.Now(), r.value)
    ensures forall i :: 1 <= size <= PGSIZE / 2 && CacheFor(size, i) && old(sys.Free()) > Need(old(sys.Now()), i) ==>
      r.Some?
    ensures r.Some? ==> (r.value in sys.bigs <==> size > PGSIZE / 2)
    ensures r.Some? && size > PGSIZE / 2 ==>
      Buddy.BestFit(old(sys.bd.tiles), old(sys.bd.heads), sys.bd.tiles, size, r.value)
    ensures r.Some? ==> sys.reserved == old(sys.reserved) && More(old(sys.pages), sys.pages)
    ensures r.Some? && size <= PGSIZE / 2 ==> PaidPages(old(sys.Free()), sys.Free(), old(sys.pages), sys.pages)
  {
    if size < 1 { return None; }
    if size <= PGSIZE / 2 {
      r := AllocSmall(sys, size);
    } else {
      r := AllocBig(sys, size);
    }
  }

  /** slab_system */
  method AllocSmall(sys: SlabSystem, size: int) returns (r: Option<int>)
    requires Valid(sys) && 1 <= size <= PGSIZE / 2
    modifies sys, sys.bd
    ensures r.Some? ==> Valid(sys) && r.value !in old(Ledger(sys)) && Ledger(sys) == old(Ledger(sys))[r.value := size]
    ensures r.Some? ==> sys.bigs == old(sys.bigs) && r.value !in sys.bigs
    ensures forall i :: CacheFor(size, i) && Room(old(sys.lists), old(sys.pages), i) ==>
      r.Some? && TookFirst(old(sys.Now()), i, User(size), sys.Now(), r.value)
    ensures r.None? ==> sys.Free() == 0
    ensures forall i :: CacheFor(size, i) && old(sys.Free()) > Need(old(sys.Now()), i) ==> r.Some?
    ensures r.Some? ==> sys.reserved == old(sys.reserved) && More(old(sys.pages), sys.pages)
    ensures r.Some? ==> PaidPages(old(sys.Free()), sys.Free(), old(sys.pages), sys.pages)
  {
    var idx := CalcSlabIdx(size);
    RestingFrees(sys);
    ghost var s, live := sys.Now(), Buddy.LiveOf(sys.bd.tiles);
    var ok, x := sys.Allocate(idx, User(size));
    PaidSmall(old(sys.Free()), sys.Free(), ok, s, idx, size);
    if !ok { return None; }
    AfterAlloc(sys, s, x, size);
    PagesMore(sys, s, x, live);
    r := Some(x);
  }

  /** Pages stay as they are, and no new one is static. */
  ghost predicate More(s: Pages, t: Pages) {
    && (forall p :: p in s ==> p in t && t[p].desc == s[p].desc)
    && (forall p :: p in t ==> p in s || t[p].desc != STATIC)
  }

  /** One free page went to each new page. */
  ghost predicate PaidPages(was: nat, now: nat, s: Pages, t: Pages) { now + |t.Keys - s.Keys| == was }

  /** A small allocation takes its new pages from the buddy allocator, and nothing else. */
  lemma PagesMore(sys: SlabSystem, s: Snap, x: int, live: map<int, int>)
    requires sys.Memory() && Grew(s, sys.Now(), x) && Backed(live, s.pages.Keys, sys.reserved, sys.bigs)
    ensures More(s.pages, sys.pages)
    ensures PaidPages(BuddyPages.FreePages(live, sys.bd.top), sys.Free(), s.pages, sys.pages)
  {
    var now, ps := Buddy.LiveOf(sys.bd.tiles), sys.pages.Keys - s.pages.Keys;
    OpenGrew(s, sys.Now(), x);
    OpenSolid(sys.bd);
    OpenBacked(live, s.pages.Keys, sys.reserved, sys.bigs);
    OpenBacked(now, sys.pages.Keys, sys.reserved, sys.bigs);
    forall a ensures a in live.Keys <==> a in (now - ps).Keys { }
    SameLive(live, now - ps);
    BuddyPages.ManyPagesMore(sys.bd.tiles, sys.bd.top, ps);
  }

  lemma SameLive(live: map<int, int>, now: map<int, int>)
    requires live.Keys == now.Keys && forall a :: a in live ==> live[a] == now[a]
    ensures live == now
  {
    assert forall a :: a in live.Keys <==> a in now.Keys;
    assert forall a :: a in live && a in now ==> live[a] == now[a];
  }

  /** The buddy allocator's blocks are a tiling. */
  ghost predicate Tiled(t: BuddyTiles.Tiles, top: nat) {
    forall k {:trigger Key(k, (t, top))} :: Key(k, (t, top)) ==> BuddyTiles.Tiling(t, top) && Buddy.UsedOk(t)
  }

  lemma MemoryTiled(sys: SlabSystem)
    requires sys.Memory()
    ensures Tiled(sys.bd.tiles, sys.bd.top)
  {
    OpenSolid(sys.bd);
  }

  /** From t to u exactly the dynamic pages unlinked between s and s' have become free. */
  ghost predicate GaveBack(t: BuddyTiles.Tiles, u: BuddyTiles.Tiles, top: nat, s: Pages, s': Pages) {
    && Buddy.LiveOf(u) == Buddy.LiveOf(t) - Returned(s, s')
    && BuddyPages.FreePages(Buddy.LiveOf(u), top) ==
       BuddyPages.FreePages(Buddy.LiveOf(t), top) + |Returned(s, s')|
  }

  /** What a free gives back: exactly the dynamic pages it has unlinked. */
  lemma PagesReturned(sys: SlabSystem, s: Snap, x: int, t: BuddyTiles.Tiles, reserved: set<int>)
    requires sys.Memory() && Shrank(s, sys.Now(), x, {}) && sys.reserved == reserved + Gone(s.pages, sys.pages)
    requires Tiled(t, sys.bd.top) && Backed(Buddy.LiveOf(t), s.pages.Keys, reserved, sys.bigs)
    ensures GaveBack(t, sys.bd.tiles, sys.bd.top, s.pages, sys.pages) && Fewer(s.pages, sys.pages)
  {
    assert Key(0, (t, sys.bd.top));
    var live, now, ps := Buddy.LiveOf(t), Buddy.LiveOf(sys.bd.tiles), Returned(s.pages, sys.pages);
    ShrankFewer(s, sys.Now(), x, {});
    OpenBacked(live, s.pages.Keys, reserved, sys.bigs);
    OpenBacked(now, sys.pages.Keys, sys.reserved, sys.bigs);
    forall a ensures a in (live - ps).Keys <==> a in now.Keys { }
    SameLive(live - ps, now);
    BuddyPages.ManyPagesMore(t, sys.bd.top, ps);
  }

  lemma PaidSmall(was: nat, now: nat, ok: bool, s: Snap, idx: nat, size: int)
    requires PaidFor(was, now, ok, s, idx) && CacheFor(size, idx) && (Room(s.lists, s.pages, idx) ==> ok)
    ensures !ok ==> now == 0
    ensures forall i :: CacheFor(size, i) && Room(s.lists, s.pages, i) ==> ok
    ensures forall i :: CacheFor(size, i) && was > Need(s, i) ==> ok
  {
    OpenPaid(was, now, ok, s, idx);
  }

  lemma AfterAlloc(sys: SlabSystem, s: Snap, x: int, size: int)
    requires sys.Sound() && sys.Memory() && x in sys.owner && sys.owner[x] == User(size) && x !in s.owner
    requires Resting(s) && Grew(s, sys.Now(), x) && NoMoreThan(s.counts, sys.counts, 0, 0)
    requires PageOf(x) in sys.pages && CacheFor(size, sys.pages[PageOf(x)].idx) && size >= 1
    ensures Resting(sys.Now()) && Users(sys.owner) == Users(s.owner)[x := size]
    ensures x !in sys.bigs && x !in Users(s.owner)
    ensures Ledger(sys) == (Users(s.owner) + sys.bigs)[x := size]
  {
    RestingGrew(s, sys.Now(), x);
    UsersGrew(s, sys.Now(), x, size);
    OwnedPages(sys, x);
  }

  /** dfree; false stands for a panic.  The caller does not pass the address of a descriptor or of a
      hash node. */
  method Dfree(sys: SlabSystem, x: int) returns (ok: bool)
    requires Valid(sys) && (x in sys.owner ==> sys.owner[x].User?)
    modifies sys, sys.bd
    ensures Valid(sys) && Ledger(sys) == old(Ledger(sys)) - {x}
    ensures ok <==> x in old(Ledger(sys)) || x in old(sys.reserved)
    ensures x in old(sys.owner) ==> sys.bigs == old(sys.bigs) && x !in sys.owner
    ensures x in old(sys.owner) ==>
      if Overflows(old(sys.Now()), x) then PageOf(x) !in sys.pages else PushedTo(old(sys.Now()), sys.Now(), x)
    ensures x in old(sys.owner) ==>
      && Fewer(old(sys.pages), sys.pages) && sys.reserved == old(sys.reserved) + Gone(old(sys.pages), sys.pages)
      && GaveBack(old(sys.bd.tiles), sys.bd.tiles, sys.bd.top, old(sys.pages), sys.pages)
    ensures x !in old(sys.owner) ==> sys.reserved == old(sys.reserved) - {x}
    ensures x !in old(sys.owner) ==> sys.Now() == old(sys.Now())
    ensures x !in old(sys.owner) ==> (ok ==> Buddy.LiveOf(sys.bd.tiles) == old(Buddy.LiveOf(sys.bd.tiles)) - {x})
  {
    WhereFound(sys, x);
    var status := FreeSmall(sys, x);
    if status == SUCCESS { return true; }
    if status == INVALID { return false; }
    ok := FreeBig(sys, x);
  }

  /** dfree's small case: free_slab_obj. */
  method FreeSmall(sys: SlabSystem, x: int) returns (status: Slab.Status)
    requires Valid(sys) && (x in sys.owner ==> sys.owner[x].User?)
    modifies sys, sys.bd
    ensures Valid(sys) && sys.bigs == old(sys.bigs) && (status == SUCCESS <==> x in old(sys.owner))
    ensures status == NOT_FOUND <==> PageOf(x) !in old(sys.pages)
    ensures status != SUCCESS ==>
      sys.bd.tiles == old(sys.bd.tiles) && sys.Now() == old(sys.Now()) && sys.reserved == old(sys.reserved)
    ensures status == SUCCESS ==> Ledger(sys) == old(Ledger(sys)) - {x} && x !in sys.owner
    ensures status == SUCCESS ==>
      if Overflows(old(sys.Now()), x) then PageOf(x) !in sys.pages else PushedTo(old(sys.Now()), sys.Now(), x)
    ensures status == SUCCESS ==>
      && Fewer(old(sys.pages), sys.pages) && sys.reserved == old(sys.reserved) + Gone(old(sys.pages), sys.pages)
      && GaveBack(old(sys.bd.tiles), sys.bd.tiles, sys.bd.top, old(sys.pages), sys.pages)
  {
    RestingFrees(sys);
    WhereFound(sys, x);
    ghost var s, t, reserved := sys.Now(), sys.bd.tiles, sys.reserved;
    MemoryTiled(sys);
    status := sys.FreeSlabObj(x);
    if status == SUCCESS {
      AfterFree(sys, s, x);
      PagesReturned(sys, s, x, t, reserved);
      LessUser(Users(s.owner), sys.bigs, x);
    }
  }

  lemma WhereFound(sys: SlabSystem, x: int)
    requires Valid(sys)
    ensures x in sys.bigs || x in sys.reserved ==> PageOf(x) !in sys.pages && x !in sys.owner
    ensures PageOf(x) !in sys.pages ==> x !in sys.pages
  {
    OpenSolid(sys.bd);
    BackedAligned(sys.bd.tiles, sys.bd.top, sys.pages.Keys, sys.reserved, sys.bigs, x);
    if x in sys.owner { OwnedPages(sys, x); }
  }

  lemma BackedAligned(t: BuddyTiles.Tiles, top: nat, pages: set<int>, reserved: set<int>, bigs: map<int, int>, x: int)
    requires Backed(Buddy.LiveOf(t), pages, reserved, bigs) && BuddyTiles.Tiling(t, top) && Buddy.UsedOk(t)
    ensures x in bigs || x in reserved || x in pages ==> PageOf(x) == x
    ensures x in bigs || x in reserved ==> x !in pages
  {
    OpenBacked(Buddy.LiveOf(t), pages, reserved, bigs);
    Buddy.LiveApart(t, top);
    if x in bigs || x in reserved || x in pages { assert x in Buddy.LiveOf(t); }
  }

  lemma AfterFree(sys: SlabSystem, s: Snap, x: int)
    requires sys.Freeing() && Resting(s) && Shrank(s, sys.Now(), x, {})
    ensures Resting(sys.Now()) && Users(sys.owner) == Users(s.owner) - {x} && x !in sys.owner
  {
    forall y | y in sys.owner ensures PageOf(y) in sys.pages { OwnedPages(sys, y); }
    RestingShrank(s, sys.Now(), x);
    UsersShrank(s, sys.Now(), x);
    OpenShrank(s, sys.Now(), x, {});
  }

  /** dfree's large case, for an address no slab page knows. */
  method FreeBig(sys: SlabSystem, x: int) returns (ok: bool)
    requires Valid(sys) && x !in sys.pages && x !in sys.owner
    modifies sys.bd, sys`bigs, sys`reserved
    ensures Valid(sys) && sys.bigs == old(sys.bigs) - {x} && sys.reserved == old(sys.reserved) - {x}
    ensures Ledger(sys) == old(Ledger(sys)) - {x}
    ensures ok <==> x in old(sys.bigs) || x in old(sys.reserved)
    ensures Buddy.LiveOf(sys.bd.tiles) == old(Buddy.LiveOf(sys.bd.tiles)) - {x}
  {
    ghost var live := Buddy.LiveOf(sys.bd.tiles);
    OpenSolid(sys.bd);
    BlockReturned(live, sys.pages.Keys, sys.reserved, sys.bigs, x);
    ok := sys.bd.Release(x);
    OpenSolid(sys.bd);
    ghost var users, bigs := Users(sys.owner), sys.bigs;
    sys.bigs, sys.reserved := sys.bigs - {x}, sys.reserved - {x};
    LessOne(users, bigs, x);
  }

  lemma LessUser(users: map<int, int>, bigs: map<int, int>, x: int)
    requires x !in bigs
    ensures (users - {x}) + bigs == users + bigs - {x}
  {
  }

  lemma LessOne(users: map<int, int>, bigs: map<int, int>, x: int)
    requires x !in users
    ensures users + (bigs - {x}) == users + bigs - {x}
  {
  }

  lemma BlockReturned(live: map<int, int>, pages: set<int>, reserved: set<int>, bigs: map<int, int>, x: int)
    requires Backed(live, pages, reserved, bigs) && x !in pages
    ensures x in live <==> x in bigs || x in reserved
    ensures Backed(live - {x}, pages, reserved - {x}, bigs - {x})
  {
    OpenBacked(live, pages, reserved, bigs);
    OpenBacked(live - {x}, pages, reserved - {x}, bigs - {x});
  }

  // ----- slab_init -----

  /** The first n caches have one page each, with the descriptor inside the cache. */
  ghost predicate Carved(ps: seq<int>, lists: seq<seq<int>>, pages: Pages, counts: seq<int>, n: nat) {
    && |ps| == n <= SLAB_NUM == |lists| == |counts|
    && NoRepeats(ps)
    && (forall i :: 0 <= i < n ==>
         ps[i] % PGSIZE == 0 && lists[i] == [ps[i]] && ps[i] in pages && pages[ps[i]] == Fresh(ps[i], i, 0, STATIC))
    && (forall i :: n <= i < SLAB_NUM ==> lists[i] == [])
    && (forall i :: 0 <= i < SLAB_NUM ==> counts[i] == if i < n then 1 else 0)
    && (forall p :: p in pages ==> p in ps)
  }

  /** The first loop of slab_init; false stands for dmalloc's panic. */
  method CarveStatic(sys: SlabSystem) returns (ok: bool, ghost ps: seq<int>)
    requires sys.Memory() && sys.bd.vstart >= 0 && Carved([], sys.lists, sys.pages, sys.counts, 0)
    modifies sys`lists, sys`pages, sys`counts, sys`reserved, sys.bd
    ensures ok ==> sys.Memory() && Carved(ps, sys.lists, sys.pages, sys.counts, SLAB_NUM)
    ensures ok <==> old(sys.Free()) >= SLAB_NUM
  {
    ps := [];
    var slabIdx := 0;
    while slabIdx < SLAB_NUM
      invariant 0 <= slabIdx <= SLAB_NUM && sys.Memory() && Carved(ps, sys.lists, sys.pages, sys.counts, slabIdx)
      invariant sys.Free() + slabIdx == old(sys.Free())
    {
      ok, ps := CarveOne(sys, slabIdx, ps);
      if !ok { return; }
      slabIdx := slabIdx + 1;
    }
    ok := true;
  }

  method CarveOne(sys: SlabSystem, i: nat, ghost ps: seq<int>) returns (ok: bool, ghost ps': seq<int>)
    requires i < SLAB_NUM && sys.Memory() && sys.bd.vstart >= 0 && Carved(ps, sys.lists, sys.pages, sys.counts, i)
    modifies sys`lists, sys`pages, sys`counts, sys`reserved, sys.bd
    ensures ok ==> sys.Memory() && Carved(ps', sys.lists, sys.pages, sys.counts, i + 1)
    ensures ok <==> old(sys.Free()) > 0
    ensures ok ==> sys.Free() == old(sys.Free()) - 1
  {
    ps' := ps;
    var p;
    ok, p := sys.TakePage();
    if !ok { return; }
    var free := MakeSlabObj(p, i);
    PageLinked(Buddy.LiveOf(sys.bd.tiles), sys.pages.Keys, sys.reserved, sys.bigs, p);
    ghost var keys := sys.pages.Keys;
    ps' := ps + [p];
    CarvedMore(ps, sys.lists, sys.pages, sys.counts, i, p);
    sys.counts := sys.counts[i := sys.counts[i] + 1];
    sys.lists := sys.lists[i := [p]];
    sys.pages := sys.pages[p := Page(i, 0, free, STATIC)];
    sys.reserved := sys.reserved - {p};
    assert sys.pages.Keys == keys + {p};
    assert sys.pages[p] == Fresh(p, i, 0, STATIC);
  }

  lemma CarvedMore(ps: seq<int>, lists: seq<seq<int>>, pages: Pages, counts: seq<int>, i: nat, p: int)
    requires i < SLAB_NUM && Carved(ps, lists, pages, counts, i) && p !in pages && p % PGSIZE == 0
    ensures Carved(ps + [p], lists[i := [p]], pages[p := Fresh(p, i, 0, STATIC)], counts[i := counts[i] + 1], i + 1)
  {
    var ps' := ps + [p];
    assert forall k :: 0 <= k < i ==> ps[k] != p && ps'[k] == ps[k];
    assert ps'[i] == p;
  }

  lemma CarvedSealed(base: nat, ps: seq<int>, lists: seq<seq<int>>, pages: Pages, counts: seq<int>,
                     hash: seq<seq<HNode>>)
    requires Carved(ps, lists, pages, counts, SLAB_NUM) && |hash| == HASH_SIZE
    requires forall h :: 0 <= h < HASH_SIZE ==> hash[h] == []
    ensures Sealed(base, lists, pages, hash, map[], pages.Keys, {})
    ensures Resting(Snap(lists, pages, map[], counts))
  {
    CarvedPages(ps, lists, pages, counts);
    NothingLive(pages);
    CarvedCounts(ps, lists, pages, counts);
    EmptyHash(base, pages, hash);
    Unseal(base, lists, pages, hash, map[], pages.Keys, {});
    OpenResting(Snap(lists, pages, map[], counts));
  }

  lemma EmptyHash(base: nat, pages: Pages, hash: seq<seq<HNode>>)
    requires |hash| == HASH_SIZE && forall h :: 0 <= h < HASH_SIZE ==> hash[h] == []
    ensures HashOk(base, hash, pages, map[], pages.Keys, {})
    ensures DescsOk(pages, map[], {}) == forall p :: p in pages ==> pages[p].desc == STATIC
  {
  }

  lemma CarvedPages(ps: seq<int>, lists: seq<seq<int>>, pages: Pages, counts: seq<int>)
    requires Carved(ps, lists, pages, counts, SLAB_NUM)
    ensures PagesOk(pages) && ListsOk(lists, pages)
    ensures forall p :: p in pages ==> pages[p].inUse == 0 && pages[p].desc == STATIC
  {
    forall p | p in pages
      ensures PageOk(p, pages[p]) && pages[p].idx < SLAB_NUM && ps[pages[p].idx] == p && pages[p].inUse == 0
    {
      var i :| 0 <= i < SLAB_NUM && ps[i] == p;
      FreshPageOk(p, i, 0, STATIC);
    }
  }

  lemma NothingLive(pages: Pages)
    requires PagesOk(pages) && forall p :: p in pages ==> pages[p].inUse == 0
    ensures OwnersOk(pages, map[])
  {
    forall x ensures !IsLive(pages, x) {
      var p := PageOf(x);
      if p in pages {
        assert PageOk(p, pages[p]);
        if Slot(p, pages[p].idx, x) { InUseCounts(p, pages[p], x); }
      }
    }
  }

  lemma CarvedCounts(ps: seq<int>, lists: seq<seq<int>>, pages: Pages, counts: seq<int>)
    requires Carved(ps, lists, pages, counts, SLAB_NUM)
    ensures Settled(Snap(lists, pages, map[], counts))
  {
    forall i | 0 <= i < SLAB_NUM ensures |Empties(pages, i)| == 1 {
      forall p | p in Empties(pages, i) ensures p == ps[i] { var j :| 0 <= j < SLAB_NUM && ps[j] == p; }
      assert Empties(pages, i) == {ps[i]};
    }
  }

  /** The static pages whose node is still missing. */
  ghost function Missing(ps: seq<int>, i: nat): set<int> { set k | i <= k < |ps| :: ps[k] }

  /** Between two rounds of slab_init's second loop. */
  ghost predicate Hashing(sys: SlabSystem, ps: seq<int>, i: nat)
    reads sys, sys.bd
  {
    && sys.Sound() && sys.Memory() && sys.Tidy() && sys.homeless == {} && sys.bigs == map[] && Resting(sys.Now())
    && |ps| == SLAB_NUM && NoRepeats(ps) && sys.unhashed == Missing(ps, i)
    && (forall k :: 0 <= k < SLAB_NUM ==> sys.lists[k] == [ps[k]] && ps[k] in sys.pages)
    && |sys.pages[ps[NODE_IDX]].free| + i == Slots(NODE_IDX)
    && Users(sys.owner) == map[]
  }

  /** insert_hash_node for one static page: the node cache has room, so no page is added. */
  method HashOne(sys: SlabSystem, ghost ps: seq<int>, i: nat) returns (ok: bool)
    requires i < SLAB_NUM && Hashing(sys, ps, i)
    modifies sys, sys.bd
    ensures ok && Hashing(sys, ps, i + 1)
  {
    ghost var s := sys.Now();
    var p := sys.lists[i][0];
    HeadHasRoom(sys.lists, sys.pages, NODE_IDX);
    ghost var n;
    ok, n := sys.InsertHashNode(p);
    RestingGrew(s, sys.Now(), n);
    NoUsers(s.owner, sys.owner, n, NodeOf(p));
    assert Missing(ps, i) - {p} == Missing(ps, i + 1);
    assert sys.pages.Keys == s.pages.Keys;
    OpenInFlight({}, sys.reserved, Missing(ps, i), sys.pages.Keys);
    OpenInFlight({}, sys.reserved, Missing(ps, i + 1), sys.pages.Keys);
  }

  lemma NoUsers(o: Owners, o': Owners, n: int, who: Owner)
    requires Users(o) == map[] && o' == o[n := who] && !who.User?
    ensures Users(o') == map[]
  {
    forall y | y in o' ensures !o'[y].User? {
      if y != n { assert y !in Users(o); }
    }
  }

  lemma AllMissing(ps: seq<int>, lists: seq<seq<int>>, pages: Pages, counts: seq<int>)
    requires Carved(ps, lists, pages, counts, SLAB_NUM)
    ensures pages.Keys == Missing(ps, 0)
  {
    forall p ensures p in pages <==> p in Missing(ps, 0) {
      if p in pages {
        var k :| 0 <= k < |ps| && ps[k] == p;
      }
    }
  }

  /** Every carved page is now linked and has no node yet. */
  ghost method StartHashing(sys: SlabSystem, ps: seq<int>)
    requires sys.Memory() && sys.bd.vstart >= 0 && Carved(ps, sys.lists, sys.pages, sys.counts, SLAB_NUM)
    requires |sys.hash| == HASH_SIZE && forall h :: 0 <= h < HASH_SIZE ==> sys.hash[h] == []
    requires sys.owner == map[] && sys.homeless == {} && sys.bigs == map[]
    modifies sys`unhashed
    ensures Hashing(sys, ps, 0)
  {
    CarvedSealed(sys.base, ps, sys.lists, sys.pages, sys.counts, sys.hash);
    sys.unhashed := sys.pages.Keys;
    OpenInFlight({}, sys.reserved, sys.pages.Keys, sys.pages.Keys);
    AllMissing(ps, sys.lists, sys.pages, sys.counts);
  }

  /** slab_init */
  method SlabInit(sys: SlabSystem) returns (ok: bool)
    requires sys.Memory() && sys.bd.vstart >= 0 && Carved([], sys.lists, sys.pages, sys.counts, 0)
    requires |sys.hash| == HASH_SIZE && forall h :: 0 <= h < HASH_SIZE ==> sys.hash[h] == []
    requires sys.owner == map[] && sys.unhashed == {} && sys.homeless == {} && sys.bigs == map[]
    modifies sys, sys.bd
    ensures ok <==> old(sys.Free()) >= SLAB_NUM
    ensures ok ==> Valid(sys) && Ledger(sys) == map[]
  {
    ghost var ps;
    ok, ps := CarveStatic(sys);
    if !ok { return; }
    StartHashing(sys, ps);
    var i := 0;
    while i < SLAB_NUM
      invariant 0 <= i <= SLAB_NUM && ok && Hashing(sys, ps, i)
    {
      ok := HashOne(sys, ps, i);
      i := i + 1;
    }
    assert Missing(ps, SLAB_NUM) == {};
  }

  /** buddyInit and slab_init over the memory [start, end). */
  method InitHeap(start: int, end: int) returns (ok: bool, sys: SlabSystem)
    requires 0 <= start && 3 * PGSIZE <= end - BuddyLayout.PageRoundUp(start) && end - start <= 0x2000_0000
    ensures fresh(sys) && fresh(sys.bd)
    ensures ok <==> BuddyIndex.Pages(sys.bd.top) >= SLAB_NUM
    ensures ok ==> Valid(sys) && Ledger(sys) == map[]
  {
    var bd := new Buddy.Allocator(start, end);
    sys := new SlabSystem(bd);
    OpenSolid(bd);
    OpenBacked(map[], {}, {}, map[]);
    assert sys.pages.Keys == {};
    BuddyPages.AllFree(bd.top);
    ok := SlabInit(sys);
  }

  // ----- whole runs -----

  datatype Request = Malloc(size: int) | Free(address: int)

  /** The blocks held after a request answered by `reply`. */
  function Outcome(l: map<int, int>, req: Request, reply: int): map<int, int> {
    match req
    case Malloc(size) => l[reply := size]
    case Free(a) => l - {a}
  }

  /** The blocks held after the first n requests. */
  function LedgerAfter(reqs: seq<Request>, replies: seq<int>, n: nat): map<int, int>
    requires n <= |replies| <= |reqs|
  {
    if n == 0 then map[] else Outcome(LedgerAfter(reqs, replies, n - 1), reqs[n - 1], replies[n - 1])
  }

  ghost predicate Fenced(l: map<int, int>, limit: int) {
    && (forall a :: a in l ==> 0 <= a && 1 <= l[a] && a + l[a] <= limit)
    && (forall a, b :: a in l && b in l && a < b ==> a + l[a] <= b)
  }

  lemma LedgerFenced(sys: SlabSystem)
    requires Valid(sys)
    ensures Fenced(Ledger(sys), BuddyTiles.Size(sys.bd.top))
  {
    forall a, b | a in Ledger(sys) && b in Ledger(sys)
      ensures 0 <= a && 1 <= Ledger(sys)[a] && a + Ledger(sys)[a] <= BuddyTiles.Size(sys.bd.top)
      ensures a < b ==> a + Ledger(sys)[a] <= b
    {
      BlocksDisjoint(sys, a, b);
    }
  }

  lemma {:induction false} LedgerPrefix(reqs: seq<Request>, replies: seq<int>, more: seq<int>, n: nat)
    requires n <= |replies| && |replies + more| <= |reqs|
    ensures LedgerAfter(reqs, replies + more, n) == LedgerAfter(reqs, replies, n)
  {
    if n > 0 { LedgerPrefix(reqs, replies, more, n - 1); }
  }

  /** One request; a panic, or freeing an address that is not held, ends the run. */
  method ServeOne(sys: SlabSystem, req: Request,
                  held: map<int, int>) returns (ok: bool, reply: int, held': map<int, int>)
    requires Valid(sys) && held == Ledger(sys) && (req.Malloc? ==> req.size <= Buddy.MAXSIZE)
    modifies sys, sys.bd
    ensures ok ==> Valid(sys) && held' == Ledger(sys) == Outcome(held, req, reply)
    ensures ok && req.Malloc? ==> req.size >= 1 && reply !in held
    ensures req.Free? ==> (ok <==> req.address in held)
    ensures !ok && req.Malloc? ==> Refused(sys, req.size)
    ensures ok && req.Malloc? ==> sys.reserved == old(sys.reserved) && More(old(sys.pages), sys.pages)
    ensures ok && req.Free? ==>
      Fewer(old(sys.pages), sys.pages) && sys.reserved == old(sys.reserved) + Gone(old(sys.pages), sys.pages)
  {
    ok, reply, held' := true, 0, held;
    match req
    case Malloc(size) =>
      var r := Dmalloc(sys, size);
      if r.None? { return false, 0, held; }
      reply, held' := r.value, held[r.value := size];
    case Free(a) =>
      if a !in held { return false, 0, held; }
      NotMetadata(sys, a);
      assert Gone(sys.pages, sys.pages) == {};
      ok := Dfree(sys, a);
      held' := held - {a};
  }

  lemma NotMetadata(sys: SlabSystem, a: int)
    requires Valid(sys) && a in Ledger(sys)
    ensures a in sys.owner ==> sys.owner[a].User?
    ensures a !in sys.owner ==> a !in sys.reserved
  {
    OpenBacked(Buddy.LiveOf(sys.bd.tiles), sys.pages.Keys, sys.reserved, sys.bigs);
    if a in sys.owner { OwnedPages(sys, a); }
  }

  /** The answer to a request for which the blocks l were held: an allocation's address was not held,
      a freed one was. */
  ghost predicate Proper(l: map<int, int>, req: Request, reply: int) {
    if req.Malloc? then reply !in l else req.address in l
  }

  /** After n requests the blocks held are fenced, and the next request is answered properly. */
  ghost predicate Answered(reqs: seq<Request>, replies: seq<int>, n: nat, limit: int)
    requires n <= |replies| <= |reqs|
  {
    var l := LedgerAfter(reqs, replies, n);
    Fenced(l, limit) && (n < |replies| ==> Proper(l, reqs[n], replies[n]))
  }

  ghost predicate Followed(reqs: seq<Request>, replies: seq<int>, limit: int) {
    |replies| <= |reqs| && forall n :: 0 <= n <= |replies| ==> Answered(reqs, replies, n, limit)
  }

  lemma FollowedMore(reqs: seq<Request>, replies: seq<int>, limit: int, reply: int)
    requires Followed(reqs, replies, limit) && |replies| < |reqs|
    requires var l := LedgerAfter(reqs, replies, |replies|); var req := reqs[|replies|];
             Fenced(Outcome(l, req, reply), limit) && Proper(l, req, reply)
    ensures Followed(reqs, replies + [reply], limit)
    ensures LedgerAfter(reqs, replies + [reply], |replies| + 1) ==
            Outcome(LedgerAfter(reqs, replies, |replies|), reqs[|replies|], reply)
  {
    var more := replies + [reply];
    LedgerPrefix(reqs, replies, [reply], |replies|);
    forall n | 0 <= n <= |more| ensures Answered(reqs, more, n, limit) {
      if n <= |replies| {
        LedgerPrefix(reqs, replies, [reply], n);
        assert Answered(reqs, replies, n, limit);
      }
    }
  }

  /** Since the pages were `was` and the pages held aside `kept`: the live buddy blocks are the linked
      pages, the static pages returned since, those kept before, and the blocks of callers. */
  ghost predicate Accounted(sys: SlabSystem, was: Pages, kept: set<int>)
    reads sys, sys.bd
  {
    && sys.reserved == kept + Gone(was, sys.pages)
    && SameStatic(was, sys.pages)
    && Buddy.LiveOf(sys.bd.tiles).Keys == sys.pages.Keys + sys.reserved + sys.bigs.Keys
  }

  /** A linked page is static exactly if it was before. */
  ghost predicate SameStatic(was: Pages, pages: Pages) {
    && (forall p :: p in pages && pages[p].desc == STATIC ==> p in was && was[p].desc == STATIC)
    && (forall p :: p in pages && p in was && was[p].desc == STATIC ==> pages[p].desc == STATIC)
  }

  lemma AccountedFirst(sys: SlabSystem)
    requires Valid(sys)
    ensures Accounted(sys, sys.pages, sys.reserved)
  {
    LiveKeys(sys);
    assert Gone(sys.pages, sys.pages) == {};
  }

  lemma LiveKeys(sys: SlabSystem)
    requires sys.Memory()
    ensures Buddy.LiveOf(sys.bd.tiles).Keys == sys.pages.Keys + sys.reserved + sys.bigs.Keys
    ensures sys.pages.Keys !! sys.reserved
  {
    var live, all := Buddy.LiveOf(sys.bd.tiles), sys.pages.Keys + sys.reserved + sys.bigs.Keys;
    OpenBacked(live, sys.pages.Keys, sys.reserved, sys.bigs);
    forall a ensures a in live <==> a in all { }
    forall p | p in sys.pages ensures p !in sys.reserved { }
  }

  lemma AccountedNext(sys: SlabSystem, was: Pages, kept: set<int>, pages: Pages, reserved: set<int>)
    requires Valid(sys) && reserved == kept + Gone(was, pages)
    requires SameStatic(was, pages)
    requires || (sys.reserved == reserved && More(pages, sys.pages))
             || (sys.reserved == reserved + Gone(pages, sys.pages) && Fewer(pages, sys.pages))
    ensures Accounted(sys, was, kept)
  {
    LiveKeys(sys);
    forall p | p in Gone(was, pages) ensures p !in sys.pages { assert p in sys.reserved; }
    forall p ensures p in sys.reserved <==> p in kept + Gone(was, sys.pages) { }
  }

  /** Over any run of requests from a fresh heap, until the kernel panics or an address is freed that
      is not held: after every request the blocks held are those allocated and not freed since, at
      addresses that were not held, pairwise disjoint and inside the managed region. */
  method Serve(sys: SlabSystem, reqs: seq<Request>) returns (replies: seq<int>, held: map<int, int>)
    requires Valid(sys) && Ledger(sys) == map[]
    requires forall i :: 0 <= i < |reqs| && reqs[i].Malloc? ==> reqs[i].size <= Buddy.MAXSIZE
    modifies sys, sys.bd
    ensures Followed(reqs, replies, BuddyTiles.Size(sys.bd.top))
    ensures |replies| < |reqs| && reqs[|replies|].Free? ==>
      reqs[|replies|].address !in LedgerAfter(reqs, replies, |replies|)
    ensures |replies| < |reqs| && reqs[|replies|].Malloc? ==> Refused(sys, reqs[|replies|].size)
    ensures |replies| == |reqs| ==> Valid(sys) && held == Ledger(sys) == LedgerAfter(reqs, replies, |reqs|)
    ensures |replies| == |reqs| ==> Accounted(sys, old(sys.pages), old(sys.reserved))
  {
    replies, held := [], map[];
    ghost var was, kept := sys.pages, sys.reserved;
    AccountedFirst(sys);
    while |replies| < |reqs|
      invariant Followed(reqs, replies, BuddyTiles.Size(sys.bd.top))
      invariant Valid(sys) && held == Ledger(sys) == LedgerAfter(reqs, replies, |replies|)
      invariant Accounted(sys, was, kept)
      decreases |reqs| - |replies|
    {
      ghost var pages, reserved := sys.pages, sys.reserved;
      var ok, reply, held' := ServeOne(sys, reqs[|replies|], held);
      if !ok { return; }
      AccountedNext(sys, was, kept, pages, reserved);
      LedgerFenced(sys);
      FollowedMore(reqs, replies, BuddyTiles.Size(sys.bd.top), reply);
      replies, held := replies + [reply], held';
    }
  }
}
