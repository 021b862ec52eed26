/** Relations between slab states before and after an allocation.  Like Sealed, each is kept closed:
    its content becomes visible where a proof calls its Open lemma. */
module SlabRelations {
  import opened Basics
  import opened Counting
  import opened SlabSpec
  import opened SlabSteps
  import Buddy
  import BuddyIndex
  import BuddyTiles

  // ----- the buddy allocator underneath -----

  /** The buddy allocator's invariant. */
  ghost predicate Solid(vstart: int, top: nat, nodes: nat, heads: seq<int>, next: map<int, int>,
                        buckets: seq<seq<BuddyIndex.Node>>, pool: seq<int>, lists: seq<seq<int>>,
                        tiles: BuddyTiles.Tiles)
  {
    forall k {:trigger Key(k, (heads, next, buckets, pool, lists, tiles))} ::
      Key(k, (heads, next, buckets, pool, lists, tiles)) ==>
      Buddy.AllocatorOk(vstart, top, nodes, heads, next, buckets, pool, lists, tiles)
  }

  lemma OpenSolid(bd: Buddy.Allocator)
    ensures Solid(bd.vstart, bd.top, bd.nodes, bd.heads, bd.next, bd.buckets, bd.pool, bd.lists, bd.tiles)
      <==> bd.Valid()
  {
    assert Key(0, (bd.heads, bd.next, bd.buckets, bd.pool, bd.lists, bd.tiles));
  }

  // ----- who owns which buddy block -----

  /** Which buddy blocks belong to linked pages, to pages held but not linked, and to callers. */
  ghost predicate BackedBy(live: map<int, int>, pages: set<int>, reserved: set<int>, bigs: map<int, int>) {
    && (forall p :: p in pages ==> p in live && live[p] == PGSIZE && p !in reserved && p !in bigs)
    && (forall p :: p in reserved ==> p in live && live[p] == PGSIZE && p !in bigs)
    && (forall a :: a in bigs ==> a in live && live[a] == bigs[a])
    && (forall a :: a in live ==> a in pages || a in reserved || a in bigs)
  }

  ghost predicate Backed(live: map<int, int>, pages: set<int>, reserved: set<int>, bigs: map<int, int>) {
    forall k {:trigger Key(k, (live, pages, reserved, bigs))} :: Key(k, (live, pages, reserved, bigs)) ==>
      BackedBy(live, pages, reserved, bigs)
  }

  lemma OpenBacked(live: map<int, int>, pages: set<int>, reserved: set<int>, bigs: map<int, int>)
    ensures Backed(live, pages, reserved, bigs) <==> BackedBy(live, pages, reserved, bigs)
  {
    assert Key(0, (live, pages, reserved, bigs));
  }

  lemma ReservedApart(live: map<int, int>, pages: set<int>, reserved: set<int>, bigs: map<int, int>, p: int)
    requires Backed(live, pages, reserved, bigs) && p in reserved
    ensures p !in pages && p !in bigs
  {
    OpenBacked(live, pages, reserved, bigs);
  }

  lemma PageTaken(live: map<int, int>, pages: set<int>, reserved: set<int>, bigs: map<int, int>, p: int)
    requires Backed(live, pages, reserved, bigs) && p !in live
    ensures Backed(live[p := PGSIZE], pages, reserved + {p}, bigs) && p !in pages && p !in reserved && p !in bigs
  {
    OpenBacked(live, pages, reserved, bigs);
    OpenBacked(live[p := PGSIZE], pages, reserved + {p}, bigs);
  }

  lemma PageLinked(live: map<int, int>, pages: set<int>, reserved: set<int>, bigs: map<int, int>, p: int)
    requires Backed(live, pages, reserved, bigs) && p in reserved
    ensures Backed(live, pages + {p}, reserved - {p}, bigs)
  {
    OpenBacked(live, pages, reserved, bigs);
    OpenBacked(live, pages + {p}, reserved - {p}, bigs);
  }

  // ----- growth -----

  /** The part of the state an allocation changes. */
  datatype Snap = Snap(lists: seq<seq<int>>, pages: Pages, owner: Owners, counts: seq<int>)

  ghost predicate Growth(s: Snap, t: Snap, x: int) {
    && (forall p :: p in s.pages ==>
         p in t.pages && t.pages[p].idx == s.pages[p].idx && t.pages[p].desc == s.pages[p].desc)
    && (forall p :: p in t.pages ==> p in s.pages || t.pages[p].desc != STATIC)
    && (forall y :: y in s.owner ==> y in t.owner && t.owner[y] == s.owner[y])
    && (forall y :: y in t.owner ==> y in s.owner || y == x || !t.owner[y].User?)
    && |s.counts| == |t.counts| == SLAB_NUM
    && (forall i :: 0 <= i < SLAB_NUM ==> t.counts[i] - |Empties(t.pages, i)| == s.counts[i] - |Empties(s.pages, i)|)
  }

  /** Allocation only adds pages and objects: what was live stays, only x may be a new user object,
      and the free-page counters keep their distance from the truth. */
  ghost predicate Grew(s: Snap, t: Snap, x: int) {
    forall k {:trigger Key(k, (s, t, x))} :: Key(k, (s, t, x)) ==> Growth(s, t, x)
  }

  lemma OpenGrew(s: Snap, t: Snap, x: int)
    ensures Grew(s, t, x) <==> Growth(s, t, x)
  {
    assert Key(0, (s, t, x));
  }

  lemma GrewTwice(s: Snap, t: Snap, x1: int, u: Snap, x2: int)
    requires Grew(s, t, x1) && x1 in t.owner && !t.owner[x1].User? && Grew(t, u, x2)
    ensures Grew(s, u, x2)
  {
    OpenGrew(s, t, x1);
    OpenGrew(t, u, x2);
    OpenGrew(s, u, x2);
  }

  /** What was owned stays owned, what was linked stays linked. */
  lemma GrewKeeps(s: Snap, t: Snap, x: int)
    requires Grew(s, t, x)
    ensures s.pages.Keys <= t.pages.Keys
    ensures forall p :: p in s.pages ==> p in t.pages && t.pages[p].idx == s.pages[p].idx
    ensures forall y :: y in s.owner ==> y in t.owner && t.owner[y] == s.owner[y]
    ensures forall y :: y in t.owner ==> y in s.owner || y == x || !t.owner[y].User?
  {
    OpenGrew(s, t, x);
    assert forall p :: p in s.pages ==> p in t.pages;
  }

  /** Only the order of a list differs. */
  lemma GrewSame(s: Snap, t: Snap, u: Snap, x: int)
    requires Grew(t, u, x) && s.pages == t.pages && s.owner == t.owner && s.counts == t.counts
    ensures Grew(s, u, x)
  {
    OpenGrew(t, u, x);
    OpenGrew(s, u, x);
  }

  /** No counter of free pages is larger than before, but for `more` at idx. */
  ghost predicate NoMoreThan(counts: seq<int>, counts': seq<int>, idx: nat, more: nat) {
    && |counts| == |counts'| == SLAB_NUM
    && forall i :: 0 <= i < SLAB_NUM ==> counts'[i] <= counts[i] + if i == idx then more else 0
  }

  // ----- taking an object -----

  /** Page k of cache i is the first with a free object. */
  ghost predicate FirstRoom(lists: seq<seq<int>>, pages: Pages, i: nat, k: nat) {
    && i < |lists| && k < |lists[i]| && lists[i][k] in pages && pages[lists[i][k]].free != []
    && forall j :: 0 <= j < k ==> lists[i][j] in pages && pages[lists[i][j]].free == []
  }

  /** The list of cache i is rotated to its first page with a free object, and nothing else changes. */
  ghost predicate Turned(s: Snap, t: Snap, i: nat) {
    exists k: nat :: FirstRoom(s.lists, s.pages, i, k)
      && t == s.(lists := s.lists[i := s.lists[i][k..] + s.lists[i][..k]])
  }

  /** The object is the first free one of the first page that has any. */
  ghost predicate TookFirst(s: Snap, i: nat, who: Owner, t: Snap, x: int) {
    exists m: Snap :: Turned(s, m, i) && PoppedHead(m, i, who, t, x)
  }

  /** pop_free_list on the head page of cache i. */
  ghost predicate PoppedHead(s: Snap, i: nat, who: Owner, t: Snap, x: int) {
    && HeadRoom(s.lists, s.pages, i)
    && var p := s.lists[i][0];
    && s.pages[p].idx == i < SLAB_NUM && s.pages[p].inUse >= 0 && |s.counts| == SLAB_NUM
    && x == s.pages[p].free[0] && x !in s.owner && PageOf(x) == p && x != STATIC
    && t == Snap(s.lists, s.pages[p := Popped(s.pages[p])], s.owner[x := who],
                 if s.pages[p].inUse == 0 then s.counts[i := s.counts[i] - 1] else s.counts)
  }

  lemma PoppedGrew(s: Snap, i: nat, who: Owner, t: Snap, x: int)
    requires PoppedHead(s, i, who, t, x)
    ensures Grew(s, t, x) && NoMoreThan(s.counts, t.counts, i, 0)
    ensures x in t.owner && t.owner[x] == who
  {
    var p := s.lists[i][0];
    forall j | 0 <= j < SLAB_NUM
      ensures |Empties(t.pages, j)| == |Empties(s.pages, j)| - (if j == i && s.pages[p].inUse == 0 then 1 else 0)
    {
      if j == i && s.pages[p].inUse == 0 {
        assert Empties(t.pages, j) == Empties(s.pages, j) - {p};
      } else {
        assert Empties(t.pages, j) == Empties(s.pages, j);
      }
    }
    OpenGrew(s, t, x);
  }

  // ----- linking a page -----

  /** insert_slab_page at the head. */
  function Linked(s: Snap, p: int, pg: Page): Snap
    requires pg.idx < |s.lists|
  {
    s.(lists := s.lists[pg.idx := [p] + s.lists[pg.idx]], pages := s.pages[p := pg])
  }

  /** The page that holds its own descriptor is never counted as free. */
  lemma OwnLinkGrew(s: Snap, p: int)
    requires p !in s.pages && p !in s.owner && |s.counts| == SLAB_NUM == |s.lists| && p != STATIC
    ensures Grew(s, Linked(s, p, Fresh(p, PAGE_IDX, 1, p)).(owner := s.owner[p := DescOf(p)]), p)
  {
    var t := Linked(s, p, Fresh(p, PAGE_IDX, 1, p)).(owner := s.owner[p := DescOf(p)]);
    forall i | 0 <= i < SLAB_NUM ensures |Empties(t.pages, i)| == |Empties(s.pages, i)| {
      assert Empties(t.pages, i) == Empties(s.pages, i);
    }
    OpenGrew(s, t, p);
  }

  function Counted(s: Snap, idx: nat): Snap
    requires idx < |s.counts|
  {
    s.(counts := s.counts[idx := s.counts[idx] + 1])
  }

  /** Counting the new page first and linking it afterwards comes to the same. */
  lemma LinkGrew(s: Snap, idx: nat, t: Snap, d: int, p: int)
    requires idx < SLAB_NUM && |s.counts| == SLAB_NUM && |t.lists| == SLAB_NUM && p !in t.pages
    requires Grew(Counted(s, idx), t, d) && d in t.owner && !t.owner[d].User? && d != STATIC
    ensures Grew(s, Linked(t, p, Fresh(p, idx, 0, d)), d)
  {
    LinkEmpties(t.pages, p, Fresh(p, idx, 0, d));
    OpenGrew(Counted(s, idx), t, d);
    OpenGrew(s, Linked(t, p, Fresh(p, idx, 0, d)), d);
  }

  lemma LinkEmpties(pages: Pages, p: int, pg: Page)
    requires p !in pages && pg.inUse == 0
    ensures forall i :: 0 <= i < SLAB_NUM ==>
      |Empties(pages[p := pg], i)| == |Empties(pages, i)| + if i == pg.idx then 1 else 0
  {
    forall i | 0 <= i < SLAB_NUM
      ensures |Empties(pages[p := pg], i)| == |Empties(pages, i)| + if i == pg.idx then 1 else 0
    {
      if i == pg.idx {
        assert Empties(pages[p := pg], i) == Empties(pages, i) + {p};
      } else {
        assert Empties(pages[p := pg], i) == Empties(pages, i);
      }
    }
  }

  ghost predicate HeadRoom(lists: seq<seq<int>>, pages: Pages, i: nat) {
    i < |lists| && lists[i] != [] && lists[i][0] in pages && pages[lists[i][0]].free != []
  }

  lemma RoomAfterLink(s: Snap, p: int, pg: Page)
    requires |s.lists| == SLAB_NUM && p !in s.pages && pg.idx < SLAB_NUM && pg.free != []
    ensures var t := Linked(s, p, pg);
            && HeadRoom(t.lists, t.pages, pg.idx) && Room(t.lists, t.pages, pg.idx)
            && forall j :: 0 <= j < SLAB_NUM && Room(s.lists, s.pages, j) ==> Room(t.lists, t.pages, j)
  {
    var t := Linked(s, p, pg);
    assert t.lists[pg.idx][0] == p;
    forall j | 0 <= j < SLAB_NUM && Room(s.lists, s.pages, j) ensures Room(t.lists, t.pages, j) {
      if j != pg.idx {
        var k :| 0 <= k < |s.lists[j]| && s.lists[j][k] in s.pages && s.pages[s.lists[j][k]].free != [];
        assert t.lists[j][k] in t.pages && t.pages[t.lists[j][k]].free != [];
      }
    }
  }

  // ----- what an allocation of metadata leaves alone -----

  ghost predicate SameElsewhere(s: Snap, t: Snap) {
    && |s.lists| == |t.lists| == SLAB_NUM
    && (forall j :: 0 <= j < SLAB_NUM && j != NODE_IDX && j != PAGE_IDX ==> t.lists[j] == s.lists[j])
    && (forall p :: p in s.pages && s.pages[p].idx != NODE_IDX && s.pages[p].idx != PAGE_IDX ==>
         p in t.pages && t.pages[p] == s.pages[p])
  }

  /** A descriptor cache whose head had room keeps that head, short of at most one object; taking the
      first object of that page is counted. */
  ghost predicate HeadKept(s: Snap, t: Snap) {
    HeadRoom(s.lists, s.pages, PAGE_IDX) ==>
      var h := s.lists[PAGE_IDX][0];
      && PAGE_IDX < |t.lists| && t.lists[PAGE_IDX] != [] && t.lists[PAGE_IDX][0] == h && h in t.pages
      && |t.pages[h].free| >= |s.pages[h].free| - 1
      && |s.counts| == |t.counts| == SLAB_NUM
      && (t.pages[h].inUse == s.pages[h].inUse
           || t.counts[PAGE_IDX] <= s.counts[PAGE_IDX] - (if s.pages[h].inUse == 0 then 1 else 0))
  }

  /** Only the descriptor and node caches change. */
  ghost predicate Elsewhere(s: Snap, t: Snap) {
    forall k {:trigger Key(k, (s, t))} :: Key(k, (s, t)) ==> SameElsewhere(s, t)
  }

  /** Only the node cache changes, and the head of the descriptor cache as HeadKept says. */
  ghost predicate Aside(s: Snap, t: Snap) {
    forall k {:trigger Key(k, (s, t, 1))} :: Key(k, (s, t, 1)) ==> SameElsewhere(s, t) && HeadKept(s, t)
  }

  lemma OpenElsewhere(s: Snap, t: Snap)
    ensures Elsewhere(s, t) <==> SameElsewhere(s, t)
  {
    assert Key(0, (s, t));
  }

  lemma OpenAside(s: Snap, t: Snap)
    ensures Aside(s, t) <==> SameElsewhere(s, t) && HeadKept(s, t)
  {
    assert Key(0, (s, t, 1));
  }

  lemma ElsewhereTwice(s: Snap, t: Snap, u: Snap)
    requires Elsewhere(s, t) && Elsewhere(t, u)
    ensures Elsewhere(s, u)
  {
    OpenElsewhere(s, t);
    OpenElsewhere(t, u);
    OpenElsewhere(s, u);
  }

  lemma AsideIsElsewhere(s: Snap, t: Snap)
    requires Aside(s, t)
    ensures Elsewhere(s, t)
  {
    OpenAside(s, t);
    OpenElsewhere(s, t);
  }

  lemma AsideHead(s: Snap, t: Snap)
    requires Aside(s, t) && HeadRoom(s.lists, s.pages, PAGE_IDX) && |s.pages[s.lists[PAGE_IDX][0]].free| >= 3
    ensures HeadRoom(t.lists, t.pages, PAGE_IDX) && |t.pages[t.lists[PAGE_IDX][0]].free| >= 2
  {
    OpenAside(s, t);
  }

  /** Linking a page of the descriptor cache. */
  lemma DescPageElsewhere(s: Snap, p: int, pg: Page, o: Owners)
    requires |s.lists| == SLAB_NUM && p !in s.pages && pg.idx == PAGE_IDX
    ensures Elsewhere(s, Linked(s, p, pg).(owner := o))
  {
    OpenElsewhere(s, Linked(s, p, pg).(owner := o));
  }

  /** Rotating one of the two lists. */
  lemma RotationElsewhere(s: Snap, lists: seq<seq<int>>)
    requires |s.lists| == |lists| == SLAB_NUM
    requires forall j :: 0 <= j < SLAB_NUM && j != NODE_IDX && j != PAGE_IDX ==> lists[j] == s.lists[j]
    ensures Elsewhere(s, s.(lists := lists))
  {
    OpenElsewhere(s, s.(lists := lists));
  }

  /** alloc_new_page_addr takes a descriptor from the head of its cache, which may be new. */
  lemma DescTaken(s: Snap, t: Snap, u: Snap, who: Owner, x: int)
    requires Elsewhere(s, t) && PoppedHead(t, PAGE_IDX, who, u, x)
    requires HeadRoom(s.lists, s.pages, PAGE_IDX) ==> t == s
    ensures Aside(s, u)
  {
    OpenElsewhere(s, t);
    OpenAside(s, u);
  }

  /** slab_system takes a node from the head of its cache, which may be new. */
  lemma NodeTaken(s: Snap, t: Snap, u: Snap, who: Owner, x: int)
    requires Aside(s, t) && PoppedHead(t, NODE_IDX, who, u, x)
    requires forall p :: p in s.pages ==> p in t.pages && t.pages[p].idx == s.pages[p].idx
    requires HeadRoom(s.lists, s.pages, PAGE_IDX) ==> s.pages[s.lists[PAGE_IDX][0]].idx == PAGE_IDX
    ensures Aside(s, u)
  {
    OpenAside(s, t);
    OpenAside(s, u);
    if HeadRoom(s.lists, s.pages, PAGE_IDX) {
      assert t.lists[NODE_IDX][0] != s.lists[PAGE_IDX][0];
    }
  }

  lemma AsideRotated(s: Snap, lists: seq<seq<int>>)
    requires |s.lists| == |lists| == SLAB_NUM == |s.counts|
    requires forall j :: 0 <= j < SLAB_NUM && j != NODE_IDX ==> lists[j] == s.lists[j]
    ensures Aside(s, s.(lists := lists))
  {
    OpenAside(s, s.(lists := lists));
  }

  /** Rotating the node list first makes no difference. */
  lemma AsideAfterRotation(s: Snap, lists: seq<seq<int>>, t: Snap)
    requires |s.lists| == |lists| == SLAB_NUM && Aside(s.(lists := lists), t)
    requires forall j :: 0 <= j < SLAB_NUM && j != NODE_IDX ==> lists[j] == s.lists[j]
    ensures Aside(s, t)
  {
    OpenAside(s.(lists := lists), t);
    OpenAside(s, t);
  }

  /** A new page of the node cache, from which its own node is taken. */
  lemma NodePageAside(s: Snap, t: Snap, p: int, pg: Page, u: Snap, n: int)
    requires |s.counts| == SLAB_NUM && Aside(Counted(s, NODE_IDX), t) && |t.lists| == SLAB_NUM
    requires p !in t.pages && pg.idx == NODE_IDX && pg.free != []
    requires forall q :: q in s.pages ==> q in t.pages && t.pages[q].idx == s.pages[q].idx
    requires HeadRoom(s.lists, s.pages, PAGE_IDX) ==> s.pages[s.lists[PAGE_IDX][0]].idx == PAGE_IDX
    requires PoppedHead(Linked(t, p, pg), NODE_IDX, NodeOf(p), u, n)
    ensures Aside(s, u)
  {
    OpenAside(Counted(s, NODE_IDX), t);
    OpenAside(s, u);
  }

  /** After its page is linked and hashed, the cache has a head with room, and its counter is up by
      the page if nothing was taken from it. */
  lemma ExpandedHead(s: Snap, idx: nat, p: int, d: int, t: Snap, n: int)
    requires idx < SLAB_NUM && |s.lists| == SLAB_NUM && s.lists[idx] != [] && s.lists[idx][0] == p
    requires p in s.pages && s.pages[p] == Fresh(p, idx, 0, d)
    requires Aside(s, t) && NoMoreThan(s.counts, t.counts, 0, 0)
    requires idx == NODE_IDX ==> PoppedHead(s, NODE_IDX, NodeOf(p), t, n)
    ensures HeadRoom(t.lists, t.pages, idx) && t.lists[idx][0] == p
    ensures t.counts[idx] <= s.counts[idx] - if t.pages[p].inUse == 0 then 0 else 1
  {
    SlotsExact(idx);
    OpenAside(s, t);
    assert HeadRoom(s.lists, s.pages, idx);
    if idx != NODE_IDX && idx != PAGE_IDX {
      assert t.lists[idx] == s.lists[idx];
      assert p in t.pages && t.pages[p] == s.pages[p];
    }
  }

  // ----- what is in flight -----

  ghost predicate Referred(homeless: set<Owner>, reserved: set<int>, unhashed: set<int>, pages: set<int>) {
    && (forall o :: o in homeless ==>
         !o.User? && (o.DescOf? ==> o.page in reserved) && (o.NodeOf? ==> o.page in unhashed))
    && (forall p :: p in unhashed ==> p in pages)
  }

  /** What is in flight refers to pages held, or linked but not hashed. */
  ghost predicate InFlight(homeless: set<Owner>, reserved: set<int>, unhashed: set<int>, pages: set<int>) {
    forall k {:trigger Key(k, (homeless, reserved, unhashed, pages))} ::
      Key(k, (homeless, reserved, unhashed, pages)) ==> Referred(homeless, reserved, unhashed, pages)
  }

  lemma OpenInFlight(homeless: set<Owner>, reserved: set<int>, unhashed: set<int>, pages: set<int>)
    ensures InFlight(homeless, reserved, unhashed, pages) <==> Referred(homeless, reserved, unhashed, pages)
  {
    assert Key(0, (homeless, reserved, unhashed, pages));
  }

  lemma InFlightTaken(homeless: set<Owner>, reserved: set<int>, unhashed: set<int>, pages: set<int>, p: int)
    requires InFlight(homeless, reserved, unhashed, pages) && p !in reserved && p !in pages
    ensures DescOf(p) !in homeless && NodeOf(p) !in homeless && p !in unhashed
    ensures InFlight(homeless, reserved + {p}, unhashed, pages)
    ensures homeless + {DescOf(p)} - {DescOf(p)} == homeless && homeless - {DescOf(p)} == homeless
    ensures reserved + {p} - {p} == reserved && unhashed + {p} - {p} == unhashed
  {
    OpenInFlight(homeless, reserved, unhashed, pages);
    OpenInFlight(homeless, reserved + {p}, unhashed, pages);
  }

  lemma InFlightLinked(homeless: set<Owner>, reserved: set<int>, unhashed: set<int>, pages: set<int>, p: int,
                       pages': set<int>)
    requires InFlight(homeless, reserved, unhashed, pages) && pages <= pages' && p in pages'
    ensures InFlight(homeless, reserved, unhashed + {p}, pages')
  {
    OpenInFlight(homeless, reserved, unhashed, pages);
    OpenInFlight(homeless, reserved, unhashed + {p}, pages');
  }

  /** A new page p of cache idx with descriptor d, counted, described and then linked to s1. */
  ghost predicate Added(was: Snap, s1: Snap, now: Snap, idx: nat, p: int, d: int) {
    && idx < SLAB_NUM && |was.counts| == SLAB_NUM == |s1.lists|
    && Grew(Counted(was, idx), s1, d) && Aside(Counted(was, idx), s1)
    && NoMoreThan(Counted(was, idx).counts, s1.counts, 0, 0)
    && p !in s1.pages && Fresh(p, idx, 0, d).free != [] && now == Linked(s1, p, Fresh(p, idx, 0, d))
    && Grew(was, now, d)
  }

  /** Once the new page is hashed, its cache has room. */
  lemma AddedHashed(was: Snap, s1: Snap, s2: Snap, idx: nat, p: int, d: int, t: Snap, n: int)
    requires Added(was, s1, s2, idx, p, d) && d in s2.owner && !s2.owner[d].User?
    requires HeadRoom(was.lists, was.pages, PAGE_IDX) ==> was.pages[was.lists[PAGE_IDX][0]].idx == PAGE_IDX
    requires Grew(s2, t, n) && Aside(s2, t) && NoMoreThan(s2.counts, t.counts, 0, 0)
    requires idx == NODE_IDX ==> PoppedHead(s2, NODE_IDX, NodeOf(p), t, n)
    ensures Grew(was, t, n) && HeadRoom(t.lists, t.pages, idx)
    ensures NoMoreThan(was.counts, t.counts, idx, if t.pages[t.lists[idx][0]].inUse == 0 then 1 else 0)
    ensures idx == NODE_IDX ==> Aside(was, t)
  {
    GrewTwice(was, s2, d, t, n);
    ExpandedHead(s2, idx, p, d, t, n);
    if idx == NODE_IDX {
      GrewKeeps(Counted(was, idx), s1, d);
      NodePageAside(was, s1, p, s2.pages[p], t, n);
    }
  }

  // ----- pages from the buddy allocator -----

  /** How many pages a hash node may cost: a page of nodes needs a descriptor and a node of its own,
      and a page of descriptors a node. */
  ghost function NeedNode(s: Snap): nat {
    if Room(s.lists, s.pages, NODE_IDX) then 0 else if Room(s.lists, s.pages, PAGE_IDX) then 1 else 3
  }

  /** How many a descriptor may cost. */
  ghost function NeedDesc(s: Snap): nat {
    if Room(s.lists, s.pages, PAGE_IDX) then 0 else if Room(s.lists, s.pages, NODE_IDX) then 1 else 2
  }

  /** How many an object of cache idx may cost. */
  ghost function Need(s: Snap, idx: nat): nat {
    if Room(s.lists, s.pages, idx) then 0 else if idx == NODE_IDX then NeedNode(s) else 4
  }

  /** At most `need` free pages were used, and a failure means none was left. */
  ghost predicate Paid(was: nat, now: nat, ok: bool, need: nat) {
    was <= now + need && (!ok ==> now == 0)
  }

  /** The head page of cache idx has a free object, after a search alone or after a new page whose
      hash node is n. */
  ghost predicate RoomMade(was: Snap, now: Snap, idx: nat, n: int, grown: bool) {
    && HeadRoom(now.lists, now.pages, idx)
    && (if grown then
          && Grew(was, now, n) && n in now.owner && !now.owner[n].User?
          && NoMoreThan(was.counts, now.counts, idx, if now.pages[now.lists[idx][0]].inUse == 0 then 1 else 0)
        else now.pages == was.pages && now.owner == was.owner && now.counts == was.counts)
    && (idx == NODE_IDX ==> Aside(was, now))
  }

  /** Paid with what an object of cache idx may cost, kept closed. */
  ghost predicate PaidFor(was: nat, now: nat, ok: bool, s: Snap, idx: nat) {
    forall k {:trigger Key(k, (was, now, ok, s, idx))} :: Key(k, (was, now, ok, s, idx)) ==>
      Paid(was, now, ok, Need(s, idx))
  }

  lemma OpenPaid(was: nat, now: nat, ok: bool, s: Snap, idx: nat)
    ensures PaidFor(was, now, ok, s, idx) <==> Paid(was, now, ok, Need(s, idx))
  {
    assert Key(0, (was, now, ok, s, idx));
  }

  lemma PaidNothing(was: nat, s: Snap, idx: nat)
    ensures PaidFor(was, was, true, s, idx)
  {
    OpenPaid(was, was, true, s, idx);
  }

  /** Searching a cache without room does not change what it may cost. */
  lemma PaidRotated(was: nat, now: nat, ok: bool, s: Snap, t: Snap, idx: nat)
    requires idx < SLAB_NUM && |s.lists| == |t.lists| == SLAB_NUM && s.pages == t.pages
    requires !Room(s.lists, s.pages, idx) && !Room(t.lists, t.pages, idx)
    requires forall j :: 0 <= j < SLAB_NUM && j != idx ==> t.lists[j] == s.lists[j]
    requires PaidFor(was, now, ok, t, idx)
    ensures PaidFor(was, now, ok, s, idx)
  {
    OpenPaid(was, now, ok, t, idx);
    OpenPaid(was, now, ok, s, idx);
  }

  /** The pages a new page of cache idx costs: its own, those of its descriptor and those of its node. */
  lemma PaidExpand(was: nat, mid: nat, now: nat, ok: bool, s: Snap, t: Snap, idx: nat)
    requires !Room(s.lists, s.pages, idx) && was <= mid + 1 + NeedDesc(s) && Paid(mid, now, ok, NeedNode(t))
    requires if idx == NODE_IDX then NeedNode(t) == 0 else NeedNode(t) <= 3
    requires idx != NODE_IDX && !Room(s.lists, s.pages, PAGE_IDX) ==> Room(t.lists, t.pages, PAGE_IDX)
    ensures PaidFor(was, now, ok, s, idx)
  {
    OpenPaid(was, now, ok, s, idx);
  }

  lemma HeadHasRoom(lists: seq<seq<int>>, pages: Pages, i: nat)
    requires HeadRoom(lists, pages, i)
    ensures Room(lists, pages, i)
  {
    assert lists[i][0] in pages;
  }

  /** Linking a page takes no room away. */
  lemma LinkNeeds(s: Snap, p: int, pg: Page, o: Owners)
    requires |s.lists| == SLAB_NUM && p !in s.pages && pg.idx < SLAB_NUM && pg.free != []
    ensures var t := Linked(s, p, pg).(owner := o);
            && Room(t.lists, t.pages, pg.idx) && NeedNode(t) <= NeedNode(s)
            && (pg.idx == PAGE_IDX ==> NeedNode(t) <= if Room(s.lists, s.pages, NODE_IDX) then 0 else 1)
            && (pg.idx == NODE_IDX ==> NeedNode(t) == 0)
            && (Room(s.lists, s.pages, PAGE_IDX) ==> Room(t.lists, t.pages, PAGE_IDX))
  {
    RoomAfterLink(s, p, pg);
  }
}
