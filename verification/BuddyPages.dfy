/** How many pages of the managed region are free: what decides whether dmalloc finds a page
    (buddy.c:88-111). */
module BuddyPages {
  import opened Counting
  import opened BuddyTiles
  import opened BuddyIndex
  import Buddy

  /** Page p lies in the live block at a. */
  ghost predicate TakenBy(live: map<int, int>, a: int, p: int) {
    a in live && exists o :: Buddy.IsOrder(live[a], o) && a <= p * PGSIZE < a + Size(o)
  }

  ghost predicate Taken(live: map<int, int>, p: int) { exists a :: TakenBy(live, a, p) }

  ghost function FreeSet(live: map<int, int>, top: nat): set<int> {
    set p | p in Below(Pages(top)) && !Taken(live, p)
  }

  ghost function FreePages(live: map<int, int>, top: nat): nat { |FreeSet(live, top)| }

  /** With nothing live every page is free. */
  lemma AllFree(top: nat)
    ensures FreePages(map[], top) == Pages(top)
  {
    assert forall p :: !Taken(map[], p);
    assert FreeSet(map[], top) == Below(Pages(top));
  }

  /** The pages of live blocks are those of the tiles in use. */
  lemma TakenIsUsed(t: Tiles, a: int, p: int)
    requires Buddy.UsedOk(t)
    ensures TakenBy(Buddy.LiveOf(t), a, p) <==> Covers(t, a, p * PGSIZE) && t[a].Used?
  {
    var live := Buddy.LiveOf(t);
    if TakenBy(live, a, p) {
      var o :| Buddy.IsOrder(live[a], o) && a <= p * PGSIZE < a + Size(o);
      Buddy.OrderUnique(live[a], o, t[a].order);
    }
    if Covers(t, a, p * PGSIZE) && t[a].Used? {
      assert Buddy.IsOrder(live[a], t[a].order);
    }
  }

  /** A page can be allocated exactly when one is free. */
  lemma PageFitsIff(t: Tiles, top: nat)
    requires Tiling(t, top) && Buddy.UsedOk(t)
    ensures Buddy.Fits(t, PGSIZE) <==> FreePages(Buddy.LiveOf(t), top) > 0
  {
    var live := Buddy.LiveOf(t);
    PagesOfSize(top);
    if Buddy.Fits(t, PGSIZE) {
      var a :| a in t && t[a].Free? && PGSIZE <= Size(t[a].order);
      FreeTilePage(t, top, a);
    }
    if p :| p in FreeSet(live, top) {
      UntakenPage(t, top, p);
    }
  }

  lemma FreeTilePage(t: Tiles, top: nat, a: int)
    requires Tiling(t, top) && Buddy.UsedOk(t) && a in t && t[a].Free?
    ensures a / PGSIZE in FreeSet(Buddy.LiveOf(t), top)
  {
    var p := a / PGSIZE;
    PagesOfSize(top);
    SizeMonotone(0, t[a].order);
    AlignedDown(a, 0, t[a].order);
    assert p * PGSIZE == a;
    forall b ensures !TakenBy(Buddy.LiveOf(t), b, p) {
      TakenIsUsed(t, b, p);
      if b in t && t[b].Used? { assert b != a; }
    }
  }

  lemma UntakenPage(t: Tiles, top: nat, p: int)
    requires Tiling(t, top) && Buddy.UsedOk(t) && p in FreeSet(Buddy.LiveOf(t), top)
    ensures Buddy.Fits(t, PGSIZE)
  {
    PagesOfSize(top);
    assert Covered(t, p * PGSIZE);
    var a :| Covers(t, a, p * PGSIZE);
    TakenIsUsed(t, a, p);
    SizeMonotone(0, t[a].order);
  }

  /** Allocating a page takes one. */
  lemma OnePageLess(t: Tiles, top: nat, live: map<int, int>, a: int)
    requires Tiling(t, top) && Buddy.UsedOk(t) && a !in live && Buddy.LiveOf(t) == live[a := PGSIZE]
    ensures FreePages(live, top) == FreePages(Buddy.LiveOf(t), top) + 1
  {
    var now, p := Buddy.LiveOf(t), a / PGSIZE;
    assert a in now && a in t && t[a].Used?;
    OrderZero(t, a);
    AlignedDown(a, 0, 0);
    PagesOfSize(top);
    assert p * PGSIZE == a;
    forall q ensures Taken(now, q) <==> Taken(live, q) || q == p { PageTaken(t, live, a, q); }
    assert !Taken(live, p) by {
      forall b ensures !TakenBy(live, b, p) { NotTakenBefore(t, live, a, b); }
    }
    assert FreeSet(live, top) == FreeSet(now, top) + {p};
  }

  /** Giving pages back frees exactly them. */
  lemma ManyPagesMore(t: Tiles, top: nat, ps: set<int>)
    requires Tiling(t, top) && Buddy.UsedOk(t)
    requires forall p :: p in ps ==> p in Buddy.LiveOf(t) && Buddy.LiveOf(t)[p] == PGSIZE
    ensures FreePages(Buddy.LiveOf(t) - ps, top) == FreePages(Buddy.LiveOf(t), top) + |ps|
  {
    var live := Buddy.LiveOf(t);
    var now, qs := live - ps, set p | p in ps :: p / PGSIZE;
    forall p | p in ps ensures PageBlock(t, top, p) { PageOfBlock(t, top, p); }
    forall q ensures Taken(live, q) <==> Taken(now, q) || q in qs { TakenUnless(t, top, ps, q); }
    forall q | q in qs ensures !Taken(now, q) { FreedPage(t, top, ps, q); }
    assert FreeSet(now, top) == FreeSet(live, top) + qs;
    SameCount(ps, qs);
  }

  /** A live block of one page. */
  ghost predicate PageBlock(t: Tiles, top: nat, p: int) {
    && p in t && t[p].Used? && t[p].order == 0 && p / PGSIZE * PGSIZE == p && p / PGSIZE in Below(Pages(top))
    && TakenBy(Buddy.LiveOf(t), p, p / PGSIZE)
  }

  lemma PageOfBlock(t: Tiles, top: nat, p: int)
    requires Tiling(t, top) && Buddy.UsedOk(t) && p in Buddy.LiveOf(t) && Buddy.LiveOf(t)[p] == PGSIZE
    ensures PageBlock(t, top, p)
  {
    OrderZero(t, p);
    AlignedDown(p, 0, 0);
    PagesOfSize(top);
    TakenIsUsed(t, p, p / PGSIZE);
  }

  lemma TakenUnless(t: Tiles, top: nat, ps: set<int>, q: int)
    requires Tiling(t, top) && Buddy.UsedOk(t) && forall p :: p in ps ==> p in Buddy.LiveOf(t) && PageBlock(t, top, p)
    ensures Taken(Buddy.LiveOf(t), q) <==> Taken(Buddy.LiveOf(t) - ps, q) || exists p :: p in ps && p / PGSIZE == q
  {
    var live, now := Buddy.LiveOf(t), Buddy.LiveOf(t) - ps;
    if Taken(live, q) {
      var a :| TakenBy(live, a, q);
      if a in ps {
        TakenIsUsed(t, a, q);
        assert a / PGSIZE == q;
      } else {
        assert TakenBy(now, a, q);
      }
    }
    if Taken(now, q) {
      var a :| TakenBy(now, a, q);
      assert TakenBy(live, a, q);
    }
    if p :| p in ps && p / PGSIZE == q { assert TakenBy(live, p, q); }
  }

  lemma FreedPage(t: Tiles, top: nat, ps: set<int>, q: int)
    requires Tiling(t, top) && Buddy.UsedOk(t) && exists p :: p in ps && PageBlock(t, top, p) && p / PGSIZE == q
    ensures !Taken(Buddy.LiveOf(t) - ps, q)
  {
    var live := Buddy.LiveOf(t);
    var p :| p in ps && PageBlock(t, top, p) && p / PGSIZE == q;
    TakenIsUsed(t, p, q);
    forall a ensures !TakenBy(live - ps, a, q) {
      assert TakenBy(live - ps, a, q) ==> TakenBy(live, a, q);
      TakenIsUsed(t, a, q);
    }
  }

  lemma {:induction false} SameCount(ps: set<int>, qs: set<int>)
    requires qs == (set p | p in ps :: p / PGSIZE) && forall p :: p in ps ==> p / PGSIZE * PGSIZE == p
    ensures |qs| == |ps|
  {
    if forall p :: p !in ps {
      assert ps == {} && qs == {};
    } else {
      var p :| p in ps;
      var rest := set r | r in ps - {p} :: r / PGSIZE;
      SameCount(ps - {p}, rest);
      assert p / PGSIZE !in rest;
      forall q | q in qs ensures q in rest + {p / PGSIZE} {
        var r :| r in ps && r / PGSIZE == q;
        assert r == p || r in ps - {p};
      }
      assert qs == rest + {p / PGSIZE};
    }
  }

  lemma OrderZero(t: Tiles, a: int)
    requires Buddy.UsedOk(t) && a in t && t[a].Used? && t[a].size == PGSIZE
    ensures t[a].order == 0
  {
    Buddy.OrderUnique(PGSIZE, 0, t[a].order);
  }

  lemma PageTaken(t: Tiles, live: map<int, int>, a: int, q: int)
    requires Buddy.UsedOk(t) && a !in live && Buddy.LiveOf(t) == live[a := PGSIZE] && a in t && t[a].order == 0
    requires a % PGSIZE == 0
    ensures Taken(Buddy.LiveOf(t), q) <==> Taken(live, q) || q == a / PGSIZE
  {
    var now := Buddy.LiveOf(t);
    if Taken(now, q) {
      var b :| TakenBy(now, b, q);
      if b == a {
        TakenIsUsed(t, a, q);
      } else {
        assert TakenBy(live, b, q);
      }
    }
    if Taken(live, q) {
      var b :| TakenBy(live, b, q);
      assert TakenBy(now, b, q);
    }
    if q == a / PGSIZE {
      assert a in now && t[a].Used?;
      TakenIsUsed(t, a, q);
    }
  }

  lemma NotTakenBefore(t: Tiles, live: map<int, int>, a: int, b: int)
    requires Apart(t) && Buddy.UsedOk(t) && a !in live && Buddy.LiveOf(t) == live[a := PGSIZE] && a in t
    requires t[a].order == 0 && a % PGSIZE == 0
    ensures !TakenBy(live, b, a / PGSIZE)
  {
    if b in live {
      assert b in Buddy.LiveOf(t) && b in t && b != a;
      assert TakenBy(live, b, a / PGSIZE) ==> TakenBy(Buddy.LiveOf(t), b, a / PGSIZE);
      TakenIsUsed(t, b, a / PGSIZE);
    }
  }
}
