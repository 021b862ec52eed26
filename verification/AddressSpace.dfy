/** walkpgdir, mappages, allocuvm, deallocuvm and freevm (vm.c:32-80, vm.c:219-298). */
module AddressSpace {
  import opened Basics
  import opened Counting
  import opened Vm

  const WORD := 0x1_0000_0000
  const PTE_W := 0x002
  const PTE_U := 0x004
  const PTE_D := 0x008
  const USERFLAGS := PTE_W + PTE_U + PTE_D

  datatype MapOutcome = Entered | NoFrame | Remap

  class AddressSpace {
    const root: int                  // the directory's frame
    var dir: seq<int>
    var tabs: map<int, seq<Pte>>
    var pool: seq<int>               // kalloc's free frames
    ghost var owner: map<int, Owner>

    ghost function Now(): Space
      reads this
    {
      Space(dir, tabs, pool)
    }

    ghost predicate Valid()
      reads this
    {
      Kept(Now(), root, owner)
    }

    /** A directory in frame `root` with nothing mapped, over the free frames of kalloc. */
    constructor (root: int, pool: seq<int>)
      requires NoRepeats(pool) && root !in pool && root != 0 && 0 !in pool
      ensures Valid() && this.root == root && this.pool == pool && TabsOk(Now()) && Clear(Now(), 0, ALLPAGES)
    {
      this.root, this.pool := root, pool;
      dir := seq(NPDENTRIES, _ => 0);
      tabs := map[];
      owner := map f | f in pool + [root] :: if f == root then Root else Pool;
      new;
      OpenKept(Now(), root, owner);
    }

    /** kalloc; 0 if there is no frame. */
    method Kalloc() returns (f: int)
      requires Valid()
      modifies this`pool, this`owner
      ensures Valid() && SameMaps(old(Now()), Now())
      ensures f == 0 <==> old(pool) == []
      ensures f == 0 ==> pool == old(pool) && owner == old(owner)
      ensures f != 0 ==> f in old(owner) && old(owner)[f] == Pool && owner == old(owner)[f := Held]
      ensures f != 0 ==> pool == old(pool)[1..]
    {
      TakeStep(Now(), root, owner);
      if pool == [] { return 0; }
      f := pool[0];
      pool := pool[1..];
      owner := owner[f := Held];
    }

    /** kfree of a frame taken and not mapped. */
    method Kfree(f: int)
      requires Valid() && f in owner && owner[f] == Held
      modifies this`pool, this`owner
      ensures Valid() && SameMaps(old(Now()), Now()) && owner == old(owner)[f := Pool]
    {
      GiveStep(Now(), root, owner, f);
      pool := [f] + pool;
      owner := owner[f := Pool];
    }

    /** walkpgdir with alloc: afterwards the page has a table, unless no frame was left for one. */
    method WalkAlloc(page: nat) returns (ok: bool)
      requires Valid() && page < ALLPAGES
      modifies this
      ensures Valid() && SameMaps(old(Now()), Now()) && |dir| == NPDENTRIES
      ensures ok <==> dir[Pdx(page)] != 0
      ensures !ok ==> old(pool) == [] && Now() == old(Now()) && owner == old(owner)
      ensures ok ==> Walked(old(dir), |old(pool)|, dir, |pool|, page)
      ensures OnlyTables(old(owner), owner)
    {
      KeptTabs(Now(), root, owner);
      if dir[Pdx(page)] != 0 { return true; }
      var pgtab := Kalloc();
      if pgtab == 0 { return false; }
      TableStep(Now(), root, owner, Pdx(page), pgtab);
      MapsTwice(old(Now()), Now(), Now().(dir := dir[Pdx(page) := pgtab], tabs := tabs[pgtab := EmptyTable()]));
      tabs := tabs[pgtab := EmptyTable()];
      dir := dir[Pdx(page) := pgtab];
      owner := owner[pgtab := Table(Pdx(page))];
      ok := true;
    }

    /** mappages for one page; Remap stands for its panic on a page that is mapped already. */
    method MapPage(page: nat, f: int, flags: nat) returns (r: MapOutcome)
      requires Valid() && page < USERPAGES && f in owner && owner[f] == Held
      modifies this
      ensures Valid()
      ensures r == Remap <==> !Unmapped(old(Now()), page)
      ensures r != Entered ==> SameMaps(old(Now()), Now())
      ensures r == NoFrame ==> owner == old(owner) && old(pool) == [] && NeedTable(old(dir), page) == 1
      ensures r == Entered ==> Walked(old(dir), |old(pool)|, dir, |pool|, page)
      ensures r == Entered ==> Mapped(old(Now()), Now(), page, Present(f, flags))
      ensures r == Entered ==> OnlyTables(old(owner)[f := Data(page)], owner)
    {
      KeptTabs(Now(), root, owner);
      var ok := WalkAlloc(page);
      if !ok { return NoFrame; }
      KeptTabs(Now(), root, owner);
      var t := dir[Pdx(page)];
      if tabs[t][Ptx(page)].Present? { return Remap; }
      MapStep(Now(), root, owner, page, f, flags);
      MappedAfter(old(Now()), Now(), WithPte(Now(), page, Present(f, flags)), page, Present(f, flags));
      tabs := tabs[t := tabs[t][Ptx(page) := Present(f, flags)]];
      owner := owner[f := Data(page)];
      r := Entered;
    }

    /** deallocuvm's work on one mapped page; true stands for the panic on frame 0. */
    method ReleasePage(page: nat) returns (panicked: bool)
      requires Valid() && page < USERPAGES && |dir| == NPDENTRIES && dir[Pdx(page)] != 0
      modifies this`tabs, this`pool, this`owner
      ensures !panicked && Valid() && TabsOk(old(Now())) && Now() == Release(old(Now()), page)
      ensures forall end: nat :: end > page ==> OwnersAfter(owner, page + 1, end) == OwnersAfter(old(owner), page, end)
    {
      ReleaseStep(Now(), root, owner, page);
      panicked := false;
      var t := dir[Pdx(page)];
      var pte := tabs[t][Ptx(page)];
      if pte.Present? {
        if pte.frame == 0 { return true; }
        pool := [pte.frame] + pool;
        tabs := tabs[t := tabs[t][Ptx(page) := Absent]];
        owner := owner[pte.frame := Pool];
      }
    }

    /** deallocuvm */
    method DeallocUvm(oldsz: nat, newsz: nat) returns (r: nat, panicked: bool)
      requires Valid() && oldsz <= KERNBASE
      modifies this`tabs, this`pool, this`owner
      ensures !panicked && Valid() && TabsOk(old(Now()))
      ensures newsz >= oldsz ==> r == oldsz && Now() == old(Now()) && owner == old(owner)
      ensures newsz < oldsz ==> r == newsz && Now() == Walk(old(Now()), PagesUp(newsz), PagesUp(oldsz))
      ensures newsz < oldsz ==> owner == OwnersAfter(old(owner), PagesUp(newsz), PagesUp(oldsz))
    {
      KeptTabs(Now(), root, owner);
      panicked := false;
      if newsz >= oldsz { return oldsz, false; }
      ghost var start, end := PagesUp(newsz), PagesUp(oldsz);
      var a := PagesUp(newsz) * PGSIZE;
      while a < oldsz
        invariant a % PGSIZE == 0 && a >= start * PGSIZE && !panicked && Valid() && TabsOk(Now()) && dir == old(dir)
        invariant Walk(Now(), a / PGSIZE, end) == Walk(old(Now()), start, end)
        invariant OwnersAfter(owner, a / PGSIZE, end) == OwnersAfter(old(owner), start, end)
        decreases oldsz + PGSIZE - a
      {
        a, panicked := DeallocRound(a, oldsz);
      }
      assert a / PGSIZE >= end;
      NoneLeft(owner, a / PGSIZE, end);
      r := newsz;
    }

    /** One round of deallocuvm's loop; an absent table is skipped whole. */
    method DeallocRound(a: nat, ghost oldsz: nat) returns (next: nat, panicked: bool)
      requires Valid() && TabsOk(Now()) && a % PGSIZE == 0 && a < oldsz <= KERNBASE
      modifies this`tabs, this`pool, this`owner
      ensures !panicked && Valid() && TabsOk(Now()) && dir == old(dir) && next % PGSIZE == 0 && next > a
      ensures Walk(Now(), next / PGSIZE, PagesUp(oldsz)) == Walk(old(Now()), a / PGSIZE, PagesUp(oldsz))
      ensures OwnersAfter(owner, next / PGSIZE, PagesUp(oldsz)) == OwnersAfter(old(owner), a / PGSIZE, PagesUp(oldsz))
    {
      var page := a / PGSIZE;
      panicked := false;
      NextPage(a, oldsz);
      if dir[Pdx(page)] == 0 {
        SkipStep(Now(), root, owner, page, PagesUp(oldsz));
        NextTable(page);
        next := (Pdx(page) + 1) * NPTENTRIES * PGSIZE - PGSIZE;
      } else {
        panicked := ReleasePage(page);
        ReleaseStays(old(Now()), root, old(owner), page);
        WalkOne(old(Now()), page, PagesUp(oldsz));
        next := a;
      }
      next := next + PGSIZE;
    }

    /** Round p of allocuvm's loop. */
    method AllocRound(p: nat, oldsz: nat, newsz: nat, ghost s0: Space, ghost o0: map<int, Owner>) returns (ok: bool)
      requires Valid() && PagesUp(oldsz) <= p < PagesUp(newsz) && newsz < KERNBASE
      requires Grown(s0, Now(), PagesUp(oldsz), p) && OwnersGrown(o0, owner, PagesUp(oldsz), p)
      requires Clear(s0, PagesUp(oldsz), PagesUp(newsz))
      requires NoData(o0, PagesUp(oldsz), PagesUp(newsz))
      modifies this
      ensures Valid()
      ensures ok ==> Grown(s0, Now(), PagesUp(oldsz), p + 1) && OwnersGrown(o0, owner, PagesUp(oldsz), p + 1)
      ensures ok ==> Walked(old(dir), |old(pool)| - 1, dir, |pool|, p)
      ensures !ok ==> SameMaps(s0, Now()) && OnlyTables(o0, owner)
      ensures !ok ==> |old(pool)| < 1 + NeedTable(old(dir), p)
    {
      ghost var start, end := PagesUp(oldsz), PagesUp(newsz);
      var mem := Kalloc();
      GrownSame(s0, old(Now()), Now(), start, p);
      if mem == 0 {
        Rollback(oldsz, newsz, p, s0);
        RolledOwners(o0, old(owner), start, p, end);
        return false;
      }
      ghost var s1, o1 := Now(), owner;
      GrownClear(s0, s1, start, p, end);
      var r := MapPage(p, mem, USERFLAGS);
      ok := r == Entered;
      if !ok {
        GrownSame(s0, s1, Now(), start, p);
        Rollback(oldsz, newsz, p, s0);
        Kfree(mem);
        RolledHeld(o0, old(owner), start, p, end, mem);
      } else {
        GrownMore(s0, s1, Now(), start, p, mem);
        OwnersMore(o0, old(owner), owner, start, p, mem);
      }
    }

    /** allocuvm's way out: deallocuvm takes away what was mapped so far. */
    method Rollback(oldsz: nat, newsz: nat, ghost p: nat, ghost s0: Space)
      requires Valid() && PagesUp(oldsz) <= p < PagesUp(newsz) && newsz < KERNBASE
      requires Grown(s0, Now(), PagesUp(oldsz), p) && Clear(s0, PagesUp(oldsz), PagesUp(newsz))
      modifies this`tabs, this`pool, this`owner
      ensures Valid() && SameMaps(s0, Now()) && owner == OwnersAfter(old(owner), PagesUp(oldsz), PagesUp(newsz))
    {
      RollbackStep(s0, Now(), root, owner, PagesUp(oldsz), p, PagesUp(newsz));
      var r, panicked := DeallocUvm(newsz, oldsz);
    }

    /** allocuvm; the pages between the two sizes are not mapped before. */
    method AllocUvm(oldsz: nat, newsz: nat) returns (r: nat, ghost ok: bool)
      requires Valid() && TabsOk(Now())
      requires oldsz <= newsz < KERNBASE ==> Clear(Now(), PagesUp(oldsz), PagesUp(newsz))
      modifies this
      ensures Valid()
      ensures newsz >= KERNBASE ==> !ok && r == 0
      ensures newsz < KERNBASE && newsz < oldsz ==> ok && r == oldsz && Now() == old(Now()) && owner == old(owner)
      ensures !ok ==> r == 0 && SameMaps(old(Now()), Now()) && OnlyTables(old(owner), owner)
      ensures oldsz <= newsz < KERNBASE && ok ==>
        && r == newsz && Grown(old(Now()), Now(), PagesUp(oldsz), PagesUp(newsz))
        && OwnersGrown(old(owner), owner, PagesUp(oldsz), PagesUp(newsz))
      ensures oldsz <= newsz < KERNBASE ==>
        (ok <==> |old(pool)| >= NeedFrames(old(dir), PagesUp(oldsz), PagesUp(newsz)))
    {
      if newsz >= KERNBASE { return 0, false; }
      if newsz < oldsz { return oldsz, true; }
      ClearNoData(Now(), root, owner, PagesUp(oldsz), PagesUp(newsz));
      var a := PagesUp(oldsz) * PGSIZE;
      ghost var end := PagesUp(newsz);
      while a < newsz
        invariant a % PGSIZE == 0 && PagesUp(oldsz) <= a / PGSIZE <= PagesUp(newsz) && Valid()
        invariant |dir| == NPDENTRIES
        invariant |pool| - NeedFrames(dir, a / PGSIZE, end) ==
          |old(pool)| - NeedFrames(old(dir), PagesUp(oldsz), end)
        invariant Grown(old(Now()), Now(), PagesUp(oldsz), a / PGSIZE)
        invariant OwnersGrown(old(owner), owner, PagesUp(oldsz), a / PGSIZE)
      {
        ghost var d0, n0 := dir, |pool|;
        var done := AllocRound(a / PGSIZE, oldsz, newsz, old(Now()), old(owner));
        if !done {
          TooFew(d0, a / PGSIZE, end);
          return 0, false;
        }
        FramesStep(d0, n0, dir, |pool|, a / PGSIZE, end);
        a := a + PGSIZE;
      }
      assert a / PGSIZE == PagesUp(newsz);
      r, ok := newsz, true;
    }

    /** freevm: every frame of the address space is free again, once. */
    method FreeVm() returns (panicked: bool)
      requires Valid()
      modifies this
      ensures !panicked && NoRepeats(pool)
      ensures forall f :: f in pool <==> f in old(owner) && old(owner)[f] != Held
    {
      WholeStep(Now(), root, owner);
      var r;
      r, panicked := DeallocUvm(KERNBASE, 0);
      ghost var o := owner;
      FreeTables();
      PushNew(pool, root);
      pool := [root] + pool;
      forall f ensures f in pool <==> f in old(owner) && old(owner)[f] != Held {
        assert f in o <==> f in old(owner);
      }
    }

    /** freevm's loop over the page directory. */
    method FreeTables()
      requires Valid()
      modifies this`pool
      ensures NoRepeats(pool) && forall f :: f in pool <==> f in owner && (owner[f] == Pool || owner[f].Table?)
      ensures root in owner && forall f :: f in owner ==> (owner[f] == Root <==> f == root)
    {
      OpenKept(Now(), root, owner);
      var i := 0;
      while i < NPDENTRIES
        invariant 0 <= i <= NPDENTRIES && NoRepeats(pool)
        invariant forall f :: f in pool <==> f in owner && (owner[f] == Pool || (owner[f].Table? && owner[f].d < i))
      {
        if dir[i] != 0 {
          PushNew(pool, dir[i]);
          pool := [dir[i]] + pool;
        }
        i := i + 1;
      }
    }
  }

  // ----- how many frames a range needs -----

  /** Whether the page needs a new page table. */
  function NeedTable(dir: seq<int>, page: nat): nat {
    if Pdx(page) < |dir| && dir[Pdx(page)] == 0 then 1 else 0
  }

  /** The page tables missing among directory entries [lo, hi). */
  function TablesMissing(dir: seq<int>, lo: nat, hi: nat): nat
    requires hi <= |dir|
    decreases hi - lo
  {
    if lo >= hi then 0 else (if dir[lo] == 0 then 1 else 0) + TablesMissing(dir, lo + 1, hi)
  }

  /** A frame for every page of [p, end), and one for every table they miss. */
  function NeedFrames(dir: seq<int>, p: nat, end: nat): nat
    requires |dir| == NPDENTRIES && end <= ALLPAGES
  {
    if p >= end then 0 else end - p + TablesMissing(dir, Pdx(p), Pdx(end - 1) + 1)
  }

  /** From n0 free frames to n1: the page's table is there, at the cost of a frame if it was missing. */
  ghost predicate Walked(dir0: seq<int>, n0: int, dir: seq<int>, n: int, page: nat) {
    && |dir0| == |dir| == NPDENTRIES && Pdx(page) < NPDENTRIES
    && dir[Pdx(page)] != 0 && dir == dir0[Pdx(page) := dir[Pdx(page)]] && n0 == n + NeedTable(dir0, page)
    && (dir0[Pdx(page)] != 0 ==> dir == dir0)
  }

  lemma {:induction false} TableFilled(dir: seq<int>, lo: nat, hi: nat, k: nat, t: int)
    requires hi <= |dir| && k < |dir| && t != 0
    ensures TablesMissing(dir[k := t], lo, hi) ==
      TablesMissing(dir, lo, hi) - if lo <= k < hi && dir[k] == 0 then 1 else 0
    decreases hi - lo
  {
    if lo < hi { TableFilled(dir, lo + 1, hi, k, t); }
  }

  /** One round takes exactly the share of its page. */
  lemma FramesStep(dir0: seq<int>, n0: int, dir: seq<int>, n: int, p: nat, end: nat)
    requires Walked(dir0, n0 - 1, dir, n, p) && p < end <= ALLPAGES
    ensures n - NeedFrames(dir, p + 1, end) == n0 - NeedFrames(dir0, p, end)
  {
    var lo, hi := Pdx(p), Pdx(end - 1) + 1;
    TableFilled(dir0, lo, hi, lo, dir[lo]);
    if p + 1 < end { assert Pdx(p + 1) == lo || Pdx(p + 1) == lo + 1; }
  }

  lemma TooFew(dir: seq<int>, p: nat, end: nat)
    requires |dir| == NPDENTRIES && p < end <= ALLPAGES
    ensures NeedFrames(dir, p, end) >= 1 + NeedTable(dir, p)
  {
  }

  // ----- the invariant, kept closed -----

  ghost predicate Kept(s: Space, root: int, owner: map<int, Owner>) {
    forall k {:trigger Key(k, (s, root, owner))} :: Key(k, (s, root, owner)) ==> FramesOk(s, root, owner)
  }

  lemma OpenKept(s: Space, root: int, owner: map<int, Owner>)
    ensures Kept(s, root, owner) <==> FramesOk(s, root, owner)
  {
    assert Key(0, (s, root, owner));
  }

  lemma KeptTabs(s: Space, root: int, owner: map<int, Owner>)
    requires Kept(s, root, owner)
    ensures TabsOk(s)
  {
    OpenKept(s, root, owner);
  }

  /** Between the two, free frames have become page tables. */
  ghost predicate OnlyTables(owner: map<int, Owner>, owner': map<int, Owner>) {
    && owner'.Keys == owner.Keys
    && forall f :: f in owner ==> owner'[f] == owner[f] || (owner[f] == Pool && owner'[f].Table?)
  }

  ghost predicate Unmapped(s: Space, page: nat) { TabsOk(s) && Lookup(s, page) == Absent }

  ghost predicate Mapped(s: Space, t: Space, page: nat, pte: Pte) {
    TabsOk(s) && TabsOk(t) && forall q: nat :: Lookup(t, q) == if q == page then pte else Lookup(s, q)
  }

  lemma MapsTwice(s: Space, t: Space, u: Space)
    requires SameMaps(s, t) && SameMaps(t, u)
    ensures SameMaps(s, u)
  {
  }

  lemma MappedAfter(s: Space, t: Space, u: Space, page: nat, pte: Pte)
    requires SameMaps(s, t) && Mapped(t, u, page, pte)
    ensures Mapped(s, u, page, pte)
  {
  }

  lemma TakeStep(s: Space, root: int, owner: map<int, Owner>)
    requires Kept(s, root, owner)
    ensures SameMaps(s, s)
    ensures s.pool != [] ==>
      && s.pool[0] in owner && owner[s.pool[0]] == Pool && s.pool[0] != 0
      && Kept(s.(pool := s.pool[1..]), root, owner[s.pool[0] := Held]) && SameMaps(s, s.(pool := s.pool[1..]))
  {
    OpenKept(s, root, owner);
    if s.pool != [] {
      TakeKeeps(s, root, owner);
      OpenKept(s.(pool := s.pool[1..]), root, owner[s.pool[0] := Held]);
    }
  }

  lemma GiveStep(s: Space, root: int, owner: map<int, Owner>, f: int)
    requires Kept(s, root, owner) && f in owner && owner[f] == Held
    ensures Kept(s.(pool := [f] + s.pool), root, owner[f := Pool]) && SameMaps(s, s.(pool := [f] + s.pool))
  {
    OpenKept(s, root, owner);
    GiveKeeps(s, root, owner, f);
    OpenKept(s.(pool := [f] + s.pool), root, owner[f := Pool]);
  }

  lemma TableStep(s: Space, root: int, owner: map<int, Owner>, d: nat, f: int)
    requires Kept(s, root, owner) && d < |s.dir| && s.dir[d] == 0 && f in owner && owner[f] == Held
    ensures var t := s.(dir := s.dir[d := f], tabs := s.tabs[f := EmptyTable()]);
            Kept(t, root, owner[f := Table(d)]) && SameMaps(s, t) && f != 0
  {
    OpenKept(s, root, owner);
    TableKeeps(s, root, owner, d, f);
    OpenKept(s.(dir := s.dir[d := f], tabs := s.tabs[f := EmptyTable()]), root, owner[f := Table(d)]);
  }

  lemma MapStep(s: Space, root: int, owner: map<int, Owner>, page: nat, f: int, flags: nat)
    requires Kept(s, root, owner) && page < USERPAGES && |s.dir| == NPDENTRIES && s.dir[Pdx(page)] != 0
    requires Unmapped(s, page) && f in owner && owner[f] == Held
    ensures s.dir[Pdx(page)] in s.tabs && |s.tabs[s.dir[Pdx(page)]]| == NPTENTRIES
    ensures Kept(WithPte(s, page, Present(f, flags)), root, owner[f := Data(page)])
    ensures Mapped(s, WithPte(s, page, Present(f, flags)), page, Present(f, flags))
  {
    OpenKept(s, root, owner);
    MapKeeps(s, root, owner, page, f, flags);
    OpenKept(WithPte(s, page, Present(f, flags)), root, owner[f := Data(page)]);
  }

  lemma ReleaseStep(s: Space, root: int, owner: map<int, Owner>, page: nat)
    requires Kept(s, root, owner) && page < USERPAGES && |s.dir| == NPDENTRIES && s.dir[Pdx(page)] != 0
    ensures TabsOk(s) && s.dir[Pdx(page)] in s.tabs && |s.tabs[s.dir[Pdx(page)]]| == NPTENTRIES
    ensures Lookup(s, page) == s.tabs[s.dir[Pdx(page)]][Ptx(page)]
    ensures if Lookup(s, page).Present? then
        && Lookup(s, page).frame in owner && Lookup(s, page).frame != 0
        && Kept(Release(s, page), root, owner[Lookup(s, page).frame := Pool])
        && (forall end: nat :: end > page ==>
             OwnersAfter(owner[Lookup(s, page).frame := Pool], page + 1, end) == OwnersAfter(owner, page, end))
      else forall end: nat :: end > page ==> OwnersAfter(owner, page + 1, end) == OwnersAfter(owner, page, end)
  {
    OpenKept(s, root, owner);
    ReleaseKeeps(s, root, owner, page);
    if Lookup(s, page).Present? { OpenKept(Release(s, page), root, owner[Lookup(s, page).frame := Pool]); }
    var o := if Lookup(s, page).Present? then owner[Lookup(s, page).frame := Pool] else owner;
    forall end: nat | end > page ensures OwnersAfter(o, page + 1, end) == OwnersAfter(owner, page, end) {
      OwnersNext(s, root, owner, page, end);
    }
  }

  lemma WalkOne(s: Space, page: nat, end: nat)
    requires TabsOk(s) && page < end && TabsOk(Release(s, page))
    ensures Walk(s, page, end) == Walk(Release(s, page), page + 1, end)
  {
  }

  lemma ReleaseStays(s: Space, root: int, owner: map<int, Owner>, page: nat)
    requires Kept(s, root, owner) && TabsOk(s) && page < USERPAGES
    ensures TabsOk(Release(s, page)) && Release(s, page).dir == s.dir
  {
    OpenKept(s, root, owner);
    ReleaseKeeps(s, root, owner, page);
  }

  lemma NextPage(a: nat, oldsz: nat)
    requires a % PGSIZE == 0 && a < oldsz <= KERNBASE
    ensures a / PGSIZE < PagesUp(oldsz) <= USERPAGES && (a + PGSIZE) / PGSIZE == a / PGSIZE + 1
    ensures (a + PGSIZE) % PGSIZE == 0
  {
  }

  lemma NextTable(page: nat)
    ensures (Pdx(page) + 1) * NPTENTRIES * PGSIZE / PGSIZE == (Pdx(page) + 1) * NPTENTRIES > page
    ensures (Pdx(page) + 1) * NPTENTRIES * PGSIZE % PGSIZE == 0
  {
  }

  /** Nothing is mapped below an absent table. */
  lemma SkipStep(s: Space, root: int, owner: map<int, Owner>, page: nat, end: nat)
    requires Kept(s, root, owner) && TabsOk(s) && page < end <= USERPAGES && s.dir[Pdx(page)] == 0
    ensures var next := (Pdx(page) + 1) * NPTENTRIES;
      Walk(s, next, end) == Walk(s, page, end) && OwnersAfter(owner, next, end) == OwnersAfter(owner, page, end)
  {
    OpenKept(s, root, owner);
    var next := (Pdx(page) + 1) * NPTENTRIES;
    AbsentTable(s, page, end);
    WalkSkips(s, page, if next < end then next else end, end);
    forall f | f in owner && owner[f].Data? && page <= owner[f].page < end ensures owner[f].page >= next { }
  }

  lemma NoneLeft(owner: map<int, Owner>, p: nat, end: nat)
    requires p >= end
    ensures OwnersAfter(owner, p, end) == owner
  {
  }

  // ----- growing -----

  ghost predicate Clear(s: Space, start: nat, end: nat) {
    TabsOk(s) && forall q: nat :: start <= q < end ==> Lookup(s, q) == Absent
  }

  /** Pages [start, p) are mapped for the user, every other page as in s. */
  ghost predicate Grown(s: Space, t: Space, start: nat, p: nat) {
    && TabsOk(s) && TabsOk(t)
    && forall q: nat :: if start <= q < p then Lookup(t, q).Present? && Lookup(t, q).flags == USERFLAGS
       else Lookup(t, q) == Lookup(s, q)
  }

  /** Free frames have become page tables or the data of pages [start, p). */
  ghost predicate OwnersGrown(o: map<int, Owner>, o': map<int, Owner>, start: nat, p: nat) {
    && o'.Keys == o.Keys
    && (forall f :: f in o ==>
         o'[f] == o[f] || (o[f] == Pool && (o'[f].Table? || (o'[f].Data? && start <= o'[f].page < p))))
  }

  ghost predicate NoData(o: map<int, Owner>, start: nat, end: nat) {
    forall f :: f in o && o[f].Data? ==> o[f].page < start || o[f].page >= end
  }

  lemma ClearNoData(s: Space, root: int, owner: map<int, Owner>, start: nat, end: nat)
    requires Kept(s, root, owner) && Clear(s, start, end)
    ensures NoData(owner, start, end)
  {
    OpenKept(s, root, owner);
  }

  lemma GrownSame(s: Space, t: Space, u: Space, start: nat, p: nat)
    requires Grown(s, t, start, p) && SameMaps(t, u)
    ensures Grown(s, u, start, p)
  {
    forall q: nat
      ensures if start <= q < p then Lookup(u, q).Present? && Lookup(u, q).flags == USERFLAGS
        else Lookup(u, q) == Lookup(s, q)
    {
      assert Lookup(u, q) == Lookup(t, q);
    }
  }

  lemma GrownClear(s: Space, t: Space, start: nat, p: nat, end: nat)
    requires Grown(s, t, start, p) && Clear(s, start, end) && start <= p < end
    ensures Unmapped(t, p)
  {
  }

  lemma GrownMore(s: Space, t: Space, u: Space, start: nat, p: nat, f: int)
    requires Grown(s, t, start, p) && start <= p && Mapped(t, u, p, Present(f, USERFLAGS))
    ensures Grown(s, u, start, p + 1)
  {
    forall q: nat
      ensures if start <= q < p + 1 then Lookup(u, q).Present? && Lookup(u, q).flags == USERFLAGS
        else Lookup(u, q) == Lookup(s, q)
    {
      assert Lookup(u, q) == if q == p then Present(f, USERFLAGS) else Lookup(t, q);
    }
  }

  lemma OwnersMore(o0: map<int, Owner>, o: map<int, Owner>, o': map<int, Owner>, start: nat, p: nat, mem: int)
    requires OwnersGrown(o0, o, start, p) && start <= p && mem in o && o[mem] == Pool
    requires OnlyTables(o[mem := Held][mem := Data(p)], o')
    ensures OwnersGrown(o0, o', start, p + 1)
  {
    assert o[mem := Held][mem := Data(p)].Keys == o.Keys;
  }

  lemma RollbackStep(s0: Space, s: Space, root: int, owner: map<int, Owner>, start: nat, p: nat, end: nat)
    requires Kept(s, root, owner) && Grown(s0, s, start, p) && Clear(s0, start, end) && start <= p < end <= USERPAGES
    ensures SameMaps(s0, Walk(s, start, end))
  {
    OpenKept(s, root, owner);
    WalkKeeps(s, root, owner, start, end);
    forall q: nat ensures Lookup(Walk(s, start, end), q) == Lookup(s0, q) { }
  }

  lemma RolledOwners(o0: map<int, Owner>, o: map<int, Owner>, start: nat, p: nat, end: nat)
    requires OwnersGrown(o0, o, start, p) && p <= end && NoData(o0, start, end)
    ensures OnlyTables(o0, OwnersAfter(o, start, end))
  {
    assert OwnersAfter(o, start, end).Keys == o0.Keys;
  }

  lemma RolledHeld(o0: map<int, Owner>, o: map<int, Owner>, start: nat, p: nat, end: nat, mem: int)
    requires OwnersGrown(o0, o, start, p) && p <= end && mem in o && o[mem] == Pool
    requires NoData(o0, start, end)
    ensures OnlyTables(o0, OwnersAfter(o[mem := Held], start, end)[mem := Pool])
  {
    var u := OwnersAfter(o[mem := Held], start, end)[mem := Pool];
    assert u.Keys == o0.Keys;
  }

  lemma WholeStep(s: Space, root: int, owner: map<int, Owner>)
    requires Kept(s, root, owner)
    ensures forall f :: f in owner && owner[f].Data? ==> owner[f].page < PagesUp(KERNBASE)
  {
    OpenKept(s, root, owner);
  }
}
