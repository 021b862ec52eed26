/** Two-level page tables of one process over the frames of kalloc (vm.c:32-80, vm.c:219-298). */
module Vm {
  import opened Counting

  const PGSIZE := 4096
  const NPDENTRIES := 1024
  const NPTENTRIES := 1024
  const KERNBASE := 0x8000_0000
  const USERPAGES := KERNBASE / PGSIZE
  const ALLPAGES := NPDENTRIES * NPTENTRIES

  /** A page table entry; flags are those beside PTE_P. */
  datatype Pte = Absent | Present(frame: int, flags: nat)

  /** The directory, 0 for an absent table; the tables by their frame; kalloc's free frames. */
  datatype Space = Space(dir: seq<int>, tabs: map<int, seq<Pte>>, pool: seq<int>)

  /** The one use of a frame; Held is a frame just taken and not yet mapped. */
  datatype Owner = Pool | Root | Table(d: nat) | Data(page: nat) | Held

  function Pdx(page: nat): nat { page / NPTENTRIES }
  function Ptx(page: nat): (r: nat)
    ensures r < NPTENTRIES
  {
    page % NPTENTRIES
  }

  ghost predicate TabsOk(s: Space) {
    && |s.dir| == NPDENTRIES
    && forall d :: 0 <= d < NPDENTRIES && s.dir[d] != 0 ==> s.dir[d] in s.tabs && |s.tabs[s.dir[d]]| == NPTENTRIES
  }

  /** The mapping of a page, as walkpgdir without allocation finds it. */
  ghost function Lookup(s: Space, page: nat): Pte
    requires TabsOk(s)
  {
    if page >= ALLPAGES || s.dir[Pdx(page)] == 0 then Absent else s.tabs[s.dir[Pdx(page)]][Ptx(page)]
  }

  /** Every frame has one use: free, the directory, one page table, or one user page. */
  ghost predicate FramesOk(s: Space, root: int, owner: map<int, Owner>) {
    && TabsOk(s) && NoRepeats(s.pool)
    && root in owner && (forall f :: f in owner ==> (owner[f] == Root <==> f == root))
    && (forall f :: f in owner ==> f != 0)
    && (forall f :: f in s.pool <==> f in owner && owner[f] == Pool)
    && (forall d :: 0 <= d < NPDENTRIES && s.dir[d] != 0 ==> s.dir[d] in owner && owner[s.dir[d]] == Table(d))
    && (forall f :: f in owner && owner[f].Table? ==> owner[f].d < NPDENTRIES && s.dir[owner[f].d] == f)
    && (forall p :: 0 <= p < USERPAGES && Lookup(s, p).Present? ==>
         Lookup(s, p).frame in owner && owner[Lookup(s, p).frame] == Data(p))
    && (forall f :: f in owner && owner[f].Data? ==>
         owner[f].page < USERPAGES && Lookup(s, owner[f].page).Present? && Lookup(s, owner[f].page).frame == f)
  }

  // ----- one page -----

  function WithPte(s: Space, page: nat, pte: Pte): Space
    requires Pdx(page) < |s.dir| && s.dir[Pdx(page)] in s.tabs && |s.tabs[s.dir[Pdx(page)]]| == NPTENTRIES
  {
    var t := s.dir[Pdx(page)];
    s.(tabs := s.tabs[t := s.tabs[t][Ptx(page) := pte]])
  }

  lemma PageParts(p: nat, q: nat)
    requires Pdx(p) == Pdx(q) && Ptx(p) == Ptx(q)
    ensures p == q
  {
  }

  /** Setting an entry changes that page's mapping alone, as no two tables share a frame. */
  lemma WithPteLookup(s: Space, root: int, owner: map<int, Owner>, page: nat, pte: Pte, q: nat)
    requires FramesOk(s, root, owner) && page < ALLPAGES && s.dir[Pdx(page)] != 0
    ensures TabsOk(WithPte(s, page, pte)) && Lookup(WithPte(s, page, pte), q) == if q == page then pte else Lookup(s, q)
  {
    if q < ALLPAGES && s.dir[Pdx(q)] == s.dir[Pdx(page)] && s.dir[Pdx(q)] != 0 {
      assert owner[s.dir[Pdx(q)]] == Table(Pdx(q));
      if Ptx(q) == Ptx(page) { PageParts(page, q); }
    }
  }

  /** kfree of a user page's frame, and its entry cleared. */
  ghost function Release(s: Space, page: nat): Space
    requires TabsOk(s)
  {
    if Lookup(s, page).Present? then WithPte(s, page, Absent).(pool := [Lookup(s, page).frame] + s.pool) else s
  }

  lemma ReleaseKeeps(s: Space, root: int, owner: map<int, Owner>, page: nat)
    requires FramesOk(s, root, owner) && page < USERPAGES
    ensures TabsOk(Release(s, page)) && Release(s, page).dir == s.dir
    ensures Lookup(s, page).Present? ==> Lookup(s, page).frame in owner
    ensures Lookup(s, page).Present? ==> FramesOk(Release(s, page), root, owner[Lookup(s, page).frame := Pool])
    ensures forall q: nat :: Lookup(Release(s, page), q) == if q == page then Absent else Lookup(s, q)
  {
    var t := Release(s, page);
    if Lookup(s, page).Present? {
      var f := Lookup(s, page).frame;
      forall q: nat ensures TabsOk(t) && Lookup(t, q) == if q == page then Absent else Lookup(s, q) {
        WithPteLookup(s, root, owner, page, Absent, q);
        assert Lookup(t, q) == Lookup(WithPte(s, page, Absent), q);
      }
      assert f !in s.pool;
      PushNew(s.pool, f);
    }
  }

  lemma PushNew(s: seq<int>, f: int)
    requires NoRepeats(s) && f !in s
    ensures NoRepeats([f] + s) && forall x :: x in [f] + s <==> x == f || x in s
  {
    var t := [f] + s;
    forall i, j | 0 <= i < j < |t| ensures t[i] != t[j] { assert t[j] == s[j - 1]; assert s[j - 1] in s; }
  }

  // ----- a page at a time -----

  /** Deallocation page by page, without looking ahead. */
  ghost function Walk(s: Space, p: nat, end: nat): Space
    requires TabsOk(s)
    decreases end - p
  {
    if p >= end then s
    else if TabsOk(Release(s, p)) then Walk(Release(s, p), p + 1, end)
    else s
  }

  /** The frames of pages [p, end) become free. */
  ghost function OwnersAfter(owner: map<int, Owner>, p: nat, end: nat): map<int, Owner> {
    map f | f in owner :: if owner[f].Data? && p <= owner[f].page < end then Pool else owner[f]
  }

  lemma OwnersNext(s: Space, root: int, owner: map<int, Owner>, p: nat, end: nat)
    requires FramesOk(s, root, owner) && p < end && p < USERPAGES
    ensures var o := if Lookup(s, p).Present? then owner[Lookup(s, p).frame := Pool] else owner;
            OwnersAfter(o, p + 1, end) == OwnersAfter(owner, p, end)
  {
    var o := if Lookup(s, p).Present? then owner[Lookup(s, p).frame := Pool] else owner;
    var u, v := OwnersAfter(o, p + 1, end), OwnersAfter(owner, p, end);
    assert u.Keys == v.Keys;
    forall f | f in owner ensures u[f] == v[f] { }
  }

  lemma {:induction false} WalkKeeps(s: Space, root: int, owner: map<int, Owner>, p: nat, end: nat)
    requires FramesOk(s, root, owner) && p <= end <= USERPAGES
    ensures TabsOk(Walk(s, p, end)) && Walk(s, p, end).dir == s.dir
    ensures FramesOk(Walk(s, p, end), root, OwnersAfter(owner, p, end))
    ensures forall q: nat :: Lookup(Walk(s, p, end), q) == if p <= q < end then Absent else Lookup(s, q)
    decreases end - p
  {
    if p < end {
      ReleaseKeeps(s, root, owner, p);
      var t := Release(s, p);
      var o := if Lookup(s, p).Present? then owner[Lookup(s, p).frame := Pool] else owner;
      WalkKeeps(t, root, o, p + 1, end);
      OwnersNext(s, root, owner, p, end);
    } else {
      assert OwnersAfter(owner, p, end) == owner;
    }
  }

  /** Pages of an absent table need no visit. */
  lemma {:induction false} WalkSkips(s: Space, p: nat, q: nat, end: nat)
    requires TabsOk(s) && p <= q <= end && forall r: nat :: p <= r < q ==> Lookup(s, r) == Absent
    ensures Walk(s, p, end) == Walk(s, q, end)
    decreases q - p
  {
    if p < q { WalkSkips(s, p + 1, q, end); }
  }

  // ----- taking frames -----

  lemma TakeKeeps(s: Space, root: int, owner: map<int, Owner>)
    requires FramesOk(s, root, owner) && s.pool != []
    ensures s.pool[0] in owner && owner[s.pool[0]] == Pool && s.pool[0] != 0
    ensures FramesOk(s.(pool := s.pool[1..]), root, owner[s.pool[0] := Held])
    ensures SameMaps(s, s.(pool := s.pool[1..]))
  {
    var f := s.pool[0];
    assert f in s.pool;
    var t := s.(pool := s.pool[1..]);
    forall g ensures g in t.pool <==> g in s.pool && g != f {
      assert s.pool == [f] + s.pool[1..];
      if g in t.pool { var k :| 0 <= k < |t.pool| && t.pool[k] == g; assert s.pool[k + 1] == g; }
    }
    forall q: nat ensures Lookup(t, q) == Lookup(s, q) { }
  }

  /** All mappings are the same. */
  ghost predicate SameMaps(s: Space, t: Space) {
    TabsOk(s) && TabsOk(t) && forall q: nat :: Lookup(t, q) == Lookup(s, q)
  }

  /** kfree of a frame that is held. */
  lemma GiveKeeps(s: Space, root: int, owner: map<int, Owner>, f: int)
    requires FramesOk(s, root, owner) && f in owner && owner[f] == Held
    ensures FramesOk(s.(pool := [f] + s.pool), root, owner[f := Pool]) && SameMaps(s, s.(pool := [f] + s.pool))
  {
    var t := s.(pool := [f] + s.pool);
    assert f !in s.pool;
    PushNew(s.pool, f);
    forall q: nat ensures Lookup(t, q) == Lookup(s, q) { }
  }

  function EmptyTable(): (r: seq<Pte>)
    ensures |r| == NPTENTRIES && forall k :: 0 <= k < NPTENTRIES ==> r[k] == Absent
  {
    seq(NPTENTRIES, _ => Absent)
  }

  /** walkpgdir's new table. */
  lemma TableKeeps(s: Space, root: int, owner: map<int, Owner>, d: nat, f: int)
    requires FramesOk(s, root, owner) && d < NPDENTRIES && s.dir[d] == 0 && f in owner && owner[f] == Held
    ensures var t := s.(dir := s.dir[d := f], tabs := s.tabs[f := EmptyTable()]);
            FramesOk(t, root, owner[f := Table(d)]) && SameMaps(s, t)
  {
    var t := s.(dir := s.dir[d := f], tabs := s.tabs[f := EmptyTable()]);
    forall e | 0 <= e < NPDENTRIES && s.dir[e] != 0 ensures s.dir[e] != f { }
    assert TabsOk(t);
    forall q: nat ensures Lookup(t, q) == Lookup(s, q) { }
  }

  lemma MapKeeps(s: Space, root: int, owner: map<int, Owner>, page: nat, f: int, flags: nat)
    requires FramesOk(s, root, owner) && page < USERPAGES && s.dir[Pdx(page)] != 0 && Lookup(s, page) == Absent
    requires f in owner && owner[f] == Held
    ensures var t := WithPte(s, page, Present(f, flags));
            && FramesOk(t, root, owner[f := Data(page)])
            && forall q: nat :: Lookup(t, q) == if q == page then Present(f, flags) else Lookup(s, q)
  {
    var t := WithPte(s, page, Present(f, flags));
    forall q: nat ensures TabsOk(t) && Lookup(t, q) == if q == page then Present(f, flags) else Lookup(s, q) {
      WithPteLookup(s, root, owner, page, Present(f, flags), q);
    }
  }

  // ----- rounding -----

  /** PGROUNDUP(sz) / PGSIZE */
  function PagesUp(sz: nat): nat { (sz + PGSIZE - 1) / PGSIZE }

  lemma AbsentTable(s: Space, p: nat, end: nat)
    requires TabsOk(s) && p < ALLPAGES && s.dir[Pdx(p)] == 0
    ensures forall r: nat :: p <= r < (Pdx(p) + 1) * NPTENTRIES ==> Lookup(s, r) == Absent
  {
    forall r: nat | p <= r < (Pdx(p) + 1) * NPTENTRIES ensures Lookup(s, r) == Absent {
      assert Pdx(r) == Pdx(p);
    }
  }
}
