/** What each elementary change of slab.c does to the invariants. */
module SlabSteps {
  import opened Counting
  import opened SlabSpec

  ghost function Ref(who: Owner): set<Owner> { if who.User? then {} else {who} }

  // ----- pop_free_list -----

  function Popped(pg: Page): Page
    requires pg.free != []
  {
    pg.(inUse := pg.inUse + 1, free := pg.free[1..])
  }

  lemma PopPage(p: int, pg: Page)
    requires PageOk(p, pg) && pg.free != []
    ensures PageOk(p, Popped(pg)) && pg.free[0] !in Popped(pg).free
    ensures PageOf(pg.free[0]) == p && Slot(p, pg.idx, pg.free[0])
    ensures forall x :: x in pg.free <==> x == pg.free[0] || x in Popped(pg).free
  {
    assert pg.free == [pg.free[0]] + pg.free[1..];
    SlotInPage(p, pg.idx, pg.free[0]);
  }

  lemma PopOwners(pages: Pages, owner: Owners, p: int, who: Owner)
    requires PagesOk(pages) && OwnersOk(pages, owner) && p in pages && pages[p].free != []
    ensures var x := pages[p].free[0];
            x !in owner && OwnersOk(pages[p := Popped(pages[p])], owner[x := who])
  {
    var x := pages[p].free[0];
    var q := pages[p := Popped(pages[p])];
    PopPage(p, pages[p]);
    assert !IsLive(pages, x);
    forall y ensures y in owner[x := who] <==> IsLive(q, y) {
      assert y in owner <==> IsLive(pages, y);
    }
  }

  lemma PopLists(lists: seq<seq<int>>, pages: Pages, p: int)
    requires ListsOk(lists, pages) && p in pages && pages[p].free != []
    ensures ListsOk(lists, pages[p := Popped(pages[p])])
  {
  }

  ghost predicate NewRef(pages: Pages, unhashed: set<int>, homeless: set<Owner>, who: Owner) {
    && who !in homeless
    && (who.NodeOf? ==> who.page in unhashed)
    && (who.DescOf? ==> who.page !in pages)
  }

  lemma PopDescs(pages: Pages, owner: Owners, unhashed: set<int>, homeless: set<Owner>, p: int, x: int, who: Owner)
    requires DescsOk(pages, owner, homeless) && p in pages && pages[p].free != [] && x !in owner
    requires NewRef(pages, unhashed, homeless, who)
    ensures DescsOk(pages[p := Popped(pages[p])], owner[x := who], homeless + Ref(who))
  {
  }

  lemma PopHash(base: nat, hash: seq<seq<HNode>>, pages: Pages, owner: Owners, unhashed: set<int>, homeless: set<Owner>,
                p: int, x: int, who: Owner)
    requires HashOk(base, hash, pages, owner, unhashed, homeless) && p in pages && pages[p].free != [] && x !in owner
    requires NewRef(pages, unhashed, homeless, who)
    ensures HashOk(base, hash, pages[p := Popped(pages[p])], owner[x := who], unhashed, homeless + Ref(who))
  {
    var q := pages[p := Popped(pages[p])];
    forall h | 0 <= h < HASH_SIZE ensures ChainOk(base, h, hash[h], q, owner[x := who], unhashed) {
      assert ChainOk(base, h, hash[h], pages, owner, unhashed);
    }
  }

  lemma PopKeeps(base: nat, lists: seq<seq<int>>, pages: Pages, hash: seq<seq<HNode>>, owner: Owners,
                 unhashed: set<int>, homeless: set<Owner>, p: int, who: Owner)
    requires Inv(base, lists, pages, hash, owner, unhashed, homeless) && p in pages && pages[p].free != []
    requires NewRef(pages, unhashed, homeless, who)
    ensures var x := pages[p].free[0];
            x !in owner
              && Inv(base, lists, pages[p := Popped(pages[p])], hash, owner[x := who], unhashed, homeless + Ref(who))
  {
    var x := pages[p].free[0];
    PopOwners(pages, owner, p, who);
    PopPage(p, pages[p]);
    PopLists(lists, pages, p);
    PopDescs(pages, owner, unhashed, homeless, p, x, who);
    PopHash(base, hash, pages, owner, unhashed, homeless, p, x, who);
  }

  // ----- push_free_list -----

  function Pushed(pg: Page, x: int): Page { pg.(inUse := pg.inUse - 1, free := pg.free + [x]) }

  lemma PushPage(p: int, pg: Page, x: int)
    requires PageOk(p, pg) && Slot(p, pg.idx, x) && x !in pg.free
    ensures PageOk(p, Pushed(pg, x))
    ensures forall y :: y in Pushed(pg, x).free <==> y in pg.free || y == x
  {
    InUseCounts(p, pg, x);
    var s := pg.free + [x];
    forall i, j | 0 <= i < j < |s| ensures s[i] != s[j] {
      if j == |pg.free| { assert pg.free[i] in pg.free; }
    }
    forall i | 0 <= i < |s| ensures Slot(p, pg.idx, s[i]) { }
  }

  lemma PushOwners(pages: Pages, owner: Owners, x: int)
    requires PagesOk(pages) && OwnersOk(pages, owner) && x in owner
    ensures var p := PageOf(x);
            IsLive(pages, x) && OwnersOk(pages[p := Pushed(pages[p], x)], owner - {x})
  {
    var p := PageOf(x);
    assert IsLive(pages, x);
    PushPage(p, pages[p], x);
    var q := pages[p := Pushed(pages[p], x)];
    forall y ensures y in owner - {x} <==> IsLive(q, y) {
      assert y in owner <==> IsLive(pages, y);
    }
  }

  /** An object on its way out: a user's, or a descriptor or node nobody refers to any more. */
  ghost predicate Loose(homeless: set<Owner>, who: Owner) { who.User? || who in homeless }

  lemma PushKeeps(base: nat, lists: seq<seq<int>>, pages: Pages, hash: seq<seq<HNode>>, owner: Owners,
                  unhashed: set<int>, homeless: set<Owner>, x: int)
    requires Inv(base, lists, pages, hash, owner, unhashed, homeless) && x in owner && Loose(homeless, owner[x])
    requires owner[x].DescOf? ==> owner[x].page !in pages
    requires owner[x].NodeOf? ==> owner[x].page !in pages || owner[x].page in unhashed
    ensures var p := PageOf(x);
            IsLive(pages, x) && Inv(base, lists, pages[p := Pushed(pages[p], x)], hash, owner - {x}, unhashed,
              homeless - Ref(owner[x]))
  {
    var p := PageOf(x);
    PushOwners(pages, owner, x);
    PushPage(p, pages[p], x);
    var q := pages[p := Pushed(pages[p], x)];
    assert ListsOk(lists, q);
    PushDescs(pages, owner, homeless, x);
    PushHash(base, hash, pages, owner, unhashed, homeless, x);
  }

  lemma PushDescs(pages: Pages, owner: Owners, homeless: set<Owner>, x: int)
    requires DescsOk(pages, owner, homeless) && x in owner && PageOf(x) in pages
    requires owner[x].DescOf? ==> owner[x].page !in pages
    requires Loose(homeless, owner[x])
    ensures DescsOk(pages[PageOf(x) := Pushed(pages[PageOf(x)], x)], owner - {x}, homeless - Ref(owner[x]))
  {
    var q := pages[PageOf(x) := Pushed(pages[PageOf(x)], x)];
    var o := owner - {x};
    forall y | y in o && o[y].DescOf? && o[y] !in homeless - Ref(owner[x])
      ensures o[y].page in q && q[o[y].page].desc == y
    {
      assert owner[y] == o[y];
    }
  }

  lemma PushHash(base: nat, hash: seq<seq<HNode>>, pages: Pages, owner: Owners, unhashed: set<int>,
                 homeless: set<Owner>, x: int)
    requires HashOk(base, hash, pages, owner, unhashed, homeless) && x in owner && PageOf(x) in pages
    requires Loose(homeless, owner[x])
    requires owner[x].NodeOf? ==> owner[x].page !in pages || owner[x].page in unhashed
    ensures HashOk(base, hash, pages[PageOf(x) := Pushed(pages[PageOf(x)], x)], owner - {x}, unhashed,
      homeless - Ref(owner[x]))
  {
    var q := pages[PageOf(x) := Pushed(pages[PageOf(x)], x)];
    var o := owner - {x};
    forall h | 0 <= h < HASH_SIZE ensures ChainOk(base, h, hash[h], q, o, unhashed) {
      assert ChainOk(base, h, hash[h], pages, owner, unhashed);
    }
  }

  // ----- a fresh page: make_slab_obj -----

  /** The slots of page p from number `from` on, in order. */
  function FreeSlots(p: int, idx: nat, from: nat): (r: seq<int>)
    requires idx < SLAB_NUM && from <= Slots(idx)
    ensures |r| == Slots(idx) - from
  {
    seq(Slots(idx) - from, k => p + (k + from) * ObjSize(idx))
  }

  /** A page just carved, its first `from` slots already taken. */
  function Fresh(p: int, idx: nat, from: nat, desc: int): Page
    requires idx < SLAB_NUM && from <= Slots(idx)
  {
    Page(idx, from, FreeSlots(p, idx, from), desc)
  }

  lemma SlotNumber(p: int, idx: nat, k: int)
    requires idx < SLAB_NUM && 0 <= k < Slots(idx)
    ensures Slot(p, idx, p + k * ObjSize(idx))
  {
    var sz := ObjSize(idx);
    SlotsExact(idx);
    assert k * sz <= (Slots(idx) - 1) * sz;
    assert (k * sz) % sz == 0;
  }

  lemma TimesLess(n: int, m: int, sz: int)
    requires n < m && sz > 0
    ensures n * sz + sz <= m * sz
  {
    assert (n + 1) * sz <= m * sz;
  }

  lemma FreeSlotsExact(p: int, idx: nat, from: nat, x: int)
    requires idx < SLAB_NUM && from <= Slots(idx)
    ensures x in FreeSlots(p, idx, from) <==> Slot(p, idx, x) && x >= p + from * ObjSize(idx)
  {
    if x in FreeSlots(p, idx, from) {
      var k :| 0 <= k < Slots(idx) - from && FreeSlots(p, idx, from)[k] == x;
      SlotNumber(p, idx, k + from);
      TimesLess(from, k + from + 1, ObjSize(idx));
    }
    if Slot(p, idx, x) && x >= p + from * ObjSize(idx) { SlotIsFree(p, idx, from, x); }
  }

  lemma SlotIsFree(p: int, idx: nat, from: nat, x: int)
    requires idx < SLAB_NUM && from <= Slots(idx) && Slot(p, idx, x) && x >= p + from * ObjSize(idx)
    ensures x in FreeSlots(p, idx, from)
  {
    var sz := ObjSize(idx);
    var n := (x - p) / sz;
    SlotIndex(x - p, idx);
    assert x == p + n * sz;
    if n < from { TimesLess(n, from, sz); }
    assert FreeSlots(p, idx, from)[n - from] == x;
  }

  lemma FreshPageOk(p: int, idx: nat, from: nat, desc: int)
    requires idx < SLAB_NUM && from <= Slots(idx) && p % PGSIZE == 0
    ensures PageOk(p, Fresh(p, idx, from, desc))
  {
    var s := FreeSlots(p, idx, from);
    var sz := ObjSize(idx);
    forall i, j | 0 <= i < j < |s| ensures s[i] != s[j] {
      assert (j - i) * sz >= sz;
      assert s[j] - s[i] == (j - i) * sz;
    }
    forall i | 0 <= i < |s| ensures Slot(p, idx, s[i]) { SlotNumber(p, idx, i + from); }
  }

  // ----- insert_slab_page at the head -----

  /** The owners after linking p: with from = 1 its first slot holds its own descriptor. */
  function OwnDesc(owner: Owners, p: int, from: nat): Owners {
    if from == 1 then owner[p := DescOf(p)] else owner
  }

  lemma LinkOwners(pages: Pages, owner: Owners, p: int, idx: nat, from: nat, desc: int)
    requires OwnersOk(pages, owner) && p !in pages && p % PGSIZE == 0 && idx < SLAB_NUM && from <= 1
    ensures p !in owner
    ensures OwnersOk(pages[p := Fresh(p, idx, from, desc)], OwnDesc(owner, p, from))
  {
    var q := pages[p := Fresh(p, idx, from, desc)];
    assert !IsLive(pages, p);
    forall x ensures x in OwnDesc(owner, p, from) <==> IsLive(q, x) {
      assert x in owner <==> IsLive(pages, x);
      FreeSlotsExact(p, idx, from, x);
      if PageOf(x) == p {
        if from == 1 && Slot(p, idx, x) && x < p + ObjSize(idx) { assert (x - p) / ObjSize(idx) == 0; }
      }
    }
  }

  lemma LinkLists(lists: seq<seq<int>>, pages: Pages, p: int, pg: Page)
    requires ListsOk(lists, pages) && p !in pages && pg.idx < SLAB_NUM
    ensures ListsOk(lists[pg.idx := [p] + lists[pg.idx]], pages[p := pg])
  {
    var i := pg.idx;
    assert p !in lists[i];
    var s := [p] + lists[i];
    forall j, k | 0 <= j < k < |s| ensures s[j] != s[k] {
      assert s[k] == lists[i][k - 1];
      if j > 0 { assert s[j] == lists[i][j - 1]; }
    }
    assert forall x :: x in s <==> x == p || x in lists[i];
  }

  lemma LinkHash(base: nat, hash: seq<seq<HNode>>, pages: Pages, owner: Owners, unhashed: set<int>,
                 homeless: set<Owner>, p: int, pg: Page, owner': Owners)
    requires HashOk(base, hash, pages, owner, unhashed, homeless) && p !in pages
    requires owner' == owner || (p !in owner && owner' == owner[p := DescOf(p)])
    ensures HashOk(base, hash, pages[p := pg], owner', unhashed + {p}, homeless)
    ensures HashOk(base, hash, pages[p := pg], owner', unhashed + {p}, homeless - {DescOf(p)})
  {
    forall h | 0 <= h < HASH_SIZE ensures ChainOk(base, h, hash[h], pages[p := pg], owner', unhashed + {p}) {
      assert ChainOk(base, h, hash[h], pages, owner, unhashed);
    }
    forall x | x in owner' && owner'[x].NodeOf? && owner'[x] !in homeless - {DescOf(p)}
      ensures owner'[x].page in pages[p := pg] && owner'[x].page !in unhashed + {p}
    {
      assert owner[x] == owner'[x];
    }
  }

  /** A new page joins the head of its list; its descriptor is either a homeless object or its own
      first slot. */
  lemma LinkKeeps(base: nat, lists: seq<seq<int>>, pages: Pages, hash: seq<seq<HNode>>, owner: Owners,
                  unhashed: set<int>, homeless: set<Owner>, p: int, idx: nat, from: nat, desc: int)
    requires Inv(base, lists, pages, hash, owner, unhashed, homeless)
    requires p !in pages && p % PGSIZE == 0 && idx < SLAB_NUM && from <= 1
    requires if from == 1 then desc == p && DescOf(p) !in homeless
      else desc != STATIC && desc in owner && owner[desc] == DescOf(p)
    ensures Inv(base, lists[idx := [p] + lists[idx]], pages[p := Fresh(p, idx, from, desc)], hash,
      OwnDesc(owner, p, from), unhashed + {p}, homeless - {DescOf(p)})
  {
    LinkOwners(pages, owner, p, idx, from, desc);
    FreshPageOk(p, idx, from, desc);
    LinkLists(lists, pages, p, Fresh(p, idx, from, desc));
    LinkHash(base, hash, pages, owner, unhashed, homeless, p, Fresh(p, idx, from, desc), OwnDesc(owner, p, from));
    LinkDescs(pages, owner, homeless, p, Fresh(p, idx, from, desc), OwnDesc(owner, p, from));
  }

  lemma LinkDescs(pages: Pages, owner: Owners, homeless: set<Owner>, p: int, pg: Page, owner': Owners)
    requires DescsOk(pages, owner, homeless) && p !in pages && pg.desc != STATIC
    requires || (owner' == owner && pg.desc in owner && owner[pg.desc] == DescOf(p))
             || (p !in owner && owner' == owner[p := DescOf(p)] && pg.desc == p && DescOf(p) !in homeless)
    ensures DescsOk(pages[p := pg], owner', homeless - {DescOf(p)})
  {
  }

  // ----- the hash table -----

  lemma HashAddKeeps(base: nat, hash: seq<seq<HNode>>, pages: Pages, owner: Owners, unhashed: set<int>,
                     homeless: set<Owner>, p: int, n: int)
    requires HashOk(base, hash, pages, owner, unhashed, homeless) && p in pages && p in unhashed
    requires n in owner && owner[n] == NodeOf(p)
    ensures var h := HashIdx(base, p);
            HashOk(base, hash[h := hash[h] + [HNode(n, p, pages[p].idx)]], pages, owner, unhashed - {p},
              homeless - {NodeOf(p)})
  {
    var h := HashIdx(base, p);
    var c := hash[h] + [HNode(n, p, pages[p].idx)];
    var hs := hash[h := c];
    forall j | 0 <= j < HASH_SIZE ensures ChainOk(base, j, hs[j], pages, owner, unhashed - {p}) {
      assert ChainOk(base, j, hash[j], pages, owner, unhashed);
    }
    forall q | q in pages && q !in unhashed - {p} ensures Holds(hs[HashIdx(base, q)], q) {
      if q == p {
        assert c[|c| - 1].page == p;
      } else {
        assert Holds(hash[HashIdx(base, q)], q);
        var k :| 0 <= k < |hash[HashIdx(base, q)]| && hash[HashIdx(base, q)][k].page == q;
        assert hs[HashIdx(base, q)][k].page == q;
      }
    }
  }

  lemma HashRemoveKeeps(base: nat, hash: seq<seq<HNode>>, pages: Pages, owner: Owners, unhashed: set<int>,
                        homeless: set<Owner>, h: nat, k: nat)
    requires HashOk(base, hash, pages, owner, unhashed, homeless) && h < HASH_SIZE && k < |hash[h]|
    ensures var nd := hash[h][k];
            HashOk(base, hash[h := hash[h][..k] + hash[h][k + 1..]], pages, owner, unhashed + {nd.page},
              homeless + {NodeOf(nd.page)})
  {
    var nd := hash[h][k];
    var c := hash[h][..k] + hash[h][k + 1..];
    var hs := hash[h := c];
    assert forall j :: 0 <= j < |c| ==> c[j] == hash[h][if j < k then j else j + 1];
    forall j | 0 <= j < HASH_SIZE ensures ChainOk(base, j, hs[j], pages, owner, unhashed + {nd.page}) {
      assert ChainOk(base, j, hash[j], pages, owner, unhashed);
      assert ChainOk(base, h, hash[h], pages, owner, unhashed);
      if j != h {
        forall i | 0 <= i < |hash[j]| ensures hash[j][i].page != nd.page { }
      }
    }
    forall q | q in pages && q !in unhashed + {nd.page} ensures Holds(hs[HashIdx(base, q)], q) {
      assert Holds(hash[HashIdx(base, q)], q);
      var j :| 0 <= j < |hash[HashIdx(base, q)]| && hash[HashIdx(base, q)][j].page == q;
      if HashIdx(base, q) == h {
        assert c[if j < k then j else j - 1].page == q;
      } else {
        assert hs[HashIdx(base, q)][j].page == q;
      }
    }
  }

  // ----- return_slab_page -----

  lemma UnlinkOwners(pages: Pages, owner: Owners, p: int)
    requires PagesOk(pages) && OwnersOk(pages, owner) && p in pages && pages[p].inUse == 0
    ensures OwnersOk(pages - {p}, owner)
    ensures forall x :: x in owner ==> PageOf(x) != p
  {
    forall x ensures x in owner <==> IsLive(pages - {p}, x) {
      assert x in owner <==> IsLive(pages, x);
      if PageOf(x) == p && Slot(p, pages[p].idx, x) { InUseCounts(p, pages[p], x); }
    }
    forall x | x in owner ensures PageOf(x) != p {
      assert IsLive(pages - {p}, x);
    }
  }

  function Without(s: seq<int>, p: int): (r: seq<int>)
    decreases |s|
  {
    if s == [] then [] else if s[0] == p then s[1..] else [s[0]] + Without(s[1..], p)
  }

  lemma {:induction false} WithoutExact(s: seq<int>, p: int)
    requires NoRepeats(s)
    ensures NoRepeats(Without(s, p)) && forall x :: x in Without(s, p) <==> x in s && x != p
    decreases |s|
  {
    if s != [] {
      WithoutExact(s[1..], p);
      assert s == [s[0]] + s[1..];
      if s[0] != p {
        var r := Without(s[1..], p);
        forall i, j | 0 <= i < j < |[s[0]] + r| ensures ([s[0]] + r)[i] != ([s[0]] + r)[j] {
          assert r[j - 1] in r;
        }
      }
    }
  }

  lemma UnlinkKeeps(base: nat, lists: seq<seq<int>>, pages: Pages, hash: seq<seq<HNode>>, owner: Owners,
                    unhashed: set<int>, homeless: set<Owner>, p: int)
    requires Inv(base, lists, pages, hash, owner, unhashed, homeless)
    requires p in pages && pages[p].inUse == 0 && p in unhashed
    requires exists q :: q in pages && q != p && pages[q].idx == pages[p].idx
    ensures var i := pages[p].idx;
            i < SLAB_NUM && Inv(base, lists[i := Without(lists[i], p)], pages - {p}, hash, owner, unhashed - {p},
              homeless + {DescOf(p)})
  {
    var i := pages[p].idx;
    assert PageOk(p, pages[p]);
    UnlinkOwners(pages, owner, p);
    UnlinkLists(lists, pages, p);
    UnlinkDescs(pages, owner, homeless, p);
    UnlinkHash(base, hash, pages, owner, unhashed, homeless, p);
  }

  lemma UnlinkLists(lists: seq<seq<int>>, pages: Pages, p: int)
    requires ListsOk(lists, pages) && p in pages && pages[p].idx < SLAB_NUM
    requires exists q :: q in pages && q != p && pages[q].idx == pages[p].idx
    ensures ListsOk(lists[pages[p].idx := Without(lists[pages[p].idx], p)], pages - {p})
  {
    var i := pages[p].idx;
    WithoutExact(lists[i], p);
    var q :| q in pages && q != p && pages[q].idx == i;
    assert q in Without(lists[i], p);
  }

  lemma UnlinkDescs(pages: Pages, owner: Owners, homeless: set<Owner>, p: int)
    requires DescsOk(pages, owner, homeless)
    ensures DescsOk(pages - {p}, owner, homeless + {DescOf(p)})
  {
  }

  lemma UnlinkHash(base: nat, hash: seq<seq<HNode>>, pages: Pages, owner: Owners, unhashed: set<int>,
                   homeless: set<Owner>, p: int)
    requires HashOk(base, hash, pages, owner, unhashed, homeless) && p in unhashed
    ensures HashOk(base, hash, pages - {p}, owner, unhashed - {p}, homeless + {DescOf(p)})
  {
    forall h | 0 <= h < HASH_SIZE ensures ChainOk(base, h, hash[h], pages - {p}, owner, unhashed - {p}) {
      assert ChainOk(base, h, hash[h], pages, owner, unhashed);
    }
  }

  // ----- load_next_slab_page -----

  lemma RotateLists(lists: seq<seq<int>>, pages: Pages, i: nat)
    requires ListsOk(lists, pages) && i < SLAB_NUM
    ensures ListsOk(lists[i := lists[i][1..] + [lists[i][0]]], pages)
  {
    var s := lists[i];
    var r := s[1..] + [s[0]];
    assert s == [s[0]] + s[1..];
    forall j, k | 0 <= j < k < |r| ensures r[j] != r[k] {
      assert r[j] == s[j + 1];
      assert r[k] == if k + 1 < |s| then s[k + 1] else s[0];
    }
    assert forall x :: x in r <==> x in s;
  }

  // ----- the same steps on the closed invariant -----

  lemma PopSealed(base: nat, lists: seq<seq<int>>, pages: Pages, hash: seq<seq<HNode>>, owner: Owners,
                  unhashed: set<int>, homeless: set<Owner>, p: int, who: Owner)
    requires Sealed(base, lists, pages, hash, owner, unhashed, homeless) && p in pages && pages[p].free != []
    requires NewRef(pages, unhashed, homeless, who)
    ensures var x := pages[p].free[0];
            && x !in owner && pages[p].idx < SLAB_NUM && pages[p].inUse >= 0
            && PageOf(x) == p && x != STATIC
            && Sealed(base, lists, pages[p := Popped(pages[p])], hash, owner[x := who], unhashed, homeless + Ref(who))
  {
    Unseal(base, lists, pages, hash, owner, unhashed, homeless);
    PopKeeps(base, lists, pages, hash, owner, unhashed, homeless, p, who);
    PopPage(p, pages[p]);
    SlotNotStatic(p, pages[p].idx, pages[p].free[0]);
    Unseal(base, lists, pages[p := Popped(pages[p])], hash, owner[pages[p].free[0] := who], unhashed,
      homeless + Ref(who));
  }

  lemma LinkSealed(base: nat, lists: seq<seq<int>>, pages: Pages, hash: seq<seq<HNode>>, owner: Owners,
                   unhashed: set<int>, homeless: set<Owner>, p: int, idx: nat, from: nat, desc: int)
    requires Sealed(base, lists, pages, hash, owner, unhashed, homeless)
    requires p !in pages && p % PGSIZE == 0 && idx < SLAB_NUM && from <= 1
    requires if from == 1 then desc == p && DescOf(p) !in homeless
      else desc != STATIC && desc in owner && owner[desc] == DescOf(p)
    ensures p !in owner && |lists| == SLAB_NUM
    ensures Sealed(base, lists[idx := [p] + lists[idx]], pages[p := Fresh(p, idx, from, desc)], hash,
      OwnDesc(owner, p, from), unhashed + {p}, homeless - {DescOf(p)})
  {
    Unseal(base, lists, pages, hash, owner, unhashed, homeless);
    LinkKeeps(base, lists, pages, hash, owner, unhashed, homeless, p, idx, from, desc);
    LinkOwners(pages, owner, p, idx, from, desc);
    Unseal(base, lists[idx := [p] + lists[idx]], pages[p := Fresh(p, idx, from, desc)], hash, OwnDesc(owner, p, from),
           unhashed + {p}, homeless - {DescOf(p)});
  }

  lemma HashAddSealed(base: nat, lists: seq<seq<int>>, pages: Pages, hash: seq<seq<HNode>>, owner: Owners,
                      unhashed: set<int>, homeless: set<Owner>, p: int, n: int)
    requires Sealed(base, lists, pages, hash, owner, unhashed, homeless)
    requires p in pages && p in unhashed && n in owner && owner[n] == NodeOf(p)
    ensures var h := HashIdx(base, p);
            && |hash| == HASH_SIZE
            && Sealed(base, lists, pages, hash[h := hash[h] + [HNode(n, p, pages[p].idx)]], owner, unhashed - {p},
               homeless - {NodeOf(p)})
  {
    Unseal(base, lists, pages, hash, owner, unhashed, homeless);
    HashAddKeeps(base, hash, pages, owner, unhashed, homeless, p, n);
    var h := HashIdx(base, p);
    assert DescsOk(pages, owner, homeless - {NodeOf(p)});
    Unseal(base, lists, pages, hash[h := hash[h] + [HNode(n, p, pages[p].idx)]], owner, unhashed - {p},
      homeless - {NodeOf(p)});
  }

  lemma RotateSealed(base: nat, lists: seq<seq<int>>, pages: Pages, hash: seq<seq<HNode>>, owner: Owners,
                     unhashed: set<int>, homeless: set<Owner>, i: nat)
    requires Sealed(base, lists, pages, hash, owner, unhashed, homeless) && i < SLAB_NUM
    ensures |lists| == SLAB_NUM && lists[i] != []
    ensures Sealed(base, lists[i := lists[i][1..] + [lists[i][0]]], pages, hash, owner, unhashed, homeless)
  {
    Unseal(base, lists, pages, hash, owner, unhashed, homeless);
    RotateLists(lists, pages, i);
    Unseal(base, lists[i := lists[i][1..] + [lists[i][0]]], pages, hash, owner, unhashed, homeless);
  }
}
