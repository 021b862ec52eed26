/** The slab allocator on top of the buddy allocator (slab.c), and the two of them behind dmalloc
    and dfree (buddy.c:81-112, buddy.c:254-280). */
module Slab {
  import opened Counting
  import opened SlabSpec
  import opened SlabSteps
  import opened SlabRelations
  import opened SlabFree
  import Buddy
  import BuddyPages

  datatype Status = NOT_FOUND | INVALID | SUCCESS

  class SlabSystem {
    const bd: Buddy.Allocator
    /** Page number of vstart, for calc_hash_idx. */
    const base: nat
    var lists: seq<seq<int>>     // slab[i]: the pages from cur_slab_page to page_tail
    var counts: seq<int>         // slab[i].free_page_num
    var pages: Pages
    var hash: seq<seq<HNode>>
    ghost var owner: Owners
    /** Linked pages not in the hash table yet, or not any more. */
    ghost var unhashed: set<int>
    /** Descriptor and node objects no page or chain refers to yet, or any more. */
    ghost var homeless: set<Owner>
    /** Buddy pages held without being linked. */
    ghost var reserved: set<int>
    /** Blocks that callers obtained from the buddy allocator. */
    ghost var bigs: map<int, int>

    constructor (bd: Buddy.Allocator)
      requires bd.vstart >= 0
      ensures this.bd == bd && base == bd.vstart / PGSIZE
      ensures pages == map[] && owner == map[] && unhashed == {} && homeless == {} && reserved == {} && bigs == map[]
      ensures lists == seq(SLAB_NUM, _ => []) && counts == seq(SLAB_NUM, _ => 0) && hash == seq(HASH_SIZE, _ => [])
    {
      this.bd := bd;
      base := bd.vstart / PGSIZE;
      pages, owner, unhashed, homeless, reserved, bigs := map[], map[], {}, {}, {}, map[];
      lists, counts, hash := seq(SLAB_NUM, _ => []), seq(SLAB_NUM, _ => 0), seq(HASH_SIZE, _ => []);
    }

    ghost predicate Sound()
      reads this
    {
      |counts| == SLAB_NUM && |lists| == SLAB_NUM && |hash| == HASH_SIZE
        && Sealed(base, lists, pages, hash, owner, unhashed, homeless)
    }

    ghost predicate Memory()
      reads this, bd
    {
      && Solid(bd.vstart, bd.top, bd.nodes, bd.heads, bd.next, bd.buckets, bd.pool, bd.lists, bd.tiles)
      && Backed(Buddy.LiveOf(bd.tiles), pages.Keys, reserved, bigs)
    }

    /** The search loop of slab_system and alloc_new_page_addr: rotates the list until its head has a
        free object or every page has been seen. */
    method FindRoom(i: nat) returns (found: bool)
      requires Sound() && i < SLAB_NUM
      modifies this`lists
      ensures Sound()
      ensures found <==> Room(old(lists), pages, i)
      ensures found ==> HeadRoom(lists, pages, i)
      ensures HeadRoom(old(lists), pages, i) ==> lists == old(lists)
      ensures forall j :: 0 <= j < SLAB_NUM && j != i ==> lists[j] == old(lists)[j]
      ensures !found ==> !Room(lists, pages, i)
      ensures found ==> Turned(old(Now()), Now(), i)
    {
      ghost var orig := lists[i];
      HeadFacts(base, lists, pages, hash, owner, unhashed, homeless, i);
      ListFacts(base, lists, pages, hash, owner, unhashed, homeless, i);
      var prevTail := lists[i][|lists[i]| - 1];
      ghost var k := 0;
      while pages[lists[i][0]].free == [] && |lists[i]| > 1 && lists[i][0] != prevTail
        invariant Sound()
        invariant 0 <= k < |orig| && lists[i] == orig[k..] + orig[..k]
        invariant forall j :: 0 <= j < SLAB_NUM && j != i ==> lists[j] == old(lists)[j]
        invariant k == 0 ==> lists == old(lists)
        invariant forall j :: 0 <= j < k ==> pages[orig[j]].free == []
        decreases |orig| - k
      {
        RotateSealed(base, lists, pages, hash, owner, unhashed, homeless, i);
        assert lists[i][0] == orig[k];
        Rotated(orig, k);
        lists := lists[i := lists[i][1..] + [lists[i][0]]];
        k := k + 1;
      }
      found := pages[lists[i][0]].free != [];
      assert lists[i][0] == orig[k];
      if found {
        assert old(lists)[i][k] in pages;
        assert FirstRoom(old(lists), pages, i, k);
        assert lists == old(lists)[i := orig[k..] + orig[..k]];
      } else {
        assert k == |orig| - 1;
        forall j | 0 <= j < |lists[i]| ensures pages[lists[i][j]].free == [] {
          assert lists[i][j] == orig[if j == 0 then k else j - 1];
        }
      }
    }

    ghost function Now(): Snap
      reads this
    {
      Snap(lists, pages, owner, counts)
    }

    /** pop_free_list */
    method PopFree(i: nat, ghost who: Owner) returns (x: int)
      requires Sound() && Memory() && i < SLAB_NUM && HeadRoom(lists, pages, i)
      requires NewRef(pages, unhashed, homeless, who)
      modifies this`pages, this`counts, this`owner, this`homeless
      ensures Sound() && Memory() && homeless == old(homeless) + Ref(who)
      ensures PoppedHead(old(Now()), i, who, Now(), x)
    {
      var p := lists[i][0];
      HeadFacts(base, lists, pages, hash, owner, unhashed, homeless, i);
      PopSealed(base, lists, pages, hash, owner, unhashed, homeless, p, who);
      if pages[p].inUse == 0 {
        counts := counts[i := counts[i] - 1];
      }
      x := pages[p].free[0];
      pages := pages[p := Popped(pages[p])];
      owner := owner[x := who];
      homeless := homeless + Ref(who);
      assert pages.Keys == old(pages).Keys;
    }

    /** The free pages of the buddy allocator. */
    ghost function Free(): nat
      reads bd
    {
      BuddyPages.FreePages(Buddy.LiveOf(bd.tiles), bd.top)
    }

    /** dmalloc(PGSIZE); false stands for its panic. */
    method TakePage() returns (ok: bool, p: int)
      requires Memory() && bd.vstart >= 0
      modifies bd, this`reserved
      ensures ok <==> old(Free()) > 0
      ensures Free() == if ok then old(Free()) - 1 else 0
      ensures ok ==> Memory() && reserved == old(reserved) + {p}
      ensures ok ==> p % PGSIZE == 0 && p >= 0 && p !in pages && p !in old(reserved) && p !in bigs
    {
      OpenSolid(bd);
      ghost var live := Buddy.LiveOf(bd.tiles);
      BuddyPages.PageFitsIff(bd.tiles, bd.top);
      var r := bd.Alloc(PGSIZE);
      if r.None? { return false, 0; }
      ok, p := true, r.value;
      BuddyPages.OnePageLess(bd.tiles, bd.top, live, p);
      PageTaken(live, pages.Keys, reserved, bigs, p);
      reserved := reserved + {p};
      Buddy.LiveApart(bd.tiles, bd.top);
      assert p in Buddy.LiveOf(bd.tiles);
      OpenSolid(bd);
    }

    /** insert_slab_page at the head. */
    method LinkPage(p: int, idx: nat, ghost from: nat, free: seq<int>, inUse: int, desc: int)
      requires Sound() && Memory() && idx < SLAB_NUM && from <= 1 && p in reserved && p % PGSIZE == 0
      requires free == FreeSlots(p, idx, from) && inUse == from
      requires if from == 1 then desc == p && DescOf(p) !in homeless
        else desc != STATIC && desc in owner && owner[desc] == DescOf(p)
      modifies this`lists, this`pages, this`owner, this`unhashed, this`homeless, this`reserved
      ensures Sound() && Memory()
      ensures p !in old(pages) && p !in old(owner)
      ensures Now() == Linked(old(Now()), p, Fresh(p, idx, from, desc)).(owner := OwnDesc(old(owner), p, from))
      ensures unhashed == old(unhashed) + {p} && homeless == old(homeless) - {DescOf(p)}
      ensures reserved == old(reserved) - {p}
    {
      ReservedApart(Buddy.LiveOf(bd.tiles), pages.Keys, reserved, bigs, p);
      PageLinked(Buddy.LiveOf(bd.tiles), pages.Keys, reserved, bigs, p);
      LinkSealed(base, lists, pages, hash, owner, unhashed, homeless, p, idx, from, desc);
      lists := lists[idx := [p] + lists[idx]];
      var page := Page(idx, inUse, free, desc);
      assert page == Fresh(p, idx, from, desc);
      pages := pages[p := page];
      owner := OwnDesc(owner, p, from);
      unhashed, homeless, reserved := unhashed + {p}, homeless - {DescOf(p)}, reserved - {p};
      assert pages.Keys == old(pages).Keys + {p};
    }

    /** The second half of insert_hash_node: the new node goes to the tail of its chain. */
    method AddNode(p: int, n: int)
      requires Sound() && Memory() && p in pages && p in unhashed && n in owner && owner[n] == NodeOf(p)
      modifies this`hash, this`unhashed, this`homeless
      ensures Sound() && Memory() && unhashed == old(unhashed) - {p} && homeless == old(homeless) - {NodeOf(p)}
    {
      HashAddSealed(base, lists, pages, hash, owner, unhashed, homeless, p, n);
      var h := HashIdx(base, p);
      hash := hash[h := hash[h] + [HNode(n, p, pages[p].idx)]];
      unhashed, homeless := unhashed - {p}, homeless - {NodeOf(p)};
    }

    ghost predicate Tidy()
      reads this
    {
      InFlight(homeless, reserved, unhashed, pages.Keys) && bd.vstart >= 0
    }

    ghost predicate Context(unhashed0: set<int>, homeless0: set<Owner>, reserved0: set<int>, bigs0: map<int, int>)
      reads this
    {
      unhashed == unhashed0 && homeless == homeless0 && reserved == reserved0 && bigs == bigs0
    }

    /** alloc_new_page_addr: an object for a page descriptor. */
    method AllocNewPageAddr(ghost who: Owner) returns (ok: bool, x: int)
      requires Sound() && Memory() && Tidy()
      requires who.DescOf? && who.page in reserved && who !in homeless
      modifies this, bd
      ensures ok ==> Sound() && Memory() && Context(old(unhashed), old(homeless) + {who}, old(reserved), old(bigs))
      ensures ok ==> x in owner && owner[x] == who && x != STATIC
      ensures ok ==> Grew(old(Now()), Now(), x) && NoMoreThan(old(counts), counts, 0, 0)
      ensures ok ==> Aside(old(Now()), Now())
      ensures Paid(old(Free()), Free(), ok, NeedDesc(old(Now())))
      ensures ok && !Room(old(lists), old(pages), PAGE_IDX) ==> Room(lists, pages, PAGE_IDX)
      decreases false, !Room(lists, pages, NODE_IDX), !Room(lists, pages, PAGE_IDX), 2
    {
      ok, x := true, 0;
      ghost var n := 0;
      var found := SearchDescs();
      ghost var s0 := Now();
      RotationElsewhere(old(Now()), lists);
      if !found {
        ok, n := ExpandDescs();
        if !ok { return; }
        ElsewhereTwice(old(Now()), s0, Now());
      }
      ghost var s1 := Now();
      ReservedApart(Buddy.LiveOf(bd.tiles), pages.Keys, reserved, bigs, who.page);
      x := PopFree(PAGE_IDX, who);
      PoppedGrew(s1, PAGE_IDX, who, Now(), x);
      DescTaken(old(Now()), s1, Now(), who, x);
      if !found { HeadHasRoom(lists, pages, PAGE_IDX); }
      if !found {
        GrewTwice(s0, s1, n, Now(), x);
      }
      GrewSame(old(Now()), s0, Now(), x);
    }

    /** The search loop of alloc_new_page_addr. */
    method SearchDescs() returns (found: bool)
      requires Sound()
      modifies this`lists
      ensures Sound() && |lists| == SLAB_NUM && (found <==> Room(old(lists), pages, PAGE_IDX))
      ensures if found then HeadRoom(lists, pages, PAGE_IDX) else !Room(lists, pages, PAGE_IDX)
      ensures HeadRoom(old(lists), pages, PAGE_IDX) ==> lists == old(lists)
      ensures forall j :: 0 <= j < SLAB_NUM && j != PAGE_IDX ==> lists[j] == old(lists)[j]
    {
      found := FindRoom(PAGE_IDX);
    }

    /** The new page of alloc_new_page_addr, whose first object holds the page's own descriptor. */
    method ExpandDescs() returns (ok: bool, ghost n: int)
      requires Sound() && Memory() && Tidy() && !Room(lists, pages, PAGE_IDX)
      modifies this, bd
      ensures ok ==> Sound() && Memory() && Context(old(unhashed), old(homeless), old(reserved), old(bigs))
      ensures ok ==> n in owner && !owner[n].User?
      ensures ok ==> Grew(old(Now()), Now(), n) && NoMoreThan(old(counts), counts, 0, 0)
      ensures ok ==> HeadRoom(lists, pages, PAGE_IDX) && Elsewhere(old(Now()), Now())
      ensures ok ==> |pages[lists[PAGE_IDX][0]].free| >= 2
      ensures Paid(old(Free()), Free(), ok, NeedDesc(old(Now())))
      decreases false, !Room(lists, pages, NODE_IDX), !Room(lists, pages, PAGE_IDX), 1
    {
      var p;
      n := 0;
      ok, p := TakePage();
      if !ok { return; }
      // alloc_new_slab_page counts the page as free, taking its first object uncounts it
      var free := MakeSlabObj(p, PAGE_IDX);
      InFlightTaken(homeless, old(reserved), unhashed, pages.Keys, p);
      assert free[1..] == FreeSlots(p, PAGE_IDX, 1);
      LinkPage(p, PAGE_IDX, 1, free[1..], 1, p);
      InFlightLinked(old(homeless), old(reserved), old(unhashed), old(pages).Keys, p, pages.Keys);
      ghost var s1 := Now();
      OwnLinkGrew(old(Now()), p);
      RoomAfterLink(old(Now()), p, pages[p]);
      DescPageElsewhere(old(Now()), p, pages[p], owner);
      LinkNeeds(old(Now()), p, pages[p], owner);
      ok, n := InsertHashNode(p);
      if !ok { return; }
      GrewTwice(old(Now()), s1, p, Now(), n);
      AsideIsElsewhere(s1, Now());
      ElsewhereTwice(old(Now()), s1, Now());
      AsideHead(s1, Now());
    }

    /** insert_hash_node */
    method InsertHashNode(p: int) returns (ok: bool, ghost n: int)
      requires Sound() && Memory() && Tidy() && p in pages && p in unhashed && NodeOf(p) !in homeless
      modifies this, bd
      ensures ok ==> Sound() && Memory() && Context(old(unhashed) - {p}, old(homeless), old(reserved), old(bigs))
      ensures ok ==> n in owner && !owner[n].User?
      ensures ok ==> Grew(old(Now()), Now(), n) && NoMoreThan(old(counts), counts, 0, 0)
      ensures ok ==> Aside(old(Now()), Now())
      ensures ok && HeadRoom(old(lists), old(pages), NODE_IDX) ==> PoppedHead(old(Now()), NODE_IDX, NodeOf(p), Now(), n)
      ensures Paid(old(Free()), Free(), ok, NeedNode(old(Now())))
      ensures Room(old(lists), old(pages), NODE_IDX) ==> ok
      decreases false, !Room(lists, pages, NODE_IDX), !Room(lists, pages, PAGE_IDX), 9
    {
      var curNode;
      n := 0;
      ok, curNode := Allocate(NODE_IDX, NodeOf(p));
      OpenPaid(old(Free()), Free(), ok, old(Now()), NODE_IDX);
      if !ok { return; }
      n := curNode;
      GrewKeeps(old(Now()), Now(), n);
      AddNode(p, curNode);
      assert old(homeless) + {NodeOf(p)} - {NodeOf(p)} == old(homeless);
    }

    /** slab_system for cache idx. */
    method Allocate(idx: nat, ghost who: Owner) returns (ok: bool, x: int)
      requires Sound() && Memory() && Tidy() && idx < SLAB_NUM
      requires !who.DescOf? && NewRef(pages, unhashed, homeless, who)
      modifies this, bd
      ensures ok ==> Sound() && Memory() && Context(old(unhashed), old(homeless) + Ref(who), old(reserved), old(bigs))
      ensures ok ==> x in owner && owner[x] == who && x !in old(owner) && PageOf(x) in pages
      ensures ok ==> pages[PageOf(x)].idx == idx
      ensures ok ==> Grew(old(Now()), Now(), x) && NoMoreThan(old(counts), counts, 0, 0)
      ensures Room(old(lists), old(pages), idx) ==> ok && TookFirst(old(Now()), idx, who, Now(), x)
      ensures PaidFor(old(Free()), Free(), ok, old(Now()), idx)
      ensures ok && idx == NODE_IDX ==> Aside(old(Now()), Now())
      ensures ok && idx == NODE_IDX && HeadRoom(old(lists), old(pages), NODE_IDX) ==>
        PoppedHead(old(Now()), NODE_IDX, who, Now(), x)
      decreases idx != NODE_IDX, !Room(lists, pages, NODE_IDX), !Room(lists, pages, PAGE_IDX), 8
    {
      x := 0;
      ghost var was := Now();
      HeadFacts(base, lists, pages, hash, owner, unhashed, homeless, PAGE_IDX);
      ghost var n, grown;
      ok, n, grown := MakeRoom(idx);
      if !ok { return; }
      x := TakeHead(idx, who, was, n, grown);
    }

    /** The search of slab_system and, if it fails, the new page: the head then has a free object. */
    method MakeRoom(idx: nat) returns (ok: bool, ghost n: int, ghost grown: bool)
      requires Sound() && Memory() && Tidy() && idx < SLAB_NUM
      modifies this, bd
      ensures ok ==> Sound() && Memory() && Context(old(unhashed), old(homeless), old(reserved), old(bigs))
      ensures ok ==> RoomMade(old(Now()), Now(), idx, n, grown)
      ensures HeadRoom(old(lists), old(pages), idx) ==> ok && Now() == old(Now())
      ensures Room(old(lists), old(pages), idx) ==> ok && Turned(old(Now()), Now(), idx)
      ensures PaidFor(old(Free()), Free(), ok, old(Now()), idx)
      decreases idx != NODE_IDX, !Room(lists, pages, NODE_IDX), !Room(lists, pages, PAGE_IDX), 7
    {
      n := 0;
      ghost var was := Now();
      ok := FindRoom(idx);
      grown := !ok;
      ghost var s0 := Now();
      if idx == NODE_IDX { AsideRotated(was, lists); }
      if ok {
        PaidNothing(Free(), was, idx);
        if HeadRoom(was.lists, was.pages, idx) { HeadHasRoom(was.lists, was.pages, idx); }
      } else {
        ok, n := Expand(idx);
        PaidRotated(old(Free()), Free(), ok, was, s0, idx);
        if !ok { return; }
        if idx == NODE_IDX { AsideAfterRotation(was, s0.lists, Now()); }
        GrewSame(was, s0, Now(), n);
      }
    }

    /** The last step of slab_system: an object of the head page. */
    method TakeHead(idx: nat, ghost who: Owner, ghost was: Snap, ghost n: int, ghost grown: bool) returns (x: int)
      requires Sound() && Memory() && idx < SLAB_NUM && RoomMade(was, Now(), idx, n, grown)
      requires NewRef(pages, unhashed, homeless, who)
      requires HeadRoom(was.lists, was.pages, PAGE_IDX) ==> was.pages[was.lists[PAGE_IDX][0]].idx == PAGE_IDX
      modifies this`pages, this`counts, this`owner, this`homeless
      ensures Sound() && Memory() && homeless == old(homeless) + Ref(who)
      ensures x in owner && owner[x] == who && x !in was.owner && PageOf(x) in pages && pages[PageOf(x)].idx == idx
      ensures Grew(was, Now(), x) && NoMoreThan(was.counts, counts, 0, 0)
      ensures idx == NODE_IDX ==> Aside(was, Now())
      ensures PoppedHead(old(Now()), idx, who, Now(), x)
    {
      ghost var s1 := Now();
      x := PopFree(idx, who);
      PoppedGrew(s1, idx, who, Now(), x);
      if grown {
        GrewKeeps(was, s1, n);
        GrewTwice(was, s1, n, Now(), x);
      } else {
        GrewSame(was, s1, Now(), x);
      }
      if idx == NODE_IDX {
        NodeTaken(was, s1, Now(), who, x);
      }
    }

    /** alloc_new_slab_page, then alloc_new_page_addr. */
    method NewPage(idx: nat) returns (ok: bool, p: int, d: int)
      requires Sound() && Memory() && Tidy() && idx < SLAB_NUM
      modifies this, bd
      ensures ok ==> Sound() && Memory()
      ensures ok ==> Context(old(unhashed), old(homeless) + {DescOf(p)}, old(reserved) + {p}, old(bigs))
      ensures ok ==> p !in old(pages) && p !in old(reserved) && p % PGSIZE == 0
      ensures ok ==> d in owner && owner[d] == DescOf(p) && d != STATIC
      ensures ok ==> Grew(Counted(old(Now()), idx), Now(), d)
      ensures ok ==> NoMoreThan(Counted(old(Now()), idx).counts, counts, 0, 0)
      ensures ok ==> Aside(Counted(old(Now()), idx), Now())
      ensures Paid(old(Free()), Free(), ok, 1 + NeedDesc(old(Now())))
      ensures ok && !Room(old(lists), old(pages), PAGE_IDX) ==> Room(lists, pages, PAGE_IDX)
      decreases idx != NODE_IDX, !Room(lists, pages, NODE_IDX), !Room(lists, pages, PAGE_IDX), 4
    {
      d := 0;
      ok, p := TakePage();
      if !ok { return; }
      InFlightTaken(homeless, old(reserved), unhashed, pages.Keys, p);
      counts := counts[idx := counts[idx] + 1];
      assert Now() == Counted(old(Now()), idx);
      ok, d := AllocNewPageAddr(DescOf(p));
    }

    /** The new page of slab_system. */
    method Expand(idx: nat) returns (ok: bool, ghost n: int)
      requires Sound() && Memory() && Tidy() && idx < SLAB_NUM && !Room(lists, pages, idx)
      modifies this, bd
      ensures ok ==> Sound() && Memory() && Context(old(unhashed), old(homeless), old(reserved), old(bigs))
      ensures ok ==> n in owner && !owner[n].User?
      ensures ok ==> Grew(old(Now()), Now(), n) && HeadRoom(lists, pages, idx)
      ensures ok ==> NoMoreThan(old(counts), counts, idx, if pages[lists[idx][0]].inUse == 0 then 1 else 0)
      ensures ok && idx == NODE_IDX ==> Aside(old(Now()), Now())
      ensures PaidFor(old(Free()), Free(), ok, old(Now()), idx)
      decreases idx != NODE_IDX, !Room(lists, pages, NODE_IDX), !Room(lists, pages, PAGE_IDX), 6
    {
      n := 0;
      ghost var was := Now();
      HeadFacts(base, lists, pages, hash, owner, unhashed, homeless, PAGE_IDX);
      OpenPaid(Free(), 0, false, was, idx);
      var p, d;
      ghost var s1;
      ok, p, d, s1 := AddPage(idx);
      if !ok { return; }
      ghost var s2, mid := Now(), Free();
      ok, n := InsertHashNode(p);
      PaidExpand(old(Free()), mid, Free(), ok, was, s2, idx);
      if !ok { return; }
      AddedHashed(was, s1, s2, idx, p, d, Now(), n);
    }

    /** The new page with its descriptor, linked but not yet hashed; s1 is the state before linking. */
    method AddPage(idx: nat) returns (ok: bool, p: int, d: int, ghost s1: Snap)
      requires Sound() && Memory() && Tidy() && idx < SLAB_NUM
      modifies this, bd
      ensures ok ==> Sound() && Memory() && Tidy() && p in pages && p in unhashed && NodeOf(p) !in homeless
      ensures ok ==> Context(old(unhashed) + {p}, old(homeless), old(reserved), old(bigs))
      ensures ok ==> old(unhashed) + {p} - {p} == old(unhashed)
      ensures ok ==> d in owner && !owner[d].User? && Added(old(Now()), s1, Now(), idx, p, d)
      ensures Paid(old(Free()), Free(), ok, 1 + NeedDesc(old(Now())))
      ensures ok && idx == NODE_IDX ==> NeedNode(Now()) == 0
      ensures ok && !Room(old(lists), old(pages), PAGE_IDX) ==> Room(lists, pages, PAGE_IDX)
      decreases idx != NODE_IDX, !Room(lists, pages, NODE_IDX), !Room(lists, pages, PAGE_IDX), 5
    {
      ghost var was := Now();
      ok, p, d := NewPage(idx);
      s1 := Now();
      if !ok { return; }
      InFlightTaken(old(homeless), old(reserved), old(unhashed), old(pages).Keys, p);
      LinkNew(idx, p, d, was);
      GrewKeeps(was, Now(), d);
      InFlightLinked(old(homeless), old(reserved), old(unhashed), old(pages).Keys, p, pages.Keys);
    }

    /** The new page, made into objects and linked. */
    method LinkNew(idx: nat, p: int, d: int, ghost was: Snap)
      requires Sound() && Memory() && idx < SLAB_NUM && p in reserved && p % PGSIZE == 0 && |was.counts| == SLAB_NUM
      requires d != STATIC && d in owner && owner[d] == DescOf(p) && Grew(Counted(was, idx), Now(), d)
      modifies this`lists, this`pages, this`owner, this`unhashed, this`homeless, this`reserved
      ensures Sound() && Memory() && p !in old(pages)
      ensures Now() == Linked(old(Now()), p, Fresh(p, idx, 0, d)) && Fresh(p, idx, 0, d).free != []
      ensures unhashed == old(unhashed) + {p} && homeless == old(homeless) - {DescOf(p)}
      ensures reserved == old(reserved) - {p}
      ensures Grew(was, Now(), d) && HeadRoom(lists, pages, idx)
      ensures NeedNode(Now()) <= NeedNode(old(Now())) && (idx == NODE_IDX ==> NeedNode(Now()) == 0)
    {
      var free := MakeSlabObj(p, idx);
      ghost var s1 := Now();
      SlotsExact(idx);
      LinkPage(p, idx, 0, free, 0, d);
      LinkGrew(was, idx, s1, d, p);
      RoomAfterLink(s1, p, pages[p]);
      LinkNeeds(s1, p, pages[p], owner);
      assert Now() == Linked(s1, p, pages[p]).(owner := owner);
    }

    // ----- freeing -----

    /** Everything free_slab_obj relies on while a cascade is under way. */
    ghost predicate Freeing()
      reads this, bd
    {
      Sound() && Memory() && Drained(unhashed, pages) && Calm(pages, counts) && Adrift(homeless, pages.Keys, unhashed)
    }

    /** find_target_page: the position of the page's node in its chain, or -1. */
    method FindTargetPage(p: int) returns (k: int)
      requires |hash| == HASH_SIZE
      ensures k == -1 <==> !Holds(hash[HashIdx(base, p)], p)
      ensures k != -1 ==> 0 <= k < |hash[HashIdx(base, p)]| && hash[HashIdx(base, p)][k].page == p
    {
      var chain := hash[HashIdx(base, p)];
      k := 0;
      while k < |chain|
        invariant 0 <= k <= |chain|
        invariant forall j :: 0 <= j < k ==> chain[j].page != p
      {
        if chain[k].page == p { return; }
        k := k + 1;
      }
      k := -1;
    }

    /** push_free_list with the counter of free pages. */
    method PushFree(x: int)
      requires Freeing() && x in owner && Loose(homeless, owner[x]) && PageOf(x) !in unhashed
      modifies this`pages, this`owner, this`homeless, this`counts
      ensures Sound() && Memory() && Drained(unhashed, pages) && Adrift(homeless, pages.Keys, unhashed)
      ensures PushedTo(old(Now()), Now(), x) && homeless == old(homeless) - Ref(old(owner)[x])
    {
      var p := PageOf(x);
      PushSealed(base, lists, pages, hash, owner, unhashed, homeless, x);
      var idx := pages[p].idx;
      pages := pages[p := Pushed(pages[p], x)];
      homeless := homeless - Ref(owner[x]);
      owner := owner - {x};
      if pages[p].inUse == 0 {
        counts := counts[idx := counts[idx] + 1];
      }
      assert pages.Keys == old(pages).Keys;
    }

    /** free_slab_obj */
    method FreeSlabObj(x: int) returns (status: Status)
      requires Freeing() && (x in owner ==> Loose(homeless, owner[x]))
      modifies this, bd
      ensures status == SUCCESS <==> x in old(owner)
      ensures status == NOT_FOUND <==> !(PageOf(x) in old(pages) && PageOf(x) !in old(unhashed))
      ensures status != SUCCESS ==> bd.tiles == old(bd.tiles) && Freeing() && Now() == old(Now())
      ensures status != SUCCESS ==> Context(old(unhashed), old(homeless), old(reserved), old(bigs))
      ensures status == SUCCESS ==>
                && Freeing() && unhashed == old(unhashed) && bigs == old(bigs)
                && homeless == old(homeless) - Ref(old(owner)[x])
                && Shrank(old(Now()), Now(), x, old(unhashed))
                && reserved == old(reserved) + Gone(old(pages), pages)
      ensures status == SUCCESS ==>
                if Overflows(old(Now()), x) then PageOf(x) !in pages else PushedTo(old(Now()), Now(), x)
      decreases |owner|, 1
    {
      var p := PageOf(x);
      LiveIsFound(base, lists, pages, hash, owner, unhashed, homeless, x);
      var k := FindTargetPage(p);
      if k == -1 { return NOT_FOUND; }
      var h := HashIdx(base, p);
      var idx := hash[h][k].idx;
      HashedNode(base, lists, pages, hash, owner, unhashed, homeless, h, k);
      CheckIsSlot(x, idx);
      if (x % PGSIZE) % ObjSize(idx) != 0 { return INVALID; }
      var double := InList(pages[p].free, x);
      if double { return INVALID; }
      status := SUCCESS;
      PushFree(x);
      ghost var s0 := old(Now());
      OwnerLess(s0.owner, x);
      if pages[p].inUse == 0 && counts[idx] > MAX_FREE_PAGE {
        EnoughRemain(s0, Now(), x);
        PushGone(s0, Now(), x);
        ReturnPage(p, h, k, s0, x);
      } else {
        PushGone(s0, Now(), x);
        PushShrank(s0, Now(), x, unhashed);
      }
      ShrankCalm(s0, Now(), x, unhashed);
    }

    /** return_hash_node: the node leaves its chain and is freed. */
    method ReturnHashNode(p: int, h: nat, k: nat) returns (ghost n: int)
      requires Freeing() && p in pages && p !in unhashed && pages[p].inUse == 0
      requires h < HASH_SIZE && k < |hash[h]| && hash[h][k].page == p
      modifies this, bd
      ensures Freeing() && unhashed == old(unhashed) + {p} && homeless == old(homeless) && bigs == old(bigs)
      ensures n in old(owner) && !old(owner)[n].User? && Shrank(old(Now()), Now(), n, old(unhashed) + {p})
      ensures reserved == old(reserved) + Gone(old(pages), pages)
      decreases |owner|, 2
    {
      var nd := hash[h][k];
      HashRemoveSealed(base, lists, pages, hash, owner, unhashed, homeless, h, k);
      hash := hash[h := hash[h][..k] + hash[h][k + 1..]];
      unhashed, homeless := unhashed + {p}, homeless + {NodeOf(p)};
      n := nd.at;
      var status := FreeSlabObj(nd.at);
      assert old(homeless) + {NodeOf(p)} - {NodeOf(p)} == old(homeless);
    }

    /** return_slab_page's unlinking; the buddy page is still held. */
    method UnlinkPage(p: int)
      requires Freeing() && p in unhashed && pages[p].idx < SLAB_NUM && |Empties(pages, pages[p].idx)| > MAX_FREE_PAGE
      modifies this`lists, this`pages, this`unhashed, this`homeless, this`reserved
      ensures Freeing() && Now() == Unlinked(old(Now()), p)
      ensures unhashed == old(unhashed) - {p} && reserved == old(reserved) + {p}
      ensures var d := old(pages)[p].desc;
              homeless == (if d == STATIC then old(homeless) else old(homeless) + {DescOf(p)}) &&
              (d != STATIC ==> d in owner && owner[d] == DescOf(p))
    {
      ghost var s := Now();
      UnlinkCalm(s, p);
      UnlinkSealed(base, lists, pages, hash, owner, unhashed, homeless, p);
      PageReturned(Buddy.LiveOf(bd.tiles), pages.Keys, reserved, bigs, p);
      var idx, d := pages[p].idx, pages[p].desc;
      lists := lists[idx := Without(lists[idx], p)];
      pages := pages - {p};
      unhashed, reserved := unhashed - {p}, reserved + {p};
      assert homeless - {DescOf(p)} == homeless;
      homeless := if d == STATIC then homeless else homeless + {DescOf(p)};
      assert pages.Keys == old(pages).Keys - {p};
    }

    /** dfree of the page itself: free_slab_obj no longer knows it, the buddy allocator does. */
    method GiveBack(p: int)
      requires Freeing() && p in reserved && p % PGSIZE == 0
      modifies this, bd
      ensures Freeing() && Now() == old(Now()) && Context(old(unhashed), old(homeless), old(reserved) - {p}, old(bigs))
      decreases |owner|, 3
    {
      ReservedApart(Buddy.LiveOf(bd.tiles), pages.Keys, reserved, bigs, p);
      LiveIsFound(base, lists, pages, hash, owner, unhashed, homeless, p);
      var status := FreeSlabObj(p);
      ReleaseReserved(p);
    }

    method ReleaseReserved(p: int)
      requires Memory() && p in reserved
      modifies bd, this`reserved
      ensures Memory() && reserved == old(reserved) - {p}
    {
      ghost var live := Buddy.LiveOf(bd.tiles);
      OpenSolid(bd);
      var ok := bd.Release(p);
      OpenSolid(bd);
      ReservedReleased(live, pages.Keys, reserved, bigs, p);
      reserved := reserved - {p};
    }

    /** The rest of free_slab_obj for a page that is free and one too many. */
    method ReturnPage(p: int, h: nat, k: nat, ghost s0: Snap, ghost x: int)
      requires Freeing() && p in pages && p !in unhashed && pages[p].inUse == 0 && p % PGSIZE == 0
      requires h < HASH_SIZE && k < |hash[h]| && hash[h][k].page == p
      requires PushedTo(s0, Now(), x) && PageOf(x) == p && s0.pages[p].inUse == 1
      requires counts[s0.pages[p].idx] > MAX_FREE_PAGE && |Empties(pages, s0.pages[p].idx)| > MAX_FREE_PAGE
      modifies this, bd
      ensures Sound() && Memory() && Drained(unhashed, pages) && Adrift(homeless, pages.Keys, unhashed)
      ensures unhashed == old(unhashed) && homeless == old(homeless) && bigs == old(bigs)
      ensures Shrank(s0, Now(), x, unhashed)
      ensures reserved == old(reserved) + Gone(s0.pages, pages) && p !in pages
      decreases |owner|, 5
    {
      ghost var s1 := Now();
      ghost var keep := unhashed;
      var idx := pages[p].idx;
      ghost var n := ReturnHashNode(p, h, k);
      ShrankKeeps(s1, Now(), n, keep + {p});
      ghost var s3, r1 := Now(), reserved;
      var d := pages[p].desc;
      ReturnSlabPage(p, keep);
      CascadeGone(s0, s1, x, n, keep + {p}, s3, pages, old(reserved), r1, reserved);
      Cascade(s0, s1, x, keep, n, s3, d, Now());
      counts := counts[idx := counts[idx] - 1];
    }

    /** return_slab_page up to the decrement: unlinks the page and gives it and its descriptor back. */
    method ReturnSlabPage(p: int, ghost keep: set<int>)
      requires Freeing() && p in unhashed && p in pages && pages[p].idx < SLAB_NUM && p % PGSIZE == 0
      requires |Empties(pages, pages[p].idx)| > MAX_FREE_PAGE && keep == unhashed - {p}
      modifies this, bd
      ensures Freeing() && unhashed == keep && homeless == old(homeless) && bigs == old(bigs)
      ensures var s4 := Unlinked(old(Now()), p); var d := old(pages)[p].desc;
              Now() == s4 || (Shrank(s4, Now(), d, keep) && d in s4.owner && !s4.owner[d].User?)
      ensures reserved == old(reserved) + Gone(old(pages), pages) && Fewer(old(pages), pages) && p !in pages
      decreases |owner|, 4
    {
      var d := pages[p].desc;
      ghost var was := pages;
      UnlinkGone(pages, p);
      PageReturned(Buddy.LiveOf(bd.tiles), pages.Keys, reserved, bigs, p);
      UnlinkPage(p);
      if d != STATIC {
        ghost var s4 := Now();
        GiveBack(p);
        assert reserved == old(reserved);
        var status := FreeSlabObj(d);
        ShrankFewer(s4, Now(), d, keep);
        GoneTwice(was, s4.pages, pages);
      }
    }
  }

  method InList(free: seq<int>, x: int) returns (found: bool)
    ensures found <==> x in free
  {
    var i := 0;
    while i < |free|
      invariant 0 <= i <= |free| && x !in free[..i]
    {
      if free[i] == x { return true; }
      i := i + 1;
    }
    found := false;
  }

  /** make_slab_obj: threads the free list through the page. */
  method MakeSlabObj(p: int, idx: nat) returns (free: seq<int>)
    requires idx < SLAB_NUM
    ensures free == FreeSlots(p, idx, 0)
  {
    var objSz := ObjSize(idx);
    var totalObj := PGSIZE / objSz;
    SlotsExact(idx);
    var curObj := p;
    free := [curObj];
    var cnt := 1;
    while cnt < totalObj
      invariant 1 <= cnt <= totalObj == Slots(idx)
      invariant curObj == p + (cnt - 1) * objSz
      invariant |free| == cnt && forall k :: 0 <= k < cnt ==> free[k] == p + k * objSz
    {
      curObj := curObj + objSz;
      free := free + [curObj];
      cnt := cnt + 1;
    }
  }

  lemma ListFacts(base: nat, lists: seq<seq<int>>, pages: Pages, hash: seq<seq<HNode>>, owner: Owners,
                  unhashed: set<int>, homeless: set<Owner>, i: nat)
    requires Sealed(base, lists, pages, hash, owner, unhashed, homeless) && i < SLAB_NUM
    ensures |lists| == SLAB_NUM && NoRepeats(lists[i]) && forall k :: 0 <= k < |lists[i]| ==> lists[i][k] in pages
  {
    Unseal(base, lists, pages, hash, owner, unhashed, homeless);
    forall k | 0 <= k < |lists[i]| ensures lists[i][k] in pages { LinkedPage(lists, pages, i, k); }
  }

  lemma Rotated(s: seq<int>, k: nat)
    requires k + 1 < |s|
    ensures var r := s[k..] + s[..k]; r[1..] + [r[0]] == s[k + 1..] + s[..k + 1]
  {
  }
}
