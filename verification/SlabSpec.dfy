/** Slab pages, their free lists, the hash table of pages and who owns each object (slab.c, slab.h).
    Addresses are byte offsets from kmemAlloc.vstart. */
module SlabSpec {
  import opened Basics
  import opened Counting

  const PGSIZE := 4096
  const SLAB_NUM := 10
  const MAX_FREE_PAGE := 2
  const HASH_SIZE := 10
  const PAGE_BYTES := 24   // sizeof(struct page)
  const NODE_BYTES := 16   // sizeof(struct hash_node)
  const PAGE_IDX := 3      // the cache a struct page comes from
  const NODE_IDX := 2      // the cache a struct hash_node comes from
  const STATIC := -1       // descriptor kept in slab[idx].static_page

  /** slab[idx].obj_sz: 4, 8, ..., 2048. */
  function ObjSize(idx: nat): (r: nat)
    requires idx < SLAB_NUM
    ensures r >= 4 && r % 4 == 0
  {
    [4, 8, 16, 32, 64, 128, 256, 512, 1024, 2048][idx]
  }

  /** Objects of cache i hold n bytes, those of the cache before do not. */
  ghost predicate CacheFor(n: int, i: nat) { i < SLAB_NUM && n <= ObjSize(i) && (i > 0 ==> ObjSize(i - 1) < n) }

  /** Descriptors and hash nodes come from the caches of their sizes. */
  lemma MetadataCaches()
    ensures CacheFor(PAGE_BYTES, PAGE_IDX) && CacheFor(NODE_BYTES, NODE_IDX)
  {
  }

  function Slots(idx: nat): (r: nat)
    requires idx < SLAB_NUM
    ensures r >= 2
  {
    PGSIZE / ObjSize(idx)
  }

  lemma SlotsExact(idx: nat)
    requires idx < SLAB_NUM
    ensures Slots(idx) >= 2 && Slots(idx) * ObjSize(idx) == PGSIZE
  {
  }

  function PageOf(x: int): int { x / PGSIZE * PGSIZE }

  predicate Slot(p: int, idx: nat, x: int)
    requires idx < SLAB_NUM
  {
    p <= x < p + PGSIZE && (x - p) % ObjSize(idx) == 0
  }

  /** struct page; `free` is its free list in order, `desc` the object that holds the struct. */
  datatype Page = Page(idx: nat, inUse: int, free: seq<int>, desc: int)

  /** struct hash_node, itself an object at `at`. */
  datatype HNode = HNode(at: int, page: int, idx: nat)

  /** What a live object is for. */
  datatype Owner = User(size: int) | DescOf(page: int) | NodeOf(page: int)

  type Pages = map<int, Page>
  type Owners = map<int, Owner>

  // ----- one page -----

  ghost predicate PageOk(p: int, pg: Page) {
    && p % PGSIZE == 0 && pg.idx < SLAB_NUM && pg.inUse >= 0
    && pg.inUse + |pg.free| == Slots(pg.idx)
    && NoRepeats(pg.free)
    && forall i :: 0 <= i < |pg.free| ==> Slot(p, pg.idx, pg.free[i])
  }

  lemma SlotLimit(p: int, idx: nat, s: seq<int>)
    requires idx < SLAB_NUM && NoRepeats(s) && forall i :: 0 <= i < |s| ==> Slot(p, idx, s[i])
    ensures |s| <= Slots(idx)
  {
    var sz := ObjSize(idx);
    SlotsExact(idx);
    var at := seq(|s|, i requires 0 <= i < |s| => (s[i] - p) / sz);
    forall i, j | 0 <= i < j < |s| ensures at[i] != at[j] {
      assert s[i] - p == sz * at[i] && s[j] - p == sz * at[j];
    }
    forall i | 0 <= i < |s| ensures 0 <= at[i] < Slots(idx) {
      SlotIndex(s[i] - p, idx);
    }
    Pigeonhole(at, Slots(idx));
  }

  lemma SlotIndex(off: int, idx: nat)
    requires idx < SLAB_NUM && 0 <= off < PGSIZE
    ensures 0 <= off / ObjSize(idx) < Slots(idx)
  {
    SlotsExact(idx);
  }

  /** A page with no object in use has every slot on its free list; a page with a slot off its free
      list has an object in use. */
  lemma InUseCounts(p: int, pg: Page, x: int)
    requires PageOk(p, pg) && Slot(p, pg.idx, x)
    ensures pg.inUse == 0 ==> x in pg.free
    ensures x !in pg.free ==> pg.inUse >= 1
  {
    if x !in pg.free {
      var s := pg.free + [x];
      forall i, j | 0 <= i < j < |s| ensures s[i] != s[j] {
        if j == |pg.free| { assert pg.free[i] in pg.free; }
      }
      SlotLimit(p, pg.idx, s);
    }
  }

  lemma SlotInPage(p: int, idx: nat, x: int)
    requires idx < SLAB_NUM && p % PGSIZE == 0 && Slot(p, idx, x)
    ensures PageOf(x) == p
  {
  }

  lemma SlotNotStatic(p: int, idx: nat, x: int)
    requires idx < SLAB_NUM && p % PGSIZE == 0 && Slot(p, idx, x)
    ensures x % 4 == 0 && x != STATIC
  {
    FourDivides(ObjSize(idx), x - p);
  }

  lemma FourDivides(sz: int, off: int)
    requires sz > 0 && sz % 4 == 0 && off % sz == 0
    ensures off % 4 == 0
  {
    var m, q := sz / 4, off / sz;
    assert off == (4 * m) * q == 4 * (m * q);
  }

  // ----- the invariants -----

  ghost predicate IsLive(pages: Pages, x: int) {
    var p := PageOf(x);
    p in pages && pages[p].idx < SLAB_NUM && Slot(p, pages[p].idx, x) && x !in pages[p].free
  }

  ghost predicate PagesOk(pages: Pages) {
    forall p :: p in pages ==> PageOk(p, pages[p])
  }

  /** The owned objects are exactly the slots off their page's free list. */
  ghost predicate OwnersOk(pages: Pages, owner: Owners) {
    forall x :: x in owner <==> IsLive(pages, x)
  }

  /** Cache i links exactly the pages of index i, once each, and never becomes empty. */
  ghost predicate ListsOk(lists: seq<seq<int>>, pages: Pages) {
    && |lists| == SLAB_NUM
    && (forall i :: 0 <= i < SLAB_NUM ==> NoRepeats(lists[i]) && lists[i] != [])
    && (forall i, p :: 0 <= i < SLAB_NUM ==> (p in lists[i] <==> p in pages && pages[p].idx == i))
  }

  /** Every linked page with a dynamic descriptor owns the object that holds it; every descriptor
      object belongs to its page, or is on its way to or from it. */
  ghost predicate DescsOk(pages: Pages, owner: Owners, homeless: set<Owner>) {
    && (forall p :: p in pages && pages[p].desc != STATIC ==>
         pages[p].desc in owner && owner[pages[p].desc] == DescOf(p))
    && (forall x :: x in owner && owner[x].DescOf? && owner[x] !in homeless ==>
         owner[x].page in pages && pages[owner[x].page].desc == x)
    && (forall x, y :: x in owner && y in owner && owner[x].DescOf? && owner[x] == owner[y] ==> x == y)
  }

  /** calc_hash_idx, with `base` the page number of vstart. */
  function HashIdx(base: nat, p: int): (r: nat)
    ensures r < HASH_SIZE
  {
    (base + p / PGSIZE) % HASH_SIZE
  }

  ghost predicate Holds(chain: seq<HNode>, p: int) { exists k :: 0 <= k < |chain| && chain[k].page == p }

  ghost predicate ChainOk(base: nat, h: nat, chain: seq<HNode>, pages: Pages, owner: Owners, unhashed: set<int>) {
    && (forall k :: 0 <= k < |chain| ==>
         && chain[k].page in pages && chain[k].page !in unhashed && HashIdx(base, chain[k].page) == h
         && chain[k].idx == pages[chain[k].page].idx
         && chain[k].at in owner && owner[chain[k].at] == NodeOf(chain[k].page))
    && (forall j, k :: 0 <= j < k < |chain| ==> chain[j].page != chain[k].page)
  }

  /** The hash table holds one node per linked page, apart from pages being added or removed. */
  ghost predicate HashOk(base: nat, hash: seq<seq<HNode>>, pages: Pages, owner: Owners, unhashed: set<int>,
                         homeless: set<Owner>) {
    && |hash| == HASH_SIZE
    && (forall h :: 0 <= h < HASH_SIZE ==> ChainOk(base, h, hash[h], pages, owner, unhashed))
    && (forall p :: p in pages && p !in unhashed ==> Holds(hash[HashIdx(base, p)], p))
    && (forall x :: x in owner && owner[x].NodeOf? && owner[x] !in homeless ==>
         owner[x].page in pages && owner[x].page !in unhashed)
    && (forall x, y :: x in owner && y in owner && owner[x].NodeOf? && owner[x] == owner[y] ==> x == y)
  }

  ghost predicate Inv(base: nat, lists: seq<seq<int>>, pages: Pages, hash: seq<seq<HNode>>, owner: Owners,
                      unhashed: set<int>, homeless: set<Owner>)
  {
    && PagesOk(pages)
    && ListsOk(lists, pages)
    && OwnersOk(pages, owner)
    && DescsOk(pages, owner, homeless)
    && HashOk(base, hash, pages, owner, unhashed, homeless)
  }

  /** The linked pages of cache i with no object in use. */
  ghost function Empties(pages: Pages, i: nat): set<int> {
    set p | p in pages && pages[p].idx == i && pages[p].inUse == 0
  }

  ghost predicate Room(lists: seq<seq<int>>, pages: Pages, i: nat) {
    i < |lists| && exists k :: 0 <= k < |lists[i]| && lists[i][k] in pages && pages[lists[i][k]].free != []
  }

  // ----- the invariant, kept closed -----

  /** Inv behind a quantifier that nothing instantiates until Unseal names its key: proofs that only
      carry the invariant along then need not look inside it. */
  ghost predicate Sealed(base: nat, lists: seq<seq<int>>, pages: Pages, hash: seq<seq<HNode>>, owner: Owners,
                         unhashed: set<int>, homeless: set<Owner>)
  {
    forall k {:trigger Key(k, (lists, pages, hash, owner, unhashed, homeless))} ::
      Key(k, (lists, pages, hash, owner, unhashed, homeless)) ==>
        Inv(base, lists, pages, hash, owner, unhashed, homeless)
  }

  lemma Unseal(base: nat, lists: seq<seq<int>>, pages: Pages, hash: seq<seq<HNode>>, owner: Owners,
               unhashed: set<int>, homeless: set<Owner>)
    ensures Sealed(base, lists, pages, hash, owner, unhashed, homeless)
      <==> Inv(base, lists, pages, hash, owner, unhashed, homeless)
  {
    assert Key(0, (lists, pages, hash, owner, unhashed, homeless));
  }

  /** What the head of a list is, without the rest of the invariant. */
  lemma HeadFacts(base: nat, lists: seq<seq<int>>, pages: Pages, hash: seq<seq<HNode>>, owner: Owners,
                  unhashed: set<int>, homeless: set<Owner>, i: nat)
    requires Sealed(base, lists, pages, hash, owner, unhashed, homeless) && i < SLAB_NUM
    ensures |lists| == SLAB_NUM && lists[i] != [] && lists[i][0] in pages && pages[lists[i][0]].idx == i
    ensures pages[lists[i][0]].inUse >= 0 && lists[i][0] % PGSIZE == 0
  {
    Unseal(base, lists, pages, hash, owner, unhashed, homeless);
    LinkedPage(lists, pages, i, 0);
    assert PageOk(lists[i][0], pages[lists[i][0]]);
  }

  lemma LinkedPage(lists: seq<seq<int>>, pages: Pages, i: nat, k: nat)
    requires ListsOk(lists, pages) && i < SLAB_NUM && k < |lists[i]|
    ensures lists[i][k] in pages && pages[lists[i][k]].idx == i
  {
    var p := lists[i][k];
    assert p in lists[i] <==> p in pages && pages[p].idx == i;
  }
}
