/** How many free blocks a write needs: what decides balloc's panic (fs.c:57-97, fs.c:419-447). */
module FsSpace {
  import opened Basics
  import opened Counting
  import opened FsSpec
  import opened FsSteps

  /** The blocks the free map does not mark. */
  ghost function FreeBlocks(l: Layout, disk: seq<Block>): set<nat> {
    set b: nat | b in Below(l.size) && !Marked(l, disk, b)
  }

  ghost function Space(l: Layout, disk: seq<Block>): nat { |FreeBlocks(l, disk)| }

  lemma NoSpace(l: Layout, disk: seq<Block>)
    ensures Space(l, disk) == 0 <==> forall b :: 0 <= b < l.size ==> Marked(l, disk, b)
  {
    if Space(l, disk) == 0 {
      forall b | 0 <= b < l.size ensures Marked(l, disk, b) { assert b !in FreeBlocks(l, disk); }
    } else {
      var b :| b in FreeBlocks(l, disk);
    }
  }

  lemma SameSpace(l: Layout, disk: seq<Block>, disk': seq<Block>)
    requires l.Ok() && |disk'| == |disk| == l.size && forall b :: 0 <= b < l.dataStart ==> disk'[b] == disk[b]
    ensures Space(l, disk') == Space(l, disk)
  {
    forall b: nat | b in Below(l.size)
      ensures Marked(l, disk', b) == Marked(l, disk, b) { MarksSame(l, disk, disk', b); }
    assert FreeBlocks(l, disk') == FreeBlocks(l, disk);
  }

  // ----- one reference filled -----

  /** The block a place names, 0 if the place or the block is missing. */
  ghost function Named(disk: seq<Block>, inodes: seq<Inode>, r: Ref): nat {
    if IsRef(disk, inodes, r) then Target(disk, inodes, r) else 0
  }

  lemma BlockIsNamed(disk: seq<Block>, inodes: seq<Inode>, i: nat, n: nat)
    ensures BlockNo(disk, inodes, i, n) == if n < MAXFILE then Named(disk, inodes, RefOf(i, n)) else 0
  {
  }

  ghost predicate FillsOpen(l: Layout, d: seq<Block>, s: seq<Inode>, d': seq<Block>, s': seq<Inode>, r: Ref) {
    && (forall q :: q != r ==> Named(d', s', q) == Named(d, s, q))
    && Named(d, s, r) == 0 && Named(d', s', r) != 0 && Space(l, d') + 1 == Space(l, d)
  }

  /** One free block went to the place r, and no other place changed. */
  ghost predicate Fills(l: Layout, d: seq<Block>, s: seq<Inode>, d': seq<Block>, s': seq<Inode>, r: Ref) {
    forall k {:trigger Key(k, (l, d, s, d', s', r))} :: Key(k, (l, d, s, d', s', r)) ==> FillsOpen(l, d, s, d', s', r)
  }

  lemma OpenFills(l: Layout, d: seq<Block>, s: seq<Inode>, d': seq<Block>, s': seq<Inode>, r: Ref)
    ensures Fills(l, d, s, d', s', r) <==> FillsOpen(l, d, s, d', s', r)
  {
    assert Key(0, (l, d, s, d', s', r));
  }

  /** balloc takes one block. */
  lemma AllocatedSpace(l: Layout, disk: seq<Block>, inodes: seq<Inode>, owner: map<nat, Ref>, b: nat)
    requires Kept(l, disk, inodes, owner, {}, {}) && b < l.size && !Marked(l, disk, b)
    ensures MapBlock(l, b) < |disk| && b < |disk| && Space(l, Allocated(l, disk, b)) + 1 == Space(l, disk)
  {
    OpenKept(l, disk, inodes, owner, {}, {});
    AllocatedIndirects(l, disk, inodes, owner, {}, b);
    assert FreeBlocks(l, disk) == FreeBlocks(l, Allocated(l, disk, b)) + {b};
  }

  /** balloc, then the slot. */
  lemma SlotFills(l: Layout, disk: seq<Block>, disk': seq<Block>, inodes: seq<Inode>, i: nat, k: nat, b: nat)
    requires SameIndirects(disk, inodes, disk') && Space(l, disk') + 1 == Space(l, disk)
    requires i < |inodes| && |inodes[i].addrs| == NDIRECT + 1 && k <= NDIRECT && inodes[i].addrs[k] == 0
    requires 0 < b < |disk'| && disk'[b] == Zeros()
    ensures Fills(l, disk, inodes, disk', WithSlot(inodes, i, k, b), Slot(i, k))
  {
    var inodes' := WithSlot(inodes, i, k, b);
    forall q ensures Named(disk', inodes', q) == if q == Slot(i, k) then b else Named(disk, inodes, q) {
      TargetsSame(disk, inodes, disk', q);
      SlotTargets(disk', inodes, i, k, b, q);
    }
    OpenFills(l, disk, inodes, disk', inodes', Slot(i, k));
  }

  /** balloc, then the entry of the indirect block. */
  lemma EntryFills(l: Layout, disk: seq<Block>, disk': seq<Block>, inodes: seq<Inode>, owner: map<nat, Ref>, i: nat,
                   j: nat, b: nat)
    requires SameIndirects(disk, inodes, disk') && Space(l, disk') + 1 == Space(l, disk)
    requires Kept(l, disk', inodes, owner, {b}, {}) && IsRef(disk', inodes, Entry(i, j))
    requires Target(disk', inodes, Entry(i, j)) == 0 && 0 < b < WORD
    ensures Fills(l, disk, inodes, WithEntry(disk', inodes[i].addrs[NDIRECT], j, b), inodes, Entry(i, j))
  {
    OpenKept(l, disk', inodes, owner, {b}, {});
    var ib := inodes[i].addrs[NDIRECT];
    var disk2 := WithEntry(disk', ib, j, b);
    forall q ensures Named(disk2, inodes, q) == if q == Entry(i, j) then b else Named(disk, inodes, q) {
      TargetsSame(disk, inodes, disk', q);
      EntryTargets(l, disk', inodes, owner, {b}, i, j, b, q);
    }
    IndirectOwned(l, disk', inodes, owner, {b}, i);
    SameSpace(l, disk', disk2);
    OpenFills(l, disk, inodes, disk2, inodes, Entry(i, j));
  }

  // ----- what bmap needs -----

  function One(missing: bool): nat { if missing then 1 else 0 }

  ghost predicate Missing(disk: seq<Block>, inodes: seq<Inode>, i: nat, n: nat) { BlockNo(disk, inodes, i, n) == 0 }

  ghost predicate NoIndirect(disk: seq<Block>, inodes: seq<Inode>,
                             i: nat) { Named(disk, inodes, Slot(i, NDIRECT)) == 0 }

  /** The free blocks bmap takes for block n: the block itself, and the indirect block on the way. */
  ghost function NeedBlock(disk: seq<Block>, inodes: seq<Inode>, i: nat, n: nat): nat {
    One(Missing(disk, inodes, i, n)) + One(n >= NDIRECT && NoIndirect(disk, inodes, i))
  }

  ghost predicate CostsOpen(l: Layout, d: seq<Block>, s: seq<Inode>, d': seq<Block>, s': seq<Inode>, i: nat, n: nat) {
    && Space(l, d') + NeedBlock(d, s, i, n) == Space(l, d)
    && !Missing(d', s', i, n)
    && (forall m: nat :: m != n ==> (Missing(d', s', i, m) <==> Missing(d, s, i, m)))
    && (NoIndirect(d', s', i) <==> NoIndirect(d, s, i) && n < NDIRECT)
  }

  /** bmap for block n took exactly what it needs and changed no other block of the file. */
  ghost predicate Costs(l: Layout, d: seq<Block>, s: seq<Inode>, d': seq<Block>, s': seq<Inode>, i: nat, n: nat) {
    forall k {:trigger Key(k, (l, d, s, d', s', i, n))} :: Key(k, (l, d, s, d', s', i, n)) ==>
      CostsOpen(l, d, s, d', s', i, n)
  }

  lemma OpenCosts(l: Layout, d: seq<Block>, s: seq<Inode>, d': seq<Block>, s': seq<Inode>, i: nat, n: nat)
    ensures Costs(l, d, s, d', s', i, n) <==> CostsOpen(l, d, s, d', s', i, n)
  {
    assert Key(0, (l, d, s, d', s', i, n));
  }

  /** Nothing was missing. */
  lemma CostsNothing(l: Layout, d: seq<Block>, s: seq<Inode>, i: nat, n: nat)
    requires n < MAXFILE && BlockNo(d, s, i, n) != 0
    ensures Costs(l, d, s, d, s, i, n) && NeedBlock(d, s, i, n) == 0
  {
    assert n >= NDIRECT ==> !NoIndirect(d, s, i);
    OpenCosts(l, d, s, d, s, i, n);
  }

  /** Only the block itself was missing. */
  lemma CostsOne(l: Layout, d: seq<Block>, s: seq<Inode>, d': seq<Block>, s': seq<Inode>, i: nat, n: nat)
    requires n < MAXFILE && Fills(l, d, s, d', s', RefOf(i, n)) && (n >= NDIRECT ==> !NoIndirect(d, s, i))
    ensures Costs(l, d, s, d', s', i, n) && NeedBlock(d, s, i, n) == 1
  {
    OpenFills(l, d, s, d', s', RefOf(i, n));
    BlockIsNamed(d, s, i, n);
    BlockIsNamed(d', s', i, n);
    forall m: nat | m != n ensures Missing(d', s', i, m) <==> Missing(d, s, i, m) {
      BlockIsNamed(d, s, i, m);
      BlockIsNamed(d', s', i, m);
    }
    OpenCosts(l, d, s, d', s', i, n);
  }

  /** The indirect block was missing too. */
  lemma CostsTwo(l: Layout, d: seq<Block>, s: seq<Inode>, d1: seq<Block>, s1: seq<Inode>, d2: seq<Block>,
                 s2: seq<Inode>, i: nat, n: nat)
    requires NDIRECT <= n < MAXFILE && Fills(l, d, s, d1, s1, Slot(i, NDIRECT)) && Fills(l, d1, s1, d2, s2, RefOf(i, n))
    ensures Costs(l, d, s, d2, s2, i, n) && NeedBlock(d, s, i, n) == 2
  {
    OpenFills(l, d, s, d1, s1, Slot(i, NDIRECT));
    OpenFills(l, d1, s1, d2, s2, RefOf(i, n));
    forall m: nat ensures m != n ==> (Missing(d2, s2, i, m) <==> Missing(d, s, i, m)) {
      BlockIsNamed(d, s, i, m);
      BlockIsNamed(d2, s2, i, m);
    }
    BlockIsNamed(d, s, i, n);
    BlockIsNamed(d2, s2, i, n);
    OpenCosts(l, d, s, d2, s2, i, n);
  }

  // ----- what a range needs -----

  ghost function MissingIn(disk: seq<Block>, inodes: seq<Inode>, i: nat, lo: nat, hi: nat): nat
    decreases hi - lo
  {
    if lo >= hi then 0 else One(Missing(disk, inodes, i, lo)) + MissingIn(disk, inodes, i, lo + 1, hi)
  }

  /** The free blocks needed for blocks [lo, hi) of the file. */
  ghost function NeedRange(disk: seq<Block>, inodes: seq<Inode>, i: nat, lo: nat, hi: nat): nat {
    MissingIn(disk, inodes, i, lo, hi) + One(lo < hi && hi > NDIRECT && NoIndirect(disk, inodes, i))
  }

  lemma {:induction false} SameMissing(d: seq<Block>, s: seq<Inode>, d': seq<Block>, s': seq<Inode>, i: nat, lo: nat,
                                       hi: nat)
    requires forall m: nat :: lo <= m ==> (Missing(d', s', i, m) <==> Missing(d, s, i, m))
    ensures MissingIn(d', s', i, lo, hi) == MissingIn(d, s, i, lo, hi)
    decreases hi - lo
  {
    if lo < hi { SameMissing(d, s, d', s', i, lo + 1, hi); }
  }

  /** Taking the first block of the range takes its share. */
  lemma RangeStep(l: Layout, d: seq<Block>, s: seq<Inode>, d': seq<Block>, s': seq<Inode>, i: nat, lo: nat, hi: nat)
    requires Costs(l, d, s, d', s', i, lo) && lo < hi
    ensures NeedRange(d, s, i, lo, hi) == NeedBlock(d, s, i, lo) + NeedRange(d', s', i, lo + 1, hi)
    ensures Space(l, d') + NeedBlock(d, s, i, lo) == Space(l, d)
  {
    OpenCosts(l, d, s, d', s', i, lo);
    SameMissing(d, s, d', s', i, lo + 1, hi);
  }

  /** A change of data leaves needs and space alone. */
  lemma DataNeeds(d: seq<Block>, s: seq<Inode>, d': seq<Block>, i: nat, lo: nat, hi: nat)
    requires SameIndirects(d, s, d')
    ensures NeedRange(d', s, i, lo, hi) == NeedRange(d, s, i, lo, hi)
  {
    SameBlocks(d, s, d');
    SameMissing(d, s, d', s, i, lo, hi);
    TargetsSame(d, s, d', Slot(i, NDIRECT));
  }
}
