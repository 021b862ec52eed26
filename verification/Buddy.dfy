/** The buddy allocator of whole pages (buddy.c). */
module Buddy {
  import opened Basics
  import opened BuddyTiles
  import opened BuddyLists
  import opened BuddyIndex
  import opened BuddyLayout
  import opened Counting
  import BuddyUnique

  /** The largest size calOrder can double up to in an int. */
  const MAXSIZE := 0x4000_0000

  /** The least order whose blocks hold `size` bytes. */
  ghost predicate IsOrder(size: int, order: nat) {
    size <= Size(order) && (order > 0 ==> Size(order - 1) < size)
  }

  lemma OrderUnique(size: int, j: nat, k: nat)
    requires IsOrder(size, j) && IsOrder(size, k)
    ensures j == k
  {
    if j < k { SizeMonotone(j, k - 1); }
    if k < j { SizeMonotone(k, j - 1); }
  }

  /** calOrder */
  method CalOrder(size: int) returns (order: nat)
    requires size <= MAXSIZE
    ensures IsOrder(size, order)
  {
    var orderSize := PGSIZE;
    order := 0;
    while orderSize < size
      invariant orderSize == Size(order)
      invariant order > 0 ==> Size(order - 1) < size
      decreases size - orderSize
    {
      orderSize := orderSize * 2;
      order := order + 1;
    }
  }

  /** The blocks in use, by address, with the sizes they were asked for. */
  ghost function LiveOf(t: Tiles): (m: map<int, int>)
  {
    map a | a in t && t[a].Used? :: t[a].size
  }

  ghost predicate UsedOk(t: Tiles) {
    forall a :: a in t && t[a].Used? ==> 1 <= t[a].size <= MAXSIZE && IsOrder(t[a].size, t[a].order)
  }

  lemma LiveAdd(t: Tiles, a: int, o: nat, size: int)
    requires a in t && t[a].Free?
    ensures a !in LiveOf(t)
    ensures LiveOf(t[a := Used(o, size)]) == LiveOf(t)[a := size]
  {
  }

  /** Everything the allocator maintains: free lists that match a canonical tiling, and an index
      with one node per block in use. */
  ghost predicate AllocatorOk(vstart: int, top: nat, nodes: nat, heads: seq<int>, next: Words, buckets: seq<seq<Node>>,
                              pool: seq<int>, lists: seq<seq<int>>, tiles: Tiles)
  {
    && FreeOk(heads, next, lists, tiles, top) && UsedOk(tiles)
    && Canonical(tiles, top)
    && IndexOk(vstart, buckets, LiveOf(tiles)) && PoolOk(buckets, pool, nodes)
    && Pages(top) <= nodes
  }

  class Allocator {
    const vstart: int
    const top: nat
    const nodes: nat
    var heads: seq<int>
    var next: Words
    var buckets: seq<seq<Node>>
    var pool: seq<int>
    ghost var lists: seq<seq<int>>
    ghost var tiles: Tiles

    ghost predicate Shape()
      reads this
    {
      FreeOk(heads, next, lists, tiles, top) && UsedOk(tiles)
    }

    ghost predicate Indexed(live: map<int, int>)
      reads this
    {
      IndexOk(vstart, buckets, live) && PoolOk(buckets, pool, nodes)
    }

    ghost predicate Valid()
      reads this
    {
      AllocatorOk(vstart, top, nodes, heads, next, buckets, pool, lists, tiles)
    }

    /** buddyInit: one free block of the largest order, whose first word is 0. */
    constructor (start: int, end: int)
      requires 0 <= start && 3 * PGSIZE <= end - PageRoundUp(start) && end - start <= 0x2000_0000
      ensures Valid() && LiveOf(tiles) == map[] && tiles == map[0 := Free(top)]
      ensures start <= vstart && vstart % PGSIZE == 0 && vstart + Size(top) <= end
    {
      var l := Bfreerange(start, end);
      var cells := LinkNodeList(l);
      vstart, top, nodes := l.base, l.order, l.Nodes();
      heads := seq(ORDERS, o => if o == l.order then 0 else NIL);
      next := map[0 := NIL];
      buckets, pool := [[], [], []], cells;
      lists := seq(ORDERS, o => if o == l.order then [0] else []);
      tiles := map[0 := Free(l.order)];
      new;
      InitialTiling(top);
      assert UsedCells(buckets) == multiset{};
    }

    /** The last step of divideOrder: the head of the target order goes to the caller. */
    method Take(o: nat, ghost size: int) returns (a: int)
      requires Shape() && o < ORDERS && heads[o] != NIL && CanonicalExcept(tiles, top, heads[o])
      requires 1 <= size <= MAXSIZE && IsOrder(size, o)
      modifies this`heads, this`lists, this`tiles
      ensures Shape() && Canonical(tiles, top)
      ensures a == old(heads[o]) && a in old(tiles) && old(tiles)[a] == Free(o)
      ensures tiles == old(tiles)[a := Used(o, size)]
    {
      HeadIsFree(heads, next, lists, tiles, top, o);
      TakeHead(heads, next, lists, tiles, top, o, size);
      a := heads[o];
      heads := heads[o := next[a]];
      lists := lists[o := lists[o][1..]];
      tiles := tiles[a := Used(o, size)];
      TakenCanonical(old(tiles), top, a, o, size);
    }

    /** One level of divideOrder: the head of order o + 1 becomes two free blocks of order o, the
        lower one in front. */
    method Split(o: nat)
      requires Shape() && o + 1 < ORDERS && heads[o + 1] != NIL && CanonicalExcept(tiles, top, heads[o + 1])
      modifies this`heads, this`next, this`lists, this`tiles
      ensures Shape() && heads[o] == old(heads[o + 1]) && CanonicalExcept(tiles, top, heads[o])
      ensures LiveOf(tiles) == LiveOf(old(tiles)) && SplitAt(old(tiles), tiles, heads[o], o)
    {
      SplitKeeps(heads, next, lists, tiles, top, o);
      var chunk, address := RelinkHalves(o);
      lists := lists[o + 1 := lists[o + 1][1..]][o := [chunk, address] + lists[o]];
      tiles := tiles[chunk := Free(o)][address := Free(o)];
    }

    /** The pointer updates of a split. */
    method RelinkHalves(o: nat) returns (chunk: int, address: int)
      requires |heads| == ORDERS && o + 1 < ORDERS && heads[o + 1] in next
      modifies this`heads, this`next
      ensures chunk == old(heads[o + 1]) && address == chunk + Size(o)
      ensures heads == old(heads)[o + 1 := old(next)[chunk]][o := chunk]
      ensures next == old(next)[address := old(heads)[o]][chunk := address]
    {
      chunk := heads[o + 1];
      heads := heads[o + 1 := next[chunk]];
      var space := HalfSize(o + 1);
      address := chunk + space;
      next := next[address := heads[o]];
      heads := heads[o := address];
      next := next[chunk := heads[o]];
      heads := heads[o := chunk];
    }

    /** divideOrder: the returned block is the lowest part of the head of allocOrder. */
    method DivideOrder(targetOrder: nat, allocOrder: nat, ghost size: int) returns (a: int)
      requires Shape() && targetOrder <= allocOrder < ORDERS && heads[allocOrder] != NIL
      requires CanonicalExcept(tiles, top, heads[allocOrder])
      requires 1 <= size <= MAXSIZE && IsOrder(size, targetOrder)
      modifies this`heads, this`next, this`lists, this`tiles
      ensures Shape() && Canonical(tiles, top)
      ensures a == old(heads[allocOrder]) && a !in LiveOf(old(tiles))
      ensures LiveOf(tiles) == LiveOf(old(tiles))[a := size]
      ensures a in tiles && tiles[a] == Used(targetOrder, size)
      ensures CutFrom(old(tiles), tiles, a, allocOrder, targetOrder, size)
      decreases allocOrder
    {
      if targetOrder == allocOrder {
        a := Take(allocOrder, size);
        LiveAdd(old(tiles), a, allocOrder, size);
      } else {
        Split(allocOrder - 1);
        ghost var t := tiles;
        a := DivideOrder(targetOrder, allocOrder - 1, size);
        CutStep(old(tiles), t, tiles, a, allocOrder, targetOrder, size);
      }
    }

    /** addSize with createNode: the pool always has a node for a block that was just carved out. */
    method AddSize(start: int, size: int, ghost live: map<int, int>)
      requires Indexed(live) && start !in live && |live| < nodes
      modifies this`buckets, this`pool
      ensures Indexed(live[start := size])
    {
      PoolHasRoom(vstart, buckets, pool, nodes, live);
      AddKeeps(vstart, buckets, pool, nodes, live, start, size);
      var newNode := Node(start, size, pool[0]);
      pool := pool[1..];
      var hashIndex := Hash(vstart, start);
      buckets := buckets[hashIndex := [newNode] + buckets[hashIndex]];
    }

    /** dmalloc's search for a non-empty list; maxOrder + 1 if there is none. */
    method FindOrder(targetOrder: nat) returns (allocOrder: nat)
      requires Shape()
      ensures targetOrder <= allocOrder
      ensures allocOrder <= top ==> heads[allocOrder] != NIL
      ensures forall o :: targetOrder <= o < allocOrder && o <= top ==> heads[o] == NIL
    {
      allocOrder := targetOrder;
      while allocOrder <= top && heads[allocOrder] == NIL
        invariant targetOrder <= allocOrder
        invariant forall o :: targetOrder <= o < allocOrder && o <= top ==> heads[o] == NIL
      {
        allocOrder := allocOrder + 1;
      }
    }

    /** divideOrder, then addSize. */
    method Carve(targetOrder: nat, allocOrder: nat, size: int) returns (a: int)
      requires Valid() && targetOrder <= allocOrder <= top && heads[allocOrder] != NIL
      requires 1 <= size <= MAXSIZE && IsOrder(size, targetOrder)
      modifies this
      ensures Valid()
      ensures a !in LiveOf(old(tiles)) && LiveOf(tiles) == LiveOf(old(tiles))[a := size]
      ensures a in tiles && tiles[a] == Used(targetOrder, size)
      ensures a == old(heads[allocOrder]) && CutFrom(old(tiles), tiles, a, allocOrder, targetOrder, size)
    {
      ghost var live := LiveOf(tiles);
      a := DivideOrder(targetOrder, allocOrder, size);
      RoomForOne(tiles, top, live, a);
      AddSize(a, size, live);
    }

    /** dmalloc for more than half a page.  None stands for the panic "out of memory". */
    method Alloc(size: int) returns (r: Option<int>)
      requires Valid() && 1 <= size <= MAXSIZE
      modifies this
      ensures Valid()
      ensures r.Some? <==> Fits(old(tiles), size)
      ensures r.None? ==> tiles == old(tiles)
      ensures r.Some? ==>
                && r.value !in LiveOf(old(tiles))
                && LiveOf(tiles) == LiveOf(old(tiles))[r.value := size]
                && r.value in tiles && tiles[r.value].Used? && size <= Size(tiles[r.value].order)
                && BestFit(old(tiles), old(heads), tiles, size, r.value)
    {
      var targetOrder := CalOrder(size);
      var allocOrder := FindOrder(targetOrder);
      FitsIff(heads, next, lists, tiles, top, size, targetOrder, allocOrder);
      if allocOrder <= top {
        LeastOrder(heads, next, lists, tiles, top, size, targetOrder, allocOrder);
        var a := Carve(targetOrder, allocOrder, size);
        OpenBestFit(old(tiles), old(heads), tiles, size, a);
        return Some(a);
      }
      r := None;
    }

    /** removeSize: the recorded size, or -1 for an address the index does not know. */
    method RemoveSize(start: int, ghost live: map<int, int>) returns (size: int)
      requires Indexed(live) && forall k :: k in live ==> live[k] >= 1
      modifies this`buckets, this`pool
      ensures start in live ==> size == live[start] && Indexed(live - {start})
      ensures start !in live ==> size == -1 && buckets == old(buckets) && pool == old(pool)
    {
      var hashIndex := Hash(vstart, start);
      var chain := buckets[hashIndex];
      var i := 0;
      while i < |chain|
        invariant 0 <= i <= |chain|
        invariant forall j :: 0 <= j < i ==> chain[j].key != start
      {
        if chain[i].key == start {
          RemoveKeeps(vstart, buckets, pool, nodes, live, hashIndex, i);
          size := chain[i].value;
          buckets := buckets[hashIndex := chain[..i] + chain[i + 1..]];
          pool := [chain[i].cell] + pool;
          return;
        }
        i := i + 1;
      }
      assert ChainOk(vstart, chain, hashIndex, live);
      assert forall j :: 0 <= j < |chain| ==> Keys(chain)[j] != start;
      size := -1;
    }

    /** dfree's first step on the lists: the block goes to the front of its order. */
    method PutBack(a: int, o: nat)
      requires Shape() && Canonical(tiles, top) && a in tiles && tiles[a].Used? && tiles[a].order == o
      modifies this`heads, this`next, this`lists, this`tiles
      ensures Shape() && o < ORDERS && heads[o] == a && CanonicalExcept(tiles, top, a)
      ensures tiles == old(tiles)[a := Free(o)]
    {
      PushFree(heads, next, lists, tiles, o, a);
      RetypeTiling(tiles, top, a, Free(o));
      next := next[a := heads[o]];
      heads := heads[o := a];
      lists := lists[o := [a] + lists[o]];
      tiles := tiles[a := Free(o)];
      FreedCanonical(old(tiles), top, a, o);
    }

    /** mergeOrder */
    method MergeOrder(targetOrder: nat)
      requires Shape() && targetOrder < ORDERS && heads[targetOrder] != NIL
      requires CanonicalExcept(tiles, top, heads[targetOrder])
      modifies this`heads, this`next, this`lists, this`tiles
      ensures Shape() && Canonical(tiles, top)
      ensures LiveOf(tiles) == LiveOf(old(tiles)) && InFront(heads, old(heads[targetOrder]), targetOrder)
      decreases ORDERS - targetOrder
    {
      var targetList := heads[targetOrder];
      HeadIsFree(heads, next, lists, tiles, top, targetOrder);
      var space := DoubleSize(targetOrder);
      var buddy, mergeAddress;
      if targetList % space == 0 {
        buddy, mergeAddress := targetList + space / 2, targetList;
      } else {
        buddy := targetList - space / 2;
        mergeAddress := buddy;
      }
      BuddyFacts(targetList, targetOrder);
      var found, prevList := FindBuddy(targetOrder, buddy);
      if found {
        Join(targetOrder, buddy, prevList, mergeAddress);
        MergeOrder(targetOrder + 1);
        FrontHolds(heads, mergeAddress, targetList, targetOrder);
      } else {
        NotMerged(lists, tiles, top, targetOrder);
      }
    }

    /** mergeOrder's walk along the list behind its head. */
    method FindBuddy(o: nat, buddy: int) returns (found: bool, prevList: int)
      requires Shape() && o < ORDERS && heads[o] != NIL
      ensures !found ==> forall i :: 1 <= i < |lists[o]| ==> lists[o][i] != buddy
      ensures found ==>
        exists j :: 1 <= j < |lists[o]| && lists[o][j] == buddy && prevList == lists[o][if j == 1 then 1 else j - 1]
    {
      HeadIsFree(heads, next, lists, tiles, top, o);
      ghost var s := lists[o];
      assert next[s[0]] == After(s, 0);
      var candidate := next[heads[o]];
      prevList := candidate;
      ghost var j := 1;
      while candidate != NIL
        invariant 1 <= j <= |s| && candidate == After(s, j - 1)
        invariant j < |s| ==> prevList == s[if j == 1 then 1 else j - 1]
        invariant forall i :: 1 <= i < j ==> s[i] != buddy
        decreases |s| - j
      {
        if candidate == buddy {
          return true, prevList;
        }
        prevList := candidate;
        assert next[s[j]] == After(s, j);
        candidate := next[candidate];
        j := j + 1;
      }
      found := false;
    }

    /** mergeOrder's relinking: both buddies leave order o, their union joins order o + 1. */
    method Join(o: nat, buddy: int, prevList: int, mergeAddress: int)
      requires Shape() && o < ORDERS && heads[o] != NIL && CanonicalExcept(tiles, top, heads[o])
      requires buddy == Buddy(heads[o], o) && mergeAddress == if heads[o] < buddy then heads[o] else buddy
      requires exists j ::
        1 <= j < |lists[o]| && lists[o][j] == buddy && prevList == lists[o][if j == 1 then 1 else j - 1]
      modifies this`heads, this`next, this`lists, this`tiles
      ensures Shape() && o + 1 < ORDERS && heads[o + 1] == mergeAddress && mergeAddress != NIL
      ensures CanonicalExcept(tiles, top, mergeAddress)
      ensures LiveOf(tiles) == LiveOf(old(tiles))
    {
      ghost var j :| 1 <= j < |lists[o]| && lists[o][j] == buddy && prevList == lists[o][if j == 1 then 1 else j - 1];
      JoinKeeps(heads, next, lists, tiles, top, o, j);
      ghost var x := AfterJoin(heads, next, lists, tiles, o, j);
      Relink(o, buddy, prevList, mergeAddress, j);
      lists, tiles := x.lists, x.tiles;
    }

    method Relink(o: nat, buddy: int, prevList: int, mergeAddress: int, ghost j: nat)
      requires AllLinked(heads, next, lists) && o + 1 < ORDERS && 1 <= j < |lists[o]| && NoRepeats(lists[o])
      requires lists[o][j] == buddy && prevList == lists[o][if j == 1 then 1 else j - 1]
      requires mergeAddress == if heads[o] < buddy then heads[o] else buddy
      modifies this`heads, this`next
      ensures var x := AfterJoin(old(heads), old(next), lists, tiles, o, j); heads == x.heads && next == x.next
    {
      ghost var s := lists[o];
      assert Linked(heads[o], next, s);
      assert next[s[0]] == After(s, 0);
      heads := heads[o := next[heads[o]]];
      if prevList == buddy {
        assert j == 1;
        heads := heads[o := next[buddy]];
      } else {
        next := next[prevList := next[buddy]];
      }
      next := next[mergeAddress := heads[o + 1]];
      heads := heads[o + 1 := mergeAddress];
    }

    /** dfree of a buddy block.  False stands for the panic on an unknown address. */
    method Release(address: int) returns (ok: bool)
      requires Valid()
      modifies this
      ensures Valid()
      ensures ok <==> address in LiveOf(old(tiles))
      ensures LiveOf(tiles) == LiveOf(old(tiles)) - {address}
      ensures !ok ==> tiles == old(tiles)
      ensures ok ==> address in old(tiles) && InFront(heads, address, old(tiles)[address].order)
    {
      ghost var live := LiveOf(tiles);
      var size := RemoveSize(address, live);
      if size <= 0 { return false; }
      var order := CalOrder(size);
      OrderUnique(size, order, tiles[address].order);
      Recycle(address, order);
      ok := true;
    }

    /** The block goes back to its list and merges upwards. */
    method Recycle(address: int, order: nat)
      requires Shape() && Canonical(tiles, top) && address in tiles && tiles[address].Used?
      requires tiles[address].order == order
      modifies this`heads, this`next, this`lists, this`tiles
      ensures Shape() && Canonical(tiles, top)
      ensures LiveOf(tiles) == LiveOf(old(tiles)) - {address} && InFront(heads, address, order)
    {
      LiveLess(tiles, address, order);
      PutBack(address, order);
      MergeOrder(order);
    }
  }

  /** The free block that holds the block of order k at a is the first of its list. */
  ghost predicate InFront(heads: seq<int>, a: int, k: nat) {
    exists o: nat :: k <= o < |heads| && heads[o] != NIL && heads[o] <= a && a + Size(k) <= heads[o] + Size(o)
  }

  lemma FrontHolds(heads: seq<int>, m: int, a: int, k: nat)
    requires InFront(heads, m, k + 1) && (a == m || a == m + Size(k))
    ensures InFront(heads, a, k)
  {
    var o: nat :| k + 1 <= o < |heads| && heads[o] != NIL && heads[o] <= m && m + Size(k + 1) <= heads[o] + Size(o);
    assert k <= o && heads[o] <= a && a + Size(k) <= heads[o] + Size(o);
  }

  lemma LiveLess(t: Tiles, a: int, o: nat)
    requires a in t && t[a].Used?
    ensures LiveOf(t[a := Free(o)]) == LiveOf(t) - {a}
  {
  }

  /** mergeOrder's loop: twice a block of this order, in bytes. */
  method DoubleSize(order: nat) returns (space: int)
    ensures space == Size(order + 1)
  {
    space := PGSIZE;
    var o: int := order;
    while o >= 0
      invariant -1 <= o <= order && space == Size(order - o)
    {
      space := space * 2;
      o := o - 1;
    }
  }

  /** divideOrder's loop: half of a block of this order, in bytes. */
  method HalfSize(order: nat) returns (bytes: int)
    requires order >= 1
    ensures bytes == Size(order - 1)
  {
    var cnt, space := order - 1, 1;
    while cnt != 0
      invariant 0 <= cnt <= order - 1
      invariant space * PGSIZE == Size(order - 1 - cnt)
    {
      space := space * 2;
      cnt := cnt - 1;
    }
    bytes := space * PGSIZE;
  }

  // ----- which block is split -----

  /** The free block of order o + 1 at c is now two of order o. */
  ghost predicate SplitAt(t: Tiles, u: Tiles, c: int, o: nat) {
    c in t && t[c] == Free(o + 1) && c + Size(o) !in t && u == t[c := Free(o)][c + Size(o) := Free(o)]
  }

  lemma SplitKeeps(heads: seq<int>, next: Words, lists: seq<seq<int>>, t: Tiles, top: nat, o: nat)
    requires FreeOk(heads, next, lists, t, top) && UsedOk(t) && o + 1 < ORDERS && heads[o + 1] != NIL
    requires CanonicalExcept(t, top, heads[o + 1])
    ensures heads[o + 1] in t && lists[o + 1] != [] && heads[o + 1] in next
    ensures var c := heads[o + 1];
            var b := c + Size(o);
            var u := t[c := Free(o)][b := Free(o)];
            && FreeOk(heads[o + 1 := next[c]][o := c], next[b := heads[o]][c := b],
                 lists[o + 1 := lists[o + 1][1..]][o := [c, b] + lists[o]], u, top)
            && UsedOk(u) && CanonicalExcept(u, top, c) && LiveOf(u) == LiveOf(t) && SplitAt(t, u, c, o)
  {
    SplitLists(heads, next, lists, t, top, o);
    SplitRest(t, top, heads[o + 1], o);
    SplitTiling(t, top, heads[o + 1], o);
  }

  /** The upper half of a block of order k + 1 at a. */
  ghost function Half(a: int, k: nat): int { a + Size(k) }

  /** From t to u the free block of order o at a was split down to `target`: its lowest part is in use
      for `size` bytes, its upper halves are free, and every other block is as it was. */
  ghost predicate CutFrom(t: Tiles, u: Tiles, a: int, o: nat, target: nat, size: int) {
    && a in t && t[a] == Free(o) && a in u && u[a] == Used(target, size) && target <= o
    && (forall k :: target <= k < o ==> Half(a, k) !in t && Half(a, k) in u && u[Half(a, k)] == Free(k))
    && (forall x :: x in t && x != a ==> x in u && u[x] == t[x])
    && (forall x :: x in u ==> x in t || exists k :: target <= k < o && x == Half(a, k))
  }

  lemma CutStep(t: Tiles, m: Tiles, u: Tiles, a: int, o: nat, target: nat, size: int)
    requires 1 <= o && target < o && SplitAt(t, m, a, o - 1) && CutFrom(m, u, a, o - 1, target, size)
    ensures CutFrom(t, u, a, o, target, size)
  {
    var b := Half(a, o - 1);
    assert b == a + Size(o - 1) && b in m && b !in t && b != a;
    assert forall x :: x in m <==> x in t || x == b;
    forall k | target <= k < o ensures Half(a, k) !in t && Half(a, k) in u && u[Half(a, k)] == Free(k) { }
    forall x | x in u && x !in t ensures exists k :: target <= k < o && x == Half(a, k) {
      if x != b {
        var k :| target <= k < o - 1 && x == Half(a, k);
        assert target <= k < o && x == Half(a, k);
      }
    }
  }

  /** o is the least order of a free block that holds `size`. */
  ghost predicate Least(t: Tiles, size: int, o: nat) {
    size <= Size(o) && forall x :: x in t && t[x].Free? && size <= Size(t[x].order) ==> o <= t[x].order
  }

  /** The block handed out is the first of the smallest free blocks that hold the size, split no further
      than needed. */
  ghost predicate BestFitOpen(t: Tiles, heads: seq<int>, u: Tiles, size: int, a: int) {
    exists o: nat, target: nat ::
      CutFrom(t, u, a, o, target, size) && Least(t, size, o) && IsOrder(size, target) && o < |heads| && a == heads[o]
  }

  ghost predicate BestFit(t: Tiles, heads: seq<int>, u: Tiles, size: int, a: int) {
    forall k {:trigger Key(k, (t, heads, u, size, a))} :: Key(k, (t, heads, u, size, a)) ==>
      BestFitOpen(t, heads, u, size, a)
  }

  lemma OpenBestFit(t: Tiles, heads: seq<int>, u: Tiles, size: int, a: int)
    ensures BestFit(t, heads, u, size, a) <==> BestFitOpen(t, heads, u, size, a)
  {
    assert Key(0, (t, heads, u, size, a));
  }

  lemma LeastOrder(heads: seq<int>, next: Words, lists: seq<seq<int>>, t: Tiles, top: nat, size: int, target: nat,
                   alloc: nat)
    requires FreeOk(heads, next, lists, t, top) && IsOrder(size, target) && target <= alloc <= top
    requires forall o :: target <= o < alloc && o <= top ==> heads[o] == NIL
    ensures Least(t, size, alloc)
  {
    SizeMonotone(target, alloc);
    forall x | x in t && t[x].Free? && size <= Size(t[x].order) ensures alloc <= t[x].order {
      var o := t[x].order;
      if o < target { SizeMonotone(o, target - 1); }
      assert x in lists[o];
      HeadIsFree(heads, next, lists, t, top, o);
    }
  }

  lemma SplitRest(t: Tiles, top: nat, c: int, o: nat)
    requires Tiling(t, top) && UsedOk(t) && CanonicalExcept(t, top, c) && c in t && t[c] == Free(o + 1)
    ensures var u := t[c := Free(o)][c + Size(o) := Free(o)];
            Tiling(u, top) && UsedOk(u) && CanonicalExcept(u, top, c) && LiveOf(u) == LiveOf(t)
  {
    SplitTiling(t, top, c, o);
    SplitCanonical(t, top, c, o);
    SplitUsed(t, c, c + Size(o), o);
  }

  lemma SplitUsed(t: Tiles, c: int, b: int, o: nat)
    requires UsedOk(t) && c in t && t[c].Free? && b !in t
    ensures var u := t[c := Free(o)][b := Free(o)]; UsedOk(u) && LiveOf(u) == LiveOf(t)
  {
  }

  lemma TakenCanonical(t: Tiles, top: nat, a: int, o: nat, size: int)
    requires a in t && t[a] == Free(o) && CanonicalExcept(t, top, a)
    ensures Canonical(t[a := Used(o, size)], top)
  {
    var u := t[a := Used(o, size)];
    forall x, k ensures !FreePair(u, top, x, k) {
      if FreePair(u, top, x, k) { assert FreePair(t, top, x, k); }
    }
  }

  /** The lists after a split. */
  lemma SplitLists(heads: seq<int>, next: Words, lists: seq<seq<int>>, t: Tiles, top: nat, o: nat)
    requires FreeOk(heads, next, lists, t, top) && o + 1 < ORDERS && heads[o + 1] != NIL
    ensures heads[o + 1] in t && t[heads[o + 1]] == Free(o + 1) && lists[o + 1] != [] && heads[o + 1] in next
    ensures var c := heads[o + 1];
            var b := c + Size(o);
            && AllLinked(heads[o + 1 := next[c]][o := c], next[b := heads[o]][c := b],
               lists[o + 1 := lists[o + 1][1..]][o := [c, b] + lists[o]])
            && Matches(lists[o + 1 := lists[o + 1][1..]][o := [c, b] + lists[o]], t[c := Free(o)][b := Free(o)])
  {
    var c := heads[o + 1];
    var b := c + Size(o);
    HeadIsFree(heads, next, lists, t, top, o + 1);
    TakeHead(heads, next, lists, t, top, o + 1, 0);
    SplitTiling(t, top, c, o);
    PushPair(heads[o + 1 := next[c]], next, lists[o + 1 := lists[o + 1][1..]], t[c := Used(o + 1, 0)], o, c, b);
    assert t[c := Used(o + 1, 0)][b := Free(o)][c := Free(o)] == t[c := Free(o)][b := Free(o)];
  }

  /** Two blocks no list knows join the front of list o, c before b. */
  lemma PushPair(heads: seq<int>, next: Words, lists: seq<seq<int>>, t: Tiles, o: nat, c: int, b: int)
    requires AllLinked(heads, next, lists) && Matches(lists, t) && o < ORDERS && c != NIL && b != NIL && c != b
    requires (c in t ==> !t[c].Free?) && (b in t ==> !t[b].Free?)
    ensures AllLinked(heads[o := c], next[b := heads[o]][c := b], lists[o := [c, b] + lists[o]])
    ensures Matches(lists[o := [c, b] + lists[o]], t[b := Free(o)][c := Free(o)])
  {
    PushFree(heads, next, lists, t, o, b);
    PushFree(heads[o := b], next[b := heads[o]], lists[o := [b] + lists[o]], t[b := Free(o)], o, c);
    assert [c] + ([b] + lists[o]) == [c, b] + lists[o];
    assert lists[o := [b] + lists[o]][o := [c] + ([b] + lists[o])] == lists[o := [c, b] + lists[o]];
    assert heads[o := b][o := c] == heads[o := c];
  }

  /** Before the new block is indexed, fewer blocks are indexed than there are pages. */
  lemma RoomForOne(t: Tiles, top: nat, live: map<int, int>, a: int)
    requires Tiling(t, top) && a in t && live.Keys == LiveOf(t).Keys - {a} && a in LiveOf(t)
    ensures |live| < Pages(top)
  {
    TilesFit(t, top);
    assert |live.Keys| == |LiveOf(t).Keys| - 1;
    SubsetSize(LiveOf(t).Keys, t.Keys);
  }

  /** Some free block is large enough for `size` bytes. */
  ghost predicate Fits(t: Tiles, size: int) {
    exists a :: a in t && t[a].Free? && size <= Size(t[a].order)
  }

  lemma FitsIff(heads: seq<int>, next: Words, lists: seq<seq<int>>, t: Tiles, top: nat, size: int, target: nat,
                alloc: nat)
    requires FreeOk(heads, next, lists, t, top) && IsOrder(size, target) && target <= alloc
    requires alloc <= top ==> heads[alloc] != NIL
    requires forall o :: target <= o < alloc && o <= top ==> heads[o] == NIL
    ensures alloc <= top <==> Fits(t, size)
  {
    if alloc <= top {
      HeadIsFree(heads, next, lists, t, top, alloc);
      SizeMonotone(target, alloc);
    }
    if Fits(t, size) {
      var a :| a in t && t[a].Free? && size <= Size(t[a].order);
      var o := t[a].order;
      if o < target { SizeMonotone(o, target - 1); }
      assert a in lists[o];
      HeadIsFree(heads, next, lists, t, top, o);
    }
  }

  lemma FreedCanonical(t: Tiles, top: nat, a: int, o: nat)
    requires Canonical(t, top) && a in t && t[a].Used?
    ensures CanonicalExcept(t[a := Free(o)], top, a)
  {
    var u := t[a := Free(o)];
    forall x, k | FreePair(u, top, x, k) ensures x == a || Buddy(x, k) == a {
      if x != a && Buddy(x, k) != a { assert FreePair(t, top, x, k); }
    }
  }

  /** mergeOrder looked through the whole list without finding the buddy. */
  lemma NotMerged(lists: seq<seq<int>>, t: Tiles, top: nat, o: nat)
    requires Matches(lists, t) && o < ORDERS && lists[o] != []
    requires CanonicalExcept(t, top, lists[o][0]) && Placed(t, top)
    requires forall i :: 1 <= i < |lists[o]| ==> lists[o][i] != Buddy(lists[o][0], o)
    ensures Canonical(t, top)
  {
    var a := lists[o][0];
    assert a in lists[o];
    assert t[a] == Free(o);
    BuddyFacts(a, o);
    assert Buddy(a, o) !in lists[o];
    forall x, k ensures !FreePair(t, top, x, k) {
      if FreePair(t, top, x, k) { BuddyFacts(x, k); }
    }
  }

  /** What mergeOrder leaves when it finds the buddy at position j of the list. */
  datatype Joined = Joined(heads: seq<int>, next: Words, lists: seq<seq<int>>, tiles: Tiles)

  ghost function AfterJoin(heads: seq<int>, next: Words, lists: seq<seq<int>>, t: Tiles, o: nat, j: nat): Joined
    requires |heads| == |lists| == ORDERS && o + 1 < ORDERS && 1 <= j < |lists[o]| && lists[o][j] in next
  {
    var s := lists[o];
    var a, b := s[0], s[j];
    var m := if a < b then a else b;
    var h := heads[o := if j == 1 then next[b] else s[1]];
    var n := if j == 1 then next else next[s[j - 1] := next[b]];
    Joined(h[o + 1 := m], n[m := heads[o + 1]], lists[o := s[1..j] + s[j + 1..]][o + 1 := [m] + lists[o + 1]],
      (t - {a, b})[m := Free(o + 1)])
  }

  lemma JoinLists(heads: seq<int>, next: Words, lists: seq<seq<int>>, t: Tiles, top: nat, o: nat, j: nat)
    requires FreeOk(heads, next, lists, t, top) && o + 1 < ORDERS && 1 <= j < |lists[o]|
    ensures lists[o][j] in next
    ensures var x := AfterJoin(heads, next, lists, t, o, j);
      AllLinked(x.heads, x.next, x.lists) && Matches(x.lists, x.tiles)
  {
    var s := lists[o];
    var a, b := s[0], s[j];
    assert a in s && b in s;
    forall q, x | 0 <= q < ORDERS && q != o && x in lists[o] ensures x !in lists[q] {
      assert x in t && t[x] == Free(o);
    }
    UnlinkLinks(heads, next, lists, o, j);
    UnlinkMatches(lists, t, o, j);
    var m := if a < b then a else b;
    var h := heads[o := if j == 1 then next[b] else s[1]];
    var n := if j == 1 then next else next[s[j - 1] := next[b]];
    assert m in t;
    PushFree(h, n, lists[o := s[1..j] + s[j + 1..]], t - {a, b}, o + 1, m);
  }

  lemma JoinKeeps(heads: seq<int>, next: Words, lists: seq<seq<int>>, t: Tiles, top: nat, o: nat, j: nat)
    requires FreeOk(heads, next, lists, t, top) && UsedOk(t) && o < ORDERS && 1 <= j < |lists[o]|
    requires CanonicalExcept(t, top, heads[o]) && lists[o][j] == Buddy(heads[o], o)
    ensures o + 1 < ORDERS && lists[o][j] in next
    ensures var x := AfterJoin(heads, next, lists, t, o, j);
            var m := if heads[o] < lists[o][j] then heads[o] else lists[o][j];
            && FreeOk(x.heads, x.next, x.lists, x.tiles, top) && UsedOk(x.tiles)
            && CanonicalExcept(x.tiles, top, m) && LiveOf(x.tiles) == LiveOf(t)
            && x.heads[o + 1] == m && m != NIL
  {
    var s := lists[o];
    assert s[0] in s && s[j] in s;
    assert heads[o] == s[0] && t[s[0]] == Free(o) && t[s[j]] == Free(o);
    JoinTiles(t, top, s[0], o);
    JoinLists(heads, next, lists, t, top, o, j);
  }

  lemma JoinTiles(t: Tiles, top: nat, a: int, o: nat)
    requires Tiling(t, top) && UsedOk(t) && CanonicalExcept(t, top, a)
    requires a in t && t[a] == Free(o) && Buddy(a, o) in t && t[Buddy(a, o)] == Free(o)
    ensures var b := Buddy(a, o);
            var m := if a < b then a else b;
            var u := (t - {a, b})[m := Free(o + 1)];
            o + 1 <= top && Tiling(u, top) && UsedOk(u) && CanonicalExcept(u, top, m) && LiveOf(u) == LiveOf(t)
  {
    MergeTiling(t, top, a, o);
    MergeCanonical(t, top, a, o);
  }

  /** The chain of order o without its head and the block at position j. */
  lemma UnlinkChain(head: int, next: Words, s: seq<int>, j: nat)
    requires Linked(head, next, s) && NoRepeats(s) && 1 <= j < |s|
    ensures Linked(
      if j == 1 then next[s[1]] else s[1],
      if j == 1 then next else next[s[j - 1] := next[s[j]]],
      s[1..j] + s[j + 1..])
  {
    var r := s[1..];
    LinkedPop(head, next, s);
    assert next[s[0]] == After(s, 0) == s[1];
    assert s[1..j] + s[j + 1..] == r[..j - 1] + r[j..];
    if j == 1 {
      LinkedPop(s[1], next, r);
      assert r[1..] == r[..0] + r[1..];
    } else {
      LinkedSkip(s[1], next, r, j - 1);
    }
  }

  lemma UnlinkLinks(heads: seq<int>, next: Words, lists: seq<seq<int>>, o: nat, j: nat)
    requires AllLinked(heads, next, lists) && o < ORDERS && 1 <= j < |lists[o]| && NoRepeats(lists[o])
    requires forall q, x :: 0 <= q < ORDERS && q != o && x in lists[o] ==> x !in lists[q]
    ensures var s := lists[o];
            var n := if j == 1 then next else next[s[j - 1] := next[s[j]]];
            AllLinked(heads[o := if j == 1 then next[s[1]] else s[1]], n, lists[o := s[1..j] + s[j + 1..]])
  {
    var s := lists[o];
    UnlinkChain(heads[o], next, s, j);
    if j > 1 {
      forall q | 0 <= q < ORDERS && q != o ensures Linked(heads[q], next[s[j - 1] := next[s[j]]], lists[q]) {
        assert s[j - 1] in lists[o];
        LinkedFrame(heads[q], next, lists[q], s[j - 1], next[s[j]]);
      }
    }
  }

  lemma UnlinkMatches(lists: seq<seq<int>>, t: Tiles, o: nat, j: nat)
    requires Matches(lists, t) && o < ORDERS && 1 <= j < |lists[o]|
    ensures var s := lists[o]; Matches(lists[o := s[1..j] + s[j + 1..]], t - {s[0], s[j]})
  {
    var s := lists[o];
    var r := s[1..j] + s[j + 1..];
    RemoveTwo(s, j);
    var ls := lists[o := r];
    var u := t - {s[0], s[j]};
    assert s[0] in lists[o] && s[j] in lists[o];
    forall q, x | 0 <= q < ORDERS ensures x in ls[q] <==> x in u && u[x] == Free(q) {
      assert x in lists[q] <==> x in t && t[x] == Free(q);
    }
  }

  lemma RemoveTwo(s: seq<int>, j: nat)
    requires NoRepeats(s) && 1 <= j < |s|
    ensures var r := s[1..j] + s[j + 1..]; NoRepeats(r) && forall x :: x in r <==> x in s && x != s[0] && x != s[j]
  {
    var r := s[1..j] + s[j + 1..];
    RemoveAt(s, j);
    var m := s[..j] + s[j + 1..];
    RemoveAt(m, 0);
    assert m[..0] + m[1..] == r;
  }

  lemma InitialTiling(top: nat)
    ensures Tiling(map[0 := Free(top)], top) && Canonical(map[0 := Free(top)], top)
  {
    var t: Tiles := map[0 := Free(top)];
    forall p | 0 <= p < Size(top) ensures Covered(t, p) { assert Covers(t, 0, p); }
  }

  /** Blocks in use do not overlap, lie in the region, and hold what was asked for. */
  lemma LiveApart(t: Tiles, top: nat)
    requires Tiling(t, top) && UsedOk(t)
    ensures forall a :: a in LiveOf(t) ==> 0 <= a && a + LiveOf(t)[a] <= Size(top) && a % PGSIZE == 0
    ensures forall a, b :: a in LiveOf(t) && b in LiveOf(t) && a < b ==>
      a + Size(t[a].order) <= b && a + LiveOf(t)[a] <= b
  {
    forall a | a in LiveOf(t) ensures 0 <= a && a + LiveOf(t)[a] <= Size(top) && a % PGSIZE == 0 {
      AlignedDown(a, 0, t[a].order);
    }
  }

  /** Once every block has been freed the allocator is back in its initial state. */
  lemma AllFreedIsInitial(t: Tiles, top: nat)
    requires Tiling(t, top) && Canonical(t, top) && LiveOf(t) == map[]
    ensures t == map[0 := Free(top)]
  {
    forall a | a in t ensures t[a].Free? {
      assert a !in LiveOf(t);
    }
    AllFreeIsOneBlock(t, top);
  }

  /** The live blocks determine all blocks, the free ones included. */
  lemma LiveDetermines(t: Tiles, u: Tiles, top: nat)
    requires Tiling(t, top) && UsedOk(t) && Canonical(t, top)
    requires Tiling(u, top) && UsedOk(u) && Canonical(u, top) && LiveOf(t) == LiveOf(u)
    ensures t == u
  {
    forall a | a in t && t[a].Used? ensures a in u && u[a] == t[a] { SameTile(t, u, a); }
    forall a | a in u && u[a].Used? ensures a in t && t[a] == u[a] { SameTile(u, t, a); }
    BuddyUnique.CanonicalUnique(t, u, top);
  }

  lemma SameTile(t: Tiles, u: Tiles, a: int)
    requires UsedOk(t) && UsedOk(u) && LiveOf(t) == LiveOf(u) && a in t && t[a].Used?
    ensures a in u && u[a] == t[a]
  {
    assert a in LiveOf(t) && a in LiveOf(u);
    OrderUnique(t[a].size, t[a].order, u[a].order);
  }

  /** Freeing what was allocated brings the blocks back as they were. */
  lemma ReleaseUndoesAlloc(t: Tiles, u: Tiles, w: Tiles, top: nat, a: int, size: int)
    requires Tiling(t, top) && UsedOk(t) && Canonical(t, top) && Tiling(w, top) && UsedOk(w) && Canonical(w, top)
    requires a !in LiveOf(t) && LiveOf(u) == LiveOf(t)[a := size] && LiveOf(w) == LiveOf(u) - {a}
    ensures w == t
  {
    AddedAndRemoved(LiveOf(t), a, size);
    LiveDetermines(t, w, top);
  }

  lemma AddedAndRemoved(l: map<int, int>, a: int, size: int)
    requires a !in l
    ensures l[a := size] - {a} == l
  {
  }
}
