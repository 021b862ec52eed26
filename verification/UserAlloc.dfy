/** malloc and free of user programs (umalloc.c:24-90). */
module UserAlloc {
  import opened Basics
  import opened UserAllocSpec

  const NIL := -1

  /** The last block that starts below bp. */
  ghost function LastBelow(l: seq<Block>, bp: int): (k: nat)
    requires Sorted(l) && bp > BASE
    ensures k < |l| && l[k].a < bp && (k + 1 < |l| ==> bp <= l[k + 1].a)
  {
    LastBelowFrom(l, bp, |l| - 1)
  }

  ghost function LastBelowFrom(l: seq<Block>, bp: int, j: nat): (k: nat)
    requires Sorted(l) && bp > BASE && j < |l| && (j + 1 < |l| ==> bp <= l[j + 1].a)
    ensures k < |l| && l[k].a < bp && (k + 1 < |l| ==> bp <= l[k + 1].a)
    decreases j
  {
    if l[j].a < bp then j else LastBelowFrom(l, bp, j - 1)
  }

  // ----- the list after a free -----

  /** Like Sorted, but neighbours may touch. */
  ghost predicate Ordered(l: seq<Block>) {
    && l != [] && l[0] == Block(BASE, 0)
    && (forall i :: 0 < i < |l| ==> l[i].n >= 1)
    && (forall i, j :: 0 <= i < j < |l| ==> l[i].a + l[i].n <= l[j].a)
    && (|l| > 1 ==> l[1].a > BASE)
  }

  function Inserted(l: seq<Block>, k: nat, b: Block): (r: seq<Block>)
    requires k < |l|
    ensures |r| == |l| + 1
  {
    l[..k + 1] + [b] + l[k + 1..]
  }

  /** Blocks j and j + 1 made one. */
  function Fused(l: seq<Block>, j: nat): (r: seq<Block>)
    requires j + 1 < |l|
    ensures |r| == |l| - 1
  {
    l[..j] + [Block(l[j].a, l[j].n + l[j + 1].n)] + l[j + 2..]
  }

  predicate TouchesNext(l: seq<Block>, k: nat, b: Block) { k + 1 < |l| && b.a + b.n == l[k + 1].a }
  predicate TouchesPrev(l: seq<Block>, k: nat, b: Block) { k < |l| && l[k].a + l[k].n == b.a }

  /** The list after freeing b, which lies behind block k. */
  function Joined(l: seq<Block>, k: nat, b: Block): (r: seq<Block>)
    requires k < |l|
  {
    var l1 := Inserted(l, k, b);
    var l2 := if TouchesNext(l, k, b) then Fused(l1, k + 1) else l1;
    if TouchesPrev(l, k, b) then Fused(l2, k) else l2
  }

  /** b lies in the gap after block k. */
  ghost predicate Gap(l: seq<Block>, k: nat, b: Block) {
    && k < |l| && b.n >= 1 && l[k].a < b.a && l[k].a + l[k].n <= b.a
    && (k + 1 < |l| ==> b.a + b.n <= l[k + 1].a)
  }

  lemma InsertedAt(l: seq<Block>, k: nat, b: Block, i: nat)
    requires k < |l| && i <= |l|
    ensures Inserted(l, k, b)[i] == if i <= k then l[i] else if i == k + 1 then b else l[i - 1]
  {
  }

  lemma InsertedOrdered(l: seq<Block>, k: nat, b: Block)
    requires Sorted(l) && Gap(l, k, b)
    ensures Ordered(Inserted(l, k, b))
  {
    var r := Inserted(l, k, b);
    forall i, j | 0 <= i < j < |r| ensures r[i].a + r[i].n <= r[j].a && r[j].n >= 1 && r[j].a > BASE {
      InsertedAt(l, k, b, i);
      InsertedAt(l, k, b, j);
      if i <= k && j == k + 1 { assert l[i].a + l[i].n <= b.a; }
      if i == k + 1 { assert b.a + b.n <= l[j - 1].a; }
    }
    InsertedAt(l, k, b, 0);
  }

  lemma InsertedSet(l: seq<Block>, k: nat, b: Block)
    requires k < |l|
    ensures FreeSet(Inserted(l, k, b)) == FreeSet(l) + {b}
  {
    var r := Inserted(l, k, b);
    forall c ensures c in FreeSet(r) <==> c in FreeSet(l) + {b} {
      if c in FreeSet(r) {
        var i :| 1 <= i < |r| && r[i] == c;
        InsertedAt(l, k, b, i);
      }
      if c in FreeSet(l) {
        var i :| 1 <= i < |l| && l[i] == c;
        InsertedAt(l, k, b, if i <= k then i else i + 1);
        assert r[if i <= k then i else i + 1] == c;
      }
      if c == b { assert r[k + 1] == c; }
    }
  }

  lemma FusedAt(l: seq<Block>, j: nat, i: nat)
    requires j + 1 < |l| && i < |l| - 1
    ensures Fused(l, j)[i] == if i < j then l[i] else if i == j then Block(l[j].a, l[j].n + l[j + 1].n) else l[i + 1]
  {
  }

  lemma FusedOrdered(l: seq<Block>, j: nat)
    requires Ordered(l) && 1 <= j && j + 1 < |l| && l[j].a + l[j].n == l[j + 1].a
    ensures Ordered(Fused(l, j))
  {
    var r := Fused(l, j);
    forall h, i | 0 <= h < i < |r| ensures r[h].a + r[h].n <= r[i].a && r[i].n >= 1 && r[i].a > BASE {
      FusedAt(l, j, h);
      FusedAt(l, j, i);
      assert l[i].a >= l[1].a;
    }
    FusedAt(l, j, 0);
  }

  lemma NotFused(l: seq<Block>, j: nat, i: nat)
    requires Ordered(l) && 1 <= j && j + 1 < |l| && 1 <= i < |l| && i != j && i != j + 1
    ensures l[i] != l[j] && l[i] != l[j + 1] && l[i] in FreeSet(l)
  {
  }

  lemma FusedSet(l: seq<Block>, j: nat)
    requires Ordered(l) && 1 <= j && j + 1 < |l| && l[j].a + l[j].n == l[j + 1].a
    ensures FreeSet(Fused(l, j)) == FreeSet(l) - {l[j], l[j + 1]} + {Block(l[j].a, l[j].n + l[j + 1].n)}
  {
    var r := Fused(l, j);
    var m := Block(l[j].a, l[j].n + l[j + 1].n);
    forall c | c in FreeSet(r) ensures c in FreeSet(l) - {l[j], l[j + 1]} + {m} {
      var i :| 1 <= i < |r| && r[i] == c;
      FusedAt(l, j, i);
      if i != j { NotFused(l, j, if i < j then i else i + 1); }
    }
    forall c | c in FreeSet(l) - {l[j], l[j + 1]} + {m} ensures c in FreeSet(r) { FusedHas(l, j, c); }
  }

  lemma FusedHas(l: seq<Block>, j: nat, c: Block)
    requires 1 <= j && j + 1 < |l| && c in FreeSet(l) - {l[j], l[j + 1]} + {Block(l[j].a, l[j].n + l[j + 1].n)}
    ensures c in FreeSet(Fused(l, j))
  {
    var r := Fused(l, j);
    if c in FreeSet(l) && c != l[j] && c != l[j + 1] {
      var i :| 1 <= i < |l| && l[i] == c;
      FusedAt(l, j, if i < j then i else i - 1);
      assert r[if i < j then i else i - 1] == c;
    } else {
      assert r[j] == c;
    }
  }

  /** The memory after a free is tiled as before, by the merged list and the other live blocks. */
  lemma JoinedTiles(l: seq<Block>, k: nat, b: Block, rest: set<Block>, owned: set<int>)
    requires Sorted(l) && Gap(l, k, b) && FreeSet(l) !! rest && b !in rest && b !in FreeSet(l)
    requires Tiling(FreeSet(l) + {b} + rest, owned)
    ensures Tiling(FreeSet(Joined(l, k, b)) + rest, owned) && FreeSet(Joined(l, k, b)) !! rest
  {
    var l1 := Inserted(l, k, b);
    InsertedOrdered(l, k, b);
    InsertedSet(l, k, b);
    var l2 := if TouchesNext(l, k, b) then Fused(l1, k + 1) else l1;
    if TouchesNext(l, k, b) { FuseTiles(l1, k + 1, rest, owned); }
    if TouchesPrev(l, k, b) { FuseTiles(l2, k, rest, owned); }
  }

  lemma FuseTiles(l: seq<Block>, j: nat, rest: set<Block>, owned: set<int>)
    requires Ordered(l) && 1 <= j && j + 1 < |l| && l[j].a + l[j].n == l[j + 1].a
    requires FreeSet(l) !! rest && Tiling(FreeSet(l) + rest, owned)
    ensures Ordered(Fused(l, j)) && FreeSet(Fused(l, j)) !! rest && Tiling(FreeSet(Fused(l, j)) + rest, owned)
  {
    FusedOrdered(l, j);
    FusedSet(l, j);
    var m := Block(l[j].a, l[j].n + l[j + 1].n);
    assert l[j] in FreeSet(l) && l[j + 1] in FreeSet(l);
    JoinTiling(FreeSet(l) + rest, owned, l[j], l[j + 1]);
    assert m in rest ==> Apart(m, l[j]);
    assert FreeSet(l) + rest - {l[j], l[j + 1]} + {m} == FreeSet(Fused(l, j)) + rest;
  }

  /** What the merged block is, and where. */
  lemma JoinedAt(l: seq<Block>, k: nat, b: Block, i: nat)
    requires k < |l| && i < |Joined(l, k, b)|
    ensures var lo, hi := TouchesPrev(l, k, b), TouchesNext(l, k, b);
            var at, skip := if lo then k else k + 1, (if lo then 0 else 1) - (if hi then 1 else 0);
            && |Joined(l, k, b)| == |l| + skip
            && Joined(l, k, b)[i] == if i < at then l[i]
                 else if i == at then Block(if lo then l[k].a else b.a,
                   (if lo then l[k].n else 0) + b.n + (if hi then l[k + 1].n else 0))
                 else l[i - skip]
  {
  }

  lemma JoinedSorted(l: seq<Block>, k: nat, b: Block)
    requires Sorted(l) && Gap(l, k, b)
    ensures Sorted(Joined(l, k, b))
  {
    var r := Joined(l, k, b);
    forall i, j | 0 <= i < j < |r| ensures r[i].a + r[i].n < r[j].a && r[j].n >= 1 {
      JoinedAt(l, k, b, i);
      JoinedAt(l, k, b, j);
    }
    JoinedAt(l, k, b, 0);
  }

  // ----- the links after a free -----

  /** The two conditional updates of free, on the ptr and size fields. */
  function FreedNext(ptr: map<int, int>, size: map<int, int>, p: int, bp: int): (map<int, int>, map<int, int>)
    requires p in ptr && bp in size && ptr[p] in ptr && ptr[p] in size
  {
    if bp + size[bp] == ptr[p] then (ptr[bp := ptr[ptr[p]]], size[bp := size[bp] + size[ptr[p]]])
    else (ptr[bp := ptr[p]], size)
  }

  function FreedPrev(ptr: map<int, int>, size: map<int, int>, p: int, bp: int): (map<int, int>, map<int, int>)
    requires p in size && bp in size && bp in ptr
  {
    if p + size[p] == bp then (ptr[p := ptr[bp]], size[p := size[p] + size[bp]])
    else (ptr[p := bp], size)
  }

  /** What they come to: block k and b point past what was merged. */
  lemma FreedFields(ptr: map<int, int>, size: map<int, int>, l: seq<Block>, k: nat, b: Block)
    requires Sorted(l) && Linked(ptr, size, l) && Gap(l, k, b) && b.a in size && size[b.a] == b.n
    ensures l[k].a in ptr && ptr[l[k].a] in ptr && ptr[l[k].a] in size
    ensures var (ptr1, size1) := FreedNext(ptr, size, l[k].a, b.a);
            && l[k].a in size1 && b.a in size1 && b.a in ptr1
            && var (ptr2, size2) := FreedPrev(ptr1, size1, l[k].a, b.a);
               ptr2 == PtrAfter(ptr, l, k, b) && size2 == SizeAfter(size, l, k, b)
  {
    assert LinkOk(ptr, size, l, k) && LinkOk(ptr, size, l, Succ(l, k));
    assert b.a + b.n == l[Succ(l, k)].a <==> TouchesNext(l, k, b);
    assert b.a != l[k].a;
    assert size[b.a := b.n] == size;
  }

  /** No free block but k starts at k's address, and none at b's. */
  lemma OthersApart(l: seq<Block>, k: nat, b: Block, i: nat)
    requires Sorted(l) && Gap(l, k, b) && i < |l|
    ensures l[i].a != b.a && (i != k ==> l[i].a != l[k].a)
  {
  }

  /** The fields after freeing b behind block k. */
  function PtrAfter(ptr: map<int, int>, l: seq<Block>, k: nat, b: Block): map<int, int>
    requires k < |l|
  {
    var next := l[if TouchesNext(l, k, b) then Succ(l, k + 1) else Succ(l, k)].a;
    ptr[b.a := next][l[k].a := if TouchesPrev(l, k, b) then next else b.a]
  }

  function SizeAfter(size: map<int, int>, l: seq<Block>, k: nat, b: Block): map<int, int>
    requires k < |l|
  {
    var n := b.n + if TouchesNext(l, k, b) then l[k + 1].n else 0;
    if TouchesPrev(l, k, b) then size[b.a := n][l[k].a := l[k].n + n] else size[b.a := n]
  }

  /** Blocks other than k keep their fields. */
  lemma LinkKept(ptr: map<int, int>, size: map<int, int>, l: seq<Block>, k: nat, b: Block, i: nat)
    requires Sorted(l) && Linked(ptr, size, l) && Gap(l, k, b) && i < |l| && i != k
    ensures LinkOk(PtrAfter(ptr, l, k, b), SizeAfter(size, l, k, b), l, i)
  {
    OthersApart(l, k, b, i);
    assert LinkOk(ptr, size, l, i);
  }

  /** A block before k or after the merged one keeps its place in the list. */
  lemma OuterLink(ptr: map<int, int>, size: map<int, int>, l: seq<Block>, k: nat, b: Block, i: nat, j: nat)
    requires k < |l| && i < |Joined(l, k, b)| && j < |l| && j != k && LinkOk(ptr, size, l, j)
    requires var lo, hi := TouchesPrev(l, k, b), TouchesNext(l, k, b);
             var at, skip := if lo then k else k + 1, (if lo then 0 else 1) - (if hi then 1 else 0);
             i != at && j == if i < at then i else i - skip
    ensures LinkOk(ptr, size, Joined(l, k, b), i)
  {
    var r := Joined(l, k, b);
    JoinedAt(l, k, b, i);
    JoinedAt(l, k, b, Succ(r, i));
  }

  /** The merged block, and block k when it is not part of it. */
  lemma InnerLink(ptr: map<int, int>, size: map<int, int>, l: seq<Block>, k: nat, b: Block, i: nat)
    requires k < |l| && i < |Joined(l, k, b)| && l[k].a != b.a && l[0].n == 0 && b.a > l[0].a
    requires i == (if TouchesPrev(l, k, b) then k else k + 1) || i == k
    requires LinkOk(ptr, size, l, k)
    ensures LinkOk(PtrAfter(ptr, l, k, b), SizeAfter(size, l, k, b), Joined(l, k, b), i)
  {
    var r := Joined(l, k, b);
    JoinedAt(l, k, b, i);
    JoinedAt(l, k, b, Succ(r, i));
    JoinedAt(l, k, b, 0);
  }

  lemma FreedLink(ptr: map<int, int>, size: map<int, int>, l: seq<Block>, k: nat, b: Block, i: nat)
    requires Sorted(l) && Linked(ptr, size, l) && Gap(l, k, b) && i < |Joined(l, k, b)|
    ensures LinkOk(PtrAfter(ptr, l, k, b), SizeAfter(size, l, k, b), Joined(l, k, b), i)
  {
    var lo, hi := TouchesPrev(l, k, b), TouchesNext(l, k, b);
    var at, skip := if lo then k else k + 1, (if lo then 0 else 1) - (if hi then 1 else 0);
    JoinedAt(l, k, b, i);
    if i == at || i == k {
      OthersApart(l, k, b, k);
      assert LinkOk(ptr, size, l, k);
      InnerLink(ptr, size, l, k, b, i);
    } else {
      var j := if i < at then i else i - skip;
      LinkKept(ptr, size, l, k, b, j);
      OuterLink(PtrAfter(ptr, l, k, b), SizeAfter(size, l, k, b), l, k, b, i, j);
    }
  }

  lemma FreedLinks(ptr: map<int, int>, size: map<int, int>, l: seq<Block>, k: nat, b: Block)
    requires Sorted(l) && Linked(ptr, size, l) && Gap(l, k, b)
    ensures Linked(PtrAfter(ptr, l, k, b), SizeAfter(size, l, k, b), Joined(l, k, b))
  {
    var r := Joined(l, k, b);
    forall i | 0 <= i < |r| ensures LinkOk(PtrAfter(ptr, l, k, b), SizeAfter(size, l, k, b), r, i) {
      FreedLink(ptr, size, l, k, b, i);
    }
  }

  // ----- the list after an allocation -----

  function Removed(l: seq<Block>, k: nat): (r: seq<Block>)
    requires 1 <= k < |l|
    ensures |r| == |l| - 1
  {
    l[..k] + l[k + 1..]
  }

  lemma RemovedAt(l: seq<Block>, k: nat, i: nat)
    requires 1 <= k < |l| && i < |l| - 1
    ensures Removed(l, k)[i] == l[if i < k then i else i + 1]
  {
  }

  lemma RemovedSorted(l: seq<Block>, k: nat)
    requires Sorted(l) && 1 <= k < |l|
    ensures Sorted(Removed(l, k))
  {
    var r := Removed(l, k);
    forall i, j | 0 <= i < j < |r| ensures r[i].a + r[i].n < r[j].a && r[j].n >= 1 {
      RemovedAt(l, k, i);
      RemovedAt(l, k, j);
    }
  }

  lemma RemovedSet(l: seq<Block>, k: nat)
    requires Sorted(l) && 1 <= k < |l|
    ensures FreeSet(Removed(l, k)) == FreeSet(l) - {l[k]}
  {
    var r := Removed(l, k);
    forall c ensures c in FreeSet(r) <==> c in FreeSet(l) - {l[k]} {
      if c in FreeSet(r) {
        var i :| 1 <= i < |r| && r[i] == c;
        RemovedAt(l, k, i);
        assert l[if i < k then i else i + 1] in FreeSet(l);
      }
      if c in FreeSet(l) - {l[k]} {
        var i :| 1 <= i < |l| && l[i] == c;
        RemovedAt(l, k, if i < k then i else i - 1);
        assert r[if i < k then i else i - 1] == c;
      }
    }
  }

  lemma RemovedLink(ptr: map<int, int>, size: map<int, int>, l: seq<Block>, k: nat, i: nat, j: nat)
    requires 1 <= k < |l| && i < |l| - 1 && j == (if i < k then i else i + 1)
    requires LinkOk(ptr, size, l, j) && (l[j].a == l[k - 1].a ==> j == k - 1)
    ensures LinkOk(ptr[l[k - 1].a := l[Succ(l, k)].a], size, Removed(l, k), i)
  {
    RemovedAt(l, k, i);
    RemovedAt(l, k, Succ(Removed(l, k), i));
  }

  lemma RemovedLinks(ptr: map<int, int>, size: map<int, int>, l: seq<Block>, k: nat)
    requires Sorted(l) && Linked(ptr, size, l) && 1 <= k < |l|
    ensures Linked(ptr[l[k - 1].a := l[Succ(l, k)].a], size, Removed(l, k))
  {
    var r, ptr' := Removed(l, k), ptr[l[k - 1].a := l[Succ(l, k)].a];
    forall i | 0 <= i < |r| ensures LinkOk(ptr', size, r, i) {
      var j := if i < k then i else i + 1;
      assert LinkOk(ptr, size, l, j);
      assert l[j].a == l[k - 1].a ==> j == k - 1;
      RemovedLink(ptr, size, l, k, i, j);
    }
  }

  /** Block k gives up its last m units. */
  lemma TrimmedSorted(l: seq<Block>, k: nat, m: int)
    requires Sorted(l) && 1 <= k < |l| && 1 <= m < l[k].n
    ensures var b := Block(l[k].a, l[k].n - m); Sorted(l[k := b]) && FreeSet(l[k := b]) == FreeSet(l) - {l[k]} + {b}
  {
    var b := Block(l[k].a, l[k].n - m);
    var r := l[k := b];
    forall d ensures d in FreeSet(r) <==> d in FreeSet(l) - {l[k]} + {b} {
      if d in FreeSet(r) {
        var i :| 1 <= i < |r| && r[i] == d;
        if i != k { assert l[i] in FreeSet(l) && l[i] != l[k]; }
      }
      if d in FreeSet(l) - {l[k]} {
        var i :| 1 <= i < |l| && l[i] == d;
        assert r[i] == d;
      }
      if d == b { assert r[k] == d; }
    }
  }

  lemma TrimmedLinks(ptr: map<int, int>, size: map<int, int>, l: seq<Block>, k: nat, m: int)
    requires Sorted(l) && Linked(ptr, size, l) && 1 <= k < |l| && 1 <= m < l[k].n
    ensures Linked(ptr, size[l[k].a := l[k].n - m][l[k].a + l[k].n - m := m], l[k := Block(l[k].a, l[k].n - m)])
  {
    var b, c := Block(l[k].a, l[k].n - m), Block(l[k].a + l[k].n - m, m);
    var r, size' := l[k := b], size[b.a := b.n][c.a := m];
    forall i | 0 <= i < |r| ensures LinkOk(ptr, size', r, i) {
      assert LinkOk(ptr, size, l, i);
      assert r[i].a == l[i].a && r[Succ(r, i)].a == l[Succ(l, i)].a;
      assert l[i].a != c.a;
    }
  }

  /** A free block of the right size is handed out. */
  lemma TakeHeap(l: seq<Block>, live: map<int, int>, owned: set<int>, top: int, k: nat)
    requires Sound(l, live, owned, top) && 1 <= k < |l|
    ensures l[k].a !in live && Sound(Removed(l, k), live[l[k].a := l[k].n], owned, top)
  {
    OpenSound(l, live, owned, top);
    assert l[k] in FreeSet(l);
    InsideNotLive(l, live, owned, k, l[k].a);
    RemovedSorted(l, k);
    RemovedSet(l, k);
    assert LiveSet(live[l[k].a := l[k].n]) == LiveSet(live) + {l[k]} by { LiveAdded(live, l[k]); }
    assert FreeSet(Removed(l, k)) + LiveSet(live[l[k].a := l[k].n]) == FreeSet(l) + LiveSet(live);
    OpenSound(Removed(l, k), live[l[k].a := l[k].n], owned, top);
  }

  lemma LiveAdded(live: map<int, int>, b: Block)
    requires b.a !in live
    ensures LiveSet(live[b.a := b.n]) == LiveSet(live) + {b}
  {
    var m := live[b.a := b.n];
    forall c ensures c in LiveSet(m) <==> c in LiveSet(live) + {b} {
      if c in LiveSet(live) { assert c.a in m; }
      if c == b { assert b.a in m; }
    }
  }

  /** The tail of a larger free block is handed out. */
  lemma TrimHeap(l: seq<Block>, live: map<int, int>, owned: set<int>, top: int, k: nat, m: int)
    requires Sound(l, live, owned, top) && 1 <= k < |l| && 1 <= m < l[k].n
    ensures var b := Block(l[k].a, l[k].n - m); var c := Block(l[k].a + l[k].n - m, m);
            c.a !in live && Sound(l[k := b], live[c.a := m], owned, top)
  {
    OpenSound(l, live, owned, top);
    var b, c := Block(l[k].a, l[k].n - m), Block(l[k].a + l[k].n - m, m);
    var bs := FreeSet(l) + LiveSet(live);
    assert l[k] in FreeSet(l);
    TrimmedSorted(l, k, m);
    SplitTiling(bs, owned, l[k], m);
    InsideNotLive(l, live, owned, k, c.a);
    LiveAdded(live, c);
    NoSuchBlocks(l, live, owned, k, b, c);
    TrimmedSets(l, LiveSet(live), k, b, c);
    OpenSound(l[k := b], live[c.a := m], owned, top);
  }

  lemma TrimmedSets(l: seq<Block>, live: set<Block>, k: nat, b: Block, c: Block)
    requires 1 <= k < |l| && Sorted(l) && b != l[k] && c != l[k]
    requires b !in live && c !in FreeSet(l) && b != c && FreeSet(l) !! live
    ensures FreeSet(l[k := b]) !! live + {c}
    ensures FreeSet(l[k := b]) + (live + {c}) == FreeSet(l) + live - {l[k]} + {b, c}
  {
    var m := l[k := b];
    assert FreeSet(m) == FreeSet(l) - {l[k]} + {b} by {
      assert m[k] in FreeSet(m);
      forall i | 1 <= i < |l| && i != k ensures m[i] == l[i] != l[k] { }
    }
  }

  lemma InsideNotLive(l: seq<Block>, live: map<int, int>, owned: set<int>, k: nat, a: int)
    requires HeapOk(l, live, owned) && 1 <= k < |l| && Inside(l[k], a)
    ensures a !in live
  {
    assert l[k] in FreeSet(l);
    assert a in live ==> Block(a, live[a]) in LiveSet(live);
    assert a in live ==> Apart(l[k], Block(a, live[a]));
  }

  lemma NoSuchBlocks(l: seq<Block>, live: map<int, int>, owned: set<int>, k: nat, b: Block, c: Block)
    requires HeapOk(l, live, owned) && 1 <= k < |l| && b != l[k] && c != l[k] && Inside(l[k], b.a) && Inside(l[k], c.a)
    ensures b !in LiveSet(live) && c !in FreeSet(l)
  {
    assert l[k] in FreeSet(l);
    assert b in LiveSet(live) ==> Apart(l[k], b);
    assert c in FreeSet(l) ==> Apart(l[k], c);
  }

  // ----- the heap after a free -----

  /** The place the search of free stops at is a gap for the block. */
  lemma GapFound(l: seq<Block>, live: map<int, int>, owned: set<int>, top: int, k: nat, h: int)
    requires Sound(l, live, owned, top) && h in live && k < |l| && l[k].a < h && (k + 1 < |l| ==> h < l[k + 1].a)
    ensures Gap(l, k, Block(h, live[h]))
  {
    OpenSound(l, live, owned, top);
    var b := Block(h, live[h]);
    assert b in LiveSet(live);
    assert b !in FreeSet(l);
    if k > 0 { assert l[k] in FreeSet(l); assert Apart(l[k], b); }
    if k + 1 < |l| { assert l[k + 1] in FreeSet(l); assert Apart(l[k + 1], b); }
  }

  lemma FreeHeap(l: seq<Block>, live: map<int, int>, owned: set<int>, top: int, k: nat, h: int)
    requires Sound(l, live, owned, top) && h in live && Gap(l, k, Block(h, live[h]))
    ensures Sound(Joined(l, k, Block(h, live[h])), live - {h}, owned, top)
  {
    OpenSound(l, live, owned, top);
    var b := Block(h, live[h]);
    var rest := LiveSet(live - {h});
    assert live == (live - {h})[h := live[h]];
    LiveAdded(live - {h}, b);
    assert b !in rest;
    assert FreeSet(l) + {b} + rest == FreeSet(l) + LiveSet(live);
    JoinedTiles(l, k, b, rest, owned);
    JoinedSorted(l, k, b);
    OpenSound(Joined(l, k, Block(h, live[h])), live - {h}, owned, top);
  }

  ghost predicate NoRoom(l: seq<Block>, nunits: nat) { forall i :: 0 <= i < |l| ==> l[i].n < nunits }

  /** Every block of n units or more ends at `end`. */
  ghost predicate OnlyAtEnd(l: seq<Block>, n: nat, end: int) {
    forall i :: 0 <= i < |l| && l[i].n >= n ==> l[i].a + l[i].n == end
  }

  lemma Dropped(m: map<int, int>, k: int, v: int)
    requires k !in m
    ensures m[k := v] - {k} == m
  {
  }

  class UserHeap {
    var ptr: map<int, int>     // s.ptr of the headers
    var size: map<int, int>    // s.size of the headers
    var freep: int
    ghost var l: seq<Block>
    /** The blocks handed out, with their headers. */
    ghost var live: map<int, int>
    /** Every unit in some block, free or live. */
    ghost var owned: set<int>
    /** Every unit sbrk has granted and not taken back. */
    ghost var granted: set<int>
    /** The end of the last block. */
    ghost var top: int

    /** All blocks lie in memory the process has. */
    ghost predicate Valid()
      reads this
    {
      Sane() && granted == owned
    }

    ghost predicate Sane()
      reads this
    {
      && Sound(l, live, owned, top) && SizesKnown(size, live)
      && if freep == NIL then l == [Block(BASE, 0)] && live == map[]
         else Linked(ptr, size, l) && exists i :: 0 <= i < |l| && l[i].a == freep
    }

    constructor ()
      ensures Valid() && live == map[] && owned == {}
    {
      ptr, size, freep := map[], map[], NIL;
      l, live, owned, granted, top := [Block(BASE, 0)], map[], {}, {}, 1;
      new;
      assert FreeSet(l) == {} && LiveSet(live) == {};
      OpenSound(l, live, owned, top);
    }

    /** The search loop of free: the free block after which bp belongs, the wrap-around included. */
    method FindGap(bp: int) returns (p: int, ghost k: nat)
      requires Sorted(l) && Linked(ptr, size, l) && bp > BASE && exists i :: 0 <= i < |l| && l[i].a == freep
      requires forall i :: 0 <= i < |l| ==> l[i].a != bp
      ensures k < |l| && p == l[k].a && l[k].a < bp && (k + 1 < |l| ==> bp < l[k + 1].a)
    {
      k :| 0 <= k < |l| && l[k].a == freep;
      p := freep;
      assert LinkOk(ptr, size, l, k);
      ghost var goal := LastBelow(l, bp);
      while !(bp > p && bp < ptr[p])
        invariant 0 <= k < |l| && p == l[k].a && LinkOk(ptr, size, l, k)
        decreases if k <= goal then goal - k else goal - k + |l|
      {
        if p >= ptr[p] && (bp > p || bp < ptr[p]) {
          break;
        }
        k := Succ(l, k);
        assert LinkOk(ptr, size, l, k);
        p := ptr[p];
      }
    }

    /** The two tests of free, once the place is known. */
    method Relink(p: int, bp: int)
      requires p in ptr && p in size && bp in size && ptr[p] in ptr && ptr[p] in size
      modifies this`ptr, this`size
      ensures var (ptr1, size1) := FreedNext(old(ptr), old(size), p, bp); (ptr, size) == FreedPrev(ptr1, size1, p, bp)
    {
      var next := ptr[p];
      if bp + size[bp] == next {
        size := size[bp := size[bp] + size[next]];
        ptr := ptr[bp := ptr[next]];
      } else {
        ptr := ptr[bp := next];
      }
      if p + size[p] == bp {
        size := size[p := size[p] + size[bp]];
        ptr := ptr[p := ptr[bp]];
      } else {
        ptr := ptr[p := bp];
      }
    }

    /** free, given the block's header address. */
    method Free(bp: int)
      requires Sane() && bp in live
      modifies this`ptr, this`size, this`freep, this`l, this`live
      ensures Sane() && freep != NIL && live == old(live) - {bp}
      ensures Freed(old(l), Block(bp, old(live)[bp]), l)
      ensures LastBefore(old(l), bp, freep)
    {
      SoundSorted(l, live, owned, top);
      LiveAddress(l, live, owned, top, bp);
      ghost var k;
      var p;
      p, k := FindGap(bp);
      ghost var b := Block(bp, live[bp]);
      GapIsLast(l, k, bp);
      GapFound(l, live, owned, top, k, bp);
      FreedFields(ptr, size, l, k, b);
      FreedLinks(ptr, size, l, k, b);
      FreeHeap(l, live, owned, top, k, bp);
      FreedSizes(size, l, live, owned, top, k, bp);
      assert LinkOk(ptr, size, l, k);
      Relink(p, bp);
      freep := p;
      KeepsPlace(l, k, b);
      l, live := Joined(l, k, b), live - {bp};
    }

    /** The search of malloc from freep on: a block with room, or back at freep. */
    method Scan(nunits: nat) returns (found: bool, prevp: int, p: int, ghost k: nat)
      requires Sorted(l) && Linked(ptr, size, l) && nunits >= 1 && exists i :: 0 <= i < |l| && l[i].a == freep
      ensures found <==> !NoRoom(l, nunits)
      ensures found ==> NextFit(l, freep, nunits, k) && p == l[k].a && prevp == l[k - 1].a
    {
      k :| 0 <= k < |l| && l[k].a == freep;
      ghost var f := k;
      NextLink(ptr, size, l, k);
      prevp := freep;
      p := ptr[prevp];
      k := Succ(l, k);
      while size[p] < nunits
        invariant Seen(l, f, k, nunits) && p == l[k].a && prevp == l[Pred(l, k)].a && p in size && size[p] == l[k].n
        decreases k > f, if k > f then |l| - k else f - k
      {
        if p == freep {
          SeenAll(l, f, k, nunits);
          return false, prevp, p, k;
        }
        SeenNext(l, f, k, nunits);
        NextLink(ptr, size, l, k);
        prevp := p;
        p := ptr[p];
        k := Succ(l, k);
      }
      found := true;
    }

    /** The block found is unlinked, or its tail cut off. */
    method Take(nunits: nat, prevp: int, p: int, ghost k: nat) returns (h: int)
      requires Sane() && freep != NIL && nunits >= 1
      requires 1 <= k < |l| && p == l[k].a && prevp == l[k - 1].a && l[k].n >= nunits
      modifies this`ptr, this`size, this`freep, this`l, this`live
      ensures Sane() && freep != NIL && h !in old(live) && live == old(live)[h := nunits]
      ensures h + nunits == old(l)[k].a + old(l)[k].n && Cut(old(l), l, k, nunits) && freep == prevp
    {
      assert LinkOk(ptr, size, l, k);
      if size[p] == nunits {
        TakeWhole(prevp, p, k);
        h := p;
      } else {
        h := TakeTail(nunits, prevp, p, k);
      }
    }

    method TakeWhole(prevp: int, p: int, ghost k: nat)
      requires Sane() && freep != NIL && 1 <= k < |l| && p == l[k].a && prevp == l[k - 1].a
      modifies this`ptr, this`freep, this`l, this`live
      ensures Sane() && freep != NIL && p !in old(live) && live == old(live)[p := old(l)[k].n]
      ensures l == Removed(old(l), k) && freep == prevp
    {
      SoundSorted(l, live, owned, top);
      assert LinkOk(ptr, size, l, k);
      TakeHeap(l, live, owned, top, k);
      RemovedLinks(ptr, size, l, k);
      RemovedAt(l, k, k - 1);
      ptr := ptr[prevp := ptr[p]];
      live := live[p := l[k].n];
      l := Removed(l, k);
      freep := prevp;
    }

    method TakeTail(nunits: nat, prevp: int, p: int, ghost k: nat) returns (h: int)
      requires Sane() && freep != NIL && 1 <= k < |l| && p == l[k].a && prevp == l[k - 1].a && 1 <= nunits < l[k].n
      modifies this`size, this`freep, this`l, this`live
      ensures Sane() && freep != NIL && h !in old(live) && live == old(live)[h := nunits]
      ensures h + nunits == old(l)[k].a + old(l)[k].n && freep == prevp
      ensures l == old(l)[k := Block(old(l)[k].a, old(l)[k].n - nunits)]
    {
      SoundSorted(l, live, owned, top);
      assert LinkOk(ptr, size, l, k);
      TrimHeap(l, live, owned, top, k, nunits);
      TrimmedLinks(ptr, size, l, k, nunits);
      TrimmedSizes(size, l, live, owned, top, k, nunits);
      size := size[p := size[p] - nunits];
      h := p + size[p];
      size := size[h := nunits];
      live := live[h := nunits];
      l := l[k := Block(l[k].a, l[k].n - nunits)];
      freep := prevp;
      assert l[k - 1].a == prevp;
    }

    /** morecore; `grant` is what sbrk answers to nu * sizeof(Header), taken as an int. */
    method Morecore(nunits: nat, grant: Option<int>) returns (ok: bool)
      requires Sane() && freep != NIL && nunits >= 1 && (grant.Some? ==> grant.value >= top)
      modifies this
      ensures Sane() && freep != NIL && live == old(live) && ok == grant.Some?
      ensures !ok ==> owned == old(owned) && l == old(l) && granted == old(granted)
      ensures ok ==>
        && owned == old(owned) + Range(grant.value, Granted(nunits)) && !NoRoom(l, nunits)
        && granted == Sbrked(old(granted), grant.value, SbrkArg(Granted(nunits)))
      ensures ok && NoRoom(old(l), nunits) ==> OnlyAtEnd(l, nunits, grant.value + Granted(nunits))
    {
      var nu := if nunits < MINUNITS then MINUNITS else nunits;
      if grant.None? { return false; }
      var hp := grant.value;
      AddRegion(hp, nu);
      Dropped(old(live), hp, nu);
      FreeTop(hp, nunits);
      ok := true;
    }

    /** free of the block above all others. */
    method FreeTop(hp: int, nunits: nat)
      requires Sane() && freep != NIL && hp in live && live[hp] >= nunits && Sorted(l)
      requires forall i :: 0 <= i < |l| ==> l[i].a < hp
      modifies this`ptr, this`size, this`freep, this`l, this`live
      ensures Sane() && freep != NIL && live == old(live) - {hp} && !NoRoom(l, nunits)
      ensures NoRoom(old(l), nunits) ==> OnlyAtEnd(l, nunits, hp + old(live)[hp])
    {
      ghost var l0, b := l, Block(hp, live[hp]);
      Free(hp);
      FreedLarge(l0, b, l, nunits);
    }

    /** The header of what sbrk granted: a block in use, about to be freed. */
    method AddRegion(hp: int, nu: nat)
      requires Sane() && freep != NIL && hp >= top && nu >= 1
      modifies this`size, this`live, this`owned, this`granted, this`top
      ensures granted == Sbrked(old(granted), hp, SbrkArg(nu))
      ensures Sane() && Sorted(l) && hp !in old(live) && live == old(live)[hp := nu]
      ensures owned == old(owned) + Range(hp, nu)
      ensures forall i :: 0 <= i < |l| ==> l[i].a < hp
    {
      GrowHeap(l, live, owned, top, hp, nu);
      GrowLinks(ptr, size, l, hp, nu);
      SoundSorted(l, live, owned, top);
      size := size[hp := nu];
      live, owned, top := live[hp := nu], owned + Range(hp, nu), hp + nu;
      granted := Sbrked(granted, hp, SbrkArg(nu));
    }

    /** The request goes to sbrk, and sbrk answers with memory, or with less than none. */
    ghost predicate Asks(nbytes: nat, grant: Option<int>)
      reads this
    {
      grant.Some? && NoRoom(l, Units(nbytes))
    }

    /** malloc; `grant` is what sbrk would answer, were it asked.  The result is the header's address;
        the caller gets the unit behind it.  The block is memory of the process unless sbrk was asked
        for a number of bytes that is not positive as an int; then none of it is. */
    method Malloc(nbytes: nat, grant: Option<int>) returns (r: Option<int>)
      requires Valid() && nbytes < WORD && (grant.Some? ==> grant.value >= top)
      modifies this
      ensures r.None? <==> grant.None? && NoRoom(old(l), Units(nbytes))
      ensures r.None? ==> Valid() && live == old(live) && owned == old(owned)
      ensures r.Some? ==> r.value !in old(live) && live == old(live)[r.value := Units(nbytes)]
      ensures Valid() <==> (old(Asks(nbytes, grant)) ==> SbrkArg(Granted(Units(nbytes))) > 0)
      ensures granted ==
        if old(Asks(nbytes, grant)) then Sbrked(old(granted), grant.value, SbrkArg(Granted(Units(nbytes))))
        else old(granted)
      ensures !NoRoom(old(l), Units(nbytes)) ==>
        r.Some? && FirstFit(old(l), old(freep), Units(nbytes), r.value, l, freep)
      ensures r.Some? && NoRoom(old(l), Units(nbytes)) ==>
        r.value + Units(nbytes) == grant.value + Granted(Units(nbytes))
      ensures r.Some? && Valid() ==> forall u :: r.value <= u < r.value + Units(nbytes) ==> u in granted
      ensures r.Some? && !Valid() ==> forall u :: r.value <= u < r.value + Units(nbytes) ==> u !in granted
    {
      var nunits := Units(nbytes);
      if freep == NIL {
        Initialise();
      }
      ghost var k;
      var found, prevp, p;
      SoundSorted(l, live, owned, top);
      found, prevp, p, k := Scan(nunits);
      if found {
        var h := Take(nunits, prevp, p, k);
        LiveOwned(l, live, owned, top, h);
        return Some(h);
      }
      r := Extend(nunits, grant);
    }

    /** The rest of malloc when no block is large enough. */
    method Extend(nunits: nat, grant: Option<int>) returns (r: Option<int>)
      requires Valid() && freep != NIL && 1 <= nunits <= MAXUNITS && NoRoom(l, nunits)
      requires (grant.Some? ==> grant.value >= top)
      modifies this
      ensures r.None? <==> grant.None?
      ensures r.None? ==> Valid() && live == old(live) && owned == old(owned) && granted == old(granted)
      ensures r.Some? ==>
        && r.value !in old(live) && live == old(live)[r.value := nunits]
        && (Valid() <==> SbrkArg(Granted(nunits)) > 0)
        && granted == Sbrked(old(granted), grant.value, SbrkArg(Granted(nunits)))
        && (forall u :: r.value <= u < r.value + nunits ==> (u in granted <==> Valid()))
        && r.value + nunits == grant.value + Granted(nunits)
    {
      OwnedBelow(l, live, owned, top);
      var ok := Morecore(nunits, grant);
      if !ok { return None; }
      GrantFits(old(granted), grant.value, nunits);
      ghost var k;
      var found, prevp, p;
      SoundSorted(l, live, owned, top);
      found, prevp, p, k := Scan(nunits);
      var h := Take(nunits, prevp, p, k);
      LiveOwned(l, live, owned, top, h);
      r := Some(h);
    }

    /** malloc's first call: the base header is a list of its own. */
    method Initialise()
      requires Sane() && freep == NIL
      modifies this`ptr, this`size, this`freep
      ensures Sane() && freep != NIL
    {
      ptr := ptr[BASE := BASE];
      size := size[BASE := 0];
      freep := BASE;
      assert l[0].a == BASE;
    }
  }

  lemma SoundSorted(l: seq<Block>, live: map<int, int>, owned: set<int>, top: int)
    requires Sound(l, live, owned, top)
    ensures Sorted(l)
  {
    OpenSound(l, live, owned, top);
  }

  function Pred(l: seq<Block>, k: nat): nat
    requires k < |l|
  {
    if k == 0 then |l| - 1 else k - 1
  }

  lemma NextLink(ptr: map<int, int>, size: map<int, int>, l: seq<Block>, k: nat)
    requires Linked(ptr, size, l) && k < |l|
    ensures l[k].a in ptr && ptr[l[k].a] == l[Succ(l, k)].a
    ensures l[Succ(l, k)].a in size && size[l[Succ(l, k)].a] == l[Succ(l, k)].n
  {
    assert LinkOk(ptr, size, l, k) && LinkOk(ptr, size, l, Succ(l, k));
  }

  /** The free block with the greatest address below bp. */
  ghost predicate LastBefore(l: seq<Block>, bp: int, p: int) {
    && p < bp && (exists i :: 0 <= i < |l| && l[i].a == p)
    && (forall i :: 0 <= i < |l| && l[i].a < bp ==> l[i].a <= p)
  }

  lemma GapIsLast(l: seq<Block>, k: nat, bp: int)
    requires Sorted(l) && k < |l| && l[k].a < bp && (k + 1 < |l| ==> bp < l[k + 1].a)
    ensures LastBefore(l, bp, l[k].a)
  {
    forall i | 0 <= i < |l| && l[i].a < bp ensures l[i].a <= l[k].a { }
  }

  /** Block k is the first of the ring behind freep that is large enough. */
  ghost predicate NextFit(l: seq<Block>, freep: int, nunits: nat, k: nat) {
    && 1 <= k < |l| && l[k].n >= nunits
    && exists f :: 0 <= f < |l| && l[f].a == freep && Seen(l, f, k, nunits)
  }

  /** Block k is gone, or short of its last nunits. */
  ghost predicate Cut(l: seq<Block>, l': seq<Block>, k: nat, nunits: nat) {
    && 1 <= k < |l|
    && l' == if l[k].n == nunits then Removed(l, k) else l[k := Block(l[k].a, l[k].n - nunits)]
  }

  /** Which block a request is served from, and what becomes of the list: the last units of the first
      block behind freep that is large enough, the search for the next request starting behind the
      block before it. */
  ghost predicate FirstFit(l: seq<Block>, freep: int, nunits: nat, h: int, l': seq<Block>, freep': int) {
    exists k: nat :: NextFit(l, freep, nunits, k) && h + nunits == l[k].a + l[k].n && Cut(l, l', k, nunits)
      && freep' == l[k - 1].a
  }

  /** Going round from behind f, every block before k is too small. */
  ghost predicate Seen(l: seq<Block>, f: nat, k: nat, nunits: nat) {
    && f < |l| && k < |l|
    && forall j :: 0 <= j < |l| && (if k > f then f < j < k else f < j || j < k) ==> l[j].n < nunits
  }

  lemma SeenNext(l: seq<Block>, f: nat, k: nat, nunits: nat)
    requires Seen(l, f, k, nunits) && l[k].n < nunits && k != f
    ensures Seen(l, f, Succ(l, k), nunits) && Pred(l, Succ(l, k)) == k
  {
  }

  lemma SeenAll(l: seq<Block>, f: nat, k: nat, nunits: nat)
    requires Sorted(l) && Seen(l, f, k, nunits) && l[k].a == l[f].a && l[k].n < nunits
    ensures k == f && NoRoom(l, nunits)
  {
  }

  /** l' is l with b put back and merged with the free blocks it touches. */
  ghost predicate Freed(l: seq<Block>, b: Block, l': seq<Block>) {
    exists k :: 0 <= k < |l| && Gap(l, k, b) && l' == Joined(l, k, b)
  }

  lemma KeepsPlace(l: seq<Block>, k: nat, b: Block)
    requires k < |l|
    ensures k < |Joined(l, k, b)| && Joined(l, k, b)[k].a == l[k].a
  {
    JoinedAt(l, k, b, k);
  }

  lemma LiveAddress(l: seq<Block>, live: map<int, int>, owned: set<int>, top: int, bp: int)
    requires Sound(l, live, owned, top) && bp in live
    ensures bp > BASE && forall i :: 0 <= i < |l| ==> l[i].a != bp
  {
    OpenSound(l, live, owned, top);
    assert Block(bp, live[bp]) in LiveSet(live);
    forall i | 0 <= i < |l| ensures l[i].a != bp {
      if i > 0 {
        assert l[i] in FreeSet(l);
        InsideNotLive(l, live, owned, i, l[i].a);
      }
    }
  }

  /** The headers of the other live blocks are not touched. */
  lemma FreedSizes(size: map<int, int>, l: seq<Block>, live: map<int, int>, owned: set<int>, top: int, k: nat, bp: int)
    requires Sound(l, live, owned, top) && SizesKnown(size, live) && bp in live && k < |l|
    ensures SizesKnown(SizeAfter(size, l, k, Block(bp, live[bp])), live - {bp})
  {
    OpenSound(l, live, owned, top);
    forall a | a in live ensures a != l[k].a {
      LiveAddress(l, live, owned, top, a);
    }
  }

  lemma TrimmedSizes(size: map<int, int>, l: seq<Block>, live: map<int, int>, owned: set<int>, top: int, k: nat, m: int)
    requires Sound(l, live, owned, top) && SizesKnown(size, live) && 1 <= k < |l| && 1 <= m < l[k].n
    ensures var c := l[k].a + l[k].n - m; SizesKnown(size[l[k].a := l[k].n - m][c := m], live[c := m])
  {
    OpenSound(l, live, owned, top);
    InsideNotLive(l, live, owned, k, l[k].a);
    InsideNotLive(l, live, owned, k, l[k].a + l[k].n - m);
  }

  lemma GrowHeap(l: seq<Block>, live: map<int, int>, owned: set<int>, top: int, hp: int, nu: nat)
    requires Sound(l, live, owned, top) && hp >= top && nu >= 1
    ensures hp !in live && Sound(l, live[hp := nu], owned + Range(hp, nu), hp + nu)
    ensures forall i :: 0 <= i < |l| ==> l[i].a < hp
  {
    OpenSound(l, live, owned, top);
    var bs := FreeSet(l) + LiveSet(live);
    BlocksBelow(bs, owned, hp);
    GrowTiling(bs, owned, hp, nu);
    assert forall a :: a in live ==> Block(a, live[a]) in LiveSet(live);
    LiveAdded(live, Block(hp, nu));
    forall i | 0 <= i < |l| ensures l[i].a < hp {
      if i > 0 { assert l[i] in FreeSet(l); }
    }
    assert FreeSet(l) + LiveSet(live[hp := nu]) == bs + {Block(hp, nu)};
    OpenSound(l, live[hp := nu], owned + Range(hp, nu), hp + nu);
  }

  lemma GrowLinks(ptr: map<int, int>, size: map<int, int>, l: seq<Block>, hp: int, nu: nat)
    requires Linked(ptr, size, l) && forall i :: 0 <= i < |l| ==> l[i].a != hp
    ensures Linked(ptr, size[hp := nu], l)
  {
    var size' := size[hp := nu];
    forall i | 0 <= i < |l| ensures LinkOk(ptr, size', l, i) { assert LinkOk(ptr, size, l, i); }
  }

  /** A block put back above all others is part of a free block at least as large; if no other was,
      that is the only one, and the block is its end. */
  lemma FreedLarge(l: seq<Block>, b: Block, l': seq<Block>, nunits: nat)
    requires Sorted(l) && Freed(l, b, l') && b.n >= nunits && forall i :: 0 <= i < |l| ==> l[i].a < b.a
    ensures !NoRoom(l', nunits)
    ensures NoRoom(l, nunits) ==> OnlyAtEnd(l', nunits, b.a + b.n)
  {
    var k :| 0 <= k < |l| && Gap(l, k, b) && l' == Joined(l, k, b);
    var at := if TouchesPrev(l, k, b) then k else k + 1;
    JoinedAt(l, k, b, 0);
    JoinedAt(l, k, b, at);
    assert l'[at].n >= nunits;
    assert k + 1 == |l|;
    forall i | 0 <= i < |l'| && l'[i].n >= nunits && NoRoom(l, nunits) ensures l'[i].a + l'[i].n == b.a + b.n {
      JoinedAt(l, k, b, i);
    }
  }

  lemma OwnedBelow(l: seq<Block>, live: map<int, int>, owned: set<int>, top: int)
    requires Sound(l, live, owned, top)
    ensures forall u :: u in owned ==> u < top
  {
    OpenSound(l, live, owned, top);
  }

  /** The units of a live block are among those in blocks. */
  lemma LiveOwned(l: seq<Block>, live: map<int, int>, owned: set<int>, top: int, h: int)
    requires Sound(l, live, owned, top) && h in live
    ensures forall u :: h <= u < h + live[h] ==> u in owned
  {
    OpenSound(l, live, owned, top);
    var b := Block(h, live[h]);
    assert b in LiveSet(live);
    forall u | h <= u < h + live[h] ensures u in owned {
      assert Inside(b, u);
      assert Covered(FreeSet(l) + LiveSet(live), u);
    }
  }

  /** With a positive argument sbrk grants exactly the new block; with another it grants nothing from
      the old break on, and the block is then as large as the request. */
  lemma GrantFits(granted: set<int>, a: int, nunits: nat)
    requires 1 <= nunits <= MAXUNITS && forall u :: u in granted ==> u < a
    ensures var nu := Granted(nunits); var g := Sbrked(granted, a, SbrkArg(nu));
            if SbrkArg(nu) > 0 then g == granted + Range(a, nu)
            else nu == nunits && (forall u :: a <= u ==> u !in g) && g != granted + Range(a, nu)
  {
    var nu := Granted(nunits);
    if SbrkArg(nu) > 0 {
      assert SbrkArg(nu) / HEADER == nu;
    } else {
      assert a in Range(a, nu);
    }
  }
}
