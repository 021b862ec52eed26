/** The arithmetic of buddy blocks, and tilings of the managed region by them (buddy.c). */
module BuddyTiles {
  import opened Counting

  const PGSIZE := 4096
  const ORDERS := 20

  /** Bytes in a block of the given order. */
  function Size(order: nat): (r: nat)
    ensures r >= PGSIZE
  {
    if order == 0 then PGSIZE else 2 * Size(order - 1)
  }

  predicate Aligned(off: int, order: nat) { off % Size(order) == 0 }

  lemma SizeMonotone(j: nat, k: nat)
    requires j <= k
    ensures Size(j) <= Size(k)
    ensures j < k ==> 2 * Size(j) <= Size(k)
    decreases k
  {
    if j < k { SizeMonotone(j, k - 1); }
  }

  lemma HalfDivides(x: int, n: int)
    requires n > 0
    ensures x % (2 * n) == 0 ==> x % n == 0 && (x + n) % n == 0
    ensures x % n == 0 ==> x % (2 * n) == 0 || x % (2 * n) == n
    ensures x % (2 * n) == n ==> (x - n) % (2 * n) == 0
    ensures x % (2 * n) == 0 ==> (x + n) % (2 * n) == n
  {
    var q := x / (2 * n);
    var r := x % (2 * n);
    assert x == 2 * n * q + r;
    if r < n {
      ModUnique(x, n, 2 * q, r);
    } else {
      ModUnique(x, n, 2 * q + 1, r - n);
    }
    if r == 0 {
      ModUnique(x + n, n, 2 * q + 1, 0);
      ModUnique(x + n, 2 * n, q, n);
    }
    if r == n {
      ModUnique(x - n, 2 * n, q, 0);
    }
  }

  lemma ModUnique(x: int, n: int, q: int, r: int)
    requires n > 0 && 0 <= r < n && x == n * q + r
    ensures x % n == r && x / n == q
  {
    var q', r' := x / n, x % n;
    assert x == n * q' + r';
    assert n * (q - q') == r' - r;
    if q - q' >= 1 { MulAtLeast(n, q - q'); assert false; }
    assert n * (q' - q) == r - r';
    if q' - q >= 1 { MulAtLeast(n, q' - q); assert false; }
  }

  lemma MulAtLeast(n: int, k: int)
    requires n > 0 && k >= 1
    ensures n * k >= n
  {
  }

  lemma AlignedDown(off: int, j: nat, k: nat)
    requires j <= k && Aligned(off, k)
    ensures Aligned(off, j)
    decreases k
  {
    if j < k {
      HalfDivides(off, Size(k - 1));
      AlignedDown(off, j, k - 1);
    }
  }

  /** Two multiples of n that are less than n apart are equal. */
  lemma MultiplesApart(x: int, y: int, n: int)
    requires n > 0 && x % n == 0 && y % n == 0 && x < y
    ensures x + n <= y
  {
    var p, q := x / n, y / n;
    assert x == n * p && y == n * q;
    if q <= p {
      MulMonotone(n, q, p);
    } else {
      MulMonotone(n, p + 1, q);
      assert n * (p + 1) == x + n;
    }
  }

  lemma MulMonotone(n: int, p: int, q: int)
    requires n > 0 && p <= q
    ensures n * p <= n * q
  {
  }

  /** Aligned blocks that overlap are nested. */
  lemma Nested(a: int, j: nat, b: int, k: nat)
    requires j <= k && Aligned(a, j) && Aligned(b, k)
    requires a < b + Size(k) && b < a + Size(j)
    ensures b <= a && a + Size(j) <= b + Size(k)
  {
    var n := Size(j);
    AlignedDown(b, j, k);
    SumAligned(b, j, k);
    if a < b { MultiplesApart(a, b, n); }
    MultiplesApart(a, b + Size(k), n);
  }

  lemma SumAligned(b: int, j: nat, k: nat)
    requires j <= k && Aligned(b, k)
    ensures Aligned(b + Size(k), j)
  {
    var n := Size(k);
    ModUnique(b + n, n, b / n + 1, 0);
    AlignedDown(b + n, j, k);
  }

  /** The other half of the parent of the block at offset off. */
  function Buddy(off: int, order: nat): int {
    if Aligned(off, order + 1) then off + Size(order) else off - Size(order)
  }

  lemma BuddyFacts(off: int, order: nat)
    requires Aligned(off, order)
    ensures Aligned(Buddy(off, order), order)
    ensures Buddy(Buddy(off, order), order) == off
    ensures Aligned(off, order + 1) <==> !Aligned(Buddy(off, order), order + 1)
    ensures Buddy(off, order) == off + Size(order) || Buddy(off, order) == off - Size(order)
  {
    var n := Size(order);
    assert Size(order + 1) == 2 * n;
    HalfDivides(off, n);
    if Aligned(off, order + 1) {
      HalfDivides(off + n, n);
    } else {
      HalfDivides(off - n, n);
      assert (off - n) + n == off;
    }
  }

  // ----- tilings -----

  /** A block starting at some offset from vstart. */
  datatype Tile = Free(order: nat) | Used(order: nat, size: int)

  type Tiles = map<int, Tile>

  predicate Covers(t: Tiles, a: int, p: int) { a in t && a <= p < a + Size(t[a].order) }

  ghost predicate Covered(t: Tiles, p: int) { exists a :: Covers(t, a, p) }

  /** Each block is aligned to its own size and lies in the region. */
  ghost predicate Placed(t: Tiles, top: nat) {
    forall a :: a in t ==> 0 <= a && t[a].order <= top && a + Size(t[a].order) <= Size(top) && Aligned(a, t[a].order)
  }

  ghost predicate Apart(t: Tiles) {
    forall a, b :: a in t && b in t && a < b ==> a + Size(t[a].order) <= b
  }

  ghost predicate Full(t: Tiles, top: nat) {
    forall p :: 0 <= p < Size(top) ==> Covered(t, p)
  }

  /** The blocks exactly tile the region. */
  ghost predicate Tiling(t: Tiles, top: nat) {
    Placed(t, top) && Apart(t) && Full(t, top)
  }

  /** Both buddies of one parent are free. */
  ghost predicate FreePair(t: Tiles, top: nat, a: int, k: nat) {
    k < top && a in t && t[a] == Free(k) && Buddy(a, k) in t && t[Buddy(a, k)] == Free(k)
  }

  ghost predicate Canonical(t: Tiles, top: nat) {
    forall a, k :: !FreePair(t, top, a, k)
  }

  ghost predicate CanonicalExcept(t: Tiles, top: nat, x: int) {
    forall a, k :: FreePair(t, top, a, k) ==> a == x || Buddy(a, k) == x
  }

  lemma SplitFull(t: Tiles, top: nat, a: int, k: nat)
    requires Full(t, top) && a in t && t[a] == Free(k + 1) && a + Size(k) !in t
    ensures Full(t[a := Free(k)][a + Size(k) := Free(k)], top)
  {
    var b := a + Size(k);
    var u := t[a := Free(k)][b := Free(k)];
    assert Size(k + 1) == 2 * Size(k);
    forall p | 0 <= p < Size(top) ensures Covered(u, p) {
      assert Covered(t, p);
      var x :| Covers(t, x, p);
      assert Covers(u, if x != a then x else if p < b then a else b, p);
    }
  }

  lemma SplitTiling(t: Tiles, top: nat, a: int, k: nat)
    requires Tiling(t, top) && a in t && t[a] == Free(k + 1)
    ensures var b := a + Size(k);
            b !in t && Tiling(t[a := Free(k)][b := Free(k)], top)
  {
    assert Size(k + 1) == 2 * Size(k);
    HalfDivides(a, Size(k));
    SplitFull(t, top, a, k);
  }

  lemma SplitCanonical(t: Tiles, top: nat, a: int, k: nat)
    requires Tiling(t, top) && a in t && t[a] == Free(k + 1) && CanonicalExcept(t, top, a)
    ensures CanonicalExcept(t[a := Free(k)][a + Size(k) := Free(k)], top, a)
  {
    var b := a + Size(k);
    var u := t[a := Free(k)][b := Free(k)];
    SplitTiling(t, top, a, k);
    assert Aligned(a, k + 1);
    HalfDivides(a, Size(k));
    BuddyFacts(a, k);
    forall x, j | FreePair(u, top, x, j) ensures x == a || Buddy(x, j) == a {
      BuddyFacts(x, j);
      if x == b {
        assert j == k && Buddy(b, k) == a;
      } else if Buddy(x, j) == b {
        assert j == k;
        assert Buddy(b, k) == x;
      } else if x != a && Buddy(x, j) != a {
        assert FreePair(t, top, x, j);
      }
    }
  }

  /** Two free buddies make room for one free block of the next order. */
  lemma MergeTiling(t: Tiles, top: nat, a: int, k: nat)
    requires Tiling(t, top) && a in t && t[a] == Free(k)
    requires var b := Buddy(a, k); b in t && t[b] == Free(k)
    ensures var b := Buddy(a, k);
            var m := if a < b then a else b;
            k < top && m != (if a < b then b else a) && Tiling((t - {a, b})[m := Free(k + 1)], top)
  {
    var b := Buddy(a, k);
    BuddyFacts(a, k);
    var m, h := if a < b then a else b, if a < b then b else a;
    var u := (t - {a, b})[m := Free(k + 1)];
    assert h == m + Size(k) && Aligned(m, k + 1);
    assert m + Size(k + 1) <= Size(top);
    if top <= k { SizeMonotone(top, k); }
    forall p | 0 <= p < Size(top) ensures Covered(u, p) {
      assert Covered(t, p);
      var x :| Covers(t, x, p);
      assert Covers(u, if x == a || x == b then m else x, p);
    }
  }

  lemma MergeCanonical(t: Tiles, top: nat, a: int, k: nat)
    requires Tiling(t, top) && a in t && t[a] == Free(k) && CanonicalExcept(t, top, a)
    requires var b := Buddy(a, k); b in t && t[b] == Free(k)
    ensures var b := Buddy(a, k);
            var m := if a < b then a else b;
            CanonicalExcept((t - {a, b})[m := Free(k + 1)], top, m)
  {
    var b := Buddy(a, k);
    BuddyFacts(a, k);
    var m := if a < b then a else b;
    var u := (t - {a, b})[m := Free(k + 1)];
    forall x, j | FreePair(u, top, x, j) ensures x == m || Buddy(x, j) == m {
      if x != m && Buddy(x, j) != m {
        assert FreePair(t, top, x, j);
      }
    }
  }

  /** The order of the initial block is never merged further. */
  lemma TopHasNoBuddy(t: Tiles, top: nat, a: int)
    requires Tiling(t, top) && a in t && t[a].order == top
    ensures a == 0 && t.Keys == {0}
  {
    forall b | b in t ensures b == 0 {
      assert b + Size(t[b].order) <= Size(top);
    }
  }

  /** Canonical form: when nothing is in use, the region is the single initial block again. */
  lemma AllFreeIsOneBlock(t: Tiles, top: nat)
    requires Tiling(t, top) && Canonical(t, top)
    requires forall a :: a in t ==> t[a].Free?
    ensures t == map[0 := Free(top)]
  {
    assert Covered(t, 0);
    var a0 :| Covers(t, a0, 0);
    var a := SmallestTile(t, a0);
    if t[a].order < top {
      SmallestHasFreeBuddy(t, top, a);
    }
    TopHasNoBuddy(t, top, a);
  }

  lemma SmallestHasFreeBuddy(t: Tiles, top: nat, a: int)
    requires Tiling(t, top) && a in t && t[a].order < top
    requires forall b :: b in t ==> t[b].Free? && t[a].order <= t[b].order
    ensures FreePair(t, top, a, t[a].order)
  {
    var k := t[a].order;
    BuddyFacts(a, k);
    BuddyInside(a, k, top);
    var b := Buddy(a, k);
    assert Covered(t, b);
    var c :| Covers(t, c, b);
    var j := t[c].order;
    Nested(b, k, c, j);
    if k < j {
      // the block that covers the buddy would overlap the block itself
      ParentInside(a, k, c, j);
      assert false;
    }
    assert Size(j) == Size(k);
    assert c == b;
  }

  lemma SmallestTile(t: Tiles, a: int) returns (m: int)
    requires a in t
    ensures m in t && forall b :: b in t ==> t[m].order <= t[b].order
    decreases t[a].order
  {
    if b :| b in t && t[b].order < t[a].order {
      m := SmallestTile(t, b);
    } else {
      m := a;
    }
  }

  lemma BuddyInside(a: int, k: nat, top: nat)
    requires k < top && Aligned(a, k) && 0 <= a && a + Size(k) <= Size(top)
    ensures 0 <= Buddy(a, k) && Buddy(a, k) + Size(k) <= Size(top)
  {
    var n := Size(k);
    HalfDivides(a, n);
    var m := if Aligned(a, k + 1) then a else a - n;
    SumAligned(0, k + 1, top);
    assert Aligned(m, k + 1);
    if m < 0 {
      MultiplesApart(m, 0, Size(k + 1));
    }
    MultiplesApart(m, Size(top), Size(k + 1));
  }

  /** A larger aligned block that contains one buddy contains the other. */
  lemma ParentInside(a: int, k: nat, c: int, j: nat)
    requires k < j && Aligned(a, k) && Aligned(c, j)
    requires c <= Buddy(a, k) < c + Size(j)
    ensures c <= a && a + Size(k) <= c + Size(j)
  {
    BuddyFacts(a, k);
    var n := Size(k);
    HalfDivides(a, n);
    var m := if Aligned(a, k + 1) then a else a - n;
    Nested(m, k + 1, c, j);
  }

  lemma {:induction false} MultiplesBelow(s: set<int>, m: nat)
    requires forall a :: a in s ==> 0 <= a < PGSIZE * m && a % PGSIZE == 0
    ensures |s| <= m
  {
    if m == 0 {
      assert forall a :: a !in s;
      assert s == {};
    } else {
      var last := PGSIZE * (m - 1);
      MultiplesBelow(s - {last}, m - 1);
      assert s <= (s - {last}) + {last};
      SubsetSize(s, (s - {last}) + {last});
    }
  }
}
