/** The buddy allocator's blocks are determined by those in use (buddy.c:282-333). */
module BuddyUnique {
  import opened BuddyTiles

  /** The tile at b lies in the block of order j at c. */
  ghost predicate In(t: Tiles, b: int, c: int, j: nat) { b in t && c <= b && b + Size(t[b].order) <= c + Size(j) }

  /** A block of the region: aligned to its size. */
  ghost predicate IsBlock(c: int, j: nat, top: nat) { j <= top && Aligned(c, j) && 0 <= c && c + Size(j) <= Size(top) }

  ghost function Within(t: Tiles, c: int, j: nat): Tiles { map b | b in t && In(t, b, c, j) :: t[b] }

  /** Free tiles that are smaller than the block they lie in leave two free buddies. */
  lemma SmallerHavePair(t: Tiles, top: nat, c: int, j: nat, a: int)
    requires Tiling(t, top) && IsBlock(c, j, top) && In(t, a, c, j) && t[a].order < j
    requires forall b :: In(t, b, c, j) ==> t[b].Free?
    ensures !Canonical(t, top)
  {
    var m := SmallestTile(Within(t, c, j), a);
    assert In(t, m, c, j);
    assert forall b :: In(t, b, c, j) ==> b in Within(t, c, j);
    BuddyIsTile(t, top, c, j, m);
    assert FreePair(t, top, m, t[m].order);
  }

  lemma BuddyIsTile(t: Tiles, top: nat, c: int, j: nat, m: int)
    requires Tiling(t, top) && IsBlock(c, j, top) && In(t, m, c, j) && t[m].order < j
    requires forall b :: In(t, b, c, j) ==> t[b].Free? && t[m].order <= t[b].order
    ensures Buddy(m, t[m].order) in t && t[Buddy(m, t[m].order)] == Free(t[m].order)
  {
    var k := t[m].order;
    var b := Buddy(m, k);
    BuddyFacts(m, k);
    ParentInside(b, k, c, j);
    assert Covered(t, b);
    var d :| Covers(t, d, b);
    CoverIsInside(t, c, j, m, b, d);
    var i := t[d].order;
    SizeMonotone(k, i);
    Nested(b, k, d, i);
    if k < i {
      ParentInside(m, k, d, i);
      assert false;
    }
    assert d == b;
  }

  /** A tile that covers a point of the block, in which a smaller tile lies, lies in it too. */
  lemma CoverIsInside(t: Tiles, c: int, j: nat, m: int, b: int, d: int)
    requires Apart(t) && (forall x :: x in t ==> Aligned(x, t[x].order)) && Aligned(c, j)
    requires In(t, m, c, j) && t[m].order < j && c <= b < c + Size(j) && Covers(t, d, b)
    ensures In(t, d, c, j)
  {
    var i := t[d].order;
    SizeMonotone(t[m].order, j);
    if j <= i {
      Nested(c, j, d, i);
      assert false;
    } else {
      Nested(d, i, c, j);
    }
  }

  /** The blocks in use are the same. */
  ghost predicate SameUsed(t: Tiles, u: Tiles) {
    && (forall a :: a in t && t[a].Used? ==> a in u && u[a] == t[a])
    && (forall a :: a in u && u[a].Used? ==> a in t && t[a] == u[a])
  }

  /** In a block that is free in u, every tile of t is free. */
  lemma FreeInside(t: Tiles, u: Tiles, c: int, a: int)
    requires Apart(u) && SameUsed(t, u) && c in u && u[c].Free? && In(t, a, c, u[c].order)
    ensures t[a].Free?
  {
    if t[a].Used? { assert false; }
  }

  /** No free tile of t is smaller than the free block of u it lies in. */
  lemma NotSmaller(t: Tiles, u: Tiles, top: nat, a: int, c: int)
    requires Tiling(t, top) && Tiling(u, top) && Canonical(t, top) && SameUsed(t, u)
    requires c in u && u[c].Free? && In(t, a, c, u[c].order)
    ensures t[a].order == u[c].order && a == c
  {
    var j := u[c].order;
    if t[a].order < j {
      forall b | In(t, b, c, j) ensures t[b].Free? { FreeInside(t, u, c, b); }
      SmallerHavePair(t, top, c, j, a);
      assert false;
    }
    SizeMonotone(j, t[a].order);
  }

  lemma TileKept(t: Tiles, u: Tiles, top: nat, a: int)
    requires Tiling(t, top) && Tiling(u, top) && Canonical(t, top) && Canonical(u, top) && SameUsed(t, u) && a in t
    ensures a in u && u[a] == t[a]
  {
    if t[a].Free? {
      assert Covered(u, a);
      var c :| Covers(u, c, a);
      FreeCover(t, u, a, c);
      var k, j := t[a].order, u[c].order;
      if k <= j {
        Nested(a, k, c, j);
        NotSmaller(t, u, top, a, c);
      } else {
        Nested(c, j, a, k);
        NotSmaller(u, t, top, c, a);
      }
    }
  }

  lemma FreeCover(t: Tiles, u: Tiles, a: int, c: int)
    requires Apart(t) && SameUsed(t, u) && a in t && t[a].Free? && Covers(u, c, a)
    ensures u[c].Free?
  {
    if u[c].Used? { assert false; }
  }

  /** Two canonical tilings with the same blocks in use are the same: the free blocks, and so everything
      that can still be allocated, are determined by what is in use. */
  lemma CanonicalUnique(t: Tiles, u: Tiles, top: nat)
    requires Tiling(t, top) && Tiling(u, top) && Canonical(t, top) && Canonical(u, top) && SameUsed(t, u)
    ensures t == u
  {
    forall a ensures a in t <==> a in u {
      if a in t { TileKept(t, u, top, a); }
      if a in u { TileKept(u, t, top, a); }
    }
    forall a | a in t ensures a in u && u[a] == t[a] { TileKept(t, u, top, a); }
    assert forall a :: a in t.Keys <==> a in u.Keys;
  }
}
