/** How bfreerange and linkNodeList divide the memory between the node pool and the managed
    region (buddy.c:28-61, buddy.c:165-181). */
module BuddyLayout {
  import opened BuddyTiles
  import opened BuddyIndex
  import opened Counting

  const NODE_BYTES := 16      // sizeof(struct NODE)
  const NODELIST_BYTES := 8   // sizeof(struct NODELIST)
  const POINTER_BYTES := 4    // sizeof(struct NODE *)

  datatype Layout = Layout(nodeStart: int, nodeListStart: int, base: int, nodePages: int, listPages: int, order: nat) {
    function Nodes(): int { nodePages * PGSIZE / NODE_BYTES }
    function NodeAt(i: int): int { nodeStart + i * NODE_BYTES }
    function EntryAt(i: int): int { nodeListStart + i * NODELIST_BYTES }
  }

  function PageRoundUp(a: int): int { (a + PGSIZE - 1) / PGSIZE * PGSIZE }

  /** bfreerange's halving loops: the largest power of two not above n, and its exponent. */
  method Halve(n: int) returns (order: nat, power: nat)
    requires n >= 1
    ensures power == Pages(order) && power <= n < 2 * power
  {
    var rest := n;
    order, power := 0, 1;
    while rest / 2 != 0
      invariant rest >= 1 && power == Pages(order)
      invariant rest * power <= n < rest * power + power
      decreases rest
    {
      HalvedBounds(rest, power, n);
      rest := rest / 2;
      power := power * 2;
      order := order + 1;
    }
  }

  lemma HalvedBounds(rest: nat, power: nat, n: int)
    requires rest * power <= n < rest * power + power
    ensures rest / 2 * (power * 2) <= n < rest / 2 * (power * 2) + power * 2
  {
    var half := rest / 2;
    if rest == 2 * half {
      assert rest * power == half * (power * 2);
    } else {
      assert rest == 2 * half + 1;
      assert rest * power == half * (power * 2) + power;
    }
  }

  function NodePages(total: nat): nat {
    total * NODE_BYTES / PGSIZE + if total * NODE_BYTES % PGSIZE != 0 then 1 else 0
  }

  /** The remainder is taken with the size of a pointer, not of a NODELIST, as in the source. */
  function ListPages(total: nat): nat {
    total * NODELIST_BYTES / PGSIZE + if total * POINTER_BYTES % PGSIZE != 0 then 1 else 0
  }

  /** The NODELIST entries of all nodes fit their pages, there are nodes for all pages, and both
      areas together stay small. */
  ghost predicate Carved(total: nat) {
    && NodePages(total) * PGSIZE / NODE_BYTES * NODELIST_BYTES <= ListPages(total) * PGSIZE
    && total <= NodePages(total) * PGSIZE / NODE_BYTES
    && NodePages(total) + ListPages(total) <= (if total <= 256 then 2 else total / 64)
  }

  lemma CarvedSmall(total: nat)
    requires 1 <= total <= 256
    ensures Carved(total)
  {
    assert NodePages(total) == 1;
    assert ListPages(total) == 1;
  }

  lemma CarvedLarge(u: nat)
    requires u >= 1
    ensures Carved(1024 * u)
  {
    assert NodePages(1024 * u) == 4 * u;
    assert ListPages(1024 * u) == 2 * u;
  }

  /** Despite the different size in the remainder test, this holds for every power of two. */
  lemma CarvingFits(t: nat)
    ensures Carved(Pages(t))
  {
    if t >= 10 {
      ThousandPages(t);
      CarvedLarge(Pages(t - 10));
    } else {
      SmallPages(t);
      if Pages(t) <= 256 { CarvedSmall(Pages(t)); }
    }
  }

  lemma ThousandPages(t: nat)
    requires t >= 10
    ensures Pages(t) == 1024 * Pages(t - 10)
  {
    if t > 10 { ThousandPages(t - 1); }
    else {
      SmallPages(9);
    }
  }

  lemma SmallPages(t: nat)
    requires t < 10
    ensures Pages(t) <= 512 && (Pages(t) <= 256 || Pages(t) == 512)
  {
    assert Pages(1) == 2 && Pages(2) == 4;
    assert Pages(3) == 8 && Pages(4) == 16;
    assert Pages(5) == 32 && Pages(6) == 64;
    assert Pages(7) == 128 && Pages(8) == 256 && Pages(9) == 512;
  }

  lemma PagesMonotone(j: nat, k: nat)
    requires j <= k
    ensures Pages(j) <= Pages(k)
    ensures j < k ==> 2 * Pages(j) <= Pages(k)
    decreases k
  {
    if j < k { PagesMonotone(j, k - 1); }
  }

  /** bfreerange for a range of at least three whole pages; with fewer its loops would not end or
      the region would not fit. */
  method Bfreerange(vstart: int, vend: int) returns (l: Layout)
    requires 0 <= vstart && 3 * PGSIZE <= vend - PageRoundUp(vstart) && vend - vstart <= 0x2000_0000
    ensures l.nodeStart == PageRoundUp(vstart)
    ensures l.nodeListStart == l.nodeStart + l.nodePages * PGSIZE && l.base == l.nodeListStart + l.listPages * PGSIZE
    ensures l.nodePages >= 0 && l.listPages >= 0 && l.base % PGSIZE == 0
    ensures Pages(l.order) <= l.Nodes()
    ensures l.Nodes() * NODELIST_BYTES <= l.listPages * PGSIZE
    ensures l.base + Size(l.order) <= vend
    ensures l.order < ORDERS && Size(l.order + 1) <= 0x4000_0000
  {
    var start := PageRoundUp(vstart);
    var pageCount := CountPages(start, vend);
    var t, totalPage := Halve(pageCount);
    CarvingFits(t);
    var nodePages, listPages := NodePages(totalPage), ListPages(totalPage);
    LeavesSome(pageCount, t);
    var order, size := Halve(pageCount - nodePages - listPages);
    var nodeListStart := start + nodePages * PGSIZE;
    l := Layout(start, nodeListStart, nodeListStart + listPages * PGSIZE, nodePages, listPages, order);
    RegionFits(pageCount, t, order);
    StartAligned(vstart, nodePages, listPages);
  }

  lemma StartAligned(vstart: int, nodePages: int, listPages: int)
    ensures (PageRoundUp(vstart) + nodePages * PGSIZE + listPages * PGSIZE) % PGSIZE == 0
  {
    var q := (vstart + PGSIZE - 1) / PGSIZE + nodePages + listPages;
    assert PageRoundUp(vstart) + nodePages * PGSIZE + listPages * PGSIZE == q * PGSIZE;
  }

  /** bfreerange's first loop. */
  method CountPages(start: int, vend: int) returns (count: nat)
    requires start <= vend
    ensures start + count * PGSIZE <= vend < start + (count + 1) * PGSIZE
  {
    var p := start;
    count := 0;
    while p + PGSIZE <= vend
      invariant p == start + count * PGSIZE && p <= vend
    {
      count := count + 1;
      p := p + PGSIZE;
    }
  }

  lemma LeavesSome(count: nat, t: nat)
    requires count >= 3 && Pages(t) <= count && Carved(Pages(t))
    ensures count - NodePages(Pages(t)) - ListPages(Pages(t)) >= 1
  {
  }

  /** There are nodes for all pages of the region, which fits what is left. */
  lemma RegionFits(count: nat, t: nat, order: nat)
    requires Pages(t) <= count < 2 * Pages(t) && count <= 0x2_0000 && Carved(Pages(t))
    requires Pages(order) <= count - NodePages(Pages(t)) - ListPages(Pages(t))
    ensures Pages(order) <= NodePages(Pages(t)) * PGSIZE / NODE_BYTES
    ensures Size(order) == Pages(order) * PGSIZE
    ensures order < ORDERS && Size(order + 1) <= 0x4000_0000
  {
    if t < order { PagesMonotone(t, order); } else { PagesMonotone(order, t); }
    PagesOfSize(order);
    OrderBound(order, count);
  }

  lemma OrderBound(order: nat, count: int)
    requires Pages(order) <= count <= 0x2_0000
    ensures order < ORDERS && Size(order + 1) <= 0x4000_0000
  {
    Pages17();
    if order > 17 { PagesMonotone(18, order); }
    PagesMonotone(order, 17);
    PagesOfSize(order + 1);
  }

  lemma Pages17()
    ensures Pages(17) == 0x2_0000 && Pages(18) == 0x4_0000
  {
    ThousandPages(17);
    ThousandPages(18);
    SmallPages(7);
    SmallPages(8);
    assert Pages(7) == 128 && Pages(8) == 256;
  }

  /** linkNodeList: one NODELIST entry per node, each pushed in front.  No node reaches into the
      list area and no entry reaches into the managed region. */
  method LinkNodeList(l: Layout) returns (pool: seq<int>)
    requires l.nodePages >= 0 && l.Nodes() * NODELIST_BYTES <= l.listPages * PGSIZE
    requires l.nodeListStart == l.nodeStart + l.nodePages * PGSIZE && l.base == l.nodeListStart + l.listPages * PGSIZE
    ensures multiset(pool) == multiset(Below(l.Nodes()))
    ensures forall i :: 0 <= i < l.Nodes() ==> l.nodeStart <= l.NodeAt(i) && l.NodeAt(i) + NODE_BYTES <= l.nodeListStart
    ensures forall i :: 0 <= i < l.Nodes() ==>
      l.nodeListStart <= l.EntryAt(i) && l.EntryAt(i) + NODELIST_BYTES <= l.base
  {
    pool := [];
    var node, nodeList := l.nodeStart, l.nodeListStart;
    var n := l.Nodes();
    var i := 0;
    while i < n
      invariant 0 <= i <= n && node == l.NodeAt(i) && nodeList == l.EntryAt(i)
      invariant multiset(pool) == multiset(Below(i))
    {
      assert node + NODE_BYTES <= l.nodeListStart && nodeList + NODELIST_BYTES <= l.base;
      assert multiset(Below(i + 1)) == multiset(Below(i))[i := 1];
      assert multiset([i] + pool) == multiset{i} + multiset(pool);
      pool := [i] + pool;
      node := node + NODE_BYTES;
      nodeList := nodeList + NODELIST_BYTES;
      i := i + 1;
    }
  }
}
