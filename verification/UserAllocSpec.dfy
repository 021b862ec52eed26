/** The user allocator's memory as blocks of header-sized units (umalloc.c).  Addresses count units;
    the static header `base` has address 0 and lies below everything sbrk returns. */
module UserAllocSpec {
  import opened Basics

  const BASE := 0
  const HEADER := 8             // sizeof(Header)
  const WORD := 0x1_0000_0000   // uint
  const MINUNITS := 4096
  const MAXUNITS := WORD / HEADER

  /** n units from unit a on, its header included. */
  datatype Block = Block(a: int, n: int)

  /** nunits, in uint arithmetic. */
  function Units(nbytes: nat): (r: nat)
    ensures 1 <= r <= MAXUNITS
  {
    (nbytes + HEADER - 1) % WORD / HEADER + 1
  }

  /** The block behind its header holds the bytes asked for exactly when the rounding did not wrap, and
      one unit less would not hold them. */
  lemma UnitsEnough(nbytes: nat)
    requires nbytes < WORD
    ensures (Units(nbytes) - 1) * HEADER >= nbytes <==> nbytes <= WORD - HEADER
    ensures (Units(nbytes) - 2) * HEADER < nbytes
  {
  }

  /** The units morecore asks for. */
  function Granted(nunits: nat): (r: nat)
    ensures r >= nunits && r >= MINUNITS
  {
    if nunits < MINUNITS then MINUNITS else nunits
  }

  /** nu * sizeof(Header) in uint arithmetic, read as the int that sbrk takes. */
  function SbrkArg(nu: nat): int {
    var x := nu * HEADER % WORD;
    if x < WORD / 2 then x else x - WORD
  }

  /** The units the process has after sbrk(n) at break a: a negative n takes memory back. */
  ghost function Sbrked(granted: set<int>, a: int, n: int): set<int> {
    if n > 0 then granted + Range(a, n / HEADER) else set u | u in granted && u < a + n / HEADER
  }

  /** What sbrk is asked for is what the block needs exactly below 2^31 bytes; above, it is no memory at all. */
  lemma SbrkExactIff(nbytes: nat)
    requires nbytes < WORD
    ensures var nu := Granted(Units(nbytes));
            && (SbrkArg(nu) == nu * HEADER <==> nu * HEADER < WORD / 2)
            && (SbrkArg(nu) > 0 <==> nu * HEADER < WORD / 2)
  {
  }

  /** A request that has to go to sbrk yields a block that is memory of the process and holds the bytes
      asked for exactly up to 2^31 - 16 bytes. */
  lemma RequestServedIff(nbytes: nat)
    requires nbytes < WORD
    ensures SbrkArg(Granted(Units(nbytes))) > 0 && (Units(nbytes) - 1) * HEADER >= nbytes <==> nbytes <= WORD / 2 - 16
  {
  }

  /** sbrk is asked for nothing, and for less than nothing. */
  lemma LargeRequestsUnbacked()
    ensures Units(0xffff_fff8) == 0x2000_0000 && SbrkArg(Granted(Units(0xffff_fff8))) == 0
    ensures SbrkArg(Granted(Units(0xffff_f000))) == -4088
  {
  }

  lemma LargeRequestWraps()
    ensures Units(0xffff_ffff) == 1
  {
  }

  // ----- the free list -----

  /** In address order after the base, with room between any two free blocks. */
  ghost predicate Sorted(l: seq<Block>) {
    && l != [] && l[0] == Block(BASE, 0)
    && (forall i :: 0 < i < |l| ==> l[i].n >= 1)
    && (forall i, j :: 0 <= i < j < |l| ==> l[i].a + l[i].n < l[j].a)
  }

  /** The list is circular. */
  function Succ(l: seq<Block>, i: int): (r: int)
    requires 0 <= i < |l|
    ensures 0 <= r < |l|
  {
    if i + 1 < |l| then i + 1 else 0
  }

  ghost predicate LinkOk(ptr: map<int, int>, size: map<int, int>, l: seq<Block>, i: nat)
    requires i < |l|
  {
    l[i].a in ptr && ptr[l[i].a] == l[Succ(l, i)].a && l[i].a in size && size[l[i].a] == l[i].n
  }

  ghost predicate Linked(ptr: map<int, int>, size: map<int, int>, l: seq<Block>) {
    forall i :: 0 <= i < |l| ==> LinkOk(ptr, size, l, i)
  }

  ghost predicate SizesKnown(size: map<int, int>, live: map<int, int>) {
    forall a :: a in live ==> a in size && size[a] == live[a]
  }

  ghost function FreeSet(l: seq<Block>): set<Block> { set i | 1 <= i < |l| :: l[i] }
  ghost function LiveSet(live: map<int, int>): set<Block> { set a | a in live :: Block(a, live[a]) }

  // ----- tiling -----

  ghost predicate Inside(b: Block, u: int) { b.a <= u < b.a + b.n }

  ghost predicate Apart(b: Block, c: Block) { b.a + b.n <= c.a || c.a + c.n <= b.a }

  ghost predicate Covered(bs: set<Block>, u: int) { exists b :: b in bs && Inside(b, u) }

  /** The blocks cover exactly the units obtained, each unit once. */
  ghost predicate Tiling(bs: set<Block>, owned: set<int>) {
    && (forall b :: b in bs ==> b.a >= 1 && b.n >= 1)
    && (forall b, c :: b in bs && c in bs && b != c ==> Apart(b, c))
    && (forall u :: u in owned <==> Covered(bs, u))
  }

  function Range(a: int, n: nat): (r: set<int>)
    ensures forall u :: u in r <==> a <= u < a + n
  {
    if n == 0 then {} else Range(a, n - 1) + {a + n - 1}
  }

  lemma SplitTiling(bs: set<Block>, owned: set<int>, b: Block, m: int)
    requires Tiling(bs, owned) && b in bs && 1 <= m < b.n
    ensures Tiling(bs - {b} + {Block(b.a, b.n - m), Block(b.a + b.n - m, m)}, owned)
  {
    var lo, hi := Block(b.a, b.n - m), Block(b.a + b.n - m, m);
    var cs := bs - {b} + {lo, hi};
    forall u ensures u in owned <==> Covered(cs, u) {
      if u in owned {
        var c :| c in bs && Inside(c, u);
        if c == b {
          assert Inside(if u < hi.a then lo else hi, u);
        } else {
          assert c in cs;
        }
      }
      if c :| c in cs && Inside(c, u) {
        assert c in bs || Inside(b, u);
      }
    }
    forall c, d | c in cs && d in cs && c != d ensures Apart(c, d) {
      assert c in bs ==> Apart(c, b);
      assert d in bs ==> Apart(d, b);
    }
  }

  lemma JoinTiling(bs: set<Block>, owned: set<int>, b: Block, c: Block)
    requires Tiling(bs, owned) && b in bs && c in bs && b.a + b.n == c.a
    ensures Tiling(bs - {b, c} + {Block(b.a, b.n + c.n)}, owned)
  {
    var j := Block(b.a, b.n + c.n);
    var cs := bs - {b, c} + {j};
    forall u ensures u in owned <==> Covered(cs, u) {
      if u in owned {
        var d :| d in bs && Inside(d, u);
        if d == b || d == c {
          assert Inside(j, u);
        } else {
          assert d in cs;
        }
      }
      if d :| d in cs && Inside(d, u) {
        if d == j { assert Inside(b, u) || Inside(c, u); }
      }
    }
    forall d, e | d in cs && e in cs && d != e ensures Apart(d, e) {
      assert d in bs ==> Apart(d, b) && Apart(d, c);
      assert e in bs ==> Apart(e, b) && Apart(e, c);
    }
  }

  lemma BlocksBelow(bs: set<Block>, owned: set<int>, a: int)
    requires Tiling(bs, owned) && forall u :: u in owned ==> u < a
    ensures forall b :: b in bs ==> b.a + b.n <= a
  {
    forall b | b in bs ensures b.a + b.n <= a {
      var u := b.a + b.n - 1;
      assert Inside(b, u);
      assert Covered(bs, u);
      assert u in owned;
    }
  }

  lemma GrowCovers(bs: set<Block>, owned: set<int>, a: int, n: nat, u: int)
    requires Tiling(bs, owned)
    ensures u in owned + Range(a, n) <==> Covered(bs + {Block(a, n)}, u)
  {
    var nb := Block(a, n);
    if u in owned {
      var d :| d in bs && Inside(d, u);
      assert d in bs + {nb};
    }
    if u in Range(a, n) { assert nb in bs + {nb} && Inside(nb, u); }
    if d :| d in bs + {nb} && Inside(d, u) {
      assert d in bs || d == nb;
    }
  }

  lemma GrowApart(bs: set<Block>, a: int, n: nat)
    requires (forall b :: b in bs ==> b.n >= 1 && b.a + b.n <= a)
    requires forall b, c :: b in bs && c in bs && b != c ==> Apart(b, c)
    ensures Block(a, n) !in bs
    ensures forall b, c :: b in bs + {Block(a, n)} && c in bs + {Block(a, n)} && b != c ==> Apart(b, c)
  {
  }

  lemma GrowTiling(bs: set<Block>, owned: set<int>, a: int, n: nat)
    requires Tiling(bs, owned) && a >= 1 && n >= 1 && forall u :: u in owned ==> u < a
    ensures Block(a, n) !in bs && Tiling(bs + {Block(a, n)}, owned + Range(a, n))
  {
    BlocksBelow(bs, owned, a);
    GrowApart(bs, a, n);
    forall u ensures u in owned + Range(a, n) <==> Covered(bs + {Block(a, n)}, u) {
      GrowCovers(bs, owned, a, n, u);
    }
  }

  // ----- what a caller relies on -----

  /** The free list, the blocks handed out and the memory they tile. */
  ghost predicate HeapOk(l: seq<Block>, live: map<int, int>, owned: set<int>) {
    && Sorted(l)
    && FreeSet(l) !! LiveSet(live)
    && Tiling(FreeSet(l) + LiveSet(live), owned)
  }

  /** The heap, below the end of the last grant.  Kept behind a quantifier that only OpenSound
      instantiates, so that proofs which merely pass it on need not look inside. */
  ghost predicate Sound(l: seq<Block>, live: map<int, int>, owned: set<int>, top: int) {
    forall k {:trigger Key(k, (l, live, owned, top))} :: Key(k, (l, live, owned, top)) ==>
      HeapOk(l, live, owned) && top >= 1 && forall u :: u in owned ==> u < top
  }

  lemma OpenSound(l: seq<Block>, live: map<int, int>, owned: set<int>, top: int)
    ensures Sound(l, live, owned, top) <==> HeapOk(l, live, owned) && top >= 1 && forall u :: u in owned ==> u < top
  {
    assert Key(0, (l, live, owned, top));
  }

  /** Blocks handed out overlap neither each other nor a free block. */
  lemma LiveDisjoint(l: seq<Block>, live: map<int, int>, owned: set<int>, top: int, a: int, b: int)
    requires Sound(l, live, owned, top) && a in live && b in live && a != b
    ensures Apart(Block(a, live[a]), Block(b, live[b]))
    ensures forall i :: 0 < i < |l| ==> Apart(Block(a, live[a]), l[i])
  {
    OpenSound(l, live, owned, top);
    assert Block(a, live[a]) in LiveSet(live) && Block(b, live[b]) in LiveSet(live);
    forall i | 0 < i < |l| ensures Apart(Block(a, live[a]), l[i]) {
      assert l[i] in FreeSet(l);
    }
  }
}
