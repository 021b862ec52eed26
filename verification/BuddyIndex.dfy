/** The hash index of allocation sizes and its pool of nodes (buddy.c, buddy.h). */
module BuddyIndex {
  import opened BuddyTiles
  import opened Counting

  const HASHSIZE := 3

  /** struct NODE; `cell` is the NODELIST entry it came from and returns to. */
  datatype Node = Node(key: int, value: int, cell: int)

  /** hashFunc on the address `key` bytes above vstart. */
  function Hash(vstart: int, key: int): (r: nat)
    ensures r < HASHSIZE
  {
    (vstart + key) % HASHSIZE
  }

  function Keys(chain: seq<Node>): (r: seq<int>)
    ensures |r| == |chain|
  {
    seq(|chain|, i requires 0 <= i < |chain| => chain[i].key)
  }

  function Cells(chain: seq<Node>): (r: seq<int>)
    ensures |r| == |chain|
  {
    seq(|chain|, i requires 0 <= i < |chain| => chain[i].cell)
  }

  /** Bucket b holds exactly one node for each live key that hashes to b, with its size. */
  ghost predicate ChainOk(vstart: int, chain: seq<Node>, b: nat, live: map<int, int>) {
    && NoRepeats(Keys(chain))
    && (forall i :: 0 <= i < |chain| ==>
         chain[i].key in live && live[chain[i].key] == chain[i].value && Hash(vstart, chain[i].key) == b)
    && (forall k :: k in live && Hash(vstart, k) == b ==> k in Keys(chain))
  }

  ghost predicate IndexOk(vstart: int, buckets: seq<seq<Node>>, live: map<int, int>) {
    |buckets| == HASHSIZE && forall b :: 0 <= b < HASHSIZE ==> ChainOk(vstart, buckets[b], b, live)
  }

  ghost function UsedCells(buckets: seq<seq<Node>>): multiset<int>
    requires |buckets| == HASHSIZE
  {
    multiset(Cells(buckets[0])) + multiset(Cells(buckets[1])) + multiset(Cells(buckets[2]))
  }

  /** Free and used cells together are the `nodes` cells of the pool, once each. */
  ghost predicate PoolOk(buckets: seq<seq<Node>>, pool: seq<int>, nodes: nat) {
    |buckets| == HASHSIZE && multiset(pool) + UsedCells(buckets) == multiset(Below(nodes))
  }

  lemma CellsCons(n: Node, chain: seq<Node>)
    ensures Cells([n] + chain) == [n.cell] + Cells(chain)
    ensures Keys([n] + chain) == [n.key] + Keys(chain)
  {
  }

  lemma CellsRemove(chain: seq<Node>, i: nat)
    requires i < |chain|
    ensures var r := chain[..i] + chain[i + 1..];
            && Keys(r) == Keys(chain)[..i] + Keys(chain)[i + 1..]
            && multiset(Cells(chain)) == multiset(Cells(r)) + multiset{chain[i].cell}
  {
    var r := chain[..i] + chain[i + 1..];
    assert Cells(chain) == Cells(chain)[..i] + [chain[i].cell] + Cells(chain)[i + 1..];
    assert Cells(r) == Cells(chain)[..i] + Cells(chain)[i + 1..];
  }

  lemma ChainAdd(vstart: int, chain: seq<Node>, b: nat, live: map<int, int>, n: Node)
    requires ChainOk(vstart, chain, b, live) && n.key !in live && Hash(vstart, n.key) == b
    ensures ChainOk(vstart, [n] + chain, b, live[n.key := n.value])
  {
    CellsCons(n, chain);
    forall i | 0 <= i < |chain| ensures Keys(chain)[i] != n.key { }
    assert NoRepeats([n.key] + Keys(chain));
  }

  lemma ChainSame(vstart: int, chain: seq<Node>, b: nat, live: map<int, int>, key: int, size: int)
    requires ChainOk(vstart, chain, b, live) && Hash(vstart, key) != b
    ensures ChainOk(vstart, chain, b, live[key := size]) && ChainOk(vstart, chain, b, live - {key})
  {
  }

  /** addSize: the head of the free pool becomes the first node of its bucket. */
  lemma AddKeeps(vstart: int, buckets: seq<seq<Node>>, pool: seq<int>, nodes: nat, live: map<int, int>, key: int,
                 size: int)
    requires IndexOk(vstart, buckets, live) && PoolOk(buckets, pool, nodes) && key !in live && pool != []
    ensures var b := Hash(vstart, key);
            var bs := buckets[b := [Node(key, size, pool[0])] + buckets[b]];
            IndexOk(vstart, bs, live[key := size]) && PoolOk(bs, pool[1..], nodes)
  {
    var b := Hash(vstart, key);
    var n := Node(key, size, pool[0]);
    var bs := buckets[b := [n] + buckets[b]];
    forall c | 0 <= c < HASHSIZE ensures ChainOk(vstart, bs[c], c, live[key := size]) {
      if c == b {
        ChainAdd(vstart, buckets[b], b, live, n);
      } else {
        ChainSame(vstart, buckets[c], c, live, key, size);
      }
    }
    CellsCons(n, buckets[b]);
    assert pool == [pool[0]] + pool[1..];
    assert multiset(Cells(bs[b])) == multiset{pool[0]} + multiset(Cells(buckets[b]));
  }

  /** removeSize: the node found gives its cell back to the head of the pool. */
  lemma RemoveKeeps(vstart: int, buckets: seq<seq<Node>>, pool: seq<int>, nodes: nat, live: map<int, int>, b: nat,
                    i: nat)
    requires IndexOk(vstart, buckets, live) && PoolOk(buckets, pool, nodes) && b < HASHSIZE && i < |buckets[b]|
    ensures var n := buckets[b][i];
            var bs := buckets[b := buckets[b][..i] + buckets[b][i + 1..]];
            IndexOk(vstart, bs, live - {n.key}) && PoolOk(bs, [n.cell] + pool, nodes)
  {
    var chain := buckets[b];
    var n := chain[i];
    var r := chain[..i] + chain[i + 1..];
    var bs := buckets[b := r];
    CellsRemove(chain, i);
    assert multiset([n.cell] + pool) == multiset{n.cell} + multiset(pool);
    var live' := live - {n.key};
    assert ChainOk(vstart, chain, b, live);
    forall c | 0 <= c < HASHSIZE ensures ChainOk(vstart, bs[c], c, live') {
      assert ChainOk(vstart, buckets[c], c, live);
      if c == b { ChainRemove(vstart, chain, b, live, i); }
    }
  }

  lemma ChainRemove(vstart: int, chain: seq<Node>, b: nat, live: map<int, int>, i: nat)
    requires ChainOk(vstart, chain, b, live) && i < |chain|
    ensures ChainOk(vstart, chain[..i] + chain[i + 1..], b, live - {chain[i].key})
  {
    var r, live' := chain[..i] + chain[i + 1..], live - {chain[i].key};
    KeyGone(Keys(chain), i);
    assert Keys(r) == Keys(chain)[..i] + Keys(chain)[i + 1..];
    forall j | 0 <= j < |r|
      ensures r[j].key in live' && live'[r[j].key] == r[j].value && Hash(vstart, r[j].key) == b
    {
      assert r[j] == chain[if j < i then j else j + 1];
      assert Keys(r)[j] in Keys(r);
    }
  }

  lemma KeyGone(keys: seq<int>, i: nat)
    requires NoRepeats(keys) && i < |keys|
    ensures var r := keys[..i] + keys[i + 1..]; NoRepeats(r) && forall k :: k in r <==> k in keys && k != keys[i]
  {
    var r := keys[..i] + keys[i + 1..];
    assert forall j :: 0 <= j < |r| ==> r[j] == keys[if j < i then j else j + 1];
    forall k | k in keys && k != keys[i] ensures k in r {
      var j :| 0 <= j < |keys| && keys[j] == k;
      assert r[if j < i then j else j - 1] == k;
    }
  }

  ghost function HashClass(vstart: int, live: map<int, int>, b: nat): set<int> {
    set k | k in live && Hash(vstart, k) == b
  }

  lemma ChainCount(vstart: int, chain: seq<Node>, b: nat, live: map<int, int>)
    requires ChainOk(vstart, chain, b, live)
    ensures |HashClass(vstart, live, b)| == |chain|
  {
    var keys := Keys(chain);
    ElementCount(keys);
    assert HashClass(vstart, live, b) == set k | k in keys;
  }

  /** One node per live block. */
  lemma NodeCount(vstart: int, buckets: seq<seq<Node>>, live: map<int, int>)
    requires IndexOk(vstart, buckets, live)
    ensures |buckets[0]| + |buckets[1]| + |buckets[2]| == |live|
  {
    ChainCount(vstart, buckets[0], 0, live);
    ChainCount(vstart, buckets[1], 1, live);
    ChainCount(vstart, buckets[2], 2, live);
    var s0, s1, s2 := HashClass(vstart, live, 0), HashClass(vstart, live, 1), HashClass(vstart, live, 2);
    assert live.Keys == s0 + s1 + s2;
    assert s0 !! s1 && (s0 + s1) !! s2;
  }

  /** createNode finds a free node while fewer blocks are live than there are nodes. */
  lemma PoolHasRoom(vstart: int, buckets: seq<seq<Node>>, pool: seq<int>, nodes: nat, live: map<int, int>)
    requires IndexOk(vstart, buckets, live) && PoolOk(buckets, pool, nodes)
    ensures |pool| + |live| == nodes
  {
    NodeCount(vstart, buckets, live);
    var m := multiset(pool) + UsedCells(buckets);
    assert |m| == |pool| + |buckets[0]| + |buckets[1]| + |buckets[2]|;
    assert |multiset(Below(nodes))| == nodes;
  }

  // ----- how many blocks there can be -----

  function Pages(order: nat): (r: nat)
    ensures r >= 1
  {
    if order == 0 then 1 else 2 * Pages(order - 1)
  }

  lemma PagesOfSize(order: nat)
    ensures Size(order) == PGSIZE * Pages(order)
  {
  }

  /** At most one block per page. */
  lemma TilesFit(t: Tiles, top: nat)
    requires Tiling(t, top)
    ensures |t| <= Pages(top)
  {
    PagesOfSize(top);
    forall a | a in t ensures 0 <= a < PGSIZE * Pages(top) && a % PGSIZE == 0 {
      AlignedDown(a, 0, t[a].order);
    }
    MultiplesBelow(t.Keys, Pages(top));
  }
}
