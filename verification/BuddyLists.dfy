/** The intrusive free lists of the buddy allocator: the first word of a free block is the address
    of the next free block of its order (buddy.c, buddy.h).  Addresses are byte offsets from
    kmemAlloc.vstart, and NIL stands for the null pointer. */
module BuddyLists {
  import opened BuddyTiles
  import opened Counting

  const NIL := -1

  type Words = map<int, int>

  function After(s: seq<int>, i: int): int
    requires 0 <= i
  {
    if i + 1 < |s| then s[i + 1] else NIL
  }

  /** The chain from `head` through `next` visits exactly s. */
  ghost predicate Linked(head: int, next: Words, s: seq<int>) {
    && head == (if s == [] then NIL else s[0])
    && forall i :: 0 <= i < |s| ==> s[i] != NIL && s[i] in next && next[s[i]] == After(s, i)
  }

  lemma LinkedPop(head: int, next: Words, s: seq<int>)
    requires Linked(head, next, s) && s != []
    ensures Linked(next[head], next, s[1..])
  {
    forall i | 0 <= i < |s[1..]| ensures next[s[1..][i]] == After(s[1..], i) {
      assert s[1..][i] == s[i + 1] && After(s[1..], i) == After(s, i + 1);
    }
    assert next[s[0]] == After(s, 0);
  }

  lemma LinkedPush(head: int, next: Words, s: seq<int>, a: int)
    requires Linked(head, next, s) && a !in s && a != NIL
    ensures Linked(a, next[a := head], [a] + s)
  {
    var t := [a] + s;
    forall i | 0 <= i < |t|
      ensures t[i] != NIL && t[i] in next[a := head] && next[a := head][t[i]] == After(t, i)
    {
      if i > 0 {
        assert t[i] == s[i - 1] && s[i - 1] in s;
        assert After(t, i) == After(s, i - 1);
      }
    }
  }

  lemma LinkedFrame(head: int, next: Words, s: seq<int>, a: int, x: int)
    requires Linked(head, next, s) && a !in s
    ensures Linked(head, next[a := x], s)
  {
    forall i | 0 <= i < |s| ensures s[i] != a { assert s[i] in s; }
  }

  /** Redirecting the link before s[j] drops it from the chain. */
  lemma LinkedSkip(head: int, next: Words, s: seq<int>, j: nat)
    requires Linked(head, next, s) && NoRepeats(s) && 1 <= j < |s|
    ensures Linked(head, next[s[j - 1] := next[s[j]]], s[..j] + s[j + 1..])
  {
    var t := s[..j] + s[j + 1..];
    var n := next[s[j - 1] := next[s[j]]];
    forall i | 0 <= i < |t| ensures t[i] != NIL && t[i] in n && n[t[i]] == After(t, i) {
      var k := if i < j then i else i + 1;
      assert t[i] == s[k];
      assert After(t, i) == if i == j - 1 then After(s, j) else After(s, k);
    }
  }

  /** List o holds the free blocks of order o, once each. */
  ghost predicate Matches(lists: seq<seq<int>>, t: Tiles) {
    && |lists| == ORDERS
    && (forall o :: 0 <= o < ORDERS ==> NoRepeats(lists[o]))
    && (forall o, a {:trigger a in lists[o]} :: 0 <= o < ORDERS ==> (a in lists[o] <==> a in t && t[a] == Free(o)))
  }

  ghost predicate AllLinked(heads: seq<int>, next: Words, lists: seq<seq<int>>) {
    && |heads| == |lists| == ORDERS
    && forall o :: 0 <= o < ORDERS ==> Linked(heads[o], next, lists[o])
  }

  /** Everything about the free lists: chains, contents, tiling. */
  ghost predicate FreeOk(heads: seq<int>, next: Words, lists: seq<seq<int>>, t: Tiles, top: nat) {
    && top < ORDERS
    && AllLinked(heads, next, lists)
    && Matches(lists, t)
    && Tiling(t, top)
  }

  lemma HeadIsFree(heads: seq<int>, next: Words, lists: seq<seq<int>>, t: Tiles, top: nat, o: nat)
    requires FreeOk(heads, next, lists, t, top) && o < ORDERS
    ensures heads[o] != NIL <==> lists[o] != []
    ensures heads[o] != NIL ==> heads[o] == lists[o][0] && heads[o] in t && t[heads[o]] == Free(o) && o <= top
  {
    if lists[o] != [] {
      assert lists[o][0] in lists[o];
    }
  }

  /** The head of order o leaves its list for a caller who asked for `size` bytes. */
  lemma TakeHead(heads: seq<int>, next: Words, lists: seq<seq<int>>, t: Tiles, top: nat, o: nat, size: int)
    requires FreeOk(heads, next, lists, t, top) && o < ORDERS && heads[o] != NIL
    ensures FreeOk(heads[o := next[heads[o]]], next, lists[o := lists[o][1..]], t[heads[o] := Used(o, size)], top)
  {
    HeadIsFree(heads, next, lists, t, top, o);
    LinkedPop(heads[o], next, lists[o]);
    var a := heads[o];
    var s := lists[o];
    var ls := lists[o := s[1..]];
    var u := t[a := Used(o, size)];
    RetypeTiling(t, top, a, Used(o, size));
    forall q, x | 0 <= q < ORDERS ensures x in ls[q] <==> x in u && u[x] == Free(q) {
      if q == o {
        assert x in s <==> x == s[0] || x in s[1..];
      } else {
        assert x in lists[q] <==> x in t && t[x] == Free(q);
      }
    }
    assert NoRepeats(s[1..]);
  }

  /** Changing who owns a block does not change the tiling. */
  lemma RetypeTiling(t: Tiles, top: nat, a: int, x: Tile)
    requires Tiling(t, top) && a in t && x.order == t[a].order
    ensures Tiling(t[a := x], top)
  {
    var u := t[a := x];
    forall p | 0 <= p < Size(top) ensures Covered(u, p) {
      assert Covered(t, p);
      var b :| Covers(t, b, p);
      assert Covers(u, b, p);
    }
  }

  /** A block no list knows joins the front of list o. */
  lemma PushFree(heads: seq<int>, next: Words, lists: seq<seq<int>>, t: Tiles, o: nat, a: int)
    requires AllLinked(heads, next, lists) && Matches(lists, t) && o < ORDERS && a != NIL
    requires a in t ==> !t[a].Free?
    ensures AllLinked(heads[o := a], next[a := heads[o]], lists[o := [a] + lists[o]])
    ensures Matches(lists[o := [a] + lists[o]], t[a := Free(o)])
  {
    var u := t[a := Free(o)];
    var ls := lists[o := [a] + lists[o]];
    forall q | 0 <= q < ORDERS ensures a !in lists[q] { }
    LinkedPush(heads[o], next, lists[o], a);
    forall q | 0 <= q < ORDERS ensures Linked(heads[o := a][q], next[a := heads[o]], ls[q]) {
      if q != o { LinkedFrame(heads[q], next, lists[q], a, heads[o]); }
    }
    forall q, x | 0 <= q < ORDERS ensures x in ls[q] <==> x in u && u[x] == Free(q) {
      assert x in lists[q] <==> x in t && t[x] == Free(q);
      if q == o { assert x in ls[o] <==> x == a || x in lists[o]; }
    }
    assert NoRepeats(ls[o]) by {
      forall i, j | 0 <= i < j < |ls[o]| ensures ls[o][i] != ls[o][j] {
        assert ls[o][j] == lists[o][j - 1];
        if i > 0 { assert ls[o][i] == lists[o][i - 1]; }
      }
    }
  }

  lemma RemoveAt(s: seq<int>, j: nat)
    requires NoRepeats(s) && j < |s|
    ensures var r := s[..j] + s[j + 1..]; NoRepeats(r) && forall x :: x in r <==> x in s && x != s[j]
  {
    var r := s[..j] + s[j + 1..];
    assert forall i :: 0 <= i < |r| ==> r[i] == s[if i < j then i else i + 1];
    forall x | x in s && x != s[j] ensures x in r {
      var i :| 0 <= i < |s| && s[i] == x;
      assert r[if i < j then i else i - 1] == x;
    }
  }
}
