/** The buffer cache (bio.c): NBUF buffers in a list ordered from most to least recently released. */
module BufferCache {
  import opened Disk

  /** struct buf; B_VALID and B_DIRTY are two booleans, `locked` is its sleep lock. */
  datatype Buf = Buf(id: BlockId, valid: bool, dirty: bool, refcnt: nat, locked: bool, data: Block)

  /** bread sleeps. */
  const WAIT := -2

  /** bget may recycle this buffer. */
  predicate Eligible(b: Buf) { b.refcnt == 0 && !b.dirty }

  ghost predicate Permutation(lru: seq<nat>) {
    && |lru| == NBUF
    && (forall i :: 0 <= i < NBUF ==> lru[i] < NBUF)
    && (forall i, j :: 0 <= i < j < NBUF ==> lru[i] != lru[j])
    && (forall b :: 0 <= b < NBUF ==> b in lru)
  }

  /** The list runs from the latest release to the earliest. */
  ghost predicate ByRelease(lru: seq<nat>, released: seq<int>, clock: int) {
    && |lru| == NBUF && |released| == NBUF
    && (forall i :: 0 <= i < NBUF ==> lru[i] < NBUF && released[lru[i]] < clock)
    && (forall i, j :: 0 <= i < j < NBUF ==> released[lru[i]] > released[lru[j]])
  }

  /** No two buffers carry the same real block. */
  ghost predicate OneCopy(bufs: seq<Buf>) {
    forall i, j :: 0 <= i < |bufs| && 0 <= j < |bufs| && bufs[i].id == bufs[j].id && bufs[i].id.dev != 0 ==> i == j
  }

  ghost predicate FlagsOk(bufs: seq<Buf>, pending: set<nat>) {
    && (forall i :: 0 <= i < |bufs| && bufs[i].dirty ==> bufs[i].valid)
    && (forall i :: 0 <= i < |bufs| && bufs[i].locked ==> bufs[i].refcnt > 0)
    && (forall i :: i in pending ==> i < |bufs| && bufs[i].valid && bufs[i].locked)
  }

  /** Buffer i holds contents of block id that the disk may not have. */
  ghost predicate Ahead(bufs: seq<Buf>, pending: set<nat>, i: int, id: BlockId) {
    0 <= i < |bufs| && bufs[i].valid && bufs[i].id == id && (bufs[i].dirty || i in pending)
  }

  /** `view` is the latest contents of every block: a valid buffer shows it, and where the disk is
      behind, a dirty or still held buffer does. */
  ghost predicate Shows(bufs: seq<Buf>, pending: set<nat>, disk: DiskMap, view: DiskMap) {
    && view.Keys == disk.Keys
    && (forall id :: id in disk ==> id.dev != 0)
    && (forall i :: 0 <= i < |bufs| && bufs[i].valid ==> bufs[i].id in disk && bufs[i].data == view[bufs[i].id])
    && (forall id :: id in disk && view[id] != disk[id] ==> exists i :: Ahead(bufs, pending, i, id))
  }

  ghost predicate Cached(bufs: seq<Buf>, id: BlockId) {
    exists i :: 0 <= i < |bufs| && bufs[i].id == id
  }

  ghost predicate AnyEligible(bufs: seq<Buf>) {
    exists i :: 0 <= i < |bufs| && Eligible(bufs[i])
  }

  ghost predicate AllEligible(bufs: seq<Buf>) {
    forall i :: 0 <= i < |bufs| ==> Eligible(bufs[i])
  }

  /** Somebody holds the buffer of block id locked. */
  ghost predicate Held(bufs: seq<Buf>, id: BlockId) {
    exists i :: 0 <= i < |bufs| && bufs[i].id == id && bufs[i].locked
  }

  /** One more reference to the buffer of block id, which somebody holds. */
  ghost predicate Queued(was: seq<Buf>, now: seq<Buf>, id: BlockId, i: int) {
    0 <= i < |was| && was[i].id == id && was[i].locked && now == was[i := was[i].(refcnt := was[i].refcnt + 1)]
  }

  /** Nobody uses block id. */
  ghost predicate Unheld(bufs: seq<Buf>, id: BlockId) {
    forall i :: 0 <= i < |bufs| && bufs[i].id == id ==> bufs[i].refcnt == 0
  }

  /** The same buffers are held, by the same callers, with the same contents. */
  ghost predicate SameHolds(was: seq<Buf>, now: seq<Buf>) {
    && |was| == |now|
    && forall i :: 0 <= i < |was| ==>
         (if was[i].refcnt > 0 then now[i] == was[i] else now[i].refcnt == 0)
  }

  ghost predicate Dirty(bufs: seq<Buf>, id: BlockId) {
    exists i :: 0 <= i < |bufs| && bufs[i].id == id && bufs[i].dirty
  }

  class Cache {
    var bufs: seq<Buf>
    var lru: seq<nat>
    var disk: DiskMap
    ghost var view: DiskMap
    /** Locked buffers changed by their holder and not yet logged or written. */
    ghost var pending: set<nat>
    ghost var released: seq<int>
    ghost var clock: int
    /** Every disk write so far, oldest first. */
    ghost var writes: seq<Write>

    ghost predicate Valid()
      reads this
    {
      && |bufs| == NBUF
      && Permutation(lru)
      && ByRelease(lru, released, clock)
      && OneCopy(bufs)
      && FlagsOk(bufs, pending)
      && Shows(bufs, pending, disk, view)
    }

    /** binit: each buffer in turn goes to the head of the list. */
    constructor (d: DiskMap)
      requires forall id :: id in d ==> id.dev != 0
      ensures Valid() && disk == d && view == d && pending == {} && writes == []
      ensures AllEligible(bufs) && (forall i :: 0 <= i < NBUF ==> !bufs[i].valid)
    {
      var empty := Buf(BlockId(0, 0), false, false, 0, false, seq(BWORDS, _ => 0));
      var list := LinkAll();
      bufs := seq(NBUF, _ => empty);
      lru := list;
      disk, view := d, d;
      pending, writes := {}, [];
      released, clock := seq(NBUF, i => i), NBUF;
    }

    /** The critical section of bget.  A cached block is found again; otherwise the least recently
        released buffer that is neither referenced nor dirty is recycled; otherwise it panics. */
    method Bget(id: BlockId) returns (r: int)
      requires Valid() && id.dev != 0
      modifies this`bufs
      ensures Valid()
      ensures r == -1 <==> !Cached(old(bufs), id) && !AnyEligible(old(bufs))
      ensures r == -1 ==> bufs == old(bufs)
      ensures r != -1 ==> 0 <= r < NBUF
      ensures Cached(old(bufs), id) ==>
                && old(bufs)[r].id == id
                && bufs == old(bufs)[r := old(bufs)[r].(refcnt := old(bufs)[r].refcnt + 1)]
      ensures !Cached(old(bufs), id) && r != -1 ==>
                && Eligible(old(bufs)[r])
                && (forall i :: 0 <= i < NBUF && Eligible(old(bufs)[i]) ==> released[r] <= released[i])
                && bufs == old(bufs)[r := Buf(id, false, false, 1, false, old(bufs)[r].data)]
    {
      r := FindBlock(bufs, lru, id);
      if r != -1 {
        bufs := bufs[r := bufs[r].(refcnt := bufs[r].refcnt + 1)];
        ShownAgain(old(bufs), bufs, pending, disk, view);
        return;
      }
      r := Recycle(id);
    }

    /** bget for a block that is not cached. */
    method Recycle(id: BlockId) returns (r: int)
      requires Valid() && id.dev != 0 && !Cached(bufs, id)
      modifies this`bufs
      ensures Valid()
      ensures r == -1 <==> !AnyEligible(old(bufs))
      ensures r == -1 ==> bufs == old(bufs)
      ensures r != -1 ==> 0 <= r < NBUF && Eligible(old(bufs)[r])
      ensures r != -1 ==> forall i :: 0 <= i < NBUF && Eligible(old(bufs)[i]) ==> released[r] <= released[i]
      ensures r != -1 ==> bufs == old(bufs)[r := Buf(id, false, false, 1, false, old(bufs)[r].data)]
    {
      r := FindVictim(bufs, lru, released, clock);
      if r != -1 {
        bufs := bufs[r := Buf(id, false, false, 1, false, bufs[r].data)];
        ShownAgain(old(bufs), bufs, pending, disk, view);
      }
    }

    /** bread up to the point where it returns or has to sleep: WAIT means that it has its reference
        and sleeps until the holder of the buffer releases it. */
    method Bread(id: BlockId) returns (r: int)
      requires Valid() && id in disk
      modifies this`bufs
      ensures Valid()
      ensures r == -1 <==> !Cached(old(bufs), id) && !AnyEligible(old(bufs))
      ensures r == WAIT <==> Held(old(bufs), id)
      ensures r == -1 ==> bufs == old(bufs)
      ensures r == WAIT ==> exists i :: Queued(old(bufs), bufs, id, i)
      ensures r >= 0 ==>
                && r < NBUF
                && bufs[r] == Buf(id, true, bufs[r].dirty, bufs[r].refcnt, true, view[id])
                && bufs == old(bufs)[r := bufs[r]]
      ensures r == -1 || r == WAIT || r >= 0
      ensures Cached(old(bufs), id) && r >= 0 ==>
                && old(bufs)[r].id == id && bufs[r].refcnt == old(bufs)[r].refcnt + 1
                && bufs[r].dirty == old(bufs)[r].dirty && !old(bufs)[r].locked
      ensures !Cached(old(bufs), id) && r >= 0 ==>
                Eligible(old(bufs)[r]) && bufs[r].refcnt == 1 && !bufs[r].dirty
    {
      r := Bget(id);
      if r == -1 { return; }
      if bufs[r].locked {
        assert Queued(old(bufs), bufs, id, r);
        return WAIT;
      }
      Acquire(r);
    }

    /** acquiresleep on a buffer nobody holds, then iderw unless the buffer is already valid. */
    method Acquire(r: nat)
      requires Valid() && r < NBUF && !bufs[r].locked && bufs[r].refcnt > 0 && bufs[r].id in disk
      modifies this`bufs
      ensures Valid()
      ensures bufs == old(bufs)[r := old(bufs)[r].(locked := true, valid := true, data := view[old(bufs)[r].id])]
    {
      var b := bufs[r];
      bufs := bufs[r := b.(locked := true, valid := true, data := if b.valid then b.data else disk[b.id])];
      ReadIn(old(bufs), r, pending, disk, view);
    }

    /** The holder changes the contents of its buffer. */
    method SetData(i: nat, data: Block)
      requires Valid() && i < NBUF && bufs[i].locked && bufs[i].valid
      modifies this`bufs, this`view, this`pending
      ensures Valid()
      ensures bufs == old(bufs)[i := old(bufs)[i].(data := data)]
      ensures view == old(view)[bufs[i].id := data]
      ensures pending == old(pending) + {i}
    {
      bufs := bufs[i := bufs[i].(data := data)];
      view := view[bufs[i].id := data];
      pending := pending + {i};
      Changed(old(bufs), old(pending), disk, old(view), i, data);
    }

    /** bwrite */
    method Bwrite(i: nat)
      requires Valid() && i < NBUF && bufs[i].locked && bufs[i].valid
      modifies this`bufs, this`disk, this`pending, this`writes
      ensures Valid()
      ensures bufs == old(bufs)[i := old(bufs)[i].(dirty := false)]
      ensures disk == old(disk)[bufs[i].id := bufs[i].data]
      ensures writes == old(writes) + [Write(bufs[i].id, bufs[i].data)]
      ensures pending == old(pending) - {i}
    {
      disk := disk[bufs[i].id := bufs[i].data];
      writes := writes + [Write(bufs[i].id, bufs[i].data)];
      bufs := bufs[i := bufs[i].(dirty := false)];
      pending := pending - {i};
      Written(old(bufs), old(pending), old(disk), view, i);
    }

    /** The part of log_write that concerns the buffer: B_DIRTY keeps it from being recycled. */
    method Pin(i: nat)
      requires Valid() && i < NBUF && bufs[i].locked && bufs[i].valid
      modifies this`bufs, this`pending
      ensures Valid()
      ensures bufs == old(bufs)[i := old(bufs)[i].(dirty := true)]
      ensures pending == old(pending) - {i}
    {
      bufs := bufs[i := bufs[i].(dirty := true)];
      pending := pending - {i};
      Pinned(old(bufs), old(pending), disk, view, i);
    }

    /** brelse, by a holder that has logged or written what it changed. */
    method Brelse(i: nat)
      requires Valid() && i < NBUF && bufs[i].locked && i !in pending
      modifies this`bufs, this`lru, this`released, this`clock
      ensures Valid()
      ensures bufs == old(bufs)[i := old(bufs)[i].(locked := false, refcnt := old(bufs)[i].refcnt - 1)]
      ensures bufs[i].refcnt > 0 ==> lru == old(lru) && released == old(released)
      ensures bufs[i].refcnt == 0 ==> lru[0] == i && forall j :: 0 <= j < NBUF && j != i ==> released[j] < released[i]
    {
      Unlock(i);
      if bufs[i].refcnt == 0 {
        Requeue(i);
      }
    }

    /** releasesleep, and the reference given up. */
    method Unlock(i: nat)
      requires Valid() && i < NBUF && bufs[i].locked && i !in pending
      modifies this`bufs
      ensures Valid()
      ensures bufs == old(bufs)[i := old(bufs)[i].(locked := false, refcnt := old(bufs)[i].refcnt - 1)]
    {
      bufs := bufs[i := bufs[i].(locked := false, refcnt := bufs[i].refcnt - 1)];
      LetGo(old(bufs), i, pending, disk, view);
    }

    /** Moves buffer i to the head of the list. */
    method Requeue(i: nat)
      requires Valid() && i < NBUF
      modifies this`lru, this`released, this`clock
      ensures Valid()
      ensures lru[0] == i && forall j :: 0 <= j < NBUF && j != i ==> released[j] < released[i]
    {
      lru := ToFront(lru, i, released, clock);
      released := released[i := clock];
      clock := clock + 1;
    }
  }

  /** The list binit links: each buffer in turn goes to the head. */
  method LinkAll() returns (list: seq<nat>)
    ensures Permutation(list)
    ensures forall i :: 0 <= i < NBUF ==> list[i] == NBUF - 1 - i
  {
    list := [];
    var b: nat := 0;
    while b < NBUF
      invariant b <= NBUF && |list| == b
      invariant forall i :: 0 <= i < b ==> list[i] == b - 1 - i
    {
      list := [b] + list;
      b := b + 1;
    }
    forall x | 0 <= x < NBUF ensures x in list {
      assert list[NBUF - 1 - x] == x;
    }
  }

  /** bget's first loop. */
  method FindBlock(bufs: seq<Buf>, lru: seq<nat>, id: BlockId) returns (r: int)
    requires |bufs| == NBUF && Permutation(lru)
    ensures r == -1 <==> !Cached(bufs, id)
    ensures r != -1 ==> 0 <= r < NBUF && bufs[r].id == id
  {
    var k := 0;
    while k < |lru|
      invariant 0 <= k <= |lru|
      invariant forall j :: 0 <= j < k ==> bufs[lru[j]].id != id
    {
      if bufs[lru[k]].id == id { return lru[k]; }
      k := k + 1;
    }
    NotFound(bufs, lru, id);
    r := -1;
  }

  /** bget's second loop, from the tail: the eligible buffer released longest ago. */
  method FindVictim(bufs: seq<Buf>, lru: seq<nat>, ghost released: seq<int>, ghost clock: int) returns (r: int)
    requires |bufs| == NBUF && Permutation(lru) && ByRelease(lru, released, clock)
    ensures r == -1 <==> !AnyEligible(bufs)
    ensures r != -1 ==> 0 <= r < NBUF && Eligible(bufs[r])
    ensures r != -1 ==> forall i :: 0 <= i < NBUF && Eligible(bufs[i]) ==> released[r] <= released[i]
  {
    var k := |lru|;
    while k > 0
      invariant 0 <= k <= |lru|
      invariant forall j :: k <= j < |lru| ==> !Eligible(bufs[lru[j]])
    {
      if Eligible(bufs[lru[k - 1]]) {
        EarliestEligible(bufs, lru, released, clock, k - 1);
        return lru[k - 1];
      }
      k := k - 1;
    }
    NoneEligible(bufs, lru);
    r := -1;
  }

  /** Unlinks buffer i and links it again at the head. */
  method ToFront(lru: seq<nat>, i: nat, ghost released: seq<int>, ghost clock: int) returns (list: seq<nat>)
    requires Permutation(lru) && ByRelease(lru, released, clock) && i < NBUF
    ensures Permutation(list) && list[0] == i
    ensures ByRelease(list, released[i := clock], clock + 1)
    ensures forall j :: 0 <= j < NBUF && j != i ==> released[j] < clock
  {
    assert i in lru;
    var k := 0;
    while lru[k] != i
      invariant 0 <= k < |lru| && i in lru[k..]
      decreases |lru| - k
    {
      k := k + 1;
    }
    list := [i] + lru[..k] + lru[k + 1..];
    FrontPermutation(lru, k);
    FrontOrder(lru, released, clock, k);
  }

  lemma NotFound(bufs: seq<Buf>, lru: seq<nat>, id: BlockId)
    requires Permutation(lru) && |bufs| == NBUF
    requires forall j :: 0 <= j < |lru| ==> bufs[lru[j]].id != id
    ensures !Cached(bufs, id)
  {
    forall i | 0 <= i < NBUF ensures bufs[i].id != id {
      assert i in lru;
    }
  }

  lemma NoneEligible(bufs: seq<Buf>, lru: seq<nat>)
    requires Permutation(lru) && |bufs| == NBUF
    requires forall j :: 0 <= j < |lru| ==> !Eligible(bufs[lru[j]])
    ensures !AnyEligible(bufs)
  {
    forall i | 0 <= i < NBUF ensures !Eligible(bufs[i]) {
      assert i in lru;
    }
  }

  /** The last eligible buffer in the list is the least recently released one. */
  lemma EarliestEligible(bufs: seq<Buf>, lru: seq<nat>, released: seq<int>, clock: int, k: nat)
    requires Permutation(lru) && ByRelease(lru, released, clock) && |bufs| == NBUF && k < NBUF
    requires forall j :: k < j < |lru| ==> !Eligible(bufs[lru[j]])
    ensures forall i :: 0 <= i < NBUF && Eligible(bufs[i]) ==> released[lru[k]] <= released[i]
  {
    forall i | 0 <= i < NBUF && Eligible(bufs[i]) ensures released[lru[k]] <= released[i] {
      assert i in lru;
      var j :| 0 <= j < NBUF && lru[j] == i;
    }
  }

  /** Every buffer that was ahead of the disk still is. */
  lemma ShownAgain(was: seq<Buf>, now: seq<Buf>, pending: set<nat>, disk: DiskMap, view: DiskMap)
    requires Shows(was, pending, disk, view) && |now| == |was|
    requires forall i :: 0 <= i < |now| && now[i].valid ==>
      was[i].valid && now[i].id == was[i].id && now[i].data == was[i].data
    requires forall i :: 0 <= i < |now| && was[i].valid && (was[i].dirty || i in pending)
               ==> now[i].valid && now[i].id == was[i].id && now[i].dirty == was[i].dirty
    ensures Shows(now, pending, disk, view)
  {
    forall id | id in disk && view[id] != disk[id] ensures exists i :: Ahead(now, pending, i, id) {
      var i :| Ahead(was, pending, i, id);
      assert Ahead(now, pending, i, id);
    }
  }

  /** Filling a buffer from the disk shows the latest contents: nobody else had it. */
  lemma ReadIn(was: seq<Buf>, r: nat, pending: set<nat>, disk: DiskMap, view: DiskMap)
    requires r < |was| && OneCopy(was) && Shows(was, pending, disk, view) && was[r].id in disk
    ensures var b := was[r];
            var now := was[r := b.(locked := true, valid := true, data := if b.valid then b.data else disk[b.id])];
            Shows(now, pending, disk, view) && now[r].data == view[b.id]
  {
    var b := was[r];
    var now := was[r := b.(locked := true, valid := true, data := if b.valid then b.data else disk[b.id])];
    if !b.valid {
      forall i ensures !Ahead(was, pending, i, b.id) { }
    }
    forall id | id in disk && view[id] != disk[id] ensures exists i :: Ahead(now, pending, i, id) {
      var i :| Ahead(was, pending, i, id);
      assert Ahead(now, pending, i, id);
    }
  }

  lemma LetGo(bufs: seq<Buf>, i: nat, pending: set<nat>, disk: DiskMap, view: DiskMap)
    requires i < |bufs| && bufs[i].locked && i !in pending
    requires OneCopy(bufs) && FlagsOk(bufs, pending) && Shows(bufs, pending, disk, view)
    ensures var now := bufs[i := bufs[i].(locked := false, refcnt := bufs[i].refcnt - 1)];
            OneCopy(now) && FlagsOk(now, pending) && Shows(now, pending, disk, view)
  {
    ShownAgain(bufs, bufs[i := bufs[i].(locked := false, refcnt := bufs[i].refcnt - 1)], pending, disk, view);
  }

  lemma Changed(bufs: seq<Buf>, pending: set<nat>, disk: DiskMap, view: DiskMap, i: nat, data: Block)
    requires i < |bufs| && OneCopy(bufs) && Shows(bufs, pending, disk, view) && bufs[i].valid
    ensures Shows(bufs[i := bufs[i].(data := data)], pending + {i}, disk, view[bufs[i].id := data])
  {
    var now := bufs[i := bufs[i].(data := data)];
    var v := view[bufs[i].id := data];
    forall id | id in disk && v[id] != disk[id] ensures exists j :: Ahead(now, pending + {i}, j, id) {
      if id == bufs[i].id {
        assert Ahead(now, pending + {i}, i, id);
      } else {
        var j :| Ahead(bufs, pending, j, id);
        assert Ahead(now, pending + {i}, j, id);
      }
    }
  }

  lemma Written(bufs: seq<Buf>, pending: set<nat>, disk: DiskMap, view: DiskMap, i: nat)
    requires i < |bufs| && OneCopy(bufs) && Shows(bufs, pending, disk, view) && bufs[i].valid
    ensures Shows(bufs[i := bufs[i].(dirty := false)], pending - {i}, disk[bufs[i].id := bufs[i].data], view)
  {
    var now := bufs[i := bufs[i].(dirty := false)];
    var d := disk[bufs[i].id := bufs[i].data];
    forall id | id in d && view[id] != d[id] ensures exists j :: Ahead(now, pending - {i}, j, id) {
      var j :| Ahead(bufs, pending, j, id);
      assert Ahead(now, pending - {i}, j, id);
    }
  }

  lemma Pinned(bufs: seq<Buf>, pending: set<nat>, disk: DiskMap, view: DiskMap, i: nat)
    requires i < |bufs| && Shows(bufs, pending, disk, view) && bufs[i].valid
    ensures Shows(bufs[i := bufs[i].(dirty := true)], pending - {i}, disk, view)
  {
    var now := bufs[i := bufs[i].(dirty := true)];
    forall id | id in disk && view[id] != disk[id] ensures exists j :: Ahead(now, pending - {i}, j, id) {
      var j :| Ahead(bufs, pending, j, id);
      assert Ahead(now, pending - {i}, j, id);
    }
  }

  lemma FrontShape(lru: seq<nat>, k: nat)
    requires k < |lru|
    ensures var l := [lru[k]] + lru[..k] + lru[k + 1..];
            && |l| == |lru| && l[0] == lru[k]
            && (forall j :: 0 < j <= k ==> l[j] == lru[j - 1])
            && (forall j :: k < j < |l| ==> l[j] == lru[j])
  {
  }

  lemma FrontPermutation(lru: seq<nat>, k: nat)
    requires Permutation(lru) && k < NBUF
    ensures Permutation([lru[k]] + lru[..k] + lru[k + 1..])
  {
    var l := [lru[k]] + lru[..k] + lru[k + 1..];
    FrontShape(lru, k);
    forall b | 0 <= b < NBUF ensures b in l {
      assert b in lru;
      var j :| 0 <= j < NBUF && lru[j] == b;
      assert b == if j < k then l[j + 1] else if j == k then l[0] else l[j];
    }
  }

  lemma FrontOrder(lru: seq<nat>, released: seq<int>, clock: int, k: nat)
    requires Permutation(lru) && ByRelease(lru, released, clock) && k < NBUF
    ensures ByRelease([lru[k]] + lru[..k] + lru[k + 1..], released[lru[k] := clock], clock + 1)
    ensures forall j :: 0 <= j < NBUF && j != lru[k] ==> released[j] < clock
  {
    FrontShape(lru, k);
    forall b | 0 <= b < NBUF ensures released[b] < clock {
      assert b in lru;
    }
  }
}
