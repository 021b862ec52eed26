/** A transaction that pins every buffer, and what commit makes of it (log.c:302-355, bio.c:78-92). */
module CommitLimits {
  import opened Disk
  import opened LogSpec
  import opened BufferCache
  import opened LogDriver

  /** One use of log_write: bread, change the data, log_write, brelse, for a block not logged yet. */
  method LogBlock(log: Log, b: int, data: Block)
    requires log.bc.Valid() && log.bc.pending == {} && OnlyPinned(log.area, log.bc.bufs, log.lh)
    requires |log.lh| < NBUF && b !in log.lh && log.area.Home(b) in log.bc.disk
    modifies log`lh, log.bc
    ensures log.bc.Valid() && log.bc.pending == {} && log.lh == old(log.lh) + [b]
    ensures OnlyPinned(log.area, log.bc.bufs, log.lh)
    ensures log.bc.disk == old(log.bc.disk) && log.bc.view == old(log.bc.view)[log.area.Home(b) := data]
  {
    var bc, id := log.bc, log.area.Home(b);
    CommitFindsBufferIff(log.area, bc.bufs, log.lh);
    var i := bc.Bread(id);
    ChangeAndPin(bc, i, data);
    log.lh := log.lh + [b];
    OneMorePinned(log.area, old(bc.bufs), old(log.lh), bc.bufs, b, i);
  }

  /** The holder changes the data, logs and releases the buffer. */
  method ChangeAndPin(bc: Cache, i: nat, data: Block)
    requires bc.Valid() && bc.pending == {} && i < NBUF && bc.bufs[i].locked && bc.bufs[i].valid
    modifies bc
    ensures bc.Valid() && bc.pending == {} && bc.disk == old(bc.disk)
    ensures bc.view == old(bc.view)[old(bc.bufs)[i].id := data]
    ensures var b := old(bc.bufs)[i];
            bc.bufs == old(bc.bufs)[i := b.(data := data, dirty := true, locked := false, refcnt := b.refcnt - 1)]
  {
    bc.SetData(i, data);
    bc.Pin(i);
    assert old(bc.pending) + {i} - {i} == {};
    bc.Brelse(i);
  }

  lemma OneMorePinned(a: LogArea, was: seq<Buf>, lh: seq<int>, now: seq<Buf>, b: int, i: nat)
    requires OnlyPinned(a, was, lh) && b !in lh && i < NBUF && |now| == NBUF && OneCopy(now)
    requires now == was[i := now[i]] && now[i].id == a.Home(b) && now[i].dirty && now[i].refcnt == 0
    requires was[i].id == a.Home(b) || !was[i].dirty
    ensures OnlyPinned(a, now, lh + [b])
  {
    forall j | 0 <= j < |lh + [b]| ensures Dirty(now, a.Home((lh + [b])[j])) {
      if j < |lh| {
        assert Dirty(was, a.Home(lh[j]));
        var k :| 0 <= k < |was| && was[k].id == a.Home(lh[j]) && was[k].dirty;
        assert k != i && now[k].dirty;
      } else {
        assert now[i].dirty;
      }
    }
    forall k | 0 <= k < NBUF && now[k].dirty ensures Names(a, lh + [b], now[k].id) {
      if k != i { assert Names(a, lh, was[k].id); }
    }
  }

  /** Logging the blocks one after the other on a fresh cache pins one buffer each. */
  method LogAll(d: DiskMap, a: LogArea, blocks: seq<int>, data: Block) returns (log: Log)
    requires a.dev != 0 && (forall id :: id in d ==> id.dev != 0) && Loggable(a, d, blocks) && |blocks| <= NBUF
    ensures fresh(log) && fresh(log.bc) && log.area == a && log.lh == blocks
    ensures log.bc.Valid() && log.bc.pending == {} && log.bc.disk == d && OnlyPinned(a, log.bc.bufs, blocks)
  {
    var bc := new Cache(d);
    log := new Log(bc, a);
    forall i | 0 <= i < NBUF ensures bc.bufs[i].refcnt == 0 && !bc.bufs[i].dirty { assert Eligible(bc.bufs[i]); }
    assert blocks[..0] == [];
    var k := 0;
    while k < |blocks|
      invariant 0 <= k <= |blocks| && log.lh == blocks[..k] && fresh(log) && fresh(log.bc) && log.bc == bc
      invariant log.area == a
      invariant bc.Valid() && bc.pending == {} && bc.disk == d && OnlyPinned(a, bc.bufs, log.lh)
    {
      assert blocks[k] !in blocks[..k];
      LogBlock(log, blocks[k], data);
      assert blocks[..k + 1] == blocks[..k] + [blocks[k]];
      k := k + 1;
    }
    assert blocks[..|blocks|] == blocks;
  }

  /** A transaction of NBUF blocks leaves no buffer to copy a log block into. */
  method FillTransaction(d: DiskMap, a: LogArea, blocks: seq<int>, data: Block) returns (log: Log)
    requires a.dev != 0 && (forall id :: id in d ==> id.dev != 0) && Loggable(a, d, blocks) && |blocks| == NBUF
    ensures fresh(log) && fresh(log.bc) && log.area == a && log.lh == blocks && log.bc.Valid() && log.bc.disk == d
    ensures OnlyPinned(a, log.bc.bufs, blocks) && !AnyEligible(log.bc.bufs)
  {
    log := LogAll(d, a, blocks, data);
    CommitFindsBufferIff(a, log.bc.bufs, blocks);
  }

  /** Then commit panics before its first write, although log_write let the transaction in. */
  method CommitRunsOut(d: DiskMap, a: LogArea, blocks: seq<int>, data: Block) returns (log: Log, ok: bool)
    requires a.dev != 0 && (forall id :: id in d ==> id.dev != 0) && Idle(a, d) && Loggable(a, d, blocks)
    requires |blocks| == NBUF
    ensures !ok && log.bc.disk == d
  {
    log := FillTransaction(d, a, blocks, data);
    PinnedIsReady(a, log.bc.bufs, d, blocks);
    ok := log.Commit();
  }

  lemma PinnedIsReady(a: LogArea, bufs: seq<Buf>, d: DiskMap, lh: seq<int>)
    requires OnlyPinned(a, bufs, lh) && Loggable(a, d, lh)
    ensures Ready(a, bufs, bufs, lh, 0)
  {
    assert forall j :: 0 <= j < |lh| ==> !a.Inside(a.Home(lh[j]));
    assert forall id :: Names(a, lh, id) ==> !a.Inside(id);
  }

  /** NBUF blocks fit the log of every area with more than LOGSIZE blocks. */
  lemma FullTransactionExists(a: LogArea, d: DiskMap, base: int)
    requires a.size > LOGSIZE && forall b :: base <= b < base + NBUF ==> a.Home(b) in d && !a.Inside(a.Home(b))
    ensures Loggable(a, d, seq(NBUF, i => base + i))
  {
  }

  /** So in every area of more than LOGSIZE blocks, over NBUF blocks of the disk outside it, a transaction
      that log_write let in makes commit run out of buffers. */
  method FullCommitFails(d: DiskMap, a: LogArea, base: int, data: Block) returns (log: Log, ok: bool)
    requires a.dev != 0 && (forall id :: id in d ==> id.dev != 0) && Idle(a, d) && a.size > LOGSIZE
    requires forall b :: base <= b < base + NBUF ==> a.Home(b) in d && !a.Inside(a.Home(b))
    ensures !ok && log.bc.disk == d && NBUF <= a.Capacity()
  {
    FullTransactionExists(a, d, base);
    log, ok := CommitRunsOut(d, a, seq(NBUF, i => base + i), data);
  }
}
