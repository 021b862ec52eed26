/** commit and recover_from_log as the code runs them, through the buffer cache (log.c). */
module LogDriver {
  import opened Disk
  import opened LogSpec
  import opened BufferCache
  import Counting

  ghost predicate DirtyExcept(was: seq<Buf>, now: seq<Buf>, gone: BlockId) {
    forall id :: Dirty(now, id) <==> Dirty(was, id) && id != gone
  }

  /** Buffer r, free in `was`, is held for block id in `now`. */
  ghost predicate Took(was: seq<Buf>, now: Buf, r: int, id: BlockId) {
    && 0 <= r < |was| && was[r].refcnt == 0
    && now.id == id && now.valid && now.locked && now.refcnt == 1
    && (if was[r].id == id then now.dirty == was[r].dirty else Eligible(was[r]) && !now.dirty && !Dirty(was, id))
  }

  /** bread of the log block, then of the home block. */
  method ReadPair(bc: Cache, log: BlockId, home: BlockId) returns (l: int, h: int)
    requires bc.Valid() && log in bc.disk && home in bc.disk && log != home
    requires Unheld(bc.bufs, log) && Unheld(bc.bufs, home)
    modifies bc`bufs
    ensures bc.Valid()
    ensures l != -1 && h != -1 ==>
              && 0 <= l < NBUF && 0 <= h < NBUF && l != h
              && bc.bufs == old(bc.bufs)[l := bc.bufs[l]][h := bc.bufs[h]]
              && Took(old(bc.bufs), bc.bufs[l], l, log) && bc.bufs[l].data == bc.view[log]
              && Took(old(bc.bufs), bc.bufs[h], h, home) && bc.bufs[h].data == bc.view[home]
    ensures Dirty(old(bc.bufs), home) ==>
      (l != -1 && h != -1 <==> AnyEligible(old(bc.bufs)) || Dirty(old(bc.bufs), log))
    ensures AllEligible(old(bc.bufs)) ==> l != -1 && h != -1
  {
    h := -1;
    assert AllEligible(bc.bufs) ==> Eligible(bc.bufs[0]);
    l := bc.Bread(log);
    if l == -1 { return; }
    SecondRead(old(bc.bufs), bc.bufs, l, log, home);
    h := bc.Bread(home);
  }

  /** Copies, writes and releases two buffers held by the caller alone. */
  method FinishCopy(bc: Cache, src: nat, dst: nat)
    requires bc.Valid() && src < NBUF && dst < NBUF && src != dst
    requires bc.bufs[src].locked && bc.bufs[src].refcnt == 1 && bc.bufs[src].valid && src !in bc.pending
    requires bc.bufs[dst].locked && bc.bufs[dst].refcnt == 1 && bc.bufs[dst].valid && dst !in bc.pending
    modifies bc
    ensures bc.Valid() && bc.pending == old(bc.pending)
    ensures var data, id := old(bc.bufs)[src].data, old(bc.bufs)[dst].id;
            && bc.disk == old(bc.disk)[id := data]
            && bc.view == old(bc.view)[id := data]
            && bc.writes == old(bc.writes) + [Write(id, data)]
            && bc.bufs == old(bc.bufs)[src := old(bc.bufs)[src].(locked := false, refcnt := 0)]
                                      [dst := Buf(id, true, false, 0, false, data)]
  {
    bc.SetData(dst, bc.bufs[src].data);
    bc.Bwrite(dst);
    ReleaseBoth(bc, src, dst);
  }

  method ReleaseBoth(bc: Cache, src: nat, dst: nat)
    requires bc.Valid() && src < NBUF && dst < NBUF && src != dst
    requires bc.bufs[src].locked && bc.bufs[src].refcnt == 1 && src !in bc.pending
    requires bc.bufs[dst].locked && bc.bufs[dst].refcnt == 1 && dst !in bc.pending
    modifies bc`bufs, bc`lru, bc`released, bc`clock
    ensures bc.Valid()
    ensures bc.bufs == old(bc.bufs)[src := old(bc.bufs)[src].(locked := false, refcnt := 0)]
                                   [dst := old(bc.bufs)[dst].(locked := false, refcnt := 0)]
  {
    bc.Brelse(src);
    bc.Brelse(dst);
  }

  /** One round of write_log (toLog) or install_trans: read the log block and the home block, copy
      one into the other, write it, release both.  False stands for bget's panic. */
  method CopyBetween(bc: Cache, log: BlockId, home: BlockId, toLog: bool) returns (ok: bool)
    requires bc.Valid() && log in bc.disk && home in bc.disk && log != home
    requires Unheld(bc.bufs, log) && Unheld(bc.bufs, home) && !Dirty(bc.bufs, log)
    modifies bc
    ensures bc.Valid()
    ensures bc.pending == old(bc.pending)
    ensures var src, dst := if toLog then home else log, if toLog then log else home;
            var data := old(bc.view)[src];
            if ok then
              && Wrote(dst, data, old(bc.disk), old(bc.view), old(bc.writes), bc.disk, bc.view, bc.writes)
              && SameHolds(old(bc.bufs), bc.bufs)
              && DirtyExcept(old(bc.bufs), bc.bufs, dst)
              && AnyEligible(bc.bufs)
            else bc.disk == old(bc.disk) && bc.view == old(bc.view) && bc.writes == old(bc.writes)
    ensures Dirty(old(bc.bufs), home) ==> (ok <==> AnyEligible(old(bc.bufs)))
    ensures AllEligible(old(bc.bufs)) ==> ok && AllEligible(bc.bufs)
  {
    var l, h := ReadPair(bc, log, home);
    if l == -1 || h == -1 { return false; }
    var src, dst := if toLog then h else l, if toLog then l else h;
    ghost var mid := bc.bufs;
    FinishCopy(bc, src, dst);
    AfterCopy(old(bc.bufs), mid, bc.bufs, src, dst);
    return true;
  }

  /** After the log block is read, the home block can be read if it is cached or another buffer
      is eligible. */
  lemma SecondRead(was: seq<Buf>, now: seq<Buf>, l: nat, log: BlockId, home: BlockId)
    requires |was| == NBUF == |now| && l < NBUF && now == was[l := now[l]]
    requires now[l].id == log != home
    requires Dirty(was, home) ==> !was[l].dirty || was[l].id == log
    ensures Dirty(was, home) ==> Cached(now, home)
    ensures AllEligible(was) ==> AnyEligible(now)
  {
    if Dirty(was, home) {
      var i :| 0 <= i < NBUF && was[i].id == home && was[i].dirty;
      assert now[i] == was[i];
    }
    if AllEligible(was) {
      var i := if l == 0 then 1 else 0;
      assert now[i] == was[i];
    }
  }

  lemma AfterCopy(was: seq<Buf>, mid: seq<Buf>, now: seq<Buf>, src: nat, dst: nat)
    requires src < |was| && dst < |was| && src != dst && |was| == |mid| == |now|
    requires OneCopy(was) && mid[src].id.dev != 0 && mid[dst].id.dev != 0 && mid[src].id != mid[dst].id
    requires Took(was, mid[src], src, mid[src].id) && Took(was, mid[dst], dst, mid[dst].id)
    requires mid == was[src := mid[src]][dst := mid[dst]]
    requires now == mid[src := mid[src].(locked := false, refcnt := 0)][dst := now[dst]]
    requires now[dst].id == mid[dst].id && Eligible(now[dst])
    ensures SameHolds(was, now)
    ensures DirtyExcept(was, now, now[dst].id)
    ensures AnyEligible(now)
    ensures AllEligible(was) ==> AllEligible(now)
  {
    forall id ensures Dirty(now, id) <==> Dirty(was, id) && id != now[dst].id {
      if Dirty(was, id) && id != now[dst].id {
        var i :| 0 <= i < |was| && was[i].id == id && was[i].dirty;
        assert now[i].id == id && now[i].dirty;
      }
      if Dirty(now, id) {
        var i :| 0 <= i < |now| && now[i].id == id && now[i].dirty;
        assert was[i].id == id && was[i].dirty;
      }
    }
  }

  // ----- the header block -----

  /** write_head's copy of lh into the header buffer. */
  method FillHead(head: Block, blocks: seq<int>) returns (r: Block)
    requires |blocks| <= LOGSIZE
    ensures r == EncodeHead(head, blocks)
  {
    r := head[0 := |blocks|];
    for i := 0 to |blocks|
      invariant r == [|blocks|] + blocks[..i] + head[1 + i..]
    {
      r := r[1 + i := blocks[i]];
    }
  }

  /** read_head's copy of the header block into lh. */
  method LoadHead(head: Block) returns (lh: seq<int>)
    requires HeadOk(head)
    ensures lh == DecodeHead(head)
  {
    lh := [];
    for i := 0 to head[0]
      invariant lh == head[1..1 + i]
    {
      lh := lh + [head[1 + i]];
    }
  }

  // ----- who may use which block -----

  /** Nobody else holds a log block or a logged block. */
  ghost predicate Undisturbed(a: LogArea, bufs: seq<Buf>, lh: seq<int>) {
    forall i :: 0 <= i < |bufs| && (a.Inside(bufs[i].id) || Names(a, lh, bufs[i].id)) ==> bufs[i].refcnt == 0
  }

  ghost predicate LogClean(a: LogArea, bufs: seq<Buf>) {
    forall id :: a.Inside(id) ==> !Dirty(bufs, id)
  }

  ghost predicate HomesDirty(a: LogArea, bufs: seq<Buf>, lh: seq<int>, from: nat) {
    forall j :: from <= j < |lh| ==> Dirty(bufs, a.Home(lh[j]))
  }

  ghost predicate AreaOnDisk(a: LogArea, d: DiskMap) {
    a.size >= 1 && a.Head() in d && forall i :: 0 <= i < a.Capacity() ==> a.Slot(i) in d
  }

  ghost function HomeData(a: LogArea, view: DiskMap, lh: seq<int>): (r: seq<Block>)
    requires forall i :: 0 <= i < |lh| ==> a.Home(lh[i]) in view
    ensures |r| == |lh| && forall i :: 0 <= i < |lh| ==> r[i] == view[a.Home(lh[i])]
  {
    seq(|lh|, i requires 0 <= i < |lh| => view[a.Home(lh[i])])
  }

  lemma StillUndisturbed(a: LogArea, was: seq<Buf>, now: seq<Buf>, lh: seq<int>)
    requires Undisturbed(a, was, lh) && SameHolds(was, now)
    ensures Undisturbed(a, now, lh)
  {
  }

  lemma HoldsTwice(a: seq<Buf>, b: seq<Buf>, c: seq<Buf>)
    requires SameHolds(a, b) && SameHolds(b, c)
    ensures SameHolds(a, c)
  {
  }

  lemma SlotInside(a: LogArea, i: int)
    requires 0 <= i < a.Capacity()
    ensures a.Inside(a.Slot(i)) && a.Inside(a.Head()) && a.Slot(i) != a.Head()
  {
  }

  lemma UnheldIn(a: LogArea, bufs: seq<Buf>, lh: seq<int>, id: BlockId)
    requires Undisturbed(a, bufs, lh) && (a.Inside(id) || Names(a, lh, id))
    ensures Unheld(bufs, id)
  {
  }

  /** A block that is neither dirty nor held has reached the disk. */
  lemma CleanOnDisk(bc: Cache, id: BlockId)
    requires bc.Valid() && id in bc.disk && Unheld(bc.bufs, id) && !Dirty(bc.bufs, id)
    ensures bc.view[id] == bc.disk[id]
  {
    forall i ensures !Ahead(bc.bufs, bc.pending, i, id) { }
  }

  /** Changes, writes and releases a buffer held by the caller alone. */
  method ReplaceBlock(bc: Cache, b: nat, data: Block)
    requires bc.Valid() && b < NBUF
    requires bc.bufs[b].locked && bc.bufs[b].refcnt == 1 && bc.bufs[b].valid && b !in bc.pending
    modifies bc
    ensures bc.Valid() && bc.pending == old(bc.pending)
    ensures var id := old(bc.bufs)[b].id;
            && bc.disk == old(bc.disk)[id := data]
            && bc.view == old(bc.view)[id := data]
            && bc.writes == old(bc.writes) + [Write(id, data)]
            && bc.bufs == old(bc.bufs)[b := Buf(id, true, false, 0, false, data)]
  {
    bc.SetData(b, data);
    bc.Bwrite(b);
    bc.Brelse(b);
  }

  /** The cache wrote block id with `data`, or did nothing. */
  ghost predicate Wrote(id: BlockId, data: Block, d0: DiskMap, v0: DiskMap, w0: seq<Write>, d: DiskMap, v: DiskMap,
                        w: seq<Write>) {
    d == d0[id := data] && v == v0[id := data] && w == w0 + [Write(id, data)]
  }

  /** write_head */
  method WriteHead(bc: Cache, a: LogArea, blocks: seq<int>) returns (ok: bool)
    requires bc.Valid() && a.Head() in bc.disk && |blocks| <= LOGSIZE
    requires Unheld(bc.bufs, a.Head()) && !Dirty(bc.bufs, a.Head())
    modifies bc
    ensures bc.Valid() && bc.pending == old(bc.pending)
    ensures ok <==> AnyEligible(old(bc.bufs))
    ensures !ok ==> bc.disk == old(bc.disk) && bc.view == old(bc.view) && bc.writes == old(bc.writes)
    ensures ok ==> Wrote(a.Head(), EncodeHead(old(bc.disk)[a.Head()], blocks),
                         old(bc.disk), old(bc.view), old(bc.writes), bc.disk, bc.view, bc.writes)
    ensures ok ==> SameHolds(old(bc.bufs), bc.bufs) && DirtyExcept(old(bc.bufs), bc.bufs, a.Head())
    ensures ok ==> AnyEligible(bc.bufs)
    ensures AllEligible(old(bc.bufs)) ==> AllEligible(bc.bufs)
  {
    CleanOnDisk(bc, a.Head());
    CachedClean(bc.bufs, a.Head());
    var b := bc.Bread(a.Head());
    if b == -1 { return false; }
    ghost var mid := bc.bufs;
    var h := FillHead(bc.bufs[b].data, blocks);
    ReplaceBlock(bc, b, h);
    OneReleased(old(bc.bufs), mid, bc.bufs, b);
    return true;
  }

  /** A clean cached block that nobody holds sits in an eligible buffer. */
  lemma CachedClean(bufs: seq<Buf>, id: BlockId)
    requires Unheld(bufs, id) && !Dirty(bufs, id)
    ensures Cached(bufs, id) ==> AnyEligible(bufs)
  {
    if Cached(bufs, id) {
      var i :| 0 <= i < |bufs| && bufs[i].id == id;
      assert Eligible(bufs[i]);
    }
  }

  lemma OneReleased(was: seq<Buf>, mid: seq<Buf>, now: seq<Buf>, b: nat)
    requires b < |was| && |was| == |mid| == |now| && OneCopy(was) && mid[b].id.dev != 0
    requires Took(was, mid[b], b, mid[b].id)
    requires mid == was[b := mid[b]] && now == mid[b := now[b]]
    requires now[b].id == mid[b].id && Eligible(now[b])
    ensures SameHolds(was, now)
    ensures DirtyExcept(was, now, now[b].id)
    ensures AnyEligible(now)
    ensures AllEligible(was) ==> AllEligible(now)
  {
    forall id ensures Dirty(now, id) <==> Dirty(was, id) && id != now[b].id {
      if Dirty(was, id) && id != now[b].id {
        var i :| 0 <= i < |was| && was[i].id == id && was[i].dirty;
        assert now[i].id == id && now[i].dirty;
      }
      if Dirty(now, id) {
        var i :| 0 <= i < |now| && now[i].id == id && now[i].dirty;
        assert was[i].id == id && was[i].dirty;
      }
    }
  }

  /** The state of write_log after `tail` rounds, from disk d0 and contents v0. */
  ghost predicate Logging(a: LogArea, lh: seq<int>, d0: DiskMap, v0: DiskMap, w0: seq<Write>, tail: nat,
                          d: DiskMap, v: DiskMap, w: seq<Write>)
  {
    && v.Keys == d.Keys == d0.Keys == v0.Keys && tail <= |lh|
    && AreaOnDisk(a, d0) && Loggable(a, d0, lh)
    && var ws := LogWrites(a, HomeData(a, v0, lh))[..tail];
    && w == w0 + ws && d == Apply(d0, ws)
    && (forall id :: id in d && !a.Inside(id) ==> v[id] == v0[id])
    && (forall i :: 0 <= i < tail ==> v[a.Slot(i)] == v0[a.Home(lh[i])])
  }

  lemma LoggedOne(a: LogArea, lh: seq<int>, d0: DiskMap, v0: DiskMap, w0: seq<Write>, tail: nat,
                  d: DiskMap, v: DiskMap, w: seq<Write>, d': DiskMap, v': DiskMap, w': seq<Write>)
    requires Logging(a, lh, d0, v0, w0, tail, d, v, w) && tail < |lh|
    requires Wrote(a.Slot(tail), v[a.Home(lh[tail])], d, v, w, d', v', w')
    ensures Logging(a, lh, d0, v0, w0, tail + 1, d', v', w')
  {
    var ws := LogWrites(a, HomeData(a, v0, lh));
    SlotInside(a, tail);
    ApplyOne(d0, ws, tail);
    assert ws[..tail + 1] == ws[..tail] + [ws[tail]];
  }

  /** What the commit loops need of the buffers and keep. */
  ghost predicate Ready(a: LogArea, was: seq<Buf>, bufs: seq<Buf>, lh: seq<int>, from: nat) {
    && SameHolds(was, bufs)
    && Undisturbed(a, bufs, lh)
    && LogClean(a, bufs)
    && HomesDirty(a, bufs, lh, from)
  }

  lemma ReadyAgain(a: LogArea, was: seq<Buf>, mid: seq<Buf>, bufs: seq<Buf>, lh: seq<int>, from: nat, to: nat,
                   gone: BlockId)
    requires Ready(a, was, mid, lh, from) && SameHolds(mid, bufs) && DirtyExcept(mid, bufs, gone)
    requires from <= to && forall j :: to <= j < |lh| ==> a.Home(lh[j]) != gone
    ensures Ready(a, was, bufs, lh, to)
  {
    HoldsTwice(was, mid, bufs);
    StillUndisturbed(a, mid, bufs, lh);
  }

  lemma HomesOutside(a: LogArea, d: DiskMap, lh: seq<int>, j: nat)
    requires Loggable(a, d, lh) && j < |lh|
    ensures a.Home(lh[j]) in d && !a.Inside(a.Home(lh[j])) && Names(a, lh, a.Home(lh[j]))
  {
  }

  /** One round of write_log. */
  method LogRound(bc: Cache, a: LogArea, lh: seq<int>, tail: nat,
                  ghost was: seq<Buf>, ghost d0: DiskMap, ghost v0: DiskMap, ghost w0: seq<Write>) returns (ok: bool)
    requires bc.Valid() && tail < |lh| && Ready(a, was, bc.bufs, lh, 0)
    requires Logging(a, lh, d0, v0, w0, tail, bc.disk, bc.view, bc.writes)
    modifies bc
    ensures bc.Valid() && bc.pending == old(bc.pending)
    ensures ok <==> AnyEligible(old(bc.bufs))
    ensures Logging(a, lh, d0, v0, w0, if ok then tail + 1 else tail, bc.disk, bc.view, bc.writes)
    ensures ok ==> Ready(a, was, bc.bufs, lh, 0) && AnyEligible(bc.bufs)
  {
    SlotInside(a, tail);
    HomesOutside(a, d0, lh, tail);
    UnheldIn(a, bc.bufs, lh, a.Slot(tail));
    UnheldIn(a, bc.bufs, lh, a.Home(lh[tail]));
    ok := CopyBetween(bc, a.Slot(tail), a.Home(lh[tail]), true);
    if ok {
      LoggedOne(a, lh, d0, v0, w0, tail, old(bc.disk), old(bc.view), old(bc.writes), bc.disk, bc.view, bc.writes);
      forall j | 0 <= j < |lh| ensures a.Home(lh[j]) != a.Slot(tail) { HomesOutside(a, d0, lh, j); }
      ReadyAgain(a, was, old(bc.bufs), bc.bufs, lh, 0, 0, a.Slot(tail));
    }
  }

  /** write_log.  A panic happens before the first write or not at all. */
  method WriteLog(bc: Cache, a: LogArea, lh: seq<int>) returns (ok: bool)
    requires bc.Valid() && AreaOnDisk(a, bc.disk) && Loggable(a, bc.disk, lh) && |lh| > 0
    requires Ready(a, bc.bufs, bc.bufs, lh, 0)
    modifies bc
    ensures bc.Valid() && bc.pending == old(bc.pending)
    ensures ok <==> AnyEligible(old(bc.bufs))
    ensures Logging(a, lh, old(bc.disk), old(bc.view), old(bc.writes),
      if ok then |lh| else 0, bc.disk, bc.view, bc.writes)
    ensures ok ==> Ready(a, old(bc.bufs), bc.bufs, lh, 0) && AnyEligible(bc.bufs)
  {
    ok := true;
    var tail := 0;
    assert LogWrites(a, HomeData(a, bc.view, lh))[..0] == [];
    while tail < |lh|
      invariant 0 <= tail <= |lh|
      invariant bc.Valid() && bc.pending == old(bc.pending)
      invariant Ready(a, old(bc.bufs), bc.bufs, lh, 0)
      invariant AnyEligible(bc.bufs) <==> AnyEligible(old(bc.bufs))
      invariant tail > 0 ==> AnyEligible(bc.bufs)
      invariant Logging(a, lh, old(bc.disk), old(bc.view), old(bc.writes), tail, bc.disk, bc.view, bc.writes)
    {
      ok := LogRound(bc, a, lh, tail, old(bc.bufs), old(bc.disk), old(bc.view), old(bc.writes));
      if !ok { return; }
      tail := tail + 1;
    }
  }

  /** The state of install_trans after `tail` rounds. */
  ghost predicate Installing(a: LogArea, lh: seq<int>, vals: seq<Block>, d0: DiskMap, v0: DiskMap, w0: seq<Write>,
                             tail: nat, d: DiskMap, v: DiskMap, w: seq<Write>)
  {
    && v.Keys == d.Keys == d0.Keys == v0.Keys && tail <= |lh| == |vals|
    && AreaOnDisk(a, d0) && Loggable(a, d0, lh)
    && var ws := InstallWrites(a, lh, vals)[..tail];
    && w == w0 + ws && d == Apply(d0, ws)
    && InstallView(a, lh, vals, v0, tail, v)
  }

  /** The contents the cache shows after `tail` rounds of install_trans. */
  ghost predicate InstallView(a: LogArea, lh: seq<int>, vals: seq<Block>, v0: DiskMap, tail: nat, v: DiskMap)
  {
    && v.Keys == v0.Keys && tail <= |lh| == |vals|
    && AreaOnDisk(a, v0) && Loggable(a, v0, lh)
    && (forall i :: 0 <= i < |lh| ==> v[a.Slot(i)] == vals[i])
    && (forall id :: id in v && !Names(a, lh[..tail], id) ==> v[id] == v0[id])
    && (forall i :: 0 <= i < tail ==> v[a.Home(lh[i])] == vals[i])
  }

  lemma InstallViewOne(a: LogArea, lh: seq<int>, vals: seq<Block>, v0: DiskMap, tail: nat, v: DiskMap)
    requires InstallView(a, lh, vals, v0, tail, v) && tail < |lh|
    ensures InstallView(a, lh, vals, v0, tail + 1, v[a.Home(lh[tail]) := vals[tail]])
  {
    HomesOutside(a, v0, lh, tail);
    var v' := v[a.Home(lh[tail]) := vals[tail]];
    forall i | 0 <= i < |lh| ensures v'[a.Slot(i)] == vals[i] { SlotInside(a, i); }
    forall id | id in v' && !Names(a, lh[..tail + 1], id) ensures v'[id] == v0[id] {
      assert lh[..tail + 1][tail] == lh[tail];
      assert forall x :: x in lh[..tail] ==> x in lh[..tail + 1];
    }
  }

  lemma InstalledOne(a: LogArea, lh: seq<int>, vals: seq<Block>, d0: DiskMap, v0: DiskMap, w0: seq<Write>, tail: nat,
                     d: DiskMap, v: DiskMap, w: seq<Write>, d': DiskMap, v': DiskMap, w': seq<Write>)
    requires Installing(a, lh, vals, d0, v0, w0, tail, d, v, w) && tail < |lh|
    requires Wrote(a.Home(lh[tail]), v[a.Slot(tail)], d, v, w, d', v', w')
    ensures Installing(a, lh, vals, d0, v0, w0, tail + 1, d', v', w')
  {
    var ws := InstallWrites(a, lh, vals);
    assert v[a.Slot(tail)] == vals[tail];
    InstallViewOne(a, lh, vals, v0, tail, v);
    OneMoreWrite(d0, w0, ws, tail, d, w, d', w');
    HomesOutside(a, d0, lh, tail);
  }

  lemma OneMoreWrite(d0: DiskMap, w0: seq<Write>, ws: seq<Write>, tail: nat, d: DiskMap, w: seq<Write>, d': DiskMap,
                     w': seq<Write>)
    requires tail < |ws| && w == w0 + ws[..tail] && d == Apply(d0, ws[..tail])
    requires d' == d[ws[tail].id := ws[tail].data] && w' == w + [ws[tail]]
    ensures w' == w0 + ws[..tail + 1] && d' == Apply(d0, ws[..tail + 1])
  {
    ApplyOne(d0, ws, tail);
    assert ws[..tail + 1] == ws[..tail] + [ws[tail]];
  }

  /** Either the home blocks still to be installed are pinned and some buffer is free (commit),
      or every buffer is free (recovery). */
  ghost predicate CanInstall(a: LogArea, bufs: seq<Buf>, lh: seq<int>, from: nat) {
    AllEligible(bufs) || (HomesDirty(a, bufs, lh, from) && AnyEligible(bufs))
  }

  ghost predicate Steady(a: LogArea, was: seq<Buf>, bufs: seq<Buf>, lh: seq<int>) {
    SameHolds(was, bufs) && Undisturbed(a, bufs, lh) && LogClean(a, bufs)
  }

  /** One round of install_trans. */
  method InstallRound(bc: Cache, a: LogArea, lh: seq<int>, tail: nat,
                      ghost was: seq<Buf>, ghost vals: seq<Block>, ghost d0: DiskMap, ghost v0: DiskMap,
                      ghost w0: seq<Write>)
    requires bc.Valid() && tail < |lh| && Steady(a, was, bc.bufs, lh) && CanInstall(a, bc.bufs, lh, tail)
    requires Installing(a, lh, vals, d0, v0, w0, tail, bc.disk, bc.view, bc.writes)
    modifies bc
    ensures bc.Valid() && bc.pending == old(bc.pending)
    ensures Steady(a, was, bc.bufs, lh) && CanInstall(a, bc.bufs, lh, tail + 1)
    ensures AllEligible(old(bc.bufs)) ==> AllEligible(bc.bufs)
    ensures Installing(a, lh, vals, d0, v0, w0, tail + 1, bc.disk, bc.view, bc.writes)
  {
    SlotInside(a, tail);
    HomesOutside(a, d0, lh, tail);
    UnheldIn(a, bc.bufs, lh, a.Slot(tail));
    UnheldIn(a, bc.bufs, lh, a.Home(lh[tail]));
    var ok := CopyBetween(bc, a.Slot(tail), a.Home(lh[tail]), false);
    InstalledOne(a, lh, vals, d0, v0, w0, tail, old(bc.disk), old(bc.view), old(bc.writes), bc.disk, bc.view,
      bc.writes);
    HoldsTwice(was, old(bc.bufs), bc.bufs);
    StillUndisturbed(a, old(bc.bufs), bc.bufs, lh);
  }

  /** install_trans */
  method InstallTrans(bc: Cache, a: LogArea, lh: seq<int>, ghost vals: seq<Block>)
    requires bc.Valid() && AreaOnDisk(a, bc.disk) && Loggable(a, bc.disk, lh) && |vals| == |lh|
    requires forall i :: 0 <= i < |lh| ==> bc.view[a.Slot(i)] == vals[i]
    requires Steady(a, bc.bufs, bc.bufs, lh) && CanInstall(a, bc.bufs, lh, 0)
    modifies bc
    ensures bc.Valid() && bc.pending == old(bc.pending)
    ensures Steady(a, old(bc.bufs), bc.bufs, lh) && CanInstall(a, bc.bufs, lh, |lh|)
    ensures AllEligible(old(bc.bufs)) ==> AllEligible(bc.bufs)
    ensures Installing(a, lh, vals, old(bc.disk), old(bc.view), old(bc.writes), |lh|, bc.disk, bc.view, bc.writes)
  {
    var tail := 0;
    assert InstallWrites(a, lh, vals)[..0] == [];
    while tail < |lh|
      invariant 0 <= tail <= |lh|
      invariant bc.Valid() && bc.pending == old(bc.pending)
      invariant Steady(a, old(bc.bufs), bc.bufs, lh) && CanInstall(a, bc.bufs, lh, tail)
      invariant AllEligible(old(bc.bufs)) ==> AllEligible(bc.bufs)
      invariant Installing(a, lh, vals, old(bc.disk), old(bc.view), old(bc.writes), tail, bc.disk, bc.view, bc.writes)
    {
      InstallRound(bc, a, lh, tail, old(bc.bufs), vals, old(bc.disk), old(bc.view), old(bc.writes));
      tail := tail + 1;
    }
  }

  lemma InstallsSpareHead(a: LogArea, d: DiskMap, lh: seq<int>, vals: seq<Block>)
    requires AreaOnDisk(a, d) && Loggable(a, d, lh) && |vals| == |lh|
    ensures var e := Apply(d, InstallWrites(a, lh, vals)[..|lh|]);
            a.Head() in e && e[a.Head()] == d[a.Head()]
  {
    var ws := InstallWrites(a, lh, vals)[..|lh|];
    InstallsAreDistinct(a, d, lh, vals, |lh|);
    ApplyDistinct(d, ws);
    forall i | 0 <= i < |ws| ensures ws[i].id != a.Head() { HomesOutside(a, d, lh, i); }
  }

  /** install_trans, then write_head with n = 0. */
  method ReplayLog(bc: Cache, a: LogArea, lh: seq<int>, ghost vals: seq<Block>) returns (ghost v: DiskMap)
    requires bc.Valid() && AreaOnDisk(a, bc.disk) && Loggable(a, bc.disk, lh) && |vals| == |lh|
    requires forall i :: 0 <= i < |lh| ==> bc.view[a.Slot(i)] == vals[i]
    requires Steady(a, bc.bufs, bc.bufs, lh) && CanInstall(a, bc.bufs, lh, 0)
    modifies bc
    ensures bc.Valid() && bc.pending == old(bc.pending)
    ensures var ws := Replay(a, old(bc.disk)[a.Head()], lh, vals);
            bc.writes == old(bc.writes) + ws && bc.disk == Apply(old(bc.disk), ws)
    ensures InstallView(a, lh, vals, old(bc.view), |lh|, v)
    ensures bc.view == v[a.Head() := EncodeHead(old(bc.disk)[a.Head()], [])]
  {
    InstallTrans(bc, a, lh, vals);
    v := bc.view;
    InstallsSpareHead(a, old(bc.disk), lh, vals);
    HeadFree(a, bc.bufs, lh);
    assert AllEligible(bc.bufs) ==> Eligible(bc.bufs[0]);
    assert InstallWrites(a, lh, vals)[..|lh|] == InstallWrites(a, lh, vals);
    ClearHead(bc, a, old(bc.disk), old(bc.writes), InstallWrites(a, lh, vals));
  }

  /** write_head with n = 0, after the writes ws. */
  method ClearHead(bc: Cache, a: LogArea, ghost d0: DiskMap, ghost w0: seq<Write>, ghost ws: seq<Write>)
    requires bc.Valid() && a.Head() in bc.disk && a.Head() in d0 && bc.disk[a.Head()] == d0[a.Head()]
    requires Unheld(bc.bufs, a.Head()) && !Dirty(bc.bufs, a.Head()) && AnyEligible(bc.bufs)
    requires bc.writes == w0 + ws && bc.disk == Apply(d0, ws)
    modifies bc
    ensures bc.Valid() && bc.pending == old(bc.pending)
    ensures var w := Write(a.Head(), EncodeHead(d0[a.Head()], []));
      bc.writes == w0 + (ws + [w]) && bc.disk == Apply(d0, ws + [w])
    ensures bc.view == old(bc.view)[a.Head() := EncodeHead(d0[a.Head()], [])]
  {
    var ok := WriteHead(bc, a, []);
    ApplySnoc(d0, ws, Write(a.Head(), EncodeHead(d0[a.Head()], [])));
  }

  /** The writes up to and including the header's. */
  function FirstWrites(a: LogArea, head: Block, lh: seq<int>, vals: seq<Block>): seq<Write>
    requires |lh| <= LOGSIZE
  {
    LogWrites(a, vals) + [Write(a.Head(), EncodeHead(head, lh))]
  }

  /** The state after write_log and write_head. */
  ghost predicate Committed(a: LogArea, lh: seq<int>, d0: DiskMap, v0: DiskMap, w0: seq<Write>,
                            d: DiskMap, v: DiskMap, w: seq<Write>)
  {
    && v.Keys == v0.Keys == d0.Keys && AreaOnDisk(a, d0) && Loggable(a, d0, lh)
    && var vals := HomeData(a, v0, lh);
    && var ws := FirstWrites(a, d0[a.Head()], lh, vals);
    && w == w0 + ws && d == Apply(d0, ws)
    && (forall i :: 0 <= i < |lh| ==> v[a.Slot(i)] == vals[i])
    && (forall id :: id in v && !a.Inside(id) ==> v[id] == v0[id])
  }

  lemma HeadAfterLog(a: LogArea, lh: seq<int>, d0: DiskMap, v0: DiskMap, w0: seq<Write>,
                     d: DiskMap, v: DiskMap, w: seq<Write>, d': DiskMap, v': DiskMap, w': seq<Write>)
    requires Idle(a, d0) && Logging(a, lh, d0, v0, w0, |lh|, d, v, w)
    requires Wrote(a.Head(), EncodeHead(d0[a.Head()], lh), d, v, w, d', v', w')
    ensures Committed(a, lh, d0, v0, w0, d', v', w')
  {
    var vals := HomeData(a, v0, lh);
    assert LogWrites(a, vals)[..|lh|] == LogWrites(a, vals);
    ApplySnoc(d0, LogWrites(a, vals), Write(a.Head(), EncodeHead(d0[a.Head()], lh)));
    forall i | 0 <= i < |lh| ensures v'[a.Slot(i)] == vals[i] { SlotInside(a, i); }
  }

  lemma HeadDuringLog(a: LogArea, lh: seq<int>, d0: DiskMap, v0: DiskMap, w0: seq<Write>, d: DiskMap, v: DiskMap,
                      w: seq<Write>)
    requires Idle(a, d0) && Logging(a, lh, d0, v0, w0, |lh|, d, v, w)
    ensures a.Head() in d && d[a.Head()] == d0[a.Head()]
  {
    LogPhase(a, d0, HomeData(a, v0, lh), |lh|);
  }

  /** write_log, then write_head: after this the transaction is committed. */
  method LogAndHead(bc: Cache, a: LogArea, lh: seq<int>) returns (ok: bool)
    requires bc.Valid() && Idle(a, bc.disk) && Loggable(a, bc.disk, lh) && |lh| > 0
    requires Ready(a, bc.bufs, bc.bufs, lh, 0)
    modifies bc
    ensures bc.Valid() && bc.pending == old(bc.pending)
    ensures ok <==> AnyEligible(old(bc.bufs))
    ensures !ok ==> bc.writes == old(bc.writes) && bc.disk == old(bc.disk)
    ensures ok ==> Committed(a, lh, old(bc.disk), old(bc.view), old(bc.writes), bc.disk, bc.view, bc.writes)
    ensures ok ==> Ready(a, old(bc.bufs), bc.bufs, lh, 0) && AnyEligible(bc.bufs)
  {
    ok := WriteLog(bc, a, lh);
    if !ok {
      assert LogWrites(a, HomeData(a, old(bc.view), lh))[..0] == [];
      return;
    }
    ghost var mid, d, v, w := bc.bufs, bc.disk, bc.view, bc.writes;
    HeadDuringLog(a, lh, old(bc.disk), old(bc.view), old(bc.writes), d, v, w);
    HeadFree(a, mid, lh);
    ok := WriteHead(bc, a, lh);
    HeadAfterLog(a, lh, old(bc.disk), old(bc.view), old(bc.writes), d, v, w, bc.disk, bc.view, bc.writes);
    forall j | 0 <= j < |lh| ensures a.Home(lh[j]) != a.Head() { HomesOutside(a, old(bc.disk), lh, j); }
    ReadyAgain(a, old(bc.bufs), mid, bc.bufs, lh, 0, 0, a.Head());
  }

  lemma HeadFree(a: LogArea, bufs: seq<Buf>, lh: seq<int>)
    requires a.size >= 1 && Undisturbed(a, bufs, lh) && LogClean(a, bufs)
    ensures Unheld(bufs, a.Head()) && !Dirty(bufs, a.Head())
  {
    assert a.Inside(a.Head());
  }

  /** Installing what the home blocks already show leaves them as they are. */
  lemma HomeViewKept(a: LogArea, lh: seq<int>, v0: DiskMap, v1: DiskMap, v: DiskMap)
    requires Loggable(a, v0, lh)
    requires v1.Keys == v0.Keys && forall id :: id in v1 && !a.Inside(id) ==> v1[id] == v0[id]
    requires InstallView(a, lh, HomeData(a, v0, lh), v1, |lh|, v)
    ensures v.Keys == v0.Keys
    ensures forall id :: id in v && !a.Inside(id) ==> v[id] == v0[id]
  {
    assert lh[..|lh|] == lh;
    forall id | id in v && !a.Inside(id) ensures v[id] == v0[id] {
      if Names(a, lh, id) {
        var i := IndexOf(lh, id.no);
        assert id == a.Home(lh[i]);
      }
    }
  }

  ghost predicate SameHome(a: LogArea, v0: DiskMap, v: DiskMap) {
    v.Keys == v0.Keys && forall id :: id in v && !a.Inside(id) ==> v[id] == v0[id]
  }

  /** The rest of commit, once the header is on disk. */
  method FinishCommit(bc: Cache, a: LogArea, lh: seq<int>, ghost d0: DiskMap, ghost v0: DiskMap, ghost w0: seq<Write>)
    requires bc.Valid() && Idle(a, d0) && Loggable(a, d0, lh) && |lh| > 0
    requires Committed(a, lh, d0, v0, w0, bc.disk, bc.view, bc.writes)
    requires Steady(a, bc.bufs, bc.bufs, lh) && CanInstall(a, bc.bufs, lh, 0)
    modifies bc
    ensures bc.Valid() && bc.pending == old(bc.pending)
    ensures var ws := CommitWrites(a, d0[a.Head()], lh, HomeData(a, v0, lh));
            bc.writes == w0 + ws && bc.disk == Apply(d0, ws)
    ensures SameHome(a, v0, bc.view)
  {
    ghost var vals := HomeData(a, v0, lh);
    CanReplay(a, lh, d0, v0, w0, bc.disk, bc.view, bc.writes);
    ghost var v := ReplayLog(bc, a, lh, vals);
    CommitEnds(a, lh, d0, v0, w0, old(bc.disk), old(bc.view), old(bc.writes), v, bc.disk, bc.view, bc.writes);
  }

  lemma CanReplay(a: LogArea, lh: seq<int>, d0: DiskMap, v0: DiskMap, w0: seq<Write>, d: DiskMap, v: DiskMap,
                  w: seq<Write>)
    requires Idle(a, d0) && |lh| > 0 && Committed(a, lh, d0, v0, w0, d, v, w)
    ensures AreaOnDisk(a, d) && Loggable(a, d, lh)
    ensures forall i :: 0 <= i < |lh| ==> a.Slot(i) in v && v[a.Slot(i)] == HomeData(a, v0, lh)[i]
  {
    CommitHalves(a, d0, lh, HomeData(a, v0, lh));
  }

  lemma CommitEnds(a: LogArea, lh: seq<int>, d0: DiskMap, v0: DiskMap, w0: seq<Write>,
                   d1: DiskMap, v1: DiskMap, w1: seq<Write>, v: DiskMap, d: DiskMap, v2: DiskMap, w: seq<Write>)
    requires Idle(a, d0) && |lh| > 0 && Committed(a, lh, d0, v0, w0, d1, v1, w1)
    requires a.Head() in d1 && InstallView(a, lh, HomeData(a, v0, lh), v1, |lh|, v)
    requires v2 == v[a.Head() := EncodeHead(d1[a.Head()], [])]
    requires var ws := Replay(a, d1[a.Head()], lh, HomeData(a, v0, lh)); w == w1 + ws && d == Apply(d1, ws)
    ensures var ws := CommitWrites(a, d0[a.Head()], lh, HomeData(a, v0, lh)); w == w0 + ws && d == Apply(d0, ws)
    ensures SameHome(a, v0, v2)
  {
    CommitHalves(a, d0, lh, HomeData(a, v0, lh));
    HomeViewKept(a, lh, v0, v1, v);
  }

  /** One device's log in memory: struct log over the shared buffer cache. */
  class Log {
    const bc: Cache
    const area: LogArea
    var lh: seq<int>

    constructor (bc: Cache, area: LogArea)
      ensures this.bc == bc && this.area == area && lh == []
    {
      this.bc := bc;
      this.area := area;
      lh := [];
    }

    /** commit.  It performs exactly the writes of CommitWrites, in that order, or, when no buffer
        can be recycled to begin with, panics before the first of them. */
    method Commit() returns (ok: bool)
      requires bc.Valid() && Idle(area, bc.disk) && Loggable(area, bc.disk, lh)
      requires Ready(area, bc.bufs, bc.bufs, lh, 0)
      modifies this`lh, bc
      ensures bc.Valid() && bc.pending == old(bc.pending)
      ensures ok <==> old(lh) == [] || AnyEligible(old(bc.bufs))
      ensures var ws := CommitWrites(area, old(bc.disk)[area.Head()], old(lh), HomeData(area, old(bc.view), old(lh)));
              var done := if ok then ws else [];
              bc.writes == old(bc.writes) + done && bc.disk == Apply(old(bc.disk), done)
      ensures ok ==> lh == [] && SameHome(area, old(bc.view), bc.view)
    {
      if |lh| == 0 {
        return true;
      }
      ok := LogAndHead(bc, area, lh);
      if !ok { return; }
      FinishCommit(bc, area, lh, old(bc.disk), old(bc.view), old(bc.writes));
      lh := [];
    }

    /** read_head */
    method ReadHead()
      requires bc.Valid() && Formatted(area, bc.disk) && AllEligible(bc.bufs)
      modifies this`lh, bc`bufs, bc`lru, bc`released, bc`clock
      ensures bc.Valid() && lh == Targets(area, bc.disk) && AllEligible(bc.bufs)
      ensures forall id :: id in bc.disk ==> bc.view[id] == bc.disk[id]
    {
      forall id | id in bc.disk ensures bc.view[id] == bc.disk[id] { CleanOnDisk(bc, id); }
      assert Eligible(bc.bufs[0]);
      var b := bc.Bread(area.Head());
      lh := LoadHead(bc.bufs[b].data);
      bc.Brelse(b);
    }

    /** recover_from_log at boot, when every buffer is still free: it performs exactly the writes
        of RecoverWrites, in that order. */
    method Recover() returns (ok: bool)
      requires bc.Valid() && Formatted(area, bc.disk) && AllEligible(bc.bufs)
      modifies this`lh, bc
      ensures bc.Valid() && ok && lh == []
      ensures var ws := RecoverWrites(area, old(bc.disk));
              bc.writes == old(bc.writes) + ws && bc.disk == Apply(old(bc.disk), ws)
    {
      ReadHead();
      ghost var vals := SlotData(area, bc.disk, |lh|);
      ghost var v := ReplayLog(bc, area, lh, vals);
      lh := [];
      ok := true;
    }
  }

  /** commit's writes are those up to the header and then a replay of the log they leave. */
  lemma CommitHalves(a: LogArea, d: DiskMap, lh: seq<int>, vals: seq<Block>)
    requires Idle(a, d) && Loggable(a, d, lh) && |vals| == |lh| > 0
    ensures var ws := FirstWrites(a, d[a.Head()], lh, vals);
            var e := Apply(d, ws);
            && AreaOnDisk(a, e) && Loggable(a, e, lh)
            && var rest := Replay(a, e[a.Head()], lh, vals);
            && CommitWrites(a, d[a.Head()], lh, vals) == ws + rest
            && Apply(e, rest) == Apply(d, ws + rest)
  {
    CommitPoint(a, d, lh, vals);
    var cw := CommitWrites(a, d[a.Head()], lh, vals);
    var ws := FirstWrites(a, d[a.Head()], lh, vals);
    assert cw[..|lh| + 1] == ws;
    ApplySnoc(d, LogWrites(a, vals), Write(a.Head(), EncodeHead(d[a.Head()], lh)));
    ApplyConcat(d, ws, Replay(a, EncodeHead(d[a.Head()], lh), lh, vals));
  }

  /** The dirty buffers are those of the logged blocks, and nobody holds a buffer. */
  ghost predicate OnlyPinned(a: LogArea, bufs: seq<Buf>, lh: seq<int>) {
    && |bufs| == NBUF && OneCopy(bufs) && Distinct(lh) && a.dev != 0
    && (forall i :: 0 <= i < NBUF ==> bufs[i].refcnt == 0)
    && (forall i :: 0 <= i < NBUF && bufs[i].dirty ==> Names(a, lh, bufs[i].id))
    && HomesDirty(a, bufs, lh, 0)
  }

  ghost function BufferOf(bufs: seq<Buf>, id: BlockId): (i: int)
    requires Dirty(bufs, id)
    ensures 0 <= i < |bufs| && bufs[i].id == id && bufs[i].dirty
  {
    var i :| 0 <= i < |bufs| && bufs[i].id == id && bufs[i].dirty; i
  }

  /** With no buffer held, commit finds a buffer to work with exactly when the transaction leaves
      one of the NBUF buffers unpinned; a log of LOGSIZE blocks pins them all. */
  lemma CommitFindsBufferIff(a: LogArea, bufs: seq<Buf>, lh: seq<int>)
    requires OnlyPinned(a, bufs, lh)
    ensures AnyEligible(bufs) <==> |lh| < NBUF
  {
    if AnyEligible(bufs) {
      var e :| 0 <= e < NBUF && Eligible(bufs[e]);
      var at := seq(|lh|, j requires 0 <= j < |lh| => BufferOf(bufs, a.Home(lh[j])));
      assert forall j :: 0 <= j < |lh| ==> 0 <= at[j] < NBUF && bufs[at[j]].id == a.Home(lh[j]) && bufs[at[j]].dirty;
      forall i, j | 0 <= i < j < |lh| + 1 ensures (at + [e])[i] != (at + [e])[j] {
        if j < |lh| { assert bufs[at[i]].id != bufs[at[j]].id; }
      }
      Counting.Pigeonhole(at + [e], NBUF);
    } else {
      forall i | 0 <= i < NBUF ensures bufs[i].dirty { assert !Eligible(bufs[i]); }
      var at: seq<int> := seq(NBUF, i requires 0 <= i < NBUF => IndexOf(lh, bufs[i].id.no));
      forall i, j | 0 <= i < j < NBUF ensures at[i] != at[j] {
        assert lh[at[i]] == bufs[i].id.no && lh[at[j]] == bufs[j].id.no;
      }
      Counting.Pigeonhole(at, |lh|);
    }
  }
}
