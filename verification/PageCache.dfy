/** The page cache in front of the files (sysfile.c:153-530, file.c:155-359, file.c:475-522). */
module PageCache {
  import opened Basics
  import opened Counting
  import opened PageCacheSpec

  const MAXOPBLOCKS := 10
  /** Bytes PageCacheFileWrite puts into one transaction. */
  const CHUNK := (MAXOPBLOCKS - 1 - 1 - 2) / 2 * 512

  function Keys(metas: seq<Meta>): (r: seq<int>)
    ensures |r| == |metas|
  {
    seq(|metas|, m requires 0 <= m < |metas| => metas[m].key)
  }

  /** The slot of the k-th probe from `axis`. */
  function Probe(axis: int, k: int): (r: int)
    ensures 0 <= r < CACHESIZE
  {
    (axis + k) % CACHESIZE
  }

  /** Slot v is the clock's victim after k referenced slots: the first slot from `axis` without a
      reference, or `axis` itself when all twelve had one. */
  ghost predicate IsVictim(slots: seq<Slot>, axis: int, k: int, v: int)
    requires |slots| == CACHESIZE
  {
    && 0 <= k <= CACHESIZE && v == Probe(axis, k)
    && (forall j :: 0 <= j < k ==> slots[Probe(axis, j)].ref)
    && (k < CACHESIZE ==> !slots[v].ref)
  }

  /** The k probed slots lose their reference, the others keep theirs. */
  ghost predicate Swept(slots: seq<Slot>, slots': seq<Slot>, axis: int, k: int) {
    && |slots| == |slots'| == CACHESIZE
    && (forall i :: 0 <= i < CACHESIZE ==> slots'[i] == slots[i].(ref := slots'[i].ref))
    && (forall j :: 0 <= j < CACHESIZE ==>
         slots'[Probe(axis, j)].ref == (if j < k then false else slots[Probe(axis, j)].ref))
  }

  lemma ProbeNext(axis: int, k: int)
    ensures Probe(axis, k + 1) == (Probe(axis, k) + 1) % CACHESIZE
    ensures Probe(axis, CACHESIZE) == Probe(axis, 0)
  {
  }

  lemma ProbesDiffer(axis: int, j: int, k: int)
    requires 0 <= j < k < CACHESIZE
    ensures Probe(axis, j) != Probe(axis, k)
  {
  }

  /** The victim is determined by the reference bits and the axis. */
  lemma VictimUnique(slots: seq<Slot>, axis: int, k: int, v: int, k': int, v': int)
    requires |slots| == CACHESIZE && IsVictim(slots, axis, k, v) && IsVictim(slots, axis, k', v')
    ensures k == k' && v == v'
  {
  }

  /** How much of the range one round of sys_caching_read or sys_caching_write moves, for page i. */
  function PartLength(i: int, startPg: int, endPg: int, tmpfoff: int, n: int, done: int): int {
    if i == startPg then
      if tmpfoff / PGSIZE != (n + tmpfoff - 1) / PGSIZE then PGSIZE - tmpfoff % PGSIZE else n
    else if i == endPg then n - done
    else PGSIZE
  }

  /** f->off after round i: only the last page of a transfer over several pages moves it. */
  function Moved(pos: map<int, int>, f: int, off: int, n: int, i: int): map<int, int> {
    if i == (off + n - 1) / PGSIZE && i != off / PGSIZE then pos[f := off + n] else pos
  }

  /** Where round i of the transfer [off, off + n) starts. */
  predicate Progress(off: int, n: int, i: int, done: int) {
    var startPg, endPg := off / PGSIZE, (off + n - 1) / PGSIZE;
    && startPg <= i <= endPg + 1 && 0 <= done <= n
    && if i == startPg then done == 0 else if i <= endPg then off + done == i * PGSIZE else done == n
  }

  /** The bytes [off, off + k) of a file, as far as it reaches. */
  function Slice(s: seq<Byte>, off: nat, k: nat): (r: seq<Byte>)
    ensures |r| <= k && (|r| == k <==> off + k <= |s| || k == 0)
  {
    if off >= |s| then [] else s[off..if off + k <= |s| then off + k else |s|]
  }

  /** A write of t at off, as far as the file reaches. */
  function Clipped(s: seq<Byte>, off: nat, t: seq<Byte>): (r: seq<Byte>)
    ensures |r| == |s|
  {
    if off >= |s| then s else Splice(s, off, t[..if off + |t| <= |s| then |t| else |s| - off])
  }

  /** readi, and so a read without the cache; None stands for -1. */
  function DirectRead(s: seq<Byte>, off: nat, n: nat): (r: Option<seq<Byte>>) {
    if off > |s| then None else Some(Slice(s, off, n))
  }

  /** writei, which may extend the file. */
  function DirectWrite(s: seq<Byte>, off: nat, t: seq<Byte>): (r: Option<seq<Byte>>) {
    if off > |s| || off + |t| > MAXFILE * BSIZE then None
    else Some(s[..off] + t + if off + |t| <= |s| then s[off + |t|..] else [])
  }

  /** PageCacheFileWrite: writei in transactions of at most CHUNK bytes, up to the first that fails. */
  function WrittenBack(s: seq<Byte>, off: nat, data: seq<Byte>): (r: seq<Byte>)
    decreases |data|
  {
    if data == [] then s
    else
      var n1 := if |data| > CHUNK then CHUNK else |data|;
      var r := DirectWrite(s, off, data[..n1]);
      if r.None? then s else WrittenBack(r.value, off + n1, data[n1..])
  }

  /** Inside the file that is one write of the whole. */
  lemma {:induction false} WrittenBackInside(s: seq<Byte>, off: nat, data: seq<Byte>)
    requires off + |data| <= |s| <= MAXFILE * BSIZE
    ensures WrittenBack(s, off, data) == Splice(s, off, data)
    decreases |data|
  {
    if data != [] {
      var n1 := if |data| > CHUNK then CHUNK else |data|;
      DirectIsSplice(s, off, data[..n1]);
      WrittenBackInside(Splice(s, off, data[..n1]), off + n1, data[n1..]);
      SpliceParts(s, off, data, n1);
    }
  }

  lemma SpliceParts(s: seq<Byte>, off: nat, data: seq<Byte>, n: nat)
    requires off + |data| <= |s| && n <= |data|
    ensures Splice(Splice(s, off, data[..n]), off + n, data[n..]) == Splice(s, off, data)
  {
    SpliceTwice(s, off, data[..n], data[n..]);
    assert data[..n] + data[n..] == data;
  }

  lemma DirectIsSplice(s: seq<Byte>, off: nat, t: seq<Byte>)
    requires off + |t| <= |s| <= MAXFILE * BSIZE
    ensures DirectWrite(s, off, t) == Some(Splice(s, off, t))
  {
  }

  lemma {:induction false} WrittenBackLength(s: seq<Byte>, off: nat, data: seq<Byte>)
    requires off <= |s| && off + |data| <= MAXFILE * BSIZE
    ensures |WrittenBack(s, off, data)| == if off + |data| <= |s| then |s| else off + |data|
    decreases |data|
  {
    if data != [] {
      var n1 := if |data| > CHUNK then CHUNK else |data|;
      WrittenBackLength(DirectWrite(s, off, data[..n1]).value, off + n1, data[n1..]);
    }
  }

  /** Writing a cached page back leaves the file as long as it was exactly when the file reaches to the
      end of that page: this is why lengths have to be whole pages. */
  lemma WriteBackKeepsLengthIff(s: seq<Byte>, g: nat, page: seq<Byte>)
    requires g * PGSIZE <= |s| && |page| == PGSIZE && (g + 1) * PGSIZE <= MAXFILE * BSIZE
    ensures |WrittenBack(s, g * PGSIZE, page)| == |s| <==> (g + 1) * PGSIZE <= |s|
  {
    WrittenBackLength(s, g * PGSIZE, page);
  }

  /** The first page of the range [off, ..) that lies behind the end of the file. */
  function FirstStray(size: nat, off: nat): nat {
    if off / PGSIZE < size / PGSIZE then size / PGSIZE else off / PGSIZE
  }

  /** How a call ends: it returns a count, it sleeps for good on an inode lock of its own, or it
      indexes a page map behind its end, where the behaviour of the program is not defined. */
  datatype Outcome = Returned(total: int) | Asleep | OffTable

  /** How one round fares with its page. */
  datatype Fault = Ready | Waits | NoEntry

  /** The end of a call for n >= 1 bytes at off: the first page behind the end of the file is entered
      with the inode left locked, and the next one waits for that lock. */
  function Fate(size: nat, off: nat, n: nat): Outcome {
    var q, endPg := FirstStray(size, off), (off + n - 1) / PGSIZE;
    if off + n <= size then Returned(n)
    else if q >= FILEPAGES then OffTable
    else if endPg == q then Returned(n)
    else if q + 1 < FILEPAGES then Asleep
    else OffTable
  }

  /** Whether the call leaves the inode locked. */
  predicate KeepsLock(size: nat, off: nat, n: nat) { off + n > size && off / PGSIZE < FILEPAGES }

  /** Round i of a call at off whose earlier rounds found their pages. */
  function RoundFate(size: nat, off: nat, i: nat): Fault {
    if i >= FILEPAGES then NoEntry else if i > FirstStray(size, off) then Waits else Ready
  }

  /** The call ends where a round fails, ... */
  lemma FateStopped(size: nat, off: nat, n: nat, i: nat)
    requires size % PGSIZE == 0 && size <= MAXFILE * BSIZE && n >= 1 && off / PGSIZE <= i <= (off + n - 1) / PGSIZE
    requires i <= FirstStray(size, off) + 1 && (i == off / PGSIZE || i <= FILEPAGES) && RoundFate(size, off, i) != Ready
    ensures Fate(size, off, n) == if i >= FILEPAGES then OffTable else Asleep
    ensures KeepsLock(size, off, n) <==> i > FirstStray(size, off)
    ensures off + n > size
  {
  }

  lemma StoppedBehind(size: nat, off: nat, n: nat, i: nat, done: int)
    requires size % PGSIZE == 0 && size <= MAXFILE * BSIZE && n >= 1 && i <= (off + n - 1) / PGSIZE
    requires Progress(off, n, i, done) && RoundFate(size, off, i) != Ready
    ensures off + done >= size
  {
  }

  /** ... or after its last round. */
  lemma FateReturned(size: nat, off: nat, n: nat, i: nat)
    requires size % PGSIZE == 0 && size <= MAXFILE * BSIZE && n >= 1 && i == (off + n - 1) / PGSIZE + 1
    requires i <= FirstStray(size, off) + 1 && i <= FILEPAGES
    ensures Fate(size, off, n) == Returned(n)
    ensures KeepsLock(size, off, n) <==> i > FirstStray(size, off)
  {
  }

  /** A read of n bytes is what direct access returns exactly inside the file. */
  lemma ReadAgreesIff(s: seq<Byte>, off: nat, n: nat, buf: seq<Byte>)
    requires n >= 1 && |buf| == n && Slice(s, off, n) <= buf
    ensures DirectRead(s, off, n) == Some(buf) <==> off + n <= |s|
  {
    if off + n <= |s| { SliceIsAll(s, off, buf); }
  }

  lemma SliceIsAll(s: seq<Byte>, off: nat, buf: seq<Byte>)
    requires off + |buf| <= |s| && Slice(s, off, |buf|) <= buf
    ensures buf == s[off..off + |buf|] && Slice(s, off, |buf|) == buf
  {
  }

  /** A write leaves what direct access leaves exactly inside the file. */
  lemma WriteAgreesIff(s: seq<Byte>, off: nat, t: seq<Byte>)
    requires |t| >= 1 && |s| <= MAXFILE * BSIZE
    ensures DirectWrite(s, off, t) == Some(Clipped(s, off, t)) <==> off + |t| <= |s|
  {
    if off + |t| <= |s| {
      assert t[..|t|] == t;
    }
  }

  /** Each round stays within one page, and the rounds add up to n. */
  lemma Advance(off: int, n: int, i: int, done: int)
    requires n >= 1 && off >= 0 && Progress(off, n, i, done) && i <= (off + n - 1) / PGSIZE
    ensures var len := PartLength(i, off / PGSIZE, (off + n - 1) / PGSIZE, off + done, n, done);
            && 0 <= len <= PGSIZE - (off + done) % PGSIZE && done + len <= n
            && Progress(off, n, i + 1, done + len) && (off + done) / PGSIZE == i && done < n
  {
  }

  /** The first `done` bytes of p, then those up to `total`, all in the file. */
  lemma FilesNext(view: Files, was: Files, now: Files, f: int, off: nat, p: seq<Byte>, done: int, total: int)
    requires f in view && 0 <= done <= total <= |p| && off + total <= |view[f]| && done < |p| && off + done < |view[f]|
    requires was == view[f := Clipped(view[f], off, p[..done])]
    requires now == was[f := Splice(was[f], off + done, p[done..total])]
    ensures now == view[f := Clipped(view[f], off, p[..total])]
  {
    assert p[..done] + p[done..total] == p[..total];
    SpliceTwice(view[f], off, p[..done], p[done..total]);
    assert p[..done][..done] == p[..done] && p[..total][..total] == p[..total];
  }

  ghost predicate SameLengths(files: Files, files': Files) {
    files'.Keys == files.Keys && forall f :: f in files ==> |files'[f]| == |files[f]|
  }

  /** Behind the end of the file a write adds nothing. */
  lemma ClippedBehind(s: seq<Byte>, off: nat, p: seq<Byte>, done: nat, total: nat)
    requires done <= total <= |p| && off + done >= |s|
    ensures Clipped(s, off, p[..total]) == Clipped(s, off, p[..done])
  {
    if off < |s| {
      assert p[..total][..|s| - off] == p[..done][..|s| - off];
    }
  }

  lemma GatheredMore(s: seq<Byte>, off: nat, buf: seq<Byte>, part: seq<Byte>)
    requires Slice(s, off, |buf|) <= buf
    requires off + |buf| < |s| ==> off + |buf| + |part| <= |s| && part == s[off + |buf|..off + |buf| + |part|]
    ensures Slice(s, off, |buf + part|) <= buf + part
  {
    if off + |buf| < |s| {
      assert buf == s[off..off + |buf|];
      assert s[off..off + |buf|] + s[off + |buf|..off + |buf| + |part|] == s[off..off + |buf| + |part|];
    } else {
      assert Slice(s, off, |buf + part|) == Slice(s, off, |buf|);
    }
  }

  class PageCache {
    var slots: seq<Slot>      // CACHE
    var metas: seq<Meta>      // CACHE_META
    var cachedNum: int        // cachedpg_num
    var axis: int
    var cur: nat              // cache_meta_idx of the calling process
    var files: Files          // what the files hold underneath
    var pos: map<int, int>    // f->off
    var locked: set<int>      // inodes the calling process holds locked

    /** The tables, with some inodes left locked by earlier calls. */
    ghost predicate Sane()
      reads this
    {
      && CacheOk(slots, metas, files, cachedNum) && 0 <= axis < CACHESIZE && StraysLocked(slots, files, locked)
      && EmptyUnmarked(slots)
    }

    ghost predicate Valid()
      reads this
    {
      Sane() && locked == {}
    }

    /** The files as a reader of the cache sees them. */
    ghost function View(): Files
      reads this
    {
      Logical(slots, files)
    }

    ghost predicate Registered(f: int)
      reads this
    {
      f in Keys(metas)
    }

    /** init_cache and init_cachemeta */
    constructor (files: Files)
      requires FilesOk(files)
      ensures Valid() && View() == files && this.files == files && pos == map[] && Registered(-1)
    {
      var empty := Slot(false, false, false, NONE, NONE, -1, seq(PGSIZE, _ => 0));
      slots := seq(CACHESIZE, _ => empty);
      metas := seq(NFILE, _ => Meta(-1, 0, seq(FILEPAGES, _ => NONE)));
      cachedNum, axis, cur, pos, locked := 0, 0, NONE, map[], {};
      this.files := files;
      new;
      assert Keys(metas)[0] == -1;
      assert ValidSlots(slots) == {};
      assert forall m :: 0 <= m < NFILE ==> SlotsOf(slots, m) == {};
      forall f | f in files ensures LogicalFile(slots, files[f], f) == files[f] {
        forall g ensures !Cached(slots, f, g) { }
      }
    }

    /** set_namefd's part for CACHE_META: an entry for the file, unless there is one.  False stands
        for the "oops!" when the table is full. */
    method Register(f: int) returns (ok: bool)
      requires Valid() && f in files
      modifies this`metas
      ensures Valid() && View() == old(View())
      ensures ok <==> Registered(f)
      ensures ok <==> old(Registered(f)) || old(Registered(-1))
      ensures forall h :: old(Registered(h)) && h != -1 ==> Registered(h)
      ensures old(Registered(f)) || !ok ==> metas == old(metas)
      ensures ok && !old(Registered(f)) ==> exists j: nat ::
        FirstUnused(old(metas), j) && metas == old(metas)[j := old(metas)[j].(key := f)]
    {
      ghost var keys := Keys(metas);
      var j := 0;
      while j < NFILE
        invariant 0 <= j <= NFILE && forall m :: 0 <= m < j ==> metas[m].key != f
      {
        if metas[j].key == f {
          assert keys[j] == f;
          return true;
        }
        j := j + 1;
      }
      var insertIdx := -1;
      j := 0;
      while j < NFILE && insertIdx == -1
        invariant 0 <= j <= NFILE && (insertIdx == -1 ==> forall m :: 0 <= m < j ==> metas[m].key != -1)
        invariant insertIdx != -1 ==> 0 <= insertIdx < NFILE && FirstUnused(metas, insertIdx)
      {
        if metas[j].key == -1 { insertIdx := j; }
        j := j + 1;
      }
      if insertIdx == -1 { return false; }
      assert FirstUnused(old(metas), insertIdx);
      AddKey(slots, metas, files, cachedNum, insertIdx, f);
      metas := metas[insertIdx := metas[insertIdx].(key := f)];
      assert keys[insertIdx] == -1;
      assert Keys(metas) == keys[insertIdx := f];
      assert Keys(metas)[insertIdx] == f;
      forall h | h in keys && h != -1 ensures h in Keys(metas) {
        var m :| 0 <= m < NFILE && keys[m] == h;
        assert Keys(metas)[m] == h;
      }
      ok := true;
    }

    /** check_cache: finds the file's entry, and marks its page as referenced if it is cached. */
    method CheckCache(f: int, g: nat) returns (hit: bool)
      requires Sane() && Registered(f) && f >= 0 && g < FILEPAGES
      modifies this`slots, this`cur
      ensures Sane() && View() == old(View()) && Registered(f)
      ensures cur < NFILE && metas[cur].key == f
      ensures hit <==> metas[cur].pageIdx[g] != NONE
      ensures hit ==> At(slots, metas[cur].pageIdx[g], f, g)
      ensures slots ==
        if hit then old(slots)[metas[cur].pageIdx[g] := old(slots)[metas[cur].pageIdx[g]].(ref := true)]
        else old(slots)
    {
      var j := 0;
      assert exists m :: 0 <= m < NFILE && Keys(metas)[m] == f;
      while metas[j].key != f
        invariant 0 <= j < NFILE && forall m :: 0 <= m < j ==> metas[m].key != f
        decreases NFILE - j
      {
        j := j + 1;
      }
      cur := j;
      var i := metas[cur].pageIdx[g];
      assert EntryOk(slots, metas, cur, g);
      hit := i != NONE;
      if hit {
        assert SlotOk(slots, metas, files, i);
        TouchKeeps(slots, metas, files, cachedNum, slots[i := slots[i].(ref := true)]);
        slots := slots[i := slots[i].(ref := true)];
      }
    }

    /** PageCacheFileWrite; true stands for a sleep on an inode lock that this process holds itself. */
    method FileWrite(f: int, data: seq<Byte>, off: nat) returns (asleep: bool)
      requires f in files && data != []
      modifies this`files, this`locked
      ensures locked == old(locked) && (asleep <==> f in locked)
      ensures asleep ==> files == old(files)
      ensures !asleep ==> files == old(files)[f := WrittenBack(old(files)[f], off, data)]
    {
      var i := 0;
      asleep := false;
      assert data[0..] == data;
      while i < |data|
        invariant 0 <= i <= |data| && locked == old(locked) && (f in locked ==> i == 0)
        invariant f in files && files == old(files)[f := files[f]] && (i == 0 ==> files == old(files))
        invariant WrittenBack(files[f], off + i, data[i..]) == WrittenBack(old(files)[f], off, data)
      {
        var n1 := if |data| - i > CHUNK then CHUNK else |data| - i;
        if f in locked { return true; }
        locked := locked + {f};
        assert data[i..][..n1] == data[i..i + n1] && data[i..][n1..] == data[i + n1..];
        var r := DirectWrite(files[f], off + i, data[i..i + n1]);
        if r.Some? { files := files[f := r.value]; }
        locked := locked - {f};
        if r.None? { return; }
        i := i + n1;
      }
    }

    /** write_direct for one slot: a dirty page goes to its file. */
    method WriteDirect(v: nat) returns (asleep: bool)
      requires Sane() && v < CACHESIZE && slots[v].valid
      modifies this`slots, this`files, this`locked
      ensures locked == old(locked) && (asleep <==> old(slots)[v].dirty && old(slots)[v].file in locked)
      ensures Sane() && View() == old(View())
      ensures slots == if asleep then old(slots) else old(slots)[v := old(slots)[v].(dirty := false)]
    {
      assert SlotOk(slots, metas, files, v);
      var i := metas[slots[v].metaIdx].pageIdx[slots[v].metaPg];
      asleep := false;
      if i != NONE && slots[i].dirty && slots[i].valid {
        if slots[v].file !in locked { CleanKeeps(slots, metas, files, cachedNum, i); }
        asleep := WriteOut(v);
        if asleep { return; }
        slots := slots[i := slots[i].(dirty := false)];
      }
    }

    method WriteOut(v: nat) returns (asleep: bool)
      requires Sane() && v < CACHESIZE && slots[v].valid
      modifies this`files, this`locked
      ensures locked == old(locked) && (asleep <==> slots[v].file in locked)
      ensures asleep ==> files == old(files)
      ensures !asleep ==> slots[v].file in old(files) && |slots[v].page| == PGSIZE
      ensures !asleep ==> 0 <= slots[v].metaPg * PGSIZE <= |old(files)[slots[v].file]| - PGSIZE
      ensures !asleep ==> files == old(files)[slots[v].file :=
        Splice(old(files)[slots[v].file], slots[v].metaPg * PGSIZE, slots[v].page)]
    {
      assert SlotOk(slots, metas, files, v);
      if slots[v].file in locked { return true; }
      WrittenBackInside(files[slots[v].file], slots[v].metaPg * PGSIZE, slots[v].page);
      asleep := FileWrite(slots[v].file, slots[v].page, slots[v].metaPg * PGSIZE);
    }

    /** clock_policy's search; `k` slots lost their reference on the way. */
    method ClockHand() returns (v: nat, ghost k: nat)
      requires Sane()
      modifies this`slots, this`axis
      ensures Sane() && View() == old(View())
      ensures v < CACHESIZE && IsVictim(old(slots), old(axis), k, v) && axis == (v + 1) % CACHESIZE
      ensures Swept(old(slots), slots, old(axis), k)
    {
      k := 0;
      ghost var slots0, axis0 := slots, axis;
      while slots[axis].ref
        invariant 0 <= k <= CACHESIZE && axis == Probe(axis0, k)
        invariant Swept(slots0, slots, axis0, k) && EmptyUnmarked(slots)
        invariant forall j :: 0 <= j < k ==> slots0[Probe(axis0, j)].ref
        decreases CACHESIZE - k
      {
        ProbeNext(axis0, k);
        SweepOne(slots0, slots, axis0, k);
        slots := slots[axis := slots[axis].(ref := false)];
        axis := (axis + 1) % CACHESIZE;
        k := k + 1;
      }
      TouchKeeps(slots0, metas, files, cachedNum, slots);
      v := axis;
      axis := (axis + 1) % CACHESIZE;
    }

    /** clock_policy, with its caller's decrement of cachedpg_num. */
    method ClockPolicy() returns (asleep: bool, v: nat)
      requires Sane() && cachedNum == CACHESIZE
      modifies this`slots, this`axis, this`files, this`metas, this`cachedNum, this`locked
      ensures locked == old(locked) && View() == old(View()) && SameLengths(old(files), files)
      ensures v < CACHESIZE && exists k :: IsVictim(old(slots), old(axis), k, v)
      ensures asleep <==> old(slots)[v].dirty && old(slots)[v].file in locked
      ensures !asleep ==> Sane() && cachedNum == CACHESIZE - 1 && !slots[v].valid
      ensures !asleep ==> Keys(metas) == Keys(old(metas))
      ensures !asleep ==> forall m, g :: 0 <= m < NFILE && 0 <= g < FILEPAGES && old(metas)[m].pageIdx[g] == NONE ==>
        metas[m].pageIdx[g] == NONE
    {
      ghost var k;
      v, k := ClockHand();
      AllValid(slots, v);
      asleep := WriteDirect(v);
      cachedNum := cachedNum - 1;
      if asleep { return; }
      Drop(v);
    }

    /** The rest of clock_policy: the victim leaves its slot. */
    method Drop(v: nat)
      requires CacheOk(slots, metas, files, cachedNum + 1) && 0 <= axis < CACHESIZE
      requires StraysLocked(slots, files, locked) && EmptyUnmarked(slots)
      requires v < CACHESIZE && slots[v].valid && !slots[v].dirty
      modifies this`slots, this`metas
      ensures Sane() && View() == old(View()) && !slots[v].valid && Keys(metas) == Keys(old(metas))
      ensures forall m, g :: 0 <= m < NFILE && 0 <= g < FILEPAGES && old(metas)[m].pageIdx[g] == NONE ==>
        metas[m].pageIdx[g] == NONE
    {
      DropKeeps(slots, metas, files, cachedNum + 1, v);
      var c := slots[v];
      metas := Remapped(metas, c.metaIdx, c.metaPg, NONE, -1);
      slots := slots[v := Cleared(c)];
    }

    /** pageCacheFileRead of a page; `junk` is what the page from kalloc held before.  The inode is
        unlocked only if something was read. */
    method FileRead(f: int, off: nat, junk: seq<Byte>) returns (asleep: bool, r: int, q: seq<Byte>)
      requires f in files && FilesOk(files) && off % PGSIZE == 0 && |junk| == PGSIZE
      modifies this`locked
      ensures asleep <==> f in old(locked)
      ensures asleep ==> locked == old(locked)
      ensures !asleep ==> |q| == PGSIZE && (r > 0 <==> off < |files[f]|)
      ensures !asleep && r > 0 ==> off + PGSIZE <= |files[f]| && q == files[f][off..off + PGSIZE]
      ensures !asleep ==> locked == if r > 0 then old(locked) else old(locked) + {f}
    {
      asleep, r, q := f in locked, -1, junk;
      if asleep { return; }
      locked := locked + {f};
      if off <= |files[f]| {
        r := if off + PGSIZE > |files[f]| then |files[f]| - off else PGSIZE;
        q := files[f][off..off + r] + junk[r..];
      }
      if r > 0 {
        locked := locked - {f};
      }
    }

    /** The only cached page behind the end of its file is page g of f. */
    ghost predicate OnlyStray(f: int, g: nat)
      reads this
    {
      forall i :: 0 <= i < |slots| && slots[i].valid && !Inside(files, slots[i].file, slots[i].metaPg) ==>
        slots[i].file == f && slots[i].metaPg == g
    }

    /** cache_fault_handler: brings in the page of the current file at off. */
    method CacheFault(f: int, off: nat, junk: seq<Byte>) returns (asleep: bool)
      requires Sane() && cur < NFILE && metas[cur].key == f && f in files && off / PGSIZE < FILEPAGES
      requires metas[cur].pageIdx[off / PGSIZE] == NONE && |junk| == PGSIZE
      modifies this`slots, this`axis, this`files, this`metas, this`cachedNum, this`locked
      ensures View() == old(View()) && SameLengths(old(files), files)
      ensures f in old(locked) ==> asleep
      ensures asleep ==> old(locked) != {} && locked == old(locked)
      ensures !asleep ==> locked == if off < |files[f]| then old(locked) else old(locked) + {f}
      ensures !asleep ==> Sane() && Keys(metas) == Keys(old(metas)) && metas[cur].pageIdx[off / PGSIZE] != NONE
      ensures !asleep ==> At(slots, metas[cur].pageIdx[off / PGSIZE], f, off / PGSIZE)
      ensures !asleep ==> !slots[metas[cur].pageIdx[off / PGSIZE]].ref
      ensures !asleep ==> FirstFilled(slots, metas[cur].pageIdx[off / PGSIZE])
      ensures !asleep && old(locked) == {} ==> OnlyStray(f, off / PGSIZE)
    {
      if cachedNum == CACHESIZE {
        var v;
        asleep, v := ClockPolicy();
        if asleep { return; }
      }
      SomeEmpty(slots, metas, cachedNum);
      var i := 0;
      while slots[i].valid
        invariant 0 <= i < CACHESIZE && forall j :: 0 <= j < i ==> slots[j].valid
        decreases CACHESIZE - i
      {
        i := i + 1;
      }
      assert Keys(metas)[cur] == f;
      asleep := Fill(f, off, i, junk);
    }

    method Fill(f: int, off: nat, i: nat, junk: seq<Byte>) returns (asleep: bool)
      requires Sane() && cur < NFILE && metas[cur].key == f && f in files && off / PGSIZE < FILEPAGES
      requires i < CACHESIZE && !slots[i].valid && metas[cur].pageIdx[off / PGSIZE] == NONE && |junk| == PGSIZE
      modifies this`slots, this`metas, this`cachedNum, this`locked
      ensures View() == old(View()) && (asleep <==> f in old(locked))
      ensures asleep ==> locked == old(locked)
      ensures !asleep ==> locked == if off < |files[f]| then old(locked) else old(locked) + {f}
      ensures !asleep ==> Sane() && Keys(metas) == Keys(old(metas))
      ensures !asleep ==> metas[cur].pageIdx[off / PGSIZE] == i && At(slots, i, f, off / PGSIZE)
      ensures !asleep ==> slots == old(slots)[i := slots[i]] && !slots[i].ref
      ensures !asleep && old(locked) == {} ==> OnlyStray(f, off / PGSIZE)
    {
      var g, was := off / PGSIZE, metas;
      metas := Remapped(metas, cur, g, i, 0);
      var r, q;
      asleep, r, q := FileRead(f, off - off % PGSIZE, junk);
      if asleep { return; }
      PageInside(files, f, off);
      ghost var before := slots;
      Enlist(f, g, i, q, was);
      StraysMore(before, slots, i, files, old(locked), locked);
    }

    lemma StraysMore(before: seq<Slot>, now: seq<Slot>, i: nat, files: Files, locked0: set<int>, locked: set<int>)
      requires StraysLocked(before, files, locked0) && EmptyUnmarked(before) && i < |before| && locked0 <= locked
      requires |now| == |before| && now == before[i := now[i]] && now[i].valid
      requires !Inside(files, now[i].file, now[i].metaPg) ==> now[i].file in locked
      ensures StraysLocked(now, files, locked) && EmptyUnmarked(now)
      ensures locked0 == {} ==> forall k ::
        0 <= k < |now| && now[k].valid && !Inside(files, now[k].file, now[k].metaPg) ==> k == i
    {
    }

    /** The rest of cache_fault_handler: the slot and the counts. */
    method Enlist(f: int, g: nat, i: nat, q: seq<Byte>, ghost was: seq<Meta>)
      requires CacheOk(slots, was, files, cachedNum) && cur < NFILE && was[cur].key == f && f in files && |q| == PGSIZE
      requires g < FILEPAGES && was[cur].pageIdx[g] == NONE && metas == Remapped(was, cur, g, i, 0)
      requires i < CACHESIZE && !slots[i].valid && (Inside(files, f, g) ==> q == DiskPage(files[f], g))
      modifies this`slots, this`metas, this`cachedNum
      ensures CacheOk(slots, metas, files, cachedNum) && View() == old(View()) && Keys(metas) == Keys(was)
      ensures slots == old(slots)[i := slots[i]] && At(slots, i, f, g) && metas[cur].pageIdx[g] == i
      ensures slots[i].ref == old(slots)[i].ref
    {
      FillKeeps(slots, was, files, cachedNum, i, cur, g, f, q);
      slots := slots[i := Loaded(slots[i], cur, g, f, q)];
      metas := Remapped(metas, cur, g, i, 1);
      assert was[cur].pageIdx[g := i][g := i] == was[cur].pageIdx[g := i];
      assert metas == Remapped(was, cur, g, i, 1);
      cachedNum := cachedNum + 1;
    }

    /** check_cache, then cache_fault_handler on a miss. */
    method Locate(f: int, off: nat, junk: seq<Byte>) returns (asleep: bool, i: nat)
      requires Sane() && Registered(f) && f in files && off / PGSIZE < FILEPAGES && |junk| == PGSIZE
      modifies this`slots, this`axis, this`files, this`metas, this`cachedNum, this`cur, this`locked
      ensures View() == old(View()) && SameLengths(old(files), files)
      ensures asleep ==> old(locked) != {} && locked == old(locked)
      ensures f in old(locked) && !Cached(old(slots), f, off / PGSIZE) ==> asleep
      ensures !asleep ==> Sane() && Keys(metas) == Keys(old(metas)) && At(slots, i, f, off / PGSIZE)
      ensures !asleep && old(locked) == {} ==>
        locked == (if off < |files[f]| then {} else {f}) && OnlyStray(f, off / PGSIZE)
    {
      PageInside(files, f, off);
      asleep := false;
      var hit;
      hit, i := LookUp(f, off / PGSIZE);
      if hit {
        if locked == {} { NoStrays(f, off / PGSIZE, i); }
      } else {
        asleep := CacheFault(f, off, junk);
        if !asleep { i := SlotOf(off / PGSIZE); }
      }
    }

    /** check_cache, and the slot of the page if it is cached. */
    method LookUp(f: int, g: nat) returns (hit: bool, i: nat)
      requires Sane() && Registered(f) && f in files && g < FILEPAGES
      modifies this`slots, this`cur
      ensures Sane() && View() == old(View())
      ensures cur < NFILE && |metas| == NFILE && metas[cur].key == f && |metas[cur].pageIdx| == FILEPAGES
      ensures hit ==> At(slots, i, f, g) && Cached(old(slots), f, g)
      ensures !hit ==> metas[cur].pageIdx[g] == NONE
    {
      i := 0;
      hit := CheckCache(f, g);
      if hit {
        i := SlotOf(g);
        assert At(old(slots), i, f, g);
      }
    }

    /** The slot of page g of the current file. */
    method SlotOf(g: nat) returns (i: nat)
      requires Sane() && cur < NFILE && g < FILEPAGES
      ensures |metas| == NFILE && |metas[cur].pageIdx| == FILEPAGES && i == metas[cur].pageIdx[g]
    {
      i := metas[cur].pageIdx[g];
    }

    lemma NoStrays(f: int, g: nat, i: nat)
      requires Valid() && At(slots, i, f, g)
      ensures OnlyStray(f, g) && Inside(files, f, g)
    {
    }

    // ----- one round of a call -----

    /** Before round i of a call for bytes at off, which found no inode locked: pages behind the end of
        the file have been entered only in the round before, and that one has left the inode locked. */
    ghost predicate Stage(f: int, off: nat, i: nat)
      reads this
    {
      && Sane() && Registered(f) && f in files
      && var q := FirstStray(|files[f]|, off);
      && i <= q + 1 && if i <= q then locked == {} else locked == {f} && OnlyStray(f, q)
    }

    /** The page of round i. */
    method Enter(f: int, off: nat, i: nat, at: nat, junk: seq<Byte>) returns (r: Fault, slot: nat)
      requires Stage(f, off, i) && at / PGSIZE == i >= off / PGSIZE && |junk| == PGSIZE
      modifies this`slots, this`axis, this`files, this`metas, this`cachedNum, this`cur, this`locked
      ensures View() == old(View()) && SameLengths(old(files), files)
      ensures r == RoundFate(|files[f]|, off, i)
      ensures r != Ready ==> locked == old(locked)
      ensures r == Ready ==> Stage(f, off, i + 1) && Keys(metas) == Keys(old(metas)) && At(slots, slot, f, i)
    {
      if i >= FILEPAGES { return NoEntry, 0; }
      NotYetCached(f, off, i);
      PageInside(files, f, at);
      var asleep;
      asleep, slot := Locate(f, at, junk);
      r := if asleep then Waits else Ready;
    }

    lemma NotYetCached(f: int, off: nat, i: nat)
      requires Stage(f, off, i)
      ensures i > FirstStray(|files[f]|, off) ==> f in locked && !Cached(slots, f, i)
    {
      if i > FirstStray(|files[f]|, off) {
        PageInside(files, f, i * PGSIZE);
      }
    }

    /** The files are those of `view`, but for the first `done` bytes of p at off, as far as the file reaches. */
    ghost predicate Written(view: Files, f: int, off: nat, p: seq<Byte>, done: int)
      reads this
    {
      f in view && 0 <= done <= |p| && View() == view[f := Clipped(view[f], off, p[..done])]
    }

    /** Round i; the last of several moves the file's offset. */
    method WriteRound(f: int, p: seq<Byte>, off: nat, i: nat, done: int, junk: seq<Byte>,
                      ghost view: Files) returns (r: Fault, total: int)
      requires Stage(f, off, i) && Written(view, f, off, p, done) && |p| >= 1 && |junk| == PGSIZE
      requires Progress(off, |p|, i, done) && i <= (off + |p| - 1) / PGSIZE
      modifies this
      ensures r == RoundFate(|view[f]|, off, i) && Written(view, f, off, p, total)
      ensures r == Ready ==> Stage(f, off, i + 1) && Progress(off, |p|, i + 1, total)
      ensures r == Ready ==> Keys(metas) == Keys(old(metas)) && pos == Moved(old(pos), f, off, |p|, i)
      ensures r != Ready ==> total == done && locked == old(locked) && pos == old(pos)
    {
      r, total := StoreRound(f, p, off, i, done, junk, view);
      if r == Ready && i == (off + |p| - 1) / PGSIZE && i != off / PGSIZE { pos := pos[f := off + total]; }
    }

    method StoreRound(f: int, p: seq<Byte>, off: nat, i: nat, done: int, junk: seq<Byte>,
                      ghost view: Files) returns (r: Fault, total: int)
      requires Stage(f, off, i) && Written(view, f, off, p, done) && |p| >= 1 && |junk| == PGSIZE
      requires Progress(off, |p|, i, done) && i <= (off + |p| - 1) / PGSIZE
      modifies this`slots, this`axis, this`files, this`metas, this`cachedNum, this`cur, this`locked
      ensures r == RoundFate(|view[f]|, off, i) && Written(view, f, off, p, total)
      ensures r == Ready ==> Stage(f, off, i + 1) && Progress(off, |p|, i + 1, total)
      ensures r == Ready ==> Keys(metas) == Keys(old(metas))
      ensures r != Ready ==> total == done && locked == old(locked)
    {
      var n := |p|;
      Advance(off, n, i, done);
      total := done;
      var slot;
      r, slot := Enter(f, off, i, off + done, junk);
      if r != Ready { return; }
      var len := PartLength(i, off / PGSIZE, (off + n - 1) / PGSIZE, off + done, n, done);
      total := done + len;
      Store(f, slot, off, p, done, total, i, view);
    }

    /** The memmove into the cached page. */
    method Store(f: int, slot: nat, off: nat, p: seq<Byte>, done: nat, total: nat, i: nat, ghost view: Files)
      requires Stage(f, off, i + 1) && At(slots, slot, f, i) && Written(view, f, off, p, done)
      requires i == (off + done) / PGSIZE && done <= total <= |p| && done < |p|
      requires total - done <= PGSIZE - (off + done) % PGSIZE
      modifies this`slots
      ensures Stage(f, off, i + 1) && Written(view, f, off, p, total)
    {
      ghost var was := View();
      PageInside(files, f, off + done);
      Move(f, slot, (off + done) % PGSIZE, p[done..total]);
      if off + done < |files[f]| {
        FilesNext(view, was, View(), f, off, p, done, total);
      } else {
        ClippedBehind(view[f], off, p, done, total);
      }
    }

    method Move(f: int, slot: nat, at: nat, data: seq<Byte>)
      requires Sane() && slot < |slots| && slots[slot].valid && slots[slot].file == f && at + |data| <= PGSIZE
      modifies this`slots
      ensures Sane() && |slots| == |old(slots)|
      ensures forall k :: 0 <= k < |slots| ==>
        slots[k].valid == old(slots)[k].valid && slots[k].file == old(slots)[k].file
          && slots[k].metaPg == old(slots)[k].metaPg
      ensures var g := slots[slot].metaPg;
              if Inside(files, f, g) then
                f in old(View()) && g * PGSIZE + at + |data| <= |old(View())[f]|
                && View() == old(View())[f := Splice(old(View())[f], g * PGSIZE + at, data)]
              else View() == old(View())
    {
      assert SlotOk(slots, metas, files, slot);
      if Inside(files, f, slots[slot].metaPg) {
        StoreKeeps(slots, metas, files, cachedNum, slot, at, data);
      } else {
        StrayStoreKeeps(slots, metas, files, cachedNum, slot, at, data);
      }
      slots := slots[slot := slots[slot].(page := Splice(slots[slot].page, at, data), dirty := true)];
    }

    /** sys_caching_write with valid arguments. */
    method CachingWrite(f: int, p: seq<Byte>, off: nat, junk: seq<Byte>) returns (r: Outcome)
      requires Valid() && Registered(f) && f in files && |p| >= 1 && |junk| == PGSIZE
      modifies this
      ensures View() == old(View())[f := Clipped(old(View())[f], off, p)]
      ensures r == Fate(|old(View())[f]|, off, |p|)
      ensures locked == if KeepsLock(|old(View())[f]|, off, |p|) then {f} else {}
      ensures r.Returned? ==> Sane() && Keys(metas) == Keys(old(metas)) && r.total == |p|
      ensures r.Returned? ==>
        pos == if (off + |p| - 1) / PGSIZE != off / PGSIZE then old(pos)[f := off + |p|] else old(pos)
      ensures r.Returned? && locked == {} <==> off + |p| <= |old(View())[f]|
      ensures DirectWrite(old(View())[f], off, p) == Some(View()[f]) <==> off + |p| <= |old(View())[f]|
    {
      ghost var view := View();
      WrittenNone(f, off, p);
      WriteAgreesIff(view[f], off, p);
      var fault, total, i := WriteRounds(f, p, off, junk, view);
      WrittenOut(view, f, off, p, total);
      if fault != Ready {
        FateStopped(|view[f]|, off, |p|, i);
        return if fault == Waits then Asleep else OffTable;
      }
      FateReturned(|view[f]|, off, |p|, i);
      r := Returned(total);
    }

    /** The loop of sys_caching_write, up to round i. */
    method WriteRounds(f: int, p: seq<Byte>, off: nat, junk: seq<Byte>, ghost view: Files)
      returns (fault: Fault, total: int, ghost i: nat)
      requires Stage(f, off, off / PGSIZE) && Written(view, f, off, p, 0) && |p| >= 1 && |junk| == PGSIZE
      modifies this
      ensures off / PGSIZE <= i <= FirstStray(|view[f]|, off) + 1 && Written(view, f, off, p, total)
      ensures locked == if i > FirstStray(|view[f]|, off) then {f} else {}
      ensures fault == Ready ==> i == (off + |p| - 1) / PGSIZE + 1 <= FILEPAGES && total == |p|
      ensures fault == Ready ==> Sane() && Keys(metas) == Keys(old(metas))
      ensures fault == Ready ==> pos == Moved(old(pos), f, off, |p|, (off + |p| - 1) / PGSIZE)
      ensures fault != Ready ==>
        && i <= (off + |p| - 1) / PGSIZE && (i == off / PGSIZE || i <= FILEPAGES)
        && fault == RoundFate(|view[f]|, off, i) && off + total >= |view[f]|
    {
      var startPg, endPg := off / PGSIZE, (off + |p| - 1) / PGSIZE;
      fault, total := Ready, 0;
      var k := startPg;
      while k <= endPg
        invariant Progress(off, |p|, k, total)
        invariant k == startPg || k <= FILEPAGES
        invariant Stage(f, off, k) && Keys(metas) == Keys(old(metas)) && Written(view, f, off, p, total)
        invariant pos == if k <= endPg then old(pos) else Moved(old(pos), f, off, |p|, endPg)
      {
        fault, total := WriteRound(f, p, off, k, total, junk, view);
        if fault != Ready {
          StoppedBehind(|view[f]|, off, |p|, k, total);
          i := k;
          return;
        }
        k := k + 1;
      }
      i := k;
      fault := Ready;
    }

    lemma WrittenOut(view: Files, f: int, off: nat, p: seq<Byte>, total: int)
      requires Written(view, f, off, p, total) && (total == |p| || off + total >= |view[f]|)
      ensures View() == view[f := Clipped(view[f], off, p)]
    {
      if total < |p| { ClippedBehind(view[f], off, p, total, |p|); }
      assert p[..|p|] == p;
    }

    lemma WrittenNone(f: int, off: nat, p: seq<Byte>)
      requires f in View()
      ensures Written(View(), f, off, p, 0)
    {
      assert View()[f] == Clipped(View()[f], off, p[..0]);
      assert View()[f := View()[f]] == View();
    }

    /** What has been read so far. */
    ghost predicate Gathered(f: int, off: nat, buf: seq<Byte>)
      reads this
    {
      f in View() && Slice(View()[f], off, |buf|) <= buf
    }

    /** Round i of a read. */
    method ReadRound(f: int, n: int, off: nat, i: nat, buf: seq<Byte>, junk: seq<Byte>)
      returns (r: Fault, now: seq<Byte>)
      requires Stage(f, off, i) && n >= 1 && Gathered(f, off, buf) && |junk| == PGSIZE
      requires Progress(off, n, i, |buf|) && i <= (off + n - 1) / PGSIZE
      modifies this
      ensures View() == old(View()) && r == RoundFate(|View()[f]|, off, i) && Gathered(f, off, now)
      ensures r == Ready ==> Stage(f, off, i + 1) && Progress(off, n, i + 1, |now|)
      ensures r == Ready ==> Keys(metas) == Keys(old(metas)) && pos == Moved(old(pos), f, off, n, i)
      ensures r != Ready ==> locked == old(locked)
    {
      r, now := LoadRound(f, n, off, i, buf, junk);
      if r == Ready && i == (off + n - 1) / PGSIZE && i != off / PGSIZE { pos := pos[f := off + |now|]; }
    }

    method LoadRound(f: int, n: int, off: nat, i: nat, buf: seq<Byte>, junk: seq<Byte>)
      returns (r: Fault, now: seq<Byte>)
      requires Stage(f, off, i) && n >= 1 && Gathered(f, off, buf) && |junk| == PGSIZE
      requires Progress(off, n, i, |buf|) && i <= (off + n - 1) / PGSIZE
      modifies this`slots, this`axis, this`files, this`metas, this`cachedNum, this`cur, this`locked
      ensures View() == old(View()) && r == RoundFate(|View()[f]|, off, i) && Gathered(f, off, now)
      ensures r == Ready ==> Stage(f, off, i + 1) && Progress(off, n, i + 1, |now|)
      ensures r == Ready ==> Keys(metas) == Keys(old(metas))
      ensures r != Ready ==> locked == old(locked)
    {
      var done, at := |buf|, off + |buf|;
      Advance(off, n, i, done);
      now := buf;
      var slot;
      r, slot := Enter(f, off, i, at, junk);
      if r != Ready { return; }
      var len := PartLength(i, off / PGSIZE, (off + n - 1) / PGSIZE, at, n, done);
      var part := Copy(f, slot, at, len);
      GatheredMore(View()[f], off, buf, part);
      now := buf + part;
    }

    /** The memmove out of the cached page. */
    method Copy(f: int, slot: nat, at: nat, len: nat) returns (part: seq<Byte>)
      requires Sane() && f in files && At(slots, slot, f, at / PGSIZE) && len <= PGSIZE - at % PGSIZE
      ensures |part| == len
      ensures at < |View()[f]| ==> at + len <= |View()[f]| && part == View()[f][at..at + len]
    {
      assert SlotOk(slots, metas, files, slot);
      PageInside(files, f, at);
      if at < |files[f]| {
        SliceInPage(slots, metas, files, slot, f, at / PGSIZE, at % PGSIZE, len);
      }
      part := slots[slot].page[at % PGSIZE..at % PGSIZE + len];
    }

    /** sys_caching_read with valid arguments. */
    method CachingRead(f: int, n: int, off: nat, junk: seq<Byte>) returns (r: Outcome, buf: seq<Byte>)
      requires Valid() && Registered(f) && f in files && n >= 1 && |junk| == PGSIZE
      modifies this
      ensures View() == old(View()) && Slice(View()[f], off, |buf|) <= buf
      ensures r == Fate(|View()[f]|, off, n)
      ensures locked == if KeepsLock(|View()[f]|, off, n) then {f} else {}
      ensures r.Returned? ==> Sane() && Keys(metas) == Keys(old(metas)) && |buf| == n == r.total
      ensures r.Returned? ==>
        pos == if (off + n - 1) / PGSIZE != off / PGSIZE then old(pos)[f := off + n] else old(pos)
      ensures r.Returned? && locked == {} <==> off + n <= |View()[f]|
      ensures r.Returned? ==> (DirectRead(View()[f], off, n) == Some(buf) <==> off + n <= |View()[f]|)
    {
      var startPg, endPg := off / PGSIZE, (off + n - 1) / PGSIZE;
      buf := [];
      var i := startPg;
      while i <= endPg
        invariant Progress(off, n, i, |buf|)
        invariant i == startPg || i <= FILEPAGES
        invariant Stage(f, off, i) && Keys(metas) == Keys(old(metas)) && View() == old(View()) && Gathered(f, off, buf)
        invariant pos == if i <= endPg then old(pos) else Moved(old(pos), f, off, n, endPg)
      {
        var fault;
        fault, buf := ReadRound(f, n, off, i, buf, junk);
        if fault != Ready {
          FateStopped(|View()[f]|, off, n, i);
          return if fault == Waits then Asleep else OffTable, buf;
        }
        i := i + 1;
      }
      FateReturned(|View()[f]|, off, n, i);
      ReadAgreesIff(View()[f], off, n, buf);
      r := Returned(|buf|);
    }

    /** The pages of entry m below g are clean. */
    ghost predicate FlushedUpTo(m: nat, g: nat)
      reads this
    {
      forall i :: 0 <= i < |slots| && slots[i].valid && slots[i].metaIdx == m && slots[i].metaPg < g ==> !slots[i].dirty
    }

    /** write_direct for one page of the file being closed. */
    method FlushPage(m: nat, g: nat)
      requires Valid() && m < NFILE && g < FILEPAGES && FlushedUpTo(m, g)
      modifies this`slots, this`files, this`locked
      ensures Valid() && View() == old(View()) && FlushedUpTo(m, g + 1)
    {
      var i := metas[m].pageIdx[g];
      assert EntryOk(slots, metas, m, g);
      forall j | 0 <= j < CACHESIZE && slots[j].valid && slots[j].metaIdx == m && slots[j].metaPg == g ensures j == i {
        assert SlotOk(slots, metas, files, j);
      }
      if i != NONE && slots[i].dirty && slots[i].valid {
        var asleep := WriteDirect(i);
      }
    }

    /** write_direct on close: afterwards the file itself holds what the cache showed. */
    method Close(f: int)
      requires Valid() && f in files
      modifies this`slots, this`files, this`locked
      ensures Valid() && View() == old(View()) && f in files && files[f] == View()[f]
      ensures forall i :: 0 <= i < |slots| && slots[i].valid && slots[i].file == f ==> !slots[i].dirty
    {
      var m := 0;
      while m < NFILE && metas[m].key != f
        invariant 0 <= m <= NFILE && forall k :: 0 <= k < m ==> metas[k].key != f
      {
        m := m + 1;
      }
      if m < NFILE {
        var g := 0;
        while g < FILEPAGES
          invariant 0 <= g <= FILEPAGES && Valid() && View() == old(View()) && FlushedUpTo(m, g)
        {
          FlushPage(m, g);
          g := g + 1;
        }
      }
      assert View().Keys == files.Keys;
      forall i | m == NFILE && 0 <= i < CACHESIZE && slots[i].valid
        ensures slots[i].metaIdx != m { assert SlotOk(slots, metas, files, i); }
      CleanIsDisk(slots, metas, files, f, m);
      forall i | 0 <= i < |slots| && slots[i].valid && slots[i].file == f ensures !slots[i].dirty {
        assert SlotOk(slots, metas, files, i);
      }
    }

    // ----- whole runs -----

    /** Runs requests through the cache, up to the first that does not end as it should. */
    method Execute(ops: seq<Op>, junk: seq<Byte>) returns (replies: seq<seq<Byte>>, r: Outcome)
      requires Valid() && |junk| == PGSIZE
      requires forall k :: 0 <= k < |ops| ==> ops[k].Meant(View()) && Registered(ops[k].file)
      modifies this
      ensures |replies| <= |ops| && forall k :: 0 <= k < |replies| ==> ops[k].InRange(old(View()))
      ensures |replies| == |ops| <==> AllInRange(ops, old(View()))
      ensures |replies| == |ops| ==> Valid() && Keys(metas) == Keys(old(metas))
      ensures |replies| == |ops| ==> (View(), replies) == Direct(old(View()), ops)
      ensures |replies| < |ops| ==>
        && !ops[|replies|].InRange(old(View()))
        && r == ops[|replies|].End(old(View())) && !(r.Returned? && locked == {})
    {
      replies, r := [], Returned(0);
      var k := 0;
      assert ops[..0] == [];
      while k < |ops|
        invariant 0 <= k == |replies| <= |ops| && Valid() && Keys(metas) == Keys(old(metas))
        invariant forall j :: 0 <= j < k ==> ops[j].InRange(old(View()))
        invariant AllInRange(ops[..k], old(View()))
        invariant (View(), replies) == Direct(old(View()), ops[..k])
      {
        StillInRange(old(View()), ops, k);
        var reply;
        r, reply := ExecuteOne(ops[k], junk);
        if !(r.Returned? && locked == {}) { return; }
        DirectNext(old(View()), ops, k);
        replies := replies + [reply];
        k := k + 1;
      }
      assert ops[..k] == ops;
    }

    method ExecuteOne(op: Op, junk: seq<Byte>) returns (r: Outcome, reply: seq<Byte>)
      requires Valid() && op.Meant(View()) && Registered(op.file) && |junk| == PGSIZE
      modifies this
      ensures r == op.End(old(View()))
      ensures (r.Returned? && locked == {}) <==> op.InRange(old(View()))
      ensures op.InRange(old(View())) ==> Valid() && Keys(metas) == Keys(old(metas))
      ensures op.InRange(old(View())) ==> (View(), reply) == DirectOne(old(View()), op)
    {
      reply, r := [], Returned(0);
      match op
      case Read(f, off, n) =>
        r, reply := CachingRead(f, n, off, junk);
        if off + n <= |View()[f]| { SliceIsAll(View()[f], off, reply); }
      case Write(f, off, data) =>
        r := CachingWrite(f, data, off, junk);
        assert data[..|data|] == data;
      case Flush(f) =>
        Close(f);
    }
  }

  /** The failing call: one byte at the end of a file, through a fresh cache, comes back as a full read
      of what a page from kalloc happened to hold, and leaves the inode locked. */
  method ReadAtEnd(files: Files, f: int, junk: seq<Byte>) returns (c: PageCache, buf: seq<Byte>)
    requires FilesOk(files) && f in files && |junk| == PGSIZE
    ensures fresh(c) && c.View() == files && c.locked == {f}
    ensures |buf| == 1 && DirectRead(files[f], |files[f]|, 1) == Some([])
  {
    c := new PageCache(files);
    var ok := c.Register(f);
    var r;
    r, buf := c.CachingRead(f, 1, |files[f]|, junk);
  }

  /** Entry j is the first not in use. */
  ghost predicate FirstUnused(metas: seq<Meta>, j: nat) {
    j < |metas| && metas[j].key == -1 && forall m :: 0 <= m < j ==> metas[m].key != -1
  }

  lemma SweepOne(slots0: seq<Slot>, slots: seq<Slot>, axis0: int, k: nat)
    requires Swept(slots0, slots, axis0, k) && k < CACHESIZE
    ensures var a := Probe(axis0, k);
            Swept(slots0, slots[a := slots[a].(ref := false)], axis0, k + 1) && slots[a].ref == slots0[a].ref
  {
    var a := Probe(axis0, k);
    var slots' := slots[a := slots[a].(ref := false)];
    forall j | 0 <= j < CACHESIZE
      ensures slots'[Probe(axis0, j)].ref == (if j < k + 1 then false else slots0[Probe(axis0, j)].ref)
    {
      if j < k { ProbesDiffer(axis0, j, k); } else if j > k { ProbesDiffer(axis0, k, j); }
    }
  }

  lemma AddKey(slots: seq<Slot>, metas: seq<Meta>, files: Files, cachedNum: int, j: nat, f: int)
    requires CacheOk(slots, metas, files, cachedNum) && j < NFILE && metas[j].key == -1 && f in files
    requires forall m :: 0 <= m < NFILE ==> metas[m].key != f
    ensures CacheOk(slots, metas[j := metas[j].(key := f)], files, cachedNum)
  {
    var metas' := metas[j := metas[j].(key := f)];
    forall i | 0 <= i < CACHESIZE ensures SlotOk(slots, metas', files, i) { assert SlotOk(slots, metas, files, i); }
    forall m, g | 0 <= m < NFILE && 0 <= g < FILEPAGES
      ensures EntryOk(slots, metas', m, g) { assert EntryOk(slots, metas, m, g); }
  }

  /** A full cache has no empty slot. */
  lemma AllValid(slots: seq<Slot>, v: nat)
    requires |slots| == CACHESIZE == |ValidSlots(slots)| && v < CACHESIZE
    ensures slots[v].valid
  {
    NoneMissing(ValidSlots(slots), |slots|, v);
  }

  /** A cache that is not full has one. */
  lemma SomeEmpty(slots: seq<Slot>, metas: seq<Meta>, cachedNum: int)
    requires |slots| == CACHESIZE && CountsOk(slots, metas, cachedNum) && cachedNum != CACHESIZE
    ensures exists i :: 0 <= i < CACHESIZE && !slots[i].valid
  {
    if forall i :: 0 <= i < CACHESIZE ==> slots[i].valid {
      SubsetSize(Below(CACHESIZE), ValidSlots(slots));
      SubsetSize(ValidSlots(slots), Below(CACHESIZE));
    }
  }

  /** With all its cached pages clean, a file is on disk what it is logically. */
  lemma CleanIsDisk(slots: seq<Slot>, metas: seq<Meta>, files: Files, f: int, m: nat)
    requires FilesOk(files) && MapsOk(slots, metas, files) && KeysOk(metas, files) && f in files && m <= NFILE
    requires forall k :: 0 <= k < m ==> metas[k].key != f
    requires m < NFILE ==> metas[m].key == f
    requires forall i :: 0 <= i < CACHESIZE && slots[i].valid ==>
      slots[i].metaIdx == m && slots[i].metaPg < FILEPAGES ==> !slots[i].dirty
    ensures LogicalFile(slots, files[f], f) == files[f]
  {
    forall k | 0 <= k < |files[f]| ensures LogicalByte(slots, files[f], f, k) == files[f][k] {
      var g := k / PGSIZE;
      if Cached(slots, f, g) {
        var i :| At(slots, i, f, g);
        assert SlotOk(slots, metas, files, i);
        assert slots[i].metaIdx == m;
        ByteAt(slots, metas, files, f, k, i);
      }
    }
  }

  // ----- direct file access -----

  datatype Op = Read(file: int, off: nat, n: nat) | Write(file: int, off: nat, data: seq<Byte>) | Flush(file: int) {
    /** A request for a file that exists, of at least one byte. */
    ghost predicate Meant(files: Files) {
      file in files && (Read? ==> n >= 1) && (Write? ==> |data| >= 1)
    }

    ghost predicate InRange(files: Files) {
      && Meant(files)
      && match this
         case Read(f, off, n) => off + n <= |files[f]|
         case Write(f, off, data) => off + |data| <= |files[f]|
         case Flush(f) => true
    }

    /** How the call ends. */
    ghost function End(files: Files): Outcome
      requires Meant(files)
    {
      match this
      case Read(f, off, n) => Fate(|files[f]|, off, n)
      case Write(f, off, data) => Fate(|files[f]|, off, |data|)
      case Flush(f) => Returned(0)
    }
  }

  /** The request on the files themselves, with no cache. */
  ghost function DirectOne(files: Files, op: Op): (Files, seq<Byte>)
    requires op.InRange(files)
  {
    match op
    case Read(f, off, n) => (files, files[f][off..off + n])
    case Write(f, off, data) => (files[f := Splice(files[f], off, data)], [])
    case Flush(f) => (files, [])
  }

  ghost predicate AllInRange(ops: seq<Op>, files: Files) { forall k :: 0 <= k < |ops| ==> ops[k].InRange(files) }

  ghost function Direct(files: Files, ops: seq<Op>): (r: (Files, seq<seq<Byte>>))
    requires AllInRange(ops, files)
    ensures |r.1| == |ops| && r.0.Keys == files.Keys && forall f :: f in files ==> |r.0[f]| == |files[f]|
  {
    if ops == [] then (files, [])
    else
      var (mid, replies) := Direct(files, ops[..|ops| - 1]);
      assert ops[|ops| - 1].InRange(files);
      var (end, reply) := DirectOne(mid, ops[|ops| - 1]);
      (end, replies + [reply])
  }

  /** Files never change their length, so what a request asks for does not depend on those before. */
  lemma StillInRange(files: Files, ops: seq<Op>, k: nat)
    requires k < |ops| && ops[k].Meant(files) && forall j :: 0 <= j < k ==> ops[j].InRange(files)
    ensures AllInRange(ops[..k], files)
    ensures var now := Direct(files, ops[..k]).0;
            && ops[k].Meant(now) && (ops[k].InRange(now) <==> ops[k].InRange(files))
            && ops[k].End(now) == ops[k].End(files)
  {
  }

  lemma DirectNext(files: Files, ops: seq<Op>, k: nat)
    requires k < |ops| && forall j :: 0 <= j <= k ==> ops[j].InRange(files)
    ensures AllInRange(ops[..k], files) && AllInRange(ops[..k + 1], files)
    ensures var (mid, replies) := Direct(files, ops[..k]);
            && ops[k].InRange(mid)
            && var (end, reply) := DirectOne(mid, ops[k]);
               Direct(files, ops[..k + 1]) == (end, replies + [reply])
  {
    assert ops[..k + 1][..k] == ops[..k];
  }
}
