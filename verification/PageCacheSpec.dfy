/** The page cache's tables (pagecache.h, mmu.h:88) and the files they stand for. */
module PageCacheSpec {
  import opened Basics
  import opened Counting

  const PGSIZE := 4096
  const CACHESIZE := 12
  const NFILE := 100
  const BSIZE := 512
  const MAXFILE := 12 + 128
  const FILEPAGES := MAXFILE * BSIZE / PGSIZE + 1
  const NONE: nat := 0xff

  /** struct cache; `file` is the file its handle names. */
  datatype Slot = Slot(valid: bool, dirty: bool, ref: bool, metaIdx: nat, metaPg: nat, file: int, page: seq<Byte>)

  /** struct cache_metadata; key -1 is an entry not in use. */
  datatype Meta = Meta(key: int, count: int, pageIdx: seq<nat>)

  type Files = map<int, seq<Byte>>

  function Splice(s: seq<Byte>, off: int, t: seq<Byte>): (r: seq<Byte>)
    requires 0 <= off <= off + |t| <= |s|
    ensures |r| == |s|
    ensures r[off..off + |t|] == t && r[..off] == s[..off] && r[off + |t|..] == s[off + |t|..]
  {
    s[..off] + t + s[off + |t|..]
  }

  lemma SpliceTwice(s: seq<Byte>, off: int, t: seq<Byte>, u: seq<Byte>)
    requires 0 <= off && off + |t| + |u| <= |s|
    ensures Splice(Splice(s, off, t), off + |t|, u) == Splice(s, off, t + u)
  {
  }

  lemma SpliceAt(s: seq<Byte>, off: int, t: seq<Byte>, k: int)
    requires 0 <= off <= off + |t| <= |s| && 0 <= k < |s|
    ensures Splice(s, off, t)[k] == if off <= k < off + |t| then t[k - off] else s[k]
  {
  }

  // ----- what the tables stand for -----

  /** Page g of a file's contents on disk. */
  function DiskPage(s: seq<Byte>, g: nat): (r: seq<Byte>)
    requires (g + 1) * PGSIZE <= |s|
    ensures |r| == PGSIZE
  {
    s[g * PGSIZE..(g + 1) * PGSIZE]
  }

  ghost predicate At(slots: seq<Slot>, i: int, f: int, g: int) {
    0 <= i < |slots| && slots[i].valid && slots[i].file == f && slots[i].metaPg == g
  }

  ghost predicate Cached(slots: seq<Slot>, f: int, g: int) { exists i :: At(slots, i, f, g) }

  /** Byte k of file f: from the cached copy of its page if there is one, from the disk otherwise. */
  ghost function LogicalByte(slots: seq<Slot>, s: seq<Byte>, f: int, k: int): Byte
    requires 0 <= k < |s|
  {
    var g := k / PGSIZE;
    if Cached(slots, f, g) then
      var i :| At(slots, i, f, g);
      if |slots[i].page| == PGSIZE then slots[i].page[k % PGSIZE] else 0
    else s[k]
  }

  ghost function LogicalFile(slots: seq<Slot>, s: seq<Byte>, f: int): (r: seq<Byte>)
    ensures |r| == |s|
  {
    seq(|s|, k requires 0 <= k < |s| => LogicalByte(slots, s, f, k))
  }

  ghost function Logical(slots: seq<Slot>, files: Files): (m: Files)
    ensures m.Keys == files.Keys
  {
    map f | f in files :: LogicalFile(slots, files[f], f)
  }

  // ----- the invariants -----

  ghost predicate FilesOk(files: Files) {
    forall f :: f in files ==> f >= 0 && |files[f]| % PGSIZE == 0 && |files[f]| <= MAXFILE * BSIZE
  }

  /** Page g lies inside file f. */
  ghost predicate Inside(files: Files, f: int, g: nat) { f in files && (g + 1) * PGSIZE <= |files[f]| }

  lemma PageInside(files: Files, f: int, k: int)
    requires FilesOk(files) && f in files && 0 <= k
    ensures Inside(files, f, k / PGSIZE) <==> k < |files[f]|
  {
  }

  ghost predicate SlotOk(slots: seq<Slot>, metas: seq<Meta>, files: Files, i: nat)
    requires |slots| == CACHESIZE && |metas| == NFILE && i < CACHESIZE
  {
    var c := slots[i];
    c.valid ==>
      && c.metaIdx < NFILE && c.metaPg < |metas[c.metaIdx].pageIdx| && metas[c.metaIdx].pageIdx[c.metaPg] == i
      && metas[c.metaIdx].key == c.file && c.file in files && |c.page| == PGSIZE
      && (!c.dirty && Inside(files, c.file, c.metaPg) ==> c.page == DiskPage(files[c.file], c.metaPg))
  }

  ghost predicate EntryOk(slots: seq<Slot>, metas: seq<Meta>, m: nat, g: nat)
    requires |slots| == CACHESIZE && |metas| == NFILE && m < NFILE && g < |metas[m].pageIdx|
  {
    var i := metas[m].pageIdx[g];
    i != NONE ==> i < CACHESIZE && slots[i].valid && slots[i].metaIdx == m && slots[i].metaPg == g
  }

  /** Slots and per-file page maps are inverse to each other. */
  ghost predicate MapsOk(slots: seq<Slot>, metas: seq<Meta>, files: Files) {
    && |slots| == CACHESIZE && |metas| == NFILE
    && (forall i :: 0 <= i < CACHESIZE ==> SlotOk(slots, metas, files, i))
    && (forall m :: 0 <= m < NFILE ==> |metas[m].pageIdx| == FILEPAGES)
    && (forall m, g :: 0 <= m < NFILE && 0 <= g < FILEPAGES ==> EntryOk(slots, metas, m, g))
  }

  /** At most one entry per file. */
  ghost predicate KeysOk(metas: seq<Meta>, files: Files) {
    && (forall m :: 0 <= m < |metas| ==> metas[m].key == -1 || metas[m].key in files)
    && (forall m, k :: 0 <= m < k < |metas| && metas[m].key != -1 ==> metas[m].key != metas[k].key)
  }

  ghost function ValidSlots(slots: seq<Slot>): set<int> {
    set i | 0 <= i < |slots| && slots[i].valid
  }

  ghost function SlotsOf(slots: seq<Slot>, m: nat): set<int> {
    set i | 0 <= i < |slots| && slots[i].valid && slots[i].metaIdx == m
  }

  ghost predicate CountsOk(slots: seq<Slot>, metas: seq<Meta>, cachedNum: int) {
    && cachedNum == |ValidSlots(slots)|
    && forall m :: 0 <= m < |metas| ==> metas[m].count == |SlotsOf(slots, m)|
  }

  ghost predicate CacheOk(slots: seq<Slot>, metas: seq<Meta>, files: Files, cachedNum: int) {
    FilesOk(files) && MapsOk(slots, metas, files) && KeysOk(metas, files) && CountsOk(slots, metas, cachedNum)
  }

  /** A page behind the end of its file is cached only while the file's inode is locked. */
  ghost predicate StraysLocked(slots: seq<Slot>, files: Files, locked: set<int>) {
    forall i :: 0 <= i < |slots| && slots[i].valid && !Inside(files, slots[i].file, slots[i].metaPg) ==>
      slots[i].file in locked
  }

  /** An empty slot has no reference. */
  ghost predicate EmptyUnmarked(slots: seq<Slot>) {
    forall i :: 0 <= i < |slots| && !slots[i].valid ==> !slots[i].ref
  }

  /** No slot before i is empty. */
  ghost predicate FirstFilled(slots: seq<Slot>, i: nat) { forall j :: 0 <= j < i && j < |slots| ==> slots[j].valid }

  /** No page is cached twice. */
  lemma AtUnique(slots: seq<Slot>, metas: seq<Meta>, files: Files, i: int, j: int, f: int, g: int)
    requires MapsOk(slots, metas, files) && KeysOk(metas, files) && FilesOk(files) && At(slots, i, f, g)
    requires At(slots, j, f, g)
    ensures i == j
  {
    assert SlotOk(slots, metas, files, i) && SlotOk(slots, metas, files, j);
    var m, k := slots[i].metaIdx, slots[j].metaIdx;
    assert metas[m].key == metas[k].key == f;
    assert f != -1;
    assert m == k;
  }

  lemma ByteAt(slots: seq<Slot>, metas: seq<Meta>, files: Files, f: int, k: int, i: int)
    requires MapsOk(slots, metas, files) && KeysOk(metas, files) && FilesOk(files)
    requires f in files && 0 <= k < |files[f]| && At(slots, i, f, k / PGSIZE)
    ensures |slots[i].page| == PGSIZE && LogicalByte(slots, files[f], f, k) == slots[i].page[k % PGSIZE]
  {
    var g := k / PGSIZE;
    assert SlotOk(slots, metas, files, i);
    assert Cached(slots, f, g);
    forall j | At(slots, j, f, g) ensures j == i { AtUnique(slots, metas, files, i, j, f, g); }
  }

  /** A cached page is a slice of the logical file. */
  lemma SliceInPage(slots: seq<Slot>, metas: seq<Meta>, files: Files, i: int, f: int, g: nat, o: int, len: int)
    requires MapsOk(slots, metas, files) && KeysOk(metas, files) && FilesOk(files) && f in files && At(slots, i, f, g)
    requires 0 <= o <= o + len <= PGSIZE && Inside(files, f, g)
    ensures |slots[i].page| == PGSIZE
    ensures LogicalFile(slots, files[f], f)[g * PGSIZE + o..g * PGSIZE + o + len] == slots[i].page[o..o + len]
  {
    assert SlotOk(slots, metas, files, i);
    var l, p := LogicalFile(slots, files[f], f)[g * PGSIZE + o..g * PGSIZE + o + len], slots[i].page[o..o + len];
    forall j | 0 <= j < len ensures l[j] == p[j] {
      var k := g * PGSIZE + o + j;
      assert k / PGSIZE == g && k % PGSIZE == o + j;
      ByteAt(slots, metas, files, f, k, i);
    }
  }

  // ----- what each change keeps -----

  /** Changing reference bits. */
  lemma TouchKeeps(slots: seq<Slot>, metas: seq<Meta>, files: Files, cachedNum: int, slots': seq<Slot>)
    requires CacheOk(slots, metas, files, cachedNum) && |slots'| == |slots|
    requires forall i :: 0 <= i < |slots| ==> slots'[i] == slots[i].(ref := slots'[i].ref)
    ensures CacheOk(slots', metas, files, cachedNum) && Logical(slots', files) == Logical(slots, files)
  {
    forall i | 0 <= i < CACHESIZE ensures SlotOk(slots', metas, files, i) { assert SlotOk(slots, metas, files, i); }
    forall m, g | 0 <= m < NFILE && 0 <= g < FILEPAGES
      ensures EntryOk(slots', metas, m, g) { assert EntryOk(slots, metas, m, g); }
    assert ValidSlots(slots') == ValidSlots(slots);
    forall m | 0 <= m < NFILE ensures SlotsOf(slots', m) == SlotsOf(slots, m) { }
    SameBytes(slots, files, slots', files, metas);
  }

  /** Two caches whose pages hold the same bytes stand for the same files. */
  lemma SameBytes(slots: seq<Slot>, files: Files, slots': seq<Slot>, files': Files, metas: seq<Meta>)
    requires MapsOk(slots, metas, files) && KeysOk(metas, files) && FilesOk(files) && MapsOk(slots', metas, files')
    requires FilesOk(files')
    requires files'.Keys == files.Keys && forall f :: f in files ==> |files'[f]| == |files[f]|
    requires forall i :: 0 <= i < |slots| ==>
      slots'[i].valid == slots[i].valid && slots'[i].file == slots[i].file && slots'[i].metaPg == slots[i].metaPg
        && (Inside(files, slots[i].file, slots[i].metaPg) ==> slots'[i].page == slots[i].page)
    requires forall f, k :: f in files && 0 <= k < |files[f]| && !Cached(slots, f, k / PGSIZE) ==>
      files'[f][k] == files[f][k]
    ensures Logical(slots', files') == Logical(slots, files)
  {
    forall f | f in files ensures LogicalFile(slots', files'[f], f) == LogicalFile(slots, files[f], f) {
      forall k | 0 <= k < |files[f]|
        ensures LogicalByte(slots', files'[f], f, k) == LogicalByte(slots, files[f], f, k)
      {
        var g := k / PGSIZE;
        PageInside(files, f, k);
        if Cached(slots, f, g) {
          var i :| At(slots, i, f, g);
          assert At(slots', i, f, g);
          ByteAt(slots, metas, files, f, k, i);
          ByteAt(slots', metas, files', f, k, i);
        } else {
          assert !Cached(slots', f, g) by {
            forall i ensures !At(slots', i, f, g) { assert !At(slots, i, f, g); }
          }
        }
      }
    }
  }

  /** Writing a dirty page back. */
  lemma CleanKeeps(slots: seq<Slot>, metas: seq<Meta>, files: Files, cachedNum: int, i: nat)
    requires CacheOk(slots, metas, files, cachedNum) && i < CACHESIZE && slots[i].valid
    requires Inside(files, slots[i].file, slots[i].metaPg)
    ensures var c := slots[i];
            && |c.page| == PGSIZE
            && var files' := files[c.file := Splice(files[c.file], c.metaPg * PGSIZE, c.page)];
               var slots' := slots[i := c.(dirty := false)];
               && CacheOk(slots', metas, files', cachedNum)
               && Logical(slots', files') == Logical(slots, files)
  {
    var c := slots[i];
    assert SlotOk(slots, metas, files, i);
    var s' := Splice(files[c.file], c.metaPg * PGSIZE, c.page);
    var files', slots' := files[c.file := s'], slots[i := c.(dirty := false)];
    assert DiskPage(s', c.metaPg) == c.page;
    forall j | 0 <= j < CACHESIZE ensures SlotOk(slots', metas, files', j) {
      assert SlotOk(slots, metas, files, j);
      if j != i && slots[j].valid && slots[j].file == c.file && Inside(files, c.file, slots[j].metaPg) {
        var g := slots[j].metaPg;
        if g == c.metaPg { AtUnique(slots, metas, files, i, j, c.file, g); }
        assert DiskPage(s', g) == DiskPage(files[c.file], g);
      }
    }
    forall m, g | 0 <= m < NFILE && 0 <= g < FILEPAGES
      ensures EntryOk(slots', metas, m, g) { assert EntryOk(slots, metas, m, g); }
    SameCounts(slots, metas, cachedNum, slots');
    forall f, k | f in files && 0 <= k < |files[f]| && !Cached(slots, f, k / PGSIZE)
      ensures files'[f][k] == files[f][k]
    {
      if f == c.file {
        assert k / PGSIZE != c.metaPg by { assert !At(slots, i, f, k / PGSIZE); }
        SpliceAt(files[f], c.metaPg * PGSIZE, c.page, k);
      }
    }
    SameBytes(slots, files, slots', files', metas);
  }

  lemma SameCounts(slots: seq<Slot>, metas: seq<Meta>, cachedNum: int, slots': seq<Slot>)
    requires CountsOk(slots, metas, cachedNum) && |slots'| == |slots|
    requires forall i :: 0 <= i < |slots| ==> slots'[i].valid == slots[i].valid && slots'[i].metaIdx == slots[i].metaIdx
    ensures CountsOk(slots', metas, cachedNum)
  {
    assert ValidSlots(slots') == ValidSlots(slots);
    forall m | 0 <= m < |metas|
      ensures metas[m].count == |SlotsOf(slots', m)| { assert SlotsOf(slots', m) == SlotsOf(slots, m); }
  }

  /** Adding or removing one slot changes the counts by one. */
  lemma CountOne(slots: seq<Slot>, slots': seq<Slot>, i: nat, m: nat)
    requires i < |slots| == |slots'| && slots' == slots[i := slots'[i]] && slots'[i].valid && slots'[i].metaIdx == m
    requires !slots[i].valid
    ensures |ValidSlots(slots')| == |ValidSlots(slots)| + 1 && |SlotsOf(slots', m)| == |SlotsOf(slots, m)| + 1
    ensures forall n :: 0 <= n < NFILE && n != m ==> |SlotsOf(slots', n)| == |SlotsOf(slots, n)|
  {
    assert ValidSlots(slots') == ValidSlots(slots) + {i};
    assert SlotsOf(slots', m) == SlotsOf(slots, m) + {i};
    forall n | 0 <= n < NFILE && n != m ensures |SlotsOf(slots', n)| == |SlotsOf(slots, n)| {
      assert SlotsOf(slots', n) == SlotsOf(slots, n);
    }
  }

  /** The entry of a page map, and its count, replaced. */
  function Remapped(metas: seq<Meta>, m: nat, g: nat, i: nat, d: int): (r: seq<Meta>)
    requires m < |metas| && g < |metas[m].pageIdx|
    ensures |r| == |metas|
  {
    metas[m := Meta(metas[m].key, metas[m].count + d, metas[m].pageIdx[g := i])]
  }

  /** clear_victim_cache's slot. */
  function Cleared(c: Slot): Slot {
    c.(valid := false, dirty := false, ref := false, metaIdx := NONE, metaPg := NONE, page := seq(PGSIZE, _ => 0))
  }

  /** Dropping a clean page. */
  lemma DropKeeps(slots: seq<Slot>, metas: seq<Meta>, files: Files, cachedNum: int, i: nat)
    requires CacheOk(slots, metas, files, cachedNum) && i < CACHESIZE && slots[i].valid && !slots[i].dirty
    ensures var c := slots[i];
            && c.metaIdx < NFILE && c.metaPg < |metas[c.metaIdx].pageIdx|
            && var slots' := slots[i := Cleared(c)];
               && CacheOk(slots', Remapped(metas, c.metaIdx, c.metaPg, NONE, -1), files, cachedNum - 1)
               && Logical(slots', files) == Logical(slots, files)
  {
    var c := slots[i];
    assert SlotOk(slots, metas, files, i);
    var slots', metas' := slots[i := Cleared(c)], Remapped(metas, c.metaIdx, c.metaPg, NONE, -1);
    forall j | 0 <= j < CACHESIZE ensures SlotOk(slots', metas', files, j) { assert SlotOk(slots, metas, files, j); }
    forall m, g | 0 <= m < NFILE && 0 <= g < FILEPAGES
      ensures EntryOk(slots', metas', m, g) { assert EntryOk(slots, metas, m, g); }
    CountOne(slots', slots, i, c.metaIdx);
    assert KeysOk(metas', files);
    forall f | f in files ensures LogicalFile(slots', files[f], f) == LogicalFile(slots, files[f], f) {
      forall k | 0 <= k < |files[f]| ensures LogicalByte(slots', files[f], f, k) == LogicalByte(slots, files[f], f, k) {
        ByteAcross(slots, metas, slots', metas', files, i, f, k);
      }
    }
  }

  /** A clean copy of a page may come or go. */
  lemma ByteAcross(slots: seq<Slot>, metas: seq<Meta>, slots': seq<Slot>, metas': seq<Meta>, files: Files, i: nat,
                   f: int, k: int)
    requires MapsOk(slots, metas, files) && KeysOk(metas, files) && FilesOk(files) && MapsOk(slots', metas', files)
    requires KeysOk(metas', files)
    requires i < CACHESIZE && slots' == slots[i := slots'[i]] && !slots'[i].valid && slots[i].valid && !slots[i].dirty
    requires f in files && 0 <= k < |files[f]|
    ensures LogicalByte(slots', files[f], f, k) == LogicalByte(slots, files[f], f, k)
  {
    var g := k / PGSIZE;
    if Cached(slots', f, g) {
      var j :| At(slots', j, f, g);
      assert At(slots, j, f, g);
      ByteAt(slots, metas, files, f, k, j);
      ByteAt(slots', metas', files, f, k, j);
    } else if Cached(slots, f, g) {
      var j :| At(slots, j, f, g);
      assert j == i by { assert !At(slots', j, f, g); }
      ByteAt(slots, metas, files, f, k, i);
      assert SlotOk(slots, metas, files, i);
      PageInside(files, f, k);
    }
  }

  /** cache_fault_handler's slot. */
  function Loaded(c: Slot, m: nat, g: nat, f: int, page: seq<Byte>): Slot {
    c.(valid := true, dirty := false, metaIdx := m, metaPg := g, file := f, page := page)
  }

  /** Loading a page into an empty slot. */
  lemma FillKeeps(slots: seq<Slot>, metas: seq<Meta>, files: Files, cachedNum: int, i: nat, m: nat, g: nat, f: int,
                  page: seq<Byte>)
    requires CacheOk(slots, metas, files, cachedNum) && i < CACHESIZE && !slots[i].valid
    requires m < NFILE && metas[m].key == f && f in files && |page| == PGSIZE
    requires Inside(files, f, g) ==> page == DiskPage(files[f], g)
    requires g < FILEPAGES && metas[m].pageIdx[g] == NONE
    ensures var slots' := slots[i := Loaded(slots[i], m, g, f, page)];
            && CacheOk(slots', Remapped(metas, m, g, i, 1), files, cachedNum + 1)
            && Logical(slots', files) == Logical(slots, files) && At(slots', i, f, g)
  {
    var c' := Loaded(slots[i], m, g, f, page);
    var slots', metas' := slots[i := c'], Remapped(metas, m, g, i, 1);
    forall j | 0 <= j < CACHESIZE ensures SlotOk(slots', metas', files, j) {
      assert SlotOk(slots, metas, files, j);
    }
    forall n, h | 0 <= n < NFILE && 0 <= h < FILEPAGES
      ensures EntryOk(slots', metas', n, h) { assert EntryOk(slots, metas, n, h); }
    CountOne(slots, slots', i, m);
    assert KeysOk(metas', files);
    forall f | f in files ensures LogicalFile(slots', files[f], f) == LogicalFile(slots, files[f], f) {
      forall k | 0 <= k < |files[f]| ensures LogicalByte(slots', files[f], f, k) == LogicalByte(slots, files[f], f, k) {
        assert slots == slots'[i := slots[i]];
        ByteAcross(slots', metas', slots, metas, files, i, f, k);
      }
    }
  }

  /** Writing into a cached page writes into the logical file, and into no other. */
  lemma StoreKeeps(slots: seq<Slot>, metas: seq<Meta>, files: Files, cachedNum: int, i: nat, o: int, t: seq<Byte>)
    requires CacheOk(slots, metas, files, cachedNum) && i < CACHESIZE && slots[i].valid && 0 <= o <= o + |t| <= PGSIZE
    requires Inside(files, slots[i].file, slots[i].metaPg)
    ensures var c := slots[i];
            && |c.page| == PGSIZE
            && var slots' := slots[i := c.(page := Splice(c.page, o, t), dirty := true)];
               && CacheOk(slots', metas, files, cachedNum)
               && Logical(slots', files)
                  == Logical(slots, files)[c.file := Splice(Logical(slots, files)[c.file], c.metaPg * PGSIZE + o, t)]
  {
    StoreCacheOk(slots, metas, files, cachedNum, i, o, t);
    var c := slots[i];
    var slots' := slots[i := c.(page := Splice(c.page, o, t), dirty := true)];
    var l, l' := Logical(slots, files), Logical(slots', files);
    forall f | f in files ensures l'[f] == if f == c.file then Splice(l[f], c.metaPg * PGSIZE + o, t) else l[f] {
      StoredFile(slots, metas, files, i, o, t, f);
    }
    OneFileChanged(l, l', c.file, Splice(l[c.file], c.metaPg * PGSIZE + o, t));
  }

  lemma OneFileChanged(l: Files, l': Files, f: int, s: seq<Byte>)
    requires l'.Keys == l.Keys && f in l && l'[f] == s && forall h :: h in l && h != f ==> l'[h] == l[h]
    ensures l' == l[f := s]
  {
    assert forall h :: h in l'.Keys <==> h in l[f := s].Keys;
    assert forall h :: h in l' ==> l'[h] == l[f := s][h];
  }

  /** Writing into a cached page behind the end of its file changes no logical file. */
  lemma StrayStoreKeeps(slots: seq<Slot>, metas: seq<Meta>, files: Files, cachedNum: int, i: nat, o: int, t: seq<Byte>)
    requires CacheOk(slots, metas, files, cachedNum) && i < CACHESIZE && slots[i].valid && 0 <= o <= o + |t| <= PGSIZE
    requires !Inside(files, slots[i].file, slots[i].metaPg)
    ensures var c := slots[i];
            && |c.page| == PGSIZE
            && var slots' := slots[i := c.(page := Splice(c.page, o, t), dirty := true)];
               CacheOk(slots', metas, files, cachedNum) && Logical(slots', files) == Logical(slots, files)
  {
    StoreCacheOk(slots, metas, files, cachedNum, i, o, t);
    var slots' := slots[i := slots[i].(page := Splice(slots[i].page, o, t), dirty := true)];
    SameBytes(slots, files, slots', files, metas);
  }

  lemma StoreCacheOk(slots: seq<Slot>, metas: seq<Meta>, files: Files, cachedNum: int, i: nat, o: int, t: seq<Byte>)
    requires CacheOk(slots, metas, files, cachedNum) && i < CACHESIZE && slots[i].valid && 0 <= o <= o + |t| <= PGSIZE
    ensures var c := slots[i];
            && |c.page| == PGSIZE && c.file in files
            && CacheOk(slots[i := c.(page := Splice(c.page, o, t), dirty := true)], metas, files, cachedNum)
  {
    var c := slots[i];
    assert SlotOk(slots, metas, files, i);
    var slots' := slots[i := c.(page := Splice(c.page, o, t), dirty := true)];
    forall j | 0 <= j < CACHESIZE ensures SlotOk(slots', metas, files, j) { assert SlotOk(slots, metas, files, j); }
    forall m, g | 0 <= m < NFILE && 0 <= g < FILEPAGES
      ensures EntryOk(slots', metas, m, g) { assert EntryOk(slots, metas, m, g); }
    SameCounts(slots, metas, cachedNum, slots');
  }

  lemma StoredFile(slots: seq<Slot>, metas: seq<Meta>, files: Files, i: nat, o: int, t: seq<Byte>, f: int)
    requires FilesOk(files) && MapsOk(slots, metas, files) && KeysOk(metas, files) && i < CACHESIZE && slots[i].valid
    requires 0 <= o <= o + |t| <= PGSIZE
    requires f in files && |slots[i].page| == PGSIZE && slots[i].file in files
    requires (slots[i].metaPg + 1) * PGSIZE <= |files[slots[i].file]|
    requires MapsOk(slots[i := slots[i].(page := Splice(slots[i].page, o, t), dirty := true)], metas, files)
    ensures var slots' := slots[i := slots[i].(page := Splice(slots[i].page, o, t), dirty := true)];
            LogicalFile(slots', files[f], f) ==
              if f == slots[i].file then Splice(LogicalFile(slots, files[f], f), slots[i].metaPg * PGSIZE + o, t)
                else LogicalFile(slots, files[f], f)
  {
    var c := slots[i];
    var slots' := slots[i := c.(page := Splice(c.page, o, t), dirty := true)];
    var l, l' := LogicalFile(slots, files[f], f), LogicalFile(slots', files[f], f);
    var at := c.metaPg * PGSIZE + o;
    forall k | 0 <= k < |files[f]| ensures l'[k] == if f == c.file && at <= k < at + |t| then t[k - at] else l[k] {
      StoredByte(slots, metas, files, i, o, t, f, k);
    }
    if f == c.file {
      forall k | 0 <= k < |l| ensures Splice(l, at, t)[k] == l'[k] { SpliceAt(l, at, t, k); }
    }
  }

  lemma StoredByte(slots: seq<Slot>, metas: seq<Meta>, files: Files, i: nat, o: int, t: seq<Byte>, f: int, k: nat)
    requires FilesOk(files) && MapsOk(slots, metas, files) && KeysOk(metas, files) && i < CACHESIZE && slots[i].valid
    requires 0 <= o <= o + |t| <= PGSIZE && f in files && k < |files[f]| && |slots[i].page| == PGSIZE
    requires MapsOk(slots[i := slots[i].(page := Splice(slots[i].page, o, t), dirty := true)], metas, files)
    ensures var c := slots[i];
            var slots', at := slots[i := c.(page := Splice(c.page, o, t), dirty := true)], c.metaPg * PGSIZE + o;
            LogicalByte(slots', files[f], f, k) ==
              if f == c.file && at <= k < at + |t| then t[k - at] else LogicalByte(slots, files[f], f, k)
  {
    var c := slots[i];
    var slots' := slots[i := c.(page := Splice(c.page, o, t), dirty := true)];
    var g := k / PGSIZE;
    if Cached(slots, f, g) {
      var j :| At(slots, j, f, g);
      assert At(slots', j, f, g);
      ByteAt(slots, metas, files, f, k, j);
      ByteAt(slots', metas, files, f, k, j);
      if f == c.file && g == c.metaPg {
        assert At(slots, i, f, g);
        AtUnique(slots, metas, files, i, j, f, g);
        SpliceAt(c.page, o, t, k % PGSIZE);
      }
    } else {
      assert !At(slots, i, f, g);
      assert !Cached(slots', f, g) by {
        forall j ensures !At(slots', j, f, g) { assert !At(slots, j, f, g); }
      }
    }
  }
}
