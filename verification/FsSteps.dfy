/** What each elementary change of fs.c does to block ownership and to the bytes of the files. */
module FsSteps {
  import opened Basics
  import opened FsSpec

  // ----- the bytes of a file -----

  function RefOf(i: nat, n: nat): Ref { if n < NDIRECT then Slot(i, n) else Entry(i, n - NDIRECT) }

  /** The block that holds block n of inode i, 0 if there is none. */
  ghost function BlockNo(disk: seq<Block>, inodes: seq<Inode>, i: nat, n: nat): nat {
    if n < MAXFILE && IsRef(disk, inodes, RefOf(i, n)) then Target(disk, inodes, RefOf(i, n)) else 0
  }

  /** Byte k behind inode i, also past its size; a missing block reads as zeros. */
  ghost function Raw(disk: seq<Block>, inodes: seq<Inode>, i: nat, k: nat): Byte {
    var b := BlockNo(disk, inodes, i, k / BSIZE);
    if 0 < b < |disk| then disk[b][k % BSIZE] else 0
  }

  ghost predicate SameBytes(disk: seq<Block>, inodes: seq<Inode>, disk': seq<Block>, inodes': seq<Inode>, i: nat) {
    forall k: nat :: Raw(disk', inodes', i, k) == Raw(disk, inodes, i, k)
  }

  ghost predicate AllSame(disk: seq<Block>, inodes: seq<Inode>, disk': seq<Block>, inodes': seq<Inode>) {
    forall i: nat, k: nat :: Raw(disk', inodes', i, k) == Raw(disk, inodes, i, k)
  }

  ghost predicate FsOk(l: Layout, disk: seq<Block>, inodes: seq<Inode>, owner: map<nat, Ref>, spare: set<nat>,
                       dead: set<Ref>) {
    ShapeOk(l, disk, inodes) && OwnersOk(l, disk, inodes, owner, spare, dead)
  }

  // ----- small facts -----

  /** The indirect block of an inode is a data block with one reference. */
  lemma IndirectOwned(l: Layout, disk: seq<Block>, inodes: seq<Inode>, owner: map<nat, Ref>, spare: set<nat>, i: nat)
    requires FsOk(l, disk, inodes, owner, spare, {}) && i < |inodes| && inodes[i].addrs[NDIRECT] != 0
    ensures inodes[i].addrs[NDIRECT] in owner && owner[inodes[i].addrs[NDIRECT]] == Slot(i, NDIRECT)
    ensures l.dataStart <= inodes[i].addrs[NDIRECT] < l.size && inodes[i].addrs[NDIRECT] !in spare
  {
    assert IsRef(disk, inodes, Slot(i, NDIRECT));
  }

  lemma MapIsMetadata(l: Layout, disk: seq<Block>, b: nat)
    requires l.Ok() && b < l.size
    ensures l.bmapStart <= MapBlock(l, b) < l.dataStart
  {
  }

  /** Marks depend on the map's blocks alone. */
  lemma MarksSame(l: Layout, disk: seq<Block>, disk': seq<Block>, c: nat)
    requires l.Ok() && c < l.size && |disk'| == |disk| == l.size
    requires forall b :: 0 <= b < l.dataStart ==> disk'[b] == disk[b]
    ensures Marked(l, disk', c) == Marked(l, disk, c)
  {
    MapIsMetadata(l, disk, c);
  }

  /** The indirect blocks are unchanged. */
  ghost predicate SameIndirects(disk: seq<Block>, inodes: seq<Inode>, disk': seq<Block>) {
    && |disk'| == |disk|
    && forall i :: 0 <= i < |inodes| && |inodes[i].addrs| == NDIRECT + 1 && 0 < inodes[i].addrs[NDIRECT] < |disk| ==>
         disk'[inodes[i].addrs[NDIRECT]] == disk[inodes[i].addrs[NDIRECT]]
  }

  lemma TargetsSame(disk: seq<Block>, inodes: seq<Inode>, disk': seq<Block>, r: Ref)
    requires SameIndirects(disk, inodes, disk')
    ensures IsRef(disk', inodes, r) == IsRef(disk, inodes, r)
    ensures IsRef(disk, inodes, r) ==> Target(disk', inodes, r) == Target(disk, inodes, r)
  {
  }

  /** A block in use by a file is a data block with an owner. */
  lemma FileBlock(l: Layout, disk: seq<Block>, inodes: seq<Inode>, owner: map<nat, Ref>, spare: set<nat>, i: nat,
                  n: nat)
    requires FsOk(l, disk, inodes, owner, spare, {}) && BlockNo(disk, inodes, i, n) != 0
    ensures var b := BlockNo(disk, inodes, i, n);
      l.dataStart <= b < l.size && b in owner && owner[b] == RefOf(i, n) && b !in spare
  {
    assert IsRef(disk, inodes, RefOf(i, n));
  }

  // ----- balloc -----

  /** balloc's two writes: the mark and the zeroed block. */
  function Allocated(l: Layout, disk: seq<Block>, b: nat): seq<Block>
    requires MapBlock(l, b) < |disk| && b < |disk|
  {
    Flipped(l, disk, b)[b := Zeros()]
  }

  lemma AllocatedIndirects(l: Layout, disk: seq<Block>, inodes: seq<Inode>, owner: map<nat, Ref>, spare: set<nat>,
                           b: nat)
    requires FsOk(l, disk, inodes, owner, spare, {}) && b < l.size && !Marked(l, disk, b)
    ensures MapBlock(l, b) < |disk| && b >= l.dataStart && b !in owner && b !in spare
    ensures SameIndirects(disk, inodes, Allocated(l, disk, b))
    ensures forall c :: 0 <= c < l.size ==> Marked(l, Allocated(l, disk, b), c) == (c == b || Marked(l, disk, c))
  {
    MapIsMetadata(l, disk, b);
    var disk' := Allocated(l, disk, b);
    forall i | 0 <= i < |inodes| && 0 < inodes[i].addrs[NDIRECT] < |disk|
      ensures disk'[inodes[i].addrs[NDIRECT]] == disk[inodes[i].addrs[NDIRECT]]
    {
      IndirectOwned(l, disk, inodes, owner, spare, i);
    }
    forall c | 0 <= c < l.size ensures Marked(l, disk', c) == (c == b || Marked(l, disk, c)) {
      FlippedMarks(l, disk, b, c);
      MapIsMetadata(l, disk, c);
    }
  }

  lemma AllocatedKeeps(l: Layout, disk: seq<Block>, inodes: seq<Inode>, owner: map<nat, Ref>, spare: set<nat>, b: nat)
    requires FsOk(l, disk, inodes, owner, spare, {}) && b < l.size && !Marked(l, disk, b)
    ensures MapBlock(l, b) < |disk| && FsOk(l, Allocated(l, disk, b), inodes, owner, spare + {b}, {})
    ensures b >= l.dataStart && b !in owner && b !in spare
  {
    AllocatedIndirects(l, disk, inodes, owner, spare, b);
    var disk' := Allocated(l, disk, b);
    forall r
      ensures IsRef(disk', inodes, r) == IsRef(disk, inodes, r)
      ensures (IsRef(disk, inodes, r) ==> Target(disk', inodes, r) == Target(disk, inodes, r))
    {
      TargetsSame(disk, inodes, disk', r);
    }
  }

  lemma AllocatedBytes(l: Layout, disk: seq<Block>, inodes: seq<Inode>, owner: map<nat, Ref>, spare: set<nat>, b: nat)
    requires FsOk(l, disk, inodes, owner, spare, {}) && b < l.size && !Marked(l, disk, b) && MapBlock(l, b) < |disk|
    ensures AllSame(disk, inodes, Allocated(l, disk, b), inodes)
  {
    AllocatedIndirects(l, disk, inodes, owner, spare, b);
    var disk' := Allocated(l, disk, b);
    MapIsMetadata(l, disk, b);
    forall i: nat, k: nat ensures Raw(disk', inodes, i, k) == Raw(disk, inodes, i, k) {
      TargetsSame(disk, inodes, disk', RefOf(i, k / BSIZE));
      if BlockNo(disk, inodes, i, k / BSIZE) != 0 { FileBlock(l, disk, inodes, owner, spare, i, k / BSIZE); }
    }
  }

  // ----- bmap's assignments -----

  function WithSlot(inodes: seq<Inode>, i: nat, k: nat, b: nat): (r: seq<Inode>)
    requires i < |inodes| && k < |inodes[i].addrs|
    ensures |r| == |inodes|
  {
    inodes[i := inodes[i].(addrs := inodes[i].addrs[k := b])]
  }

  /** What the references are once slot k of inode i names the zeroed block b. */
  lemma SlotTargets(disk: seq<Block>, inodes: seq<Inode>, i: nat, k: nat, b: nat, r: Ref)
    requires i < |inodes| && |inodes[i].addrs| == NDIRECT + 1 && k <= NDIRECT && inodes[i].addrs[k] == 0
    requires 0 < b < |disk| && disk[b] == Zeros()
    ensures var inodes' := WithSlot(inodes, i, k, b);
            && (IsRef(disk, inodes, r) ==> IsRef(disk, inodes', r))
            && (IsRef(disk, inodes', r) ==>
                 if r == Slot(i, k) then Target(disk, inodes', r) == b
                 else if IsRef(disk, inodes, r) then Target(disk, inodes', r) == Target(disk, inodes, r)
                 else Target(disk, inodes', r) == 0)
  {
    if r.Entry? && r.j < NINDIRECT { ZerosHold(r.j); }
  }

  lemma SlotKeeps(l: Layout, disk: seq<Block>, inodes: seq<Inode>, owner: map<nat, Ref>, spare: set<nat>, i: nat,
                  k: nat, b: nat)
    requires FsOk(l, disk, inodes, owner, spare, {}) && i < |inodes| && k <= NDIRECT && inodes[i].addrs[k] == 0
    requires b in spare && disk[b] == Zeros()
    ensures FsOk(l, disk, WithSlot(inodes, i, k, b), owner[b := Slot(i, k)], spare - {b}, {})
  {
    var inodes', owner' := WithSlot(inodes, i, k, b), owner[b := Slot(i, k)];
    assert b !in owner;
    forall r
      ensures IsRef(disk, inodes', r) && Target(disk, inodes', r) != 0 ==> Target(disk, inodes', r) in owner'
      ensures IsRef(disk, inodes', r) && Target(disk, inodes', r) != 0 ==> owner'[Target(disk, inodes', r)] == r
    {
      SlotTargets(disk, inodes, i, k, b, r);
    }
    forall c | c in owner' ensures IsRef(disk, inodes', owner'[c]) && Target(disk, inodes', owner'[c]) == c {
      SlotTargets(disk, inodes, i, k, b, owner'[c]);
      if c != b { assert owner[c] != Slot(i, k); }
    }
  }

  lemma SlotBytes(disk: seq<Block>, inodes: seq<Inode>, i: nat, k: nat, b: nat)
    requires i < |inodes| && |inodes[i].addrs| == NDIRECT + 1 && k <= NDIRECT && inodes[i].addrs[k] == 0
    requires 0 < b < |disk| && disk[b] == Zeros()
    ensures AllSame(disk, inodes, disk, WithSlot(inodes, i, k, b))
  {
    var inodes' := WithSlot(inodes, i, k, b);
    forall h: nat, q: nat ensures Raw(disk, inodes', h, q) == Raw(disk, inodes, h, q) {
      SlotTargets(disk, inodes, i, k, b, RefOf(h, q / BSIZE));
    }
  }

  function WithEntry(disk: seq<Block>, ib: nat, j: nat, b: nat): (r: seq<Block>)
    requires ib < |disk| && j < NINDIRECT && b < WORD
    ensures |r| == |disk|
  {
    disk[ib := PutWord(disk[ib], j, b)]
  }

  /** What the references are once entry j of inode i names block b. */
  lemma EntryTargets(l: Layout, disk: seq<Block>, inodes: seq<Inode>, owner: map<nat, Ref>, spare: set<nat>, i: nat,
                     j: nat, b: nat, r: Ref)
    requires FsOk(l, disk, inodes, owner, spare, {}) && i < |inodes| && j < NINDIRECT && b < WORD
    requires inodes[i].addrs[NDIRECT] != 0
    ensures inodes[i].addrs[NDIRECT] < |disk|
    ensures var disk' := WithEntry(disk, inodes[i].addrs[NDIRECT], j, b);
            && IsRef(disk', inodes, r) == IsRef(disk, inodes, r)
            && (IsRef(disk, inodes, r) ==>
                 Target(disk', inodes, r) == if r == Entry(i, j) then b else Target(disk, inodes, r))
  {
    IndirectOwned(l, disk, inodes, owner, spare, i);
    if r.Entry? && IsRef(disk, inodes, r) {
      IndirectOwned(l, disk, inodes, owner, spare, r.i);
      PutWordAt(disk[inodes[i].addrs[NDIRECT]], j, b, r.j);
    }
  }

  lemma EntryKeeps(l: Layout, disk: seq<Block>, inodes: seq<Inode>, owner: map<nat, Ref>, spare: set<nat>, i: nat,
                   j: nat, b: nat)
    requires FsOk(l, disk, inodes, owner, spare, {}) && i < |inodes| && j < NINDIRECT && inodes[i].addrs[NDIRECT] != 0
    requires IsRef(disk, inodes, Entry(i, j)) && Target(disk, inodes, Entry(i, j)) == 0 && b in spare
    ensures FsOk(l, WithEntry(disk, inodes[i].addrs[NDIRECT], j, b), inodes, owner[b := Entry(i, j)], spare - {b}, {})
  {
    var disk', owner' := WithEntry(disk, inodes[i].addrs[NDIRECT], j, b), owner[b := Entry(i, j)];
    IndirectOwned(l, disk, inodes, owner, spare, i);
    assert b !in owner;
    forall c | 0 <= c < l.size ensures Marked(l, disk', c) == Marked(l, disk, c) { MarksSame(l, disk, disk', c); }
    forall r
      ensures IsRef(disk', inodes, r) && Target(disk', inodes, r) != 0 ==> Target(disk', inodes, r) in owner'
      ensures IsRef(disk', inodes, r) && Target(disk', inodes, r) != 0 ==> owner'[Target(disk', inodes, r)] == r
    {
      EntryTargets(l, disk, inodes, owner, spare, i, j, b, r);
    }
    forall c | c in owner' ensures IsRef(disk', inodes, owner'[c]) && Target(disk', inodes, owner'[c]) == c {
      EntryTargets(l, disk, inodes, owner, spare, i, j, b, owner'[c]);
      if c != b { assert owner[c] != Entry(i, j); }
    }
  }

  lemma EntryBytes(l: Layout, disk: seq<Block>, inodes: seq<Inode>, owner: map<nat, Ref>, spare: set<nat>, i: nat,
                   j: nat, b: nat)
    requires FsOk(l, disk, inodes, owner, spare, {}) && i < |inodes| && j < NINDIRECT && inodes[i].addrs[NDIRECT] != 0
    requires IsRef(disk, inodes, Entry(i, j)) && Target(disk, inodes, Entry(i, j)) == 0 && b in spare
    requires disk[b] == Zeros()
    ensures AllSame(disk, inodes, WithEntry(disk, inodes[i].addrs[NDIRECT], j, b), inodes)
  {
    var ib := inodes[i].addrs[NDIRECT];
    var disk' := WithEntry(disk, ib, j, b);
    IndirectOwned(l, disk, inodes, owner, spare, i);
    forall h: nat, q: nat ensures Raw(disk', inodes, h, q) == Raw(disk, inodes, h, q) {
      var n := q / BSIZE;
      EntryTargets(l, disk, inodes, owner, spare, i, j, b, RefOf(h, n));
      if BlockNo(disk, inodes, h, n) != 0 {
        FileBlock(l, disk, inodes, owner, spare, h, n);
        assert RefOf(h, n) != Slot(i, NDIRECT);
      }
    }
  }

  // ----- writing data -----

  lemma DataKeeps(l: Layout, disk: seq<Block>, inodes: seq<Inode>, owner: map<nat, Ref>, i: nat, n: nat, data: Block)
    requires FsOk(l, disk, inodes, owner, {}, {}) && i < |inodes| && n < MAXFILE && BlockNo(disk, inodes, i, n) != 0
    ensures var b := BlockNo(disk, inodes, i, n);
            && b < |disk| && FsOk(l, disk[b := data], inodes, owner, {}, {})
            && SameIndirects(disk, inodes, disk[b := data])
  {
    FileBlock(l, disk, inodes, owner, {}, i, n);
    var b := BlockNo(disk, inodes, i, n);
    var disk' := disk[b := data];
    forall h | 0 <= h < |inodes| && 0 < inodes[h].addrs[NDIRECT] < |disk|
      ensures disk'[inodes[h].addrs[NDIRECT]] == disk[inodes[h].addrs[NDIRECT]]
    {
      IndirectOwned(l, disk, inodes, owner, {}, h);
    }
    forall c | 0 <= c < l.size ensures Marked(l, disk', c) == Marked(l, disk, c) { MarksSame(l, disk, disk', c); }
    forall r
      ensures IsRef(disk', inodes, r) == IsRef(disk, inodes, r)
      ensures (IsRef(disk, inodes, r) ==> Target(disk', inodes, r) == Target(disk, inodes, r))
    {
      TargetsSame(disk, inodes, disk', r);
    }
  }

  /** Only block n of inode i changes, in no other file and nowhere else in this one. */
  lemma DataBytes(l: Layout, disk: seq<Block>, inodes: seq<Inode>, owner: map<nat, Ref>, i: nat, n: nat, data: Block,
                  h: nat, k: nat)
    requires FsOk(l, disk, inodes, owner, {}, {}) && i < |inodes| && n < MAXFILE && BlockNo(disk, inodes, i, n) != 0
    ensures var b := BlockNo(disk, inodes, i, n);
            && b < |disk|
            && Raw(disk[b := data], inodes, h, k) ==
               if h == i && k / BSIZE == n then data[k % BSIZE] else Raw(disk, inodes, h, k)
  {
    DataKeeps(l, disk, inodes, owner, i, n, data);
    var b := BlockNo(disk, inodes, i, n);
    FileBlock(l, disk, inodes, owner, {}, i, n);
    TargetsSame(disk, inodes, disk[b := data], RefOf(h, k / BSIZE));
    if BlockNo(disk, inodes, h, k / BSIZE) == b && k / BSIZE < MAXFILE {
      FileBlock(l, disk, inodes, owner, {}, h, k / BSIZE);
      assert RefOf(h, k / BSIZE) == RefOf(i, n);
    }
  }

  // ----- itrunc -----

  /** A reference about to be freed stops counting. */
  lemma KillKeeps(l: Layout, disk: seq<Block>, inodes: seq<Inode>, owner: map<nat, Ref>, spare: set<nat>,
                  dead: set<Ref>, r: Ref)
    requires FsOk(l, disk, inodes, owner, spare, dead) && IsRef(disk, inodes, r) && r !in dead
    requires Target(disk, inodes, r) != 0
    ensures var b := Target(disk, inodes, r);
            && b in owner && b !in spare && FsOk(l, disk, inodes, owner - {b}, spare + {b}, dead + {r})
  {
  }

  /** bfree of a block nobody refers to any more: it is marked, so there is no panic. */
  lemma FreedKeeps(l: Layout, disk: seq<Block>, inodes: seq<Inode>, owner: map<nat, Ref>, spare: set<nat>,
                   dead: set<Ref>, b: nat)
    requires FsOk(l, disk, inodes, owner, spare, dead) && b in spare
    requires forall i :: 0 <= i < |inodes| && inodes[i].addrs[NDIRECT] != 0 ==> inodes[i].addrs[NDIRECT] >= l.dataStart
    ensures Marked(l, disk, b) && FsOk(l, Flipped(l, disk, b), inodes, owner, spare - {b}, dead)
    ensures SameIndirects(disk, inodes, Flipped(l, disk, b))
  {
    MapIsMetadata(l, disk, b);
    var disk' := Flipped(l, disk, b);
    forall c | 0 <= c < l.size ensures Marked(l, disk', c) == (c != b && Marked(l, disk, c)) {
      FlippedMarks(l, disk, b, c);
    }
    forall r
      ensures IsRef(disk', inodes, r) == IsRef(disk, inodes, r)
      ensures (IsRef(disk, inodes, r) ==> Target(disk', inodes, r) == Target(disk, inodes, r))
    {
      TargetsSame(disk, inodes, disk', r);
    }
  }

  /** A slot whose reference no longer counts is cleared; with the indirect block's slot the entries
      go too, none of which may count any more. */
  lemma ClearKeeps(l: Layout, disk: seq<Block>, inodes: seq<Inode>, owner: map<nat, Ref>, spare: set<nat>,
                   dead: set<Ref>, i: nat, k: nat)
    requires FsOk(l, disk, inodes, owner, spare, dead) && i < |inodes| && k <= NDIRECT && Slot(i, k) in dead
    requires k == NDIRECT ==>
      forall j :: 0 <= j < NINDIRECT && IsRef(disk, inodes, Entry(i, j)) && Target(disk, inodes, Entry(i, j)) != 0 ==>
        Entry(i, j) in dead
    ensures FsOk(l, disk, WithSlot(inodes, i, k, 0), owner, spare, dead)
  {
    var inodes' := WithSlot(inodes, i, k, 0);
    forall r
      ensures IsRef(disk, inodes', r) ==> IsRef(disk, inodes, r)
      ensures IsRef(disk, inodes', r) ==>
        (Target(disk, inodes', r) != 0 ==> Target(disk, inodes', r) == Target(disk, inodes, r) && r != Slot(i, k))
    {
    }
    forall c | c in owner ensures IsRef(disk, inodes', owner[c]) && Target(disk, inodes', owner[c]) == c {
      assert k == NDIRECT ==> forall j :: owner[c] != Entry(i, j);
    }
  }

  /** Once the dead references name nothing they can be forgotten. */
  lemma ForgetKeeps(l: Layout, disk: seq<Block>, inodes: seq<Inode>, owner: map<nat, Ref>, spare: set<nat>,
                    dead: set<Ref>)
    requires FsOk(l, disk, inodes, owner, spare, dead)
    requires forall r :: r in dead && IsRef(disk, inodes, r) ==> Target(disk, inodes, r) == 0
    ensures FsOk(l, disk, inodes, owner, spare, {})
  {
  }

  // ----- files -----

  ghost function FileBytes(disk: seq<Block>, inodes: seq<Inode>, i: nat): (r: seq<Byte>)
    requires i < |inodes|
    ensures |r| == inodes[i].size
  {
    seq(inodes[i].size, k requires 0 <= k => Raw(disk, inodes, i, k))
  }

  /** Where the bytes of a file lie: byte k in block k / BSIZE of the file; blocks below NDIRECT are named by
      the inode, the others by the four bytes of their entry in its indirect block, lowest first; what
      has no block reads as zero. */
  lemma FileLayout(disk: seq<Block>, inodes: seq<Inode>, i: nat, k: nat)
    requires i < |inodes| && |inodes[i].addrs| == NDIRECT + 1 && k < inodes[i].size && k < MAXFILE * BSIZE
    requires forall n :: 0 <= n <= NDIRECT ==> inodes[i].addrs[n] < |disk|
    ensures var n, at, addrs := k / BSIZE, k % BSIZE, inodes[i].addrs;
            && (n < NDIRECT && addrs[n] != 0 ==> FileBytes(disk, inodes, i)[k] == disk[addrs[n]][at])
            && (n < NDIRECT && addrs[n] == 0 ==> FileBytes(disk, inodes, i)[k] == 0)
            && (n >= NDIRECT && addrs[NDIRECT] == 0 ==> FileBytes(disk, inodes, i)[k] == 0)
            && (n >= NDIRECT && addrs[NDIRECT] != 0 ==>
                 var a, j := disk[addrs[NDIRECT]], 4 * (n - NDIRECT);
                 var b0: int, b1: int, b2: int, b3: int := a[j], a[j + 1], a[j + 2], a[j + 3];
                 var b := b0 + 0x100 * (b1 + 0x100 * (b2 + 0x100 * b3));
                 FileBytes(disk, inodes, i)[k] == if 0 < b < |disk| then disk[b][at] else 0)
  {
    var n := k / BSIZE;
    assert n < MAXFILE;
    assert FileBytes(disk, inodes, i)[k] == Raw(disk, inodes, i, k);
    if n >= NDIRECT && inodes[i].addrs[NDIRECT] != 0 {
      assert BlockNo(disk, inodes, i, n) == WordAt(disk[inodes[i].addrs[NDIRECT]], n - NDIRECT);
    }
  }

  /** Every block below the size exists. */
  ghost predicate NoHoles(disk: seq<Block>, inodes: seq<Inode>, i: nat) {
    i < |inodes| && forall n: nat :: n * BSIZE < inodes[i].size ==> BlockNo(disk, inodes, i, n) != 0
  }

  // ----- the invariant, kept closed -----

  /** FsOk behind a quantifier that only OpenKept instantiates. */
  ghost predicate Kept(l: Layout, disk: seq<Block>, inodes: seq<Inode>, owner: map<nat, Ref>, spare: set<nat>,
                       dead: set<Ref>) {
    forall k {:trigger Key(k, (l, disk, inodes, owner, spare, dead))} ::
      Key(k, (l, disk, inodes, owner, spare, dead)) ==> FsOk(l, disk, inodes, owner, spare, dead)
  }

  lemma OpenKept(l: Layout, disk: seq<Block>, inodes: seq<Inode>, owner: map<nat, Ref>, spare: set<nat>, dead: set<Ref>)
    ensures Kept(l, disk, inodes, owner, spare, dead) <==> FsOk(l, disk, inodes, owner, spare, dead)
  {
    assert Key(0, (l, disk, inodes, owner, spare, dead));
  }

  lemma KeptShape(l: Layout, disk: seq<Block>, inodes: seq<Inode>, owner: map<nat, Ref>, spare: set<nat>,
                  dead: set<Ref>)
    requires Kept(l, disk, inodes, owner, spare, dead)
    ensures ShapeOk(l, disk, inodes)
  {
    OpenKept(l, disk, inodes, owner, spare, dead);
  }

  /** The change leaves every byte of every file, and every block a file already has. */
  ghost predicate Unseen(disk: seq<Block>, inodes: seq<Inode>, disk': seq<Block>, inodes': seq<Inode>) {
    forall k {:trigger Key(k, (disk, inodes, disk', inodes'))} :: Key(k, (disk, inodes, disk', inodes')) ==>
      && AllSame(disk, inodes, disk', inodes')
      && (forall i: nat, n: nat :: BlockNo(disk, inodes, i, n) != 0 ==>
           BlockNo(disk', inodes', i, n) == BlockNo(disk, inodes, i, n))
      && |inodes'| == |inodes| && forall i :: 0 <= i < |inodes| ==> inodes'[i].size == inodes[i].size
  }

  lemma OpenUnseen(disk: seq<Block>, inodes: seq<Inode>, disk': seq<Block>, inodes': seq<Inode>)
    ensures Unseen(disk, inodes, disk', inodes') <==>
      && AllSame(disk, inodes, disk', inodes')
      && (forall i: nat, n: nat :: BlockNo(disk, inodes, i, n) != 0 ==>
           BlockNo(disk', inodes', i, n) == BlockNo(disk, inodes, i, n))
      && |inodes'| == |inodes| && forall i :: 0 <= i < |inodes| ==> inodes'[i].size == inodes[i].size
  {
    assert Key(0, (disk, inodes, disk', inodes'));
  }

  lemma UnseenTwice(d0: seq<Block>, i0: seq<Inode>, d1: seq<Block>, i1: seq<Inode>, d2: seq<Block>, i2: seq<Inode>)
    requires Unseen(d0, i0, d1, i1) && Unseen(d1, i1, d2, i2)
    ensures Unseen(d0, i0, d2, i2)
  {
    OpenUnseen(d0, i0, d1, i1);
    OpenUnseen(d1, i1, d2, i2);
    OpenUnseen(d0, i0, d2, i2);
  }

  lemma UnseenSelf(disk: seq<Block>, inodes: seq<Inode>)
    ensures Unseen(disk, inodes, disk, inodes)
  {
    OpenUnseen(disk, inodes, disk, inodes);
  }

  lemma BallocStep(l: Layout, disk: seq<Block>, inodes: seq<Inode>, owner: map<nat, Ref>, b: nat)
    requires Kept(l, disk, inodes, owner, {}, {}) && b < l.size && !Marked(l, disk, b)
    ensures MapBlock(l, b) < |disk| && l.dataStart <= b < |disk| && b !in owner && b > 0
    ensures Kept(l, Allocated(l, disk, b), inodes, owner, {b}, {})
    ensures Unseen(disk, inodes, Allocated(l, disk, b), inodes) && SameIndirects(disk, inodes, Allocated(l, disk, b))
  {
    OpenKept(l, disk, inodes, owner, {}, {});
    AllocatedIndirects(l, disk, inodes, owner, {}, b);
    AllocatedKeeps(l, disk, inodes, owner, {}, b);
    AllocatedBytes(l, disk, inodes, owner, {}, b);
    assert {} + {b} == {b};
    OpenKept(l, Allocated(l, disk, b), inodes, owner, {b}, {});
    SameBlocks(disk, inodes, Allocated(l, disk, b));
    OpenUnseen(disk, inodes, Allocated(l, disk, b), inodes);
  }

  lemma SameBlocks(disk: seq<Block>, inodes: seq<Inode>, disk': seq<Block>)
    requires SameIndirects(disk, inodes, disk')
    ensures forall i: nat, n: nat :: BlockNo(disk', inodes, i, n) == BlockNo(disk, inodes, i, n)
  {
    forall i: nat, n: nat ensures BlockNo(disk', inodes, i, n) == BlockNo(disk, inodes, i, n) {
      TargetsSame(disk, inodes, disk', RefOf(i, n));
    }
  }

  lemma SlotStep(l: Layout, disk: seq<Block>, inodes: seq<Inode>, owner: map<nat, Ref>, i: nat, k: nat, b: nat)
    requires Kept(l, disk, inodes, owner, {b}, {}) && i < |inodes| && k <= NDIRECT && 0 < b < |disk|
    requires disk[b] == Zeros()
    requires |inodes[i].addrs| == NDIRECT + 1 && inodes[i].addrs[k] == 0
    ensures Kept(l, disk, WithSlot(inodes, i, k, b), owner[b := Slot(i, k)], {}, {})
    ensures Unseen(disk, inodes, disk, WithSlot(inodes, i, k, b))
  {
    OpenKept(l, disk, inodes, owner, {b}, {});
    SlotKeeps(l, disk, inodes, owner, {b}, i, k, b);
    SlotBytes(disk, inodes, i, k, b);
    assert {b} - {b} == {};
    OpenKept(l, disk, WithSlot(inodes, i, k, b), owner[b := Slot(i, k)], {}, {});
    forall h: nat, n: nat | BlockNo(disk, inodes, h, n) != 0
      ensures BlockNo(disk, WithSlot(inodes, i, k, b), h, n) == BlockNo(disk, inodes, h, n)
    {
      SlotTargets(disk, inodes, i, k, b, RefOf(h, n));
    }
    OpenUnseen(disk, inodes, disk, WithSlot(inodes, i, k, b));
  }

  lemma EntryStep(l: Layout, disk: seq<Block>, inodes: seq<Inode>, owner: map<nat, Ref>, i: nat, j: nat, b: nat)
    requires Kept(l, disk, inodes, owner, {b}, {}) && i < |inodes| && j < NINDIRECT && 0 < b < |disk| && b < WORD
    requires disk[b] == Zeros()
    requires IsRef(disk, inodes, Entry(i, j)) && Target(disk, inodes, Entry(i, j)) == 0
    ensures var disk' := WithEntry(disk, inodes[i].addrs[NDIRECT], j, b);
            && Kept(l, disk', inodes, owner[b := Entry(i, j)], {}, {}) && Unseen(disk, inodes, disk', inodes)
  {
    OpenKept(l, disk, inodes, owner, {b}, {});
    EntryKeeps(l, disk, inodes, owner, {b}, i, j, b);
    EntryBytes(l, disk, inodes, owner, {b}, i, j, b);
    assert {b} - {b} == {};
    var disk' := WithEntry(disk, inodes[i].addrs[NDIRECT], j, b);
    OpenKept(l, disk', inodes, owner[b := Entry(i, j)], {}, {});
    forall h: nat, n: nat | BlockNo(disk, inodes, h, n) != 0
      ensures BlockNo(disk', inodes, h, n) == BlockNo(disk, inodes, h, n)
    {
      EntryTargets(l, disk, inodes, owner, {b}, i, j, b, RefOf(h, n));
    }
    OpenUnseen(disk, inodes, disk', inodes);
  }
}
