/** Blocks, the free map and inode block maps (fs.h, fs.c:57-115, fs.c:419-482), for one device. */
module FsSpec {
  import opened Basics

  const BSIZE := 512
  const NDIRECT := 12
  const NINDIRECT := 128
  const MAXFILE := NDIRECT + NINDIRECT
  const BPB := BSIZE * 8
  const WORD := 0x1_0000_0000

  type Block = b: seq<Byte> | |b| == BSIZE witness seq(BSIZE, _ => 0)

  function Zeros(): (r: Block)
    ensures forall k :: 0 <= k < BSIZE ==> r[k] == 0
  {
    seq(BSIZE, _ => 0)
  }

  /** struct inode: its size and block numbers, the last one that of the indirect block. */
  datatype Inode = Inode(size: nat, addrs: seq<nat>)

  /** From the superblock: where the free map starts, and where the data blocks do. */
  datatype Layout = Layout(size: nat, bmapStart: nat, dataStart: nat) {
    ghost predicate Ok() {
      0 < size < WORD && 0 < bmapStart && bmapStart + (size - 1) / BPB < dataStart <= size
    }
  }

  // ----- bits of the free map -----

  function Mask(k: nat): (r: nat) { if k == 0 then 1 else 2 * Mask(k - 1) }

  /** Bit k of x. */
  predicate TestBit(x: nat, k: nat)
    decreases k
  {
    if k == 0 then x % 2 == 1 else TestBit(x / 2, k - 1)
  }

  /** x |= m where the bit is clear, x &= ~m where it is set. */
  function FlipBit(x: nat, k: nat): (r: nat)
    ensures r == if TestBit(x, k) then x - Mask(k) else x + Mask(k)
    decreases k
  {
    if k == 0 then (if x % 2 == 1 then x - 1 else x + 1) else 2 * FlipBit(x / 2, k - 1) + x % 2
  }

  lemma {:induction false} FlipOne(x: nat, k: nat, j: nat)
    ensures TestBit(FlipBit(x, k), j) == if j == k then !TestBit(x, k) else TestBit(x, j)
    decreases k
  {
    if k > 0 && j > 0 { FlipOne(x / 2, k - 1, j - 1); }
  }

  lemma {:induction false} FlipBound(x: nat, k: nat, n: nat)
    requires x < Mask(n) && k < n
    ensures FlipBit(x, k) < Mask(n)
    decreases n
  {
    if k > 0 { FlipBound(x / 2, k - 1, n - 1); }
  }

  function FlipByte(x: Byte, k: nat): Byte
    requires k < 8
  {
    assert Mask(8) == 256 by { assert Mask(4) == 16; }
    FlipBound(x, k, 8);
    FlipBit(x, k)
  }

  function MapBlock(l: Layout, b: nat): nat { b / BPB + l.bmapStart }

  /** Block b is marked in use. */
  ghost predicate Marked(l: Layout, disk: seq<Block>, b: nat) {
    MapBlock(l, b) < |disk| && TestBit(disk[MapBlock(l, b)][b % BPB / 8], b % 8)
  }

  function Flipped(l: Layout, disk: seq<Block>, b: nat): seq<Block>
    requires MapBlock(l, b) < |disk|
  {
    var m, i := MapBlock(l, b), b % BPB / 8;
    disk[m := disk[m][i := FlipByte(disk[m][i], b % 8)]]
  }

  lemma FlippedMarks(l: Layout, disk: seq<Block>, b: nat, c: nat)
    requires MapBlock(l, b) < |disk|
    ensures Marked(l, Flipped(l, disk, b), c) == if c == b then !Marked(l, disk, b) else Marked(l, disk, c)
  {
    var x := disk[MapBlock(l, b)][b % BPB / 8];
    FlipOne(x, b % 8, b % 8);
    if c != b && MapBlock(l, c) == MapBlock(l, b) && c % BPB / 8 == b % BPB / 8 {
      PlacesDiffer(b, c);
      FlipOne(x, b % 8, c % 8);
    }
  }

  lemma LowBits(b: nat)
    ensures b % BPB % 8 == b % 8
  {
    var q, r := b / BPB, b % BPB;
    assert b == 8 * (512 * q) + r;
  }

  lemma PlacesDiffer(b: nat, c: nat)
    requires b != c && b / BPB == c / BPB && b % BPB / 8 == c % BPB / 8
    ensures b % 8 != c % 8
  {
    LowBits(b);
    LowBits(c);
  }

  // ----- words of an indirect block -----

  function WordAt(b: Block, j: nat): (r: nat)
    requires j < NINDIRECT
    ensures r < WORD
  {
    var b0: int, b1: int, b2: int, b3: int := b[4 * j], b[4 * j + 1], b[4 * j + 2], b[4 * j + 3];
    b0 + 0x100 * b1 + 0x1_0000 * b2 + 0x100_0000 * b3
  }

  function PutWord(b: Block, j: nat, v: nat): Block
    requires j < NINDIRECT && v < WORD
  {
    b[4 * j := v % 0x100]
      [4 * j + 1 := v / 0x100 % 0x100]
      [4 * j + 2 := v / 0x1_0000 % 0x100]
      [4 * j + 3 := v / 0x100_0000]
  }

  lemma PutWordAt(b: Block, j: nat, v: nat, i: nat)
    requires j < NINDIRECT && v < WORD && i < NINDIRECT
    ensures WordAt(PutWord(b, j, v), i) == if i == j then v else WordAt(b, i)
  {
    if i == j { BytesOfWord(v); }
  }

  lemma BytesOfWord(v: nat)
    requires v < WORD
    ensures v % 0x100 + 0x100 * (v / 0x100 % 0x100) + 0x1_0000 * (v / 0x1_0000 % 0x100)
      + 0x100_0000 * (v / 0x100_0000) == v
  {
  }

  lemma ZerosHold(j: nat)
    requires j < NINDIRECT
    ensures WordAt(Zeros(), j) == 0
  {
  }

  // ----- who refers to a block -----

  /** A place that names a block: an inode's slot, or an entry of its indirect block. */
  datatype Ref = Slot(i: nat, k: nat) | Entry(i: nat, j: nat)

  ghost predicate IsRef(disk: seq<Block>, inodes: seq<Inode>, r: Ref) {
    match r
    case Slot(i, k) => i < |inodes| && k < |inodes[i].addrs|
    case Entry(i, j) =>
      i < |inodes| && j < NINDIRECT && |inodes[i].addrs| == NDIRECT + 1
      && 0 < inodes[i].addrs[NDIRECT] < |disk|
  }

  ghost function Target(disk: seq<Block>, inodes: seq<Inode>, r: Ref): nat
    requires IsRef(disk, inodes, r)
  {
    match r
    case Slot(i, k) => inodes[i].addrs[k]
    case Entry(i, j) => WordAt(disk[inodes[i].addrs[NDIRECT]], j)
  }

  ghost predicate ShapeOk(l: Layout, disk: seq<Block>, inodes: seq<Inode>) {
    l.Ok() && |disk| == l.size && forall i :: 0 <= i < |inodes| ==>
      |inodes[i].addrs| == NDIRECT + 1 && inodes[i].size <= MAXFILE * BSIZE
  }

  /** Every data block has at most one reference, `owner`, and is marked exactly when it has one or
      is `spare`: taken from the map but not yet referred to, or no longer.  References in `dead`
      do not count any more. */
  ghost predicate OwnersOk(l: Layout, disk: seq<Block>, inodes: seq<Inode>, owner: map<nat, Ref>, spare: set<nat>,
                           dead: set<Ref>) {
    && (forall b :: l.dataStart <= b < l.size ==> (Marked(l, disk, b) <==> b in owner || b in spare))
    && (forall b :: 0 <= b < l.dataStart ==> Marked(l, disk, b))
    && (forall b :: b in owner ==>
         l.dataStart <= b < l.size && b !in spare && owner[b] !in dead
         && IsRef(disk, inodes, owner[b]) && Target(disk, inodes, owner[b]) == b)
    && (forall b :: b in spare ==> l.dataStart <= b < l.size)
    && (forall r :: IsRef(disk, inodes, r) && r !in dead && Target(disk, inodes, r) != 0 ==>
         Target(disk, inodes, r) in owner && owner[Target(disk, inodes, r)] == r)
  }
}
