/** Block allocation and inode contents (fs.c:57-115, fs.c:419-558), for one device and with every
    block in its current, logged state. */
module FileSystem {
  import opened Basics
  import opened FsSpec
  import opened FsSteps
  import opened FsSpace

  function Min(a: int, b: int): int { if a < b then a else b }

  class FileSystem {
    const l: Layout
    var disk: seq<Block>
    var inodes: seq<Inode>
    ghost var owner: map<nat, Ref>

    ghost predicate Holds(spare: set<nat>, dead: set<Ref>)
      reads this
    {
      Kept(l, disk, inodes, owner, spare, dead)
    }

    /** Every data block is marked exactly when one reference names it. */
    ghost predicate Valid()
      reads this
    {
      Holds({}, {})
    }

    /** A disk whose free map marks exactly the metadata, with n empty inodes. */
    constructor (l: Layout, disk: seq<Block>, n: nat)
      requires l.Ok() && |disk| == l.size && forall b :: 0 <= b < l.size ==> (Marked(l, disk, b) <==> b < l.dataStart)
      ensures Valid() && this.l == l && this.disk == disk && |inodes| == n
      ensures forall i :: 0 <= i < n ==> inodes[i].size == 0 && NoHoles(disk, inodes, i)
    {
      this.l, this.disk := l, disk;
      inodes := seq(n, _ => Inode(0, seq(NDIRECT + 1, _ => 0)));
      owner := map[];
      new;
      OpenKept(l, disk, inodes, owner, {}, {});
    }

    /** balloc's search: the lowest block that is not marked. */
    method FirstFree() returns (found: bool, r: nat)
      requires l.Ok() && |disk| == l.size
      ensures found ==> r < l.size && !Marked(l, disk, r) && forall c :: 0 <= c < r ==> Marked(l, disk, c)
      ensures !found ==> forall c :: 0 <= c < l.size ==> Marked(l, disk, c)
    {
      var b := 0;
      while b < l.size
        invariant b % BPB == 0 && forall c :: 0 <= c < b && c < l.size ==> Marked(l, disk, c)
      {
        found, r := FirstFreeFrom(b);
        if found { return; }
        b := b + BPB;
      }
      found, r := false, 0;
    }

    /** One block of the free map, for the blocks from b. */
    method FirstFreeFrom(b: nat) returns (found: bool, r: nat)
      requires l.Ok() && |disk| == l.size && b % BPB == 0 && b < l.size
      ensures found ==> b <= r < l.size && !Marked(l, disk, r) && forall c :: b <= c < r ==> Marked(l, disk, c)
      ensures !found ==> forall c :: b <= c < b + BPB && c < l.size ==> Marked(l, disk, c)
    {
      MapIsMetadata(l, disk, b);
      var bp := disk[MapBlock(l, b)];
      var bi := 0;
      while bi < BPB && b + bi < l.size
        invariant 0 <= bi <= BPB
        invariant forall c :: b <= c < b + bi && c < l.size ==> Marked(l, disk, c)
      {
        BitPlace(b, bi);
        if !TestBit(bp[bi / 8], bi % 8) {
          return true, b + bi;
        }
        bi := bi + 1;
      }
      found, r := false, 0;
    }

    /** balloc; None stands for its panic. */
    method Balloc() returns (r: Option<nat>)
      requires Valid()
      modifies this`disk
      ensures r.None? <==> FullDisk(l, old(disk))
      ensures r.None? <==> Space(l, old(disk)) == 0
      ensures r.None? ==> disk == old(disk)
      ensures r.Some? ==> Space(l, disk) + 1 == Space(l, old(disk))
      ensures r.Some? ==> !Marked(l, old(disk), r.value) && forall c :: 0 <= c < r.value ==> Marked(l, old(disk), c)
      ensures r.Some? ==>
        && MapBlock(l, r.value) < |old(disk)| && 0 < r.value < |old(disk)| && r.value !in owner
        && disk == Allocated(l, old(disk), r.value) && Holds({r.value}, {})
        && Unseen(old(disk), inodes, disk, inodes) && SameIndirects(old(disk), inodes, disk)
    {
      KeptShape(l, disk, inodes, owner, {}, {});
      NoSpace(l, disk);
      var found, b := FirstFree();
      if !found { return None; }
      AllocatedSpace(l, disk, inodes, owner, b);
      BallocStep(l, disk, inodes, owner, b);
      disk := Flipped(l, disk, b);
      disk := disk[b := Zeros()];
      r := Some(b);
    }

    /** Slot k of the inode, filled if it was empty. */
    method SlotBlock(i: nat, k: nat) returns (r: Option<nat>)
      requires Valid() && i < |inodes| && k <= NDIRECT && |inodes[i].addrs| == NDIRECT + 1
      modifies this`disk, this`inodes, this`owner
      ensures Valid() && Unseen(old(disk), old(inodes), disk, inodes) && |inodes| == |old(inodes)|
      ensures r.Some? ==> 0 < r.value < |disk| && |inodes[i].addrs| == NDIRECT + 1 && inodes[i].addrs[k] == r.value
      ensures old(inodes[i].addrs[k]) != 0 ==> r.Some? && disk == old(disk) && inodes == old(inodes)
      ensures old(inodes[i].addrs[k]) != 0 ==> owner == old(owner)
      ensures old(inodes[i].addrs[k]) == 0 ==> (r.Some? <==> Space(l, old(disk)) > 0)
      ensures old(inodes[i].addrs[k]) == 0 && r.Some? ==> Fills(l, old(disk), old(inodes), disk, inodes, Slot(i, k))
      ensures r.None? ==> FullDisk(l, disk)
    {
      UnseenSelf(disk, inodes);
      var addr := inodes[i].addrs[k];
      if addr == 0 {
        var b := Balloc();
        if b.None? { return None; }
        addr := b.value;
        SlotStep(l, disk, inodes, owner, i, k, addr);
        SlotFills(l, old(disk), disk, inodes, i, k, addr);
        UnseenTwice(old(disk), inodes, disk, inodes, disk, WithSlot(inodes, i, k, addr));
        inodes := WithSlot(inodes, i, k, addr);
        owner := owner[addr := Slot(i, k)];
      } else {
        SlotInRange(l, disk, inodes, owner, i, k);
      }
      r := Some(addr);
    }

    /** Entry j of the inode's indirect block, filled if it was empty. */
    method EntryBlock(i: nat, j: nat) returns (r: Option<nat>)
      requires Valid() && IsRef(disk, inodes, Entry(i, j))
      modifies this`disk, this`owner
      ensures Valid() && Unseen(old(disk), inodes, disk, inodes)
      ensures r.Some? ==> 0 < r.value < |disk| && IsRef(disk, inodes, Entry(i, j))
      ensures r.Some? ==> Target(disk, inodes, Entry(i, j)) == r.value
      ensures old(Target(disk, inodes, Entry(i, j))) != 0 ==> r.Some? && disk == old(disk) && owner == old(owner)
      ensures old(Target(disk, inodes, Entry(i, j))) == 0 ==> (r.Some? <==> Space(l, old(disk)) > 0)
      ensures old(Target(disk, inodes, Entry(i, j))) == 0 && r.Some? ==>
        Fills(l, old(disk), inodes, disk, inodes, Entry(i, j))
      ensures r.None? ==> FullDisk(l, disk)
    {
      UnseenSelf(disk, inodes);
      var ib := inodes[i].addrs[NDIRECT];
      var addr := WordAt(disk[ib], j);
      if addr == 0 {
        var b := Balloc();
        if b.None? { return None; }
        addr := b.value;
        KeptShape(l, disk, inodes, owner, {addr}, {});
        TargetsSame(old(disk), inodes, disk, Entry(i, j));
        EntryStep(l, disk, inodes, owner, i, j, addr);
        EntryFills(l, old(disk), disk, inodes, owner, i, j, addr);
        UnseenTwice(old(disk), inodes, disk, inodes, WithEntry(disk, ib, j, addr), inodes);
        PutWordAt(disk[ib], j, addr, j);
        disk := WithEntry(disk, ib, j, addr);
        owner := owner[addr := Entry(i, j)];
      } else {
        EntryInRange(l, disk, inodes, owner, i, j);
      }
      r := Some(addr);
    }

    /** bmap; None stands for balloc's panic. */
    method Bmap(i: nat, bn: nat) returns (r: Option<nat>)
      requires Valid() && i < |inodes| && bn < MAXFILE
      modifies this`disk, this`inodes, this`owner
      ensures Valid() && Unseen(old(disk), old(inodes), disk, inodes)
      ensures r.Some? ==> 0 < r.value < |disk| && BlockNo(disk, inodes, i, bn) == r.value
      ensures old(BlockNo(disk, inodes, i, bn)) != 0 ==> r.Some? && disk == old(disk) && inodes == old(inodes)
      ensures old(BlockNo(disk, inodes, i, bn)) != 0 ==> owner == old(owner)
      ensures r.None? ==> FullDisk(l, disk)
      ensures r.Some? <==> Space(l, old(disk)) >= NeedBlock(old(disk), old(inodes), i, bn)
      ensures r.Some? ==> Costs(l, old(disk), old(inodes), disk, inodes, i, bn)
    {
      KeptShape(l, disk, inodes, owner, {}, {});
      if BlockNo(disk, inodes, i, bn) != 0 { CostsNothing(l, disk, inodes, i, bn); }
      if bn < NDIRECT {
        r := SlotBlock(i, bn);
        if r.Some? && old(BlockNo(disk, inodes, i, bn)) == 0 {
          CostsOne(l, old(disk), old(inodes), disk, inodes, i, bn);
        }
      } else {
        r := IndirectBlock(i, bn);
      }
    }

    /** bmap for a block behind the indirect block. */
    method IndirectBlock(i: nat, bn: nat) returns (r: Option<nat>)
      requires Valid() && i < |inodes| && NDIRECT <= bn < MAXFILE && |inodes[i].addrs| == NDIRECT + 1
      modifies this`disk, this`inodes, this`owner
      ensures Valid() && Unseen(old(disk), old(inodes), disk, inodes)
      ensures r.Some? ==> 0 < r.value < |disk| && BlockNo(disk, inodes, i, bn) == r.value
      ensures old(BlockNo(disk, inodes, i, bn)) != 0 ==> r.Some? && disk == old(disk) && inodes == old(inodes)
      ensures old(BlockNo(disk, inodes, i, bn)) != 0 ==> owner == old(owner)
      ensures r.None? ==> FullDisk(l, disk)
      ensures r.Some? <==> Space(l, old(disk)) >= NeedBlock(old(disk), old(inodes), i, bn)
      ensures r.Some? ==> Costs(l, old(disk), old(inodes), disk, inodes, i, bn)
    {
      if BlockNo(disk, inodes, i, bn) != 0 { CostsNothing(l, disk, inodes, i, bn); }
      var had := inodes[i].addrs[NDIRECT] != 0;
      if had { SlotInRange(l, disk, inodes, owner, i, NDIRECT); }
      var ib := SlotBlock(i, NDIRECT);
      if ib.None? { return None; }
      ghost var d, s := disk, inodes;
      if !had { FreshIndirect(l, old(disk), old(inodes), d, s, i, bn); }
      r := EntryBlock(i, bn - NDIRECT);
      UnseenTwice(old(disk), old(inodes), d, s, disk, inodes);
      if r.Some? {
        if !had {
          CostsTwo(l, old(disk), old(inodes), d, s, disk, inodes, i, bn);
        } else if old(BlockNo(disk, inodes, i, bn)) == 0 {
          CostsOne(l, old(disk), old(inodes), disk, inodes, i, bn);
        }
      }
    }

    /** One round of readi's loop. */
    method ReadBlock(i: nat, off: nat, bytes: seq<Byte>, n: nat) returns (ok: bool, part: seq<Byte>)
      requires Valid() && i < |inodes| && |bytes| < n && off + n <= MAXFILE * BSIZE
      requires Reads(disk, inodes, i, off, bytes)
      modifies this`disk, this`inodes, this`owner
      ensures Valid() && Unseen(old(disk), old(inodes), disk, inodes)
      ensures ok ==> 0 < |part| <= n - |bytes| && Reads(disk, inodes, i, off, bytes + part)
      ensures old(BlockNo(disk, inodes, i, (off + |bytes|) / BSIZE)) != 0 ==> ok && disk == old(disk)
      ensures old(BlockNo(disk, inodes, i, (off + |bytes|) / BSIZE)) != 0 ==> inodes == old(inodes)
      ensures old(BlockNo(disk, inodes, i, (off + |bytes|) / BSIZE)) != 0 ==> owner == old(owner)
    {
      var at := off + |bytes|;
      var b := Bmap(i, at / BSIZE);
      if b.None? { return false, []; }
      ReadsUnseen(old(disk), old(inodes), disk, inodes, i, off, bytes);
      var m := Min(n - |bytes|, BSIZE - at % BSIZE);
      ReadsMore(disk, inodes, i, off, bytes, m);
      return true, disk[b.value][at % BSIZE..at % BSIZE + m];
    }

    /** readi of a regular file; Panic stands for balloc's. */
    method Readi(i: nat, off: nat, n: nat) returns (r: Result)
      requires Valid() && i < |inodes| && off < WORD && n < WORD
      modifies this`disk, this`inodes, this`owner
      ensures Valid() && Unseen(old(disk), old(inodes), disk, inodes)
      ensures r.Error? <==> off > old(inodes[i].size) || off + n >= WORD
      ensures r.Ok? ==>
        var m := Min(n, old(inodes[i].size) - off);
          |r.bytes| == m && r.bytes == old(FileBytes(disk, inodes, i))[off..off + m]
      ensures old(NoHoles(disk, inodes, i)) ==> !r.Panic? && disk == old(disk) && inodes == old(inodes)
      ensures old(NoHoles(disk, inodes, i)) ==> owner == old(owner)
    {
      UnseenSelf(disk, inodes);
      SizeLimit(l, disk, inodes, owner, i);
      if off > inodes[i].size || off + n >= WORD { return Error; }
      var todo := Min(n, inodes[i].size - off);
      var dst: seq<Byte> := [];
      while |dst| < todo
        invariant |dst| <= todo && Valid() && Unseen(old(disk), old(inodes), disk, inodes) && |inodes| == |old(inodes)|
        invariant Reads(disk, inodes, i, off, dst)
        invariant old(NoHoles(disk, inodes, i)) ==> disk == old(disk) && inodes == old(inodes) && owner == old(owner)
        decreases todo - |dst|
      {
        ghost var d, s := disk, inodes;
        if old(NoHoles(disk, inodes, i)) { BlockBelow(disk, inodes, i, off + |dst|); }
        var ok, part := ReadBlock(i, off, dst, todo);
        UnseenTwice(old(disk), old(inodes), d, s, disk, inodes);
        UnseenSizes(d, s, disk, inodes);
        if !ok { return Panic; }
        dst := dst + part;
      }
      ReadsUnseen(old(disk), old(inodes), disk, inodes, i, off, dst);
      ReadsIsSlice(old(disk), old(inodes), i, off, dst);
      r := Ok(dst);
    }

    /** One round of writei's loop: what fits into one block. */
    method WriteBlock(i: nat, off: nat, src: seq<Byte>, tot: nat, ghost d0: seq<Block>, ghost s0: seq<Inode>,
                      ghost hi: nat)
      returns (ok: bool, now: nat)
      requires Valid() && i < |inodes| && tot < |src| && off + |src| <= MAXFILE * BSIZE
      requires Patched(d0, s0, disk, inodes, i, off, src, tot)
      requires hi > (off + tot) / BSIZE
      modifies this`disk, this`inodes, this`owner
      ensures ok ==> Valid() && tot < now <= |src| && Patched(d0, s0, disk, inodes, i, off, src, now)
      ensures ok ==> now == tot + Min(|src| - tot, BSIZE - (off + tot) % BSIZE)
      ensures ok <==> Space(l, old(disk)) >= NeedBlock(old(disk), old(inodes), i, (off + tot) / BSIZE)
      ensures ok ==> Charged(l, old(disk), old(inodes), disk, inodes, i, (off + tot) / BSIZE, hi)
    {
      var at := off + tot;
      var b := Bmap(i, at / BSIZE);
      if b.None? { return false, 0; }
      PatchedUnseen(d0, s0, old(disk), old(inodes), disk, inodes, i, off, src, tot);
      PatchedShape(d0, s0, disk, inodes, i, off, src, tot);
      PatchedShape(d0, s0, old(disk), old(inodes), i, off, src, tot);
      var m := Min(|src| - tot, BSIZE - at % BSIZE);
      now := tot + m;
      var was, o := disk[b.value], at % BSIZE;
      var data: Block := was[..o] + src[tot..tot + m] + was[o + m..];
      DataStep(l, disk, inodes, owner, i, at / BSIZE, data);
      PatchedMore(l, d0, s0, disk, inodes, owner, i, off, src, tot, m, data);
      DataCharged(l, old(disk), old(inodes), disk, inodes, owner, i, at / BSIZE, hi, data);
      disk := disk[b.value := data];
      ok := true;
    }

    /** writei to a regular file; Panic stands for balloc's, and Ok holds nothing. */
    method Writei(i: nat, off: nat, src: seq<Byte>) returns (r: Result)
      requires Valid() && i < |inodes| && off < WORD && |src| < WORD
      modifies this`disk, this`inodes, this`owner
      ensures r.Error? <==> off > old(inodes[i].size) || off + |src| >= WORD || off + |src| > MAXFILE * BSIZE
      ensures r.Error? ==> disk == old(disk) && inodes == old(inodes) && owner == old(owner)
      ensures r.Panic? <==> !r.Error? && Space(l, old(disk)) < NeedWrite(old(disk), old(inodes), i, off, |src|)
      ensures r.Ok? ==> Valid() && Written(old(disk), old(inodes), disk, inodes, i, off, src)
    {
      if off > inodes[i].size || off + |src| >= WORD { return Error; }
      if off + |src| > MAXFILE * BSIZE { return Error; }
      var ok := WriteAll(i, off, src);
      if !ok { return Panic; }
      PatchedShape(old(disk), old(inodes), disk, inodes, i, off, src, |src|);
      GrowSize(l, disk, inodes, owner, i, off + |src|);
      PatchedWritten(old(disk), old(inodes), disk, inodes, i, off, src);
      if |src| > 0 && off + |src| > inodes[i].size {
        inodes := inodes[i := inodes[i].(size := off + |src|)];
      }
      r := Ok([]);
    }

    /** writei's loop. */
    method WriteAll(i: nat, off: nat, src: seq<Byte>) returns (ok: bool)
      requires Valid() && i < |inodes| && off + |src| <= MAXFILE * BSIZE
      modifies this`disk, this`inodes, this`owner
      ensures ok ==> Valid() && |inodes| == |old(inodes)|
      ensures ok ==> Patched(old(disk), old(inodes), disk, inodes, i, off, src, |src|)
      ensures ok <==> Space(l, old(disk)) >= NeedWrite(old(disk), old(inodes), i, off, |src|)
    {
      var tot := 0;
      PatchedNothing(disk, inodes, i, off, src);
      ghost var hi := EndBlock(off, |src|);
      while tot < |src|
        invariant tot <= |src| && Valid() && i < |inodes|
        invariant Patched(old(disk), old(inodes), disk, inodes, i, off, src, tot)
        invariant Balance(l, old(disk), old(inodes), i, off / BSIZE, hi)
          == Balance(l, disk, inodes, i, NextBlock(off, tot, |src|), hi)
      {
        NextBlocks(off, tot, |src|);
        ghost var d, s := disk, inodes;
        var done, now := WriteBlock(i, off, src, tot, old(disk), old(inodes), hi);
        if !done {
          TooLittle(d, s, i, (off + tot) / BSIZE, hi);
          return false;
        }
        tot := now;
        PatchedShape(old(disk), old(inodes), disk, inodes, i, off, src, tot);
      }
      PatchedShape(old(disk), old(inodes), disk, inodes, i, off, src, tot);
      ok := true;
    }

    /** bfree of the block r names; true stands for the panic "freeing free block". */
    method Bfree(b: nat, ghost r: Ref, ghost dead: set<Ref>) returns (panicked: bool)
      requires Holds({}, dead) && IsRef(disk, inodes, r) && r !in dead && Target(disk, inodes, r) == b != 0
      requires IndirectsHigh(l, inodes)
      modifies this`disk, this`owner
      ensures !panicked && Holds({}, dead + {r}) && owner == old(owner) - {b} && b in old(owner) && old(owner)[b] == r
      ensures DataSame(l, old(disk), disk)
    {
      FreeStep(l, disk, inodes, owner, dead, r);
      panicked := ClearBit(b);
      owner := owner - {b};
    }

    /** The test and the update of bfree. */
    method ClearBit(b: nat) returns (panicked: bool)
      requires MapBlock(l, b) < |disk|
      modifies this`disk
      ensures panicked <==> !old(Marked(l, disk, b))
      ensures disk == if panicked then old(disk) else Flipped(l, old(disk), b)
    {
      var bi := b % BPB;
      BitPlace(b / BPB * BPB, bi);
      var bp := disk[MapBlock(l, b)];
      if !TestBit(bp[bi / 8], bi % 8) { return true; }
      disk := disk[MapBlock(l, b) := bp[bi / 8 := FlipByte(bp[bi / 8], bi % 8)]];
      panicked := false;
    }

    /** One direct slot of itrunc. */
    method TruncSlot(ino: nat, k: nat) returns (panicked: bool)
      requires Valid() && ino < |inodes| && k < NDIRECT && ShapeOk(l, disk, inodes)
      modifies this`disk, this`inodes, this`owner
      ensures !panicked && Valid() && DataSame(l, old(disk), disk) && Lost(old(owner), owner, ino)
      ensures inodes == WithSlot(old(inodes), ino, k, 0)
    {
      panicked := false;
      if inodes[ino].addrs[k] != 0 {
        KeptHigh(l, disk, inodes, owner);
        panicked := Bfree(inodes[ino].addrs[k], Slot(ino, k), {});
        assert {} + {Slot(ino, k)} == {Slot(ino, k)};
        ClearStep(l, disk, inodes, owner, {Slot(ino, k)}, ino, k);
        inodes := WithSlot(inodes, ino, k, 0);
      } else {
        assert inodes[ino].addrs[k := 0] == inodes[ino].addrs;
      }
    }

    /** One entry of the indirect block. */
    method TruncEntry(ino: nat, j: nat) returns (panicked: bool)
      requires Holds({}, DeadBelow(ino, j)) && IsRef(disk, inodes, Entry(ino, j)) && IndirectsHigh(l, inodes)
      modifies this`disk, this`owner
      ensures !panicked && Holds({}, DeadBelow(ino, j + 1)) && DataSame(l, old(disk), disk)
      ensures Lost(old(owner), owner, ino)
    {
      panicked := false;
      assert DeadBelow(ino, j + 1) == DeadBelow(ino, j) + {Entry(ino, j)};
      var a := WordAt(disk[inodes[ino].addrs[NDIRECT]], j);
      if a != 0 {
        panicked := Bfree(a, Entry(ino, j), DeadBelow(ino, j));
      } else {
        NothingStep(l, disk, inodes, owner, DeadBelow(ino, j), Entry(ino, j));
      }
    }

    /** The indirect block and everything it names. */
    method TruncIndirect(ino: nat) returns (panicked: bool)
      requires Valid() && ino < |inodes| && ShapeOk(l, disk, inodes) && inodes[ino].addrs[NDIRECT] != 0
      modifies this`disk, this`inodes, this`owner
      ensures !panicked && Valid() && DataSame(l, old(disk), disk) && Lost(old(owner), owner, ino)
      ensures inodes == WithSlot(old(inodes), ino, NDIRECT, 0)
    {
      KeptHigh(l, disk, inodes, owner);
      SlotInRange(l, disk, inodes, owner, ino, NDIRECT);
      var ib := inodes[ino].addrs[NDIRECT];
      var j := 0;
      panicked := false;
      while j < NINDIRECT
        invariant 0 <= j <= NINDIRECT && !panicked && inodes == old(inodes) && Holds({}, DeadBelow(ino, j))
        invariant DataSame(l, old(disk), disk) && Lost(old(owner), owner, ino)
      {
        panicked := TruncEntry(ino, j);
        j := j + 1;
      }
      panicked := Bfree(ib, Slot(ino, NDIRECT), DeadBelow(ino, NINDIRECT));
      ClearStep(l, disk, inodes, owner, DeadBelow(ino, NINDIRECT) + {Slot(ino, NDIRECT)}, ino, NDIRECT);
      inodes := WithSlot(inodes, ino, NDIRECT, 0);
    }

    /** itrunc: releases exactly the inode's blocks. */
    method Itrunc(ino: nat) returns (panicked: bool)
      requires Valid() && ino < |inodes|
      modifies this`disk, this`inodes, this`owner
      ensures !panicked && Valid() && |inodes| == |old(inodes)|
      ensures inodes[ino] == Inode(0, seq(NDIRECT + 1, _ => 0))
      ensures forall b :: b in owner <==> b in old(owner) && old(owner)[b].i != ino
      ensures forall b :: b in owner ==> owner[b] == old(owner)[b]
      ensures forall h :: 0 <= h < |inodes| && h != ino ==>
        inodes[h] == old(inodes)[h] && FileBytes(disk, inodes, h) == old(FileBytes(disk, inodes, h))
    {
      KeptShape(l, disk, inodes, owner, {}, {});
      panicked := false;
      var k := 0;
      while k < NDIRECT
        invariant 0 <= k <= NDIRECT && !panicked && Valid() && DataSame(l, old(disk), disk)
        invariant Lost(old(owner), owner, ino) && ShapeOk(l, disk, inodes)
        invariant |inodes| == |old(inodes)| && forall h :: 0 <= h < |inodes| && h != ino ==> inodes[h] == old(inodes)[h]
        invariant forall q :: 0 <= q < k ==> inodes[ino].addrs[q] == 0
      {
        panicked := TruncSlot(ino, k);
        KeptShape(l, disk, inodes, owner, {}, {});
        k := k + 1;
      }
      if inodes[ino].addrs[NDIRECT] != 0 {
        panicked := TruncIndirect(ino);
        KeptShape(l, disk, inodes, owner, {}, {});
      }
      GrowSize(l, disk, inodes, owner, ino, 0);
      inodes := inodes[ino := inodes[ino].(size := 0)];
      assert inodes[ino].addrs == seq(NDIRECT + 1, _ => 0);
      TruncatedOwners(l, old(owner), disk, inodes, owner, ino);
      forall h | 0 <= h < |inodes| && h != ino ensures FileBytes(disk, inodes, h) == old(FileBytes(disk, inodes, h)) {
        OtherBytes(l, old(disk), old(inodes), old(owner), disk, inodes, h);
      }
    }
  }

  lemma BitPlace(b: nat, bi: nat)
    requires b % BPB == 0 && bi < BPB
    ensures (b + bi) / BPB == b / BPB && (b + bi) % BPB == bi && (b + bi) % 8 == bi % 8
  {
    var q := b / BPB;
    assert b == BPB * q;
    EightDivides(512 * q, bi);
  }

  lemma EightDivides(q: nat, r: nat)
    ensures (8 * q + r) % 8 == r % 8
  {
  }

  ghost predicate FullDisk(l: Layout, disk: seq<Block>) { forall c :: 0 <= c < l.size ==> Marked(l, disk, c) }

  lemma SlotInRange(l: Layout, disk: seq<Block>, inodes: seq<Inode>, owner: map<nat, Ref>, i: nat, k: nat)
    requires Kept(l, disk, inodes, owner, {}, {}) && i < |inodes| && k <= NDIRECT && |inodes[i].addrs| == NDIRECT + 1
    requires inodes[i].addrs[k] != 0
    ensures inodes[i].addrs[k] < |disk|
  {
    OpenKept(l, disk, inodes, owner, {}, {});
    assert IsRef(disk, inodes, Slot(i, k));
  }

  lemma EntryInRange(l: Layout, disk: seq<Block>, inodes: seq<Inode>, owner: map<nat, Ref>, i: nat, j: nat)
    requires Kept(l, disk, inodes, owner, {}, {}) && IsRef(disk, inodes, Entry(i, j))
    requires Target(disk, inodes, Entry(i, j)) != 0
    ensures Target(disk, inodes, Entry(i, j)) < |disk|
  {
    OpenKept(l, disk, inodes, owner, {}, {});
  }

  // ----- readi -----

  /** bytes are those of the file from off on. */
  ghost predicate Reads(disk: seq<Block>, inodes: seq<Inode>, i: nat, off: nat, bytes: seq<Byte>) {
    forall j :: 0 <= j < |bytes| ==> bytes[j] == Raw(disk, inodes, i, off + j)
  }

  lemma ReadsUnseen(disk: seq<Block>, inodes: seq<Inode>, disk': seq<Block>, inodes': seq<Inode>, i: nat, off: nat,
                    bytes: seq<Byte>)
    requires Unseen(disk, inodes, disk', inodes')
    ensures Reads(disk', inodes', i, off, bytes) <==> Reads(disk, inodes, i, off, bytes)
  {
    OpenUnseen(disk, inodes, disk', inodes');
  }

  /** One block's worth more. */
  lemma ReadsMore(disk: seq<Block>, inodes: seq<Inode>, i: nat, off: nat, bytes: seq<Byte>, m: nat)
    requires Reads(disk, inodes, i, off, bytes)
    requires var at := off + |bytes|; m <= BSIZE - at % BSIZE && 0 < BlockNo(disk, inodes, i, at / BSIZE) < |disk|
    ensures var at := off + |bytes|; var b := BlockNo(disk, inodes, i, at / BSIZE);
            Reads(disk, inodes, i, off, bytes + disk[b][at % BSIZE..at % BSIZE + m])
  {
    var at := off + |bytes|;
    var b := BlockNo(disk, inodes, i, at / BSIZE);
    var part := disk[b][at % BSIZE..at % BSIZE + m];
    forall j | 0 <= j < |bytes + part| ensures (bytes + part)[j] == Raw(disk, inodes, i, off + j) {
      if j >= |bytes| { WithinBlock(at, j - |bytes|); }
    }
  }

  lemma WithinBlock(at: nat, j: nat)
    requires at % BSIZE + j < BSIZE
    ensures (at + j) / BSIZE == at / BSIZE && (at + j) % BSIZE == at % BSIZE + j
  {
  }

  lemma ReadsIsSlice(disk: seq<Block>, inodes: seq<Inode>, i: nat, off: nat, bytes: seq<Byte>)
    requires i < |inodes| && off + |bytes| <= inodes[i].size && Reads(disk, inodes, i, off, bytes)
    ensures bytes == FileBytes(disk, inodes, i)[off..off + |bytes|]
  {
  }

  lemma SizeLimit(l: Layout, disk: seq<Block>, inodes: seq<Inode>, owner: map<nat, Ref>, i: nat)
    requires Kept(l, disk, inodes, owner, {}, {}) && i < |inodes|
    ensures inodes[i].size <= MAXFILE * BSIZE
  {
    OpenKept(l, disk, inodes, owner, {}, {});
  }

  datatype Result = Ok(bytes: seq<Byte>) | Error | Panic

  lemma BlockBelow(disk: seq<Block>, inodes: seq<Inode>, i: nat, at: nat)
    requires NoHoles(disk, inodes, i) && at < inodes[i].size
    ensures BlockNo(disk, inodes, i, at / BSIZE) != 0
  {
    assert at / BSIZE * BSIZE <= at;
  }

  lemma UnseenSizes(disk: seq<Block>, inodes: seq<Inode>, disk': seq<Block>, inodes': seq<Inode>)
    requires Unseen(disk, inodes, disk', inodes')
    ensures |inodes'| == |inodes| && forall i :: 0 <= i < |inodes| ==> inodes'[i].size == inodes[i].size
  {
    OpenUnseen(disk, inodes, disk', inodes');
  }

  // ----- writei -----

  /** The file after a write: off <= |old|, and the result is as long as the longer of the two. */
  function Spliced(old': seq<Byte>, off: nat, src: seq<Byte>): (r: seq<Byte>)
    requires off <= |old'|
    ensures |r| == if off + |src| > |old'| then off + |src| else |old'|
    ensures r[off..off + |src|] == src && r[..off] == old'[..off]
    ensures (off + |src| <= |old'| ==> r[off + |src|..] == old'[off + |src|..])
  {
    old'[..off] + src + (if off + |src| <= |old'| then old'[off + |src|..] else [])
  }

  /** What a completed writei does to the files. */
  ghost predicate Written(d0: seq<Block>, s0: seq<Inode>, d: seq<Block>, s: seq<Inode>, i: nat, off: nat,
                          src: seq<Byte>) {
    && |s| == |s0| && i < |s| && off <= s0[i].size
    && FileBytes(d, s, i) == Spliced(FileBytes(d0, s0, i), off, src)
    && (forall h :: 0 <= h < |s| && h != i ==> FileBytes(d, s, h) == FileBytes(d0, s0, h))
    && (forall h :: 0 <= h < |s| && NoHoles(d0, s0, h) ==> NoHoles(d, s, h))
  }

  ghost predicate PatchedOpen(d0: seq<Block>, s0: seq<Inode>, d: seq<Block>, s: seq<Inode>, i: nat, off: nat,
                              src: seq<Byte>, tot: nat) {
    && tot <= |src| && |s| == |s0| && (forall h :: 0 <= h < |s| ==> s[h].size == s0[h].size)
    && (forall h: nat, k: nat :: Raw(d, s, h, k) ==
         if h == i && off <= k < off + tot then src[k - off] else Raw(d0, s0, h, k))
    && (forall h: nat, n: nat :: BlockNo(d0, s0, h, n) != 0 ==> BlockNo(d, s, h, n) != 0)
    && (forall n: nat :: 0 < tot && off < (n + 1) * BSIZE && n * BSIZE < off + tot ==> BlockNo(d, s, i, n) != 0)
  }

  /** The first tot bytes of src have been written at off, and nothing else has changed. */
  ghost predicate Patched(d0: seq<Block>, s0: seq<Inode>, d: seq<Block>, s: seq<Inode>, i: nat, off: nat,
                          src: seq<Byte>, tot: nat) {
    forall k {:trigger Key(k, (d0, s0, d, s, i, off, src, tot))} :: Key(k, (d0, s0, d, s, i, off, src, tot)) ==>
      PatchedOpen(d0, s0, d, s, i, off, src, tot)
  }

  lemma OpenPatched(d0: seq<Block>, s0: seq<Inode>, d: seq<Block>, s: seq<Inode>, i: nat, off: nat, src: seq<Byte>,
                    tot: nat)
    ensures Patched(d0, s0, d, s, i, off, src, tot) <==> PatchedOpen(d0, s0, d, s, i, off, src, tot)
  {
    assert Key(0, (d0, s0, d, s, i, off, src, tot));
  }

  lemma PatchedNothing(d: seq<Block>, s: seq<Inode>, i: nat, off: nat, src: seq<Byte>)
    ensures Patched(d, s, d, s, i, off, src, 0)
  {
    OpenPatched(d, s, d, s, i, off, src, 0);
  }

  lemma PatchedShape(d0: seq<Block>, s0: seq<Inode>, d: seq<Block>, s: seq<Inode>, i: nat, off: nat, src: seq<Byte>,
                     tot: nat)
    requires Patched(d0, s0, d, s, i, off, src, tot)
    ensures tot <= |src| && |s| == |s0| && forall h :: 0 <= h < |s| ==> s[h].size == s0[h].size
  {
    OpenPatched(d0, s0, d, s, i, off, src, tot);
  }

  lemma PatchedUnseen(d0: seq<Block>, s0: seq<Inode>, d: seq<Block>, s: seq<Inode>, d': seq<Block>, s': seq<Inode>,
                      i: nat, off: nat, src: seq<Byte>, tot: nat)
    requires Patched(d0, s0, d, s, i, off, src, tot) && Unseen(d, s, d', s')
    ensures Patched(d0, s0, d', s', i, off, src, tot)
  {
    OpenPatched(d0, s0, d, s, i, off, src, tot);
    OpenUnseen(d, s, d', s');
    OpenPatched(d0, s0, d', s', i, off, src, tot);
  }

  lemma DataStep(l: Layout, disk: seq<Block>, inodes: seq<Inode>, owner: map<nat, Ref>, i: nat, n: nat, data: Block)
    requires Kept(l, disk, inodes, owner, {}, {}) && i < |inodes| && n < MAXFILE && BlockNo(disk, inodes, i, n) != 0
    ensures BlockNo(disk, inodes, i, n) < |disk|
    ensures Kept(l, disk[BlockNo(disk, inodes, i, n) := data], inodes, owner, {}, {})
  {
    OpenKept(l, disk, inodes, owner, {}, {});
    DataKeeps(l, disk, inodes, owner, i, n, data);
    OpenKept(l, disk[BlockNo(disk, inodes, i, n) := data], inodes, owner, {}, {});
  }

  lemma PatchedMore(l: Layout, d0: seq<Block>, s0: seq<Inode>, d: seq<Block>, s: seq<Inode>, owner: map<nat, Ref>,
                    i: nat, off: nat, src: seq<Byte>, tot: nat, m: nat, data: Block)
    requires Kept(l, d, s, owner, {}, {}) && i < |s| && Patched(d0, s0, d, s, i, off, src, tot) && tot + m <= |src|
    requires var at := off + tot; var n := at / BSIZE;
             && n < MAXFILE && 0 < m <= BSIZE - at % BSIZE && 0 < BlockNo(d, s, i, n) < |d|
             && data == d[BlockNo(d, s, i, n)][..at % BSIZE] + src[tot..tot + m]
                + d[BlockNo(d, s, i, n)][at % BSIZE + m..]
    ensures Patched(d0, s0, d[BlockNo(d, s, i, (off + tot) / BSIZE) := data], s, i, off, src, tot + m)
  {
    var n := (off + tot) / BSIZE;
    var d' := d[BlockNo(d, s, i, n) := data];
    OpenKept(l, d, s, owner, {}, {});
    OpenPatched(d0, s0, d, s, i, off, src, tot);
    DataKeeps(l, d, s, owner, i, n, data);
    SameBlocks(d, s, d');
    forall h: nat, k: nat
      ensures Raw(d', s, h, k) == if h == i && off <= k < off + tot + m then src[k - off] else Raw(d0, s0, h, k)
    {
      PatchedByte(l, d, s, owner, i, off, src, tot, m, data, h, k);
    }
    forall q: nat | off < (q + 1) * BSIZE && q * BSIZE < off + tot + m ensures BlockNo(d', s, i, q) != 0 {
      PatchedBlock(off, tot, m, q);
    }
    OpenPatched(d0, s0, d', s, i, off, src, tot + m);
  }

  lemma PatchedByte(l: Layout, d: seq<Block>, s: seq<Inode>, owner: map<nat, Ref>,
                    i: nat, off: nat, src: seq<Byte>, tot: nat, m: nat, data: Block, h: nat, k: nat)
    requires FsOk(l, d, s, owner, {}, {}) && i < |s| && tot + m <= |src|
    requires var at := off + tot; var n := at / BSIZE;
             && n < MAXFILE && 0 < m <= BSIZE - at % BSIZE && 0 < BlockNo(d, s, i, n) < |d|
             && data == d[BlockNo(d, s, i, n)][..at % BSIZE] + src[tot..tot + m]
                + d[BlockNo(d, s, i, n)][at % BSIZE + m..]
    ensures var at := off + tot;
            Raw(d[BlockNo(d, s, i, at / BSIZE) := data], s, h, k) ==
              if h == i && at <= k < at + m then src[k - off] else Raw(d, s, h, k)
  {
    var at := off + tot;
    var n := at / BSIZE;
    DataBytes(l, d, s, owner, i, n, data, h, k);
    if h == i && k / BSIZE == n {
      BlockByte(at, k, m);
    }
  }

  lemma PatchedBlock(off: nat, tot: nat, m: nat, q: nat)
    requires off < (q + 1) * BSIZE && q * BSIZE < off + tot + m && 0 < m <= BSIZE - (off + tot) % BSIZE
    ensures q == (off + tot) / BSIZE || (0 < tot && q * BSIZE < off + tot)
  {
  }

  lemma BlockByte(at: nat, k: nat, m: nat)
    requires k / BSIZE == at / BSIZE && at % BSIZE + m <= BSIZE
    ensures k - at == k % BSIZE - at % BSIZE
  {
  }

  lemma GrowSize(l: Layout, disk: seq<Block>, inodes: seq<Inode>, owner: map<nat, Ref>, i: nat, size: nat)
    requires Kept(l, disk, inodes, owner, {}, {}) && i < |inodes| && size <= MAXFILE * BSIZE
    ensures Kept(l, disk, inodes[i := inodes[i].(size := size)], owner, {}, {})
  {
    var inodes' := inodes[i := inodes[i].(size := size)];
    OpenKept(l, disk, inodes, owner, {}, {});
    forall r
      ensures IsRef(disk, inodes', r) == IsRef(disk, inodes, r)
      && (IsRef(disk, inodes, r) ==> Target(disk, inodes', r) == Target(disk, inodes, r)) { }
    OpenKept(l, disk, inodes', owner, {}, {});
  }

  /** The bytes and blocks of a file do not depend on its size. */
  lemma SizeOnly(disk: seq<Block>, inodes: seq<Inode>, i: nat, size: nat, h: nat, k: nat)
    requires i < |inodes|
    ensures var inodes' := inodes[i := inodes[i].(size := size)];
            && BlockNo(disk, inodes', h, k) == BlockNo(disk, inodes, h, k)
            && Raw(disk, inodes', h, k) == Raw(disk, inodes, h, k)
  {
  }

  lemma PatchedWritten(d0: seq<Block>, s0: seq<Inode>, d: seq<Block>, s: seq<Inode>, i: nat, off: nat, src: seq<Byte>)
    requires Patched(d0, s0, d, s, i, off, src, |src|) && |s| == |s0| && i < |s0| && off <= s0[i].size
    ensures var s' := if |src| > 0 && off + |src| > s0[i].size then s[i := s[i].(size := off + |src|)] else s;
            Written(d0, s0, d, s', i, off, src)
  {
    OpenPatched(d0, s0, d, s, i, off, src, |src|);
    var s' := if |src| > 0 && off + |src| > s0[i].size then s[i := s[i].(size := off + |src|)] else s;
    forall h: nat, k: nat ensures BlockNo(d, s', h, k) == BlockNo(d, s, h, k) && Raw(d, s', h, k) == Raw(d, s, h, k) {
      SizeOnly(d, s, i, off + |src|, h, k);
    }
    WrittenBytes(d0, s0, d, s', i, off, src);
    WrittenBlocks(d0, s0, d, s', i, off, |src|);
  }

  lemma WrittenBytes(d0: seq<Block>, s0: seq<Inode>, d: seq<Block>, s: seq<Inode>, i: nat, off: nat, src: seq<Byte>)
    requires |s| == |s0| && i < |s| && off <= s0[i].size
    requires forall h :: 0 <= h < |s| && h != i ==> s[h].size == s0[h].size
    requires s[i].size == if off + |src| > s0[i].size then off + |src| else s0[i].size
    requires forall h: nat, k: nat ::
      Raw(d, s, h, k) == if h == i && off <= k < off + |src| then src[k - off] else Raw(d0, s0, h, k)
    ensures FileBytes(d, s, i) == Spliced(FileBytes(d0, s0, i), off, src)
    ensures forall h :: 0 <= h < |s| && h != i ==> FileBytes(d, s, h) == FileBytes(d0, s0, h)
  {
    var r, f := Spliced(FileBytes(d0, s0, i), off, src), FileBytes(d, s, i);
    forall k | 0 <= k < |r| ensures r[k] == f[k] { }
  }

  lemma WrittenBlocks(d0: seq<Block>, s0: seq<Inode>, d: seq<Block>, s: seq<Inode>, i: nat, off: nat, n: nat)
    requires |s| == |s0| && i < |s| && off <= s0[i].size
    requires forall h :: 0 <= h < |s| && h != i ==> s[h].size == s0[h].size
    requires s[i].size == if off + n > s0[i].size then off + n else s0[i].size
    requires forall h: nat, q: nat :: BlockNo(d0, s0, h, q) != 0 ==> BlockNo(d, s, h, q) != 0
    requires forall q: nat :: 0 < n && off < (q + 1) * BSIZE && q * BSIZE < off + n ==> BlockNo(d, s, i, q) != 0
    ensures forall h :: 0 <= h < |s| && NoHoles(d0, s0, h) ==> NoHoles(d, s, h)
  {
  }

  // ----- itrunc -----

  /** The data blocks are unchanged. */
  ghost predicate DataSame(l: Layout, disk: seq<Block>, disk': seq<Block>) {
    |disk'| == |disk| && forall b :: l.dataStart <= b < |disk| ==> disk'[b] == disk[b]
  }

  /** Only blocks of inode ino have lost their owner. */
  ghost predicate Lost(owner: map<nat, Ref>, owner': map<nat, Ref>, ino: nat) {
    && (forall b :: b in owner' ==> b in owner && owner'[b] == owner[b])
    && (forall b :: b in owner && b !in owner' ==> owner[b].i == ino)
  }

  ghost predicate IndirectsHigh(l: Layout, inodes: seq<Inode>) {
    forall i :: 0 <= i < |inodes| && |inodes[i].addrs| == NDIRECT + 1 && inodes[i].addrs[NDIRECT] != 0 ==>
      inodes[i].addrs[NDIRECT] >= l.dataStart
  }

  lemma KeptHigh(l: Layout, disk: seq<Block>, inodes: seq<Inode>, owner: map<nat, Ref>)
    requires Kept(l, disk, inodes, owner, {}, {})
    ensures IndirectsHigh(l, inodes)
  {
    OpenKept(l, disk, inodes, owner, {}, {});
    forall i | 0 <= i < |inodes| && inodes[i].addrs[NDIRECT] != 0 ensures inodes[i].addrs[NDIRECT] >= l.dataStart {
      IndirectOwned(l, disk, inodes, owner, {}, i);
    }
  }

  /** The entries of ino's indirect block already dealt with. */
  ghost function DeadBelow(ino: nat, j: nat): (r: set<Ref>)
    ensures forall x :: x in r <==> x.Entry? && x.i == ino && x.j < j
  {
    if j == 0 then {} else DeadBelow(ino, j - 1) + {Entry(ino, j - 1)}
  }

  lemma FreeStep(l: Layout, disk: seq<Block>, inodes: seq<Inode>, owner: map<nat, Ref>, dead: set<Ref>, r: Ref)
    requires Kept(l, disk, inodes, owner, {}, dead) && IsRef(disk, inodes, r) && r !in dead
    requires Target(disk, inodes, r) != 0 && IndirectsHigh(l, inodes)
    ensures var b := Target(disk, inodes, r);
            && MapBlock(l, b) < |disk| && Marked(l, disk, b) && b in owner && owner[b] == r
            && Kept(l, Flipped(l, disk, b), inodes, owner - {b}, {}, dead + {r})
            && DataSame(l, disk, Flipped(l, disk, b))
  {
    OpenKept(l, disk, inodes, owner, {}, dead);
    var b := Target(disk, inodes, r);
    KillKeeps(l, disk, inodes, owner, {}, dead, r);
    assert {} + {b} == {b} && {b} - {b} == {};
    FreedKeeps(l, disk, inodes, owner - {b}, {b}, dead + {r}, b);
    MapIsMetadata(l, disk, b);
    OpenKept(l, Flipped(l, disk, b), inodes, owner - {b}, {}, dead + {r});
  }

  /** A reference that names nothing need not count. */
  lemma NothingStep(l: Layout, disk: seq<Block>, inodes: seq<Inode>, owner: map<nat, Ref>, dead: set<Ref>, r: Ref)
    requires Kept(l, disk, inodes, owner, {}, dead) && IsRef(disk, inodes, r) && Target(disk, inodes, r) == 0
    ensures Kept(l, disk, inodes, owner, {}, dead + {r})
  {
    OpenKept(l, disk, inodes, owner, {}, dead);
    OpenKept(l, disk, inodes, owner, {}, dead + {r});
  }

  lemma ClearStep(l: Layout, disk: seq<Block>, inodes: seq<Inode>, owner: map<nat, Ref>, dead: set<Ref>, i: nat, k: nat)
    requires Kept(l, disk, inodes, owner, {}, dead) && i < |inodes| && k <= NDIRECT && |inodes[i].addrs| == NDIRECT + 1
    requires if k == NDIRECT then dead == DeadBelow(i, NINDIRECT) + {Slot(i, k)} else dead == {Slot(i, k)}
    ensures Kept(l, disk, WithSlot(inodes, i, k, 0), owner, {}, {})
  {
    OpenKept(l, disk, inodes, owner, {}, dead);
    ClearKeeps(l, disk, inodes, owner, {}, dead, i, k);
    ForgetKeeps(l, disk, WithSlot(inodes, i, k, 0), owner, {}, dead);
    OpenKept(l, disk, WithSlot(inodes, i, k, 0), owner, {}, {});
  }

  lemma TruncatedOwners(l: Layout, owner0: map<nat, Ref>, disk: seq<Block>, inodes: seq<Inode>, owner: map<nat, Ref>,
                        ino: nat)
    requires Kept(l, disk, inodes, owner, {}, {}) && Lost(owner0, owner, ino) && ino < |inodes|
    requires inodes[ino].addrs == seq(NDIRECT + 1, _ => 0)
    ensures forall b :: b in owner <==> b in owner0 && owner0[b].i != ino
  {
    OpenKept(l, disk, inodes, owner, {}, {});
    forall b | b in owner ensures owner[b].i != ino {
      assert IsRef(disk, inodes, owner[b]) && Target(disk, inodes, owner[b]) == b;
    }
  }

  /** A file whose inode is unchanged keeps its bytes while the data blocks do. */
  lemma OtherBytes(l: Layout, disk: seq<Block>, inodes: seq<Inode>, owner: map<nat, Ref>, disk': seq<Block>,
                   inodes': seq<Inode>, h: nat)
    requires Kept(l, disk, inodes, owner, {}, {}) && DataSame(l, disk, disk') && h < |inodes| == |inodes'|
    requires inodes'[h] == inodes[h]
    ensures FileBytes(disk', inodes', h) == FileBytes(disk, inodes, h)
  {
    OpenKept(l, disk, inodes, owner, {}, {});
    if inodes[h].addrs[NDIRECT] != 0 { IndirectOwned(l, disk, inodes, owner, {}, h); }
    forall k | 0 <= k < inodes[h].size ensures Raw(disk', inodes', h, k) == Raw(disk, inodes, h, k) {
      var n := k / BSIZE;
      assert BlockNo(disk', inodes', h, n) == BlockNo(disk, inodes, h, n);
      if BlockNo(disk, inodes, h, n) != 0 { FileBlock(l, disk, inodes, owner, {}, h, n); }
    }
  }

  ghost predicate Names(disk: seq<Block>, inodes: seq<Inode>, r: Ref, b: nat) {
    IsRef(disk, inodes, r) && Target(disk, inodes, r) == b
  }

  /** A block is marked exactly when it is metadata or some inode slot or indirect entry names it,
      and then only one does. */
  lemma MarkedIffNamed(l: Layout, disk: seq<Block>, inodes: seq<Inode>, owner: map<nat, Ref>, b: nat)
    requires Kept(l, disk, inodes, owner, {}, {}) && 0 < b < l.size
    ensures Marked(l, disk, b) <==> b < l.dataStart || exists r :: Names(disk, inodes, r, b)
    ensures forall r, s :: Names(disk, inodes, r, b) && Names(disk, inodes, s, b) ==> r == s
    ensures b < l.dataStart ==> forall r :: !Names(disk, inodes, r, b)
  {
    OpenKept(l, disk, inodes, owner, {}, {});
    if b in owner { assert Names(disk, inodes, owner[b], b); }
  }

  // ----- the space a write needs -----

  /** The block behind the last one a write of n bytes at off touches. */
  function EndBlock(off: nat, n: nat): nat { if n == 0 then off / BSIZE else (off + n - 1) / BSIZE + 1 }

  /** The free blocks a write of n bytes at off needs. */
  ghost function NeedWrite(disk: seq<Block>, inodes: seq<Inode>, i: nat, off: nat, n: nat): nat {
    NeedRange(disk, inodes, i, off / BSIZE, EndBlock(off, n))
  }

  /** The block writei's loop comes to next. */
  function NextBlock(off: nat, tot: nat, n: nat): nat { if tot < n then (off + tot) / BSIZE else EndBlock(off, n) }

  lemma NextBlocks(off: nat, tot: nat, n: nat)
    requires tot < n
    ensures (off + tot) / BSIZE < EndBlock(off, n)
    ensures NextBlock(off, tot + Min(n - tot, BSIZE - (off + tot) % BSIZE), n) == (off + tot) / BSIZE + 1
  {
    var m := Min(n - tot, BSIZE - (off + tot) % BSIZE);
    var at := off + tot;
    if tot + m == n { WithinBlock(at, m - 1); } else { assert at + m == (at / BSIZE + 1) * BSIZE; }
  }

  /** One round has taken the share of block q from the range [q, hi). */
  ghost predicate Charged(l: Layout, d: seq<Block>, s: seq<Inode>, d': seq<Block>, s': seq<Inode>, i: nat, q: nat,
                          hi: nat) {
    Balance(l, d, s, i, q, hi) == Balance(l, d', s', i, q + 1, hi)
  }

  /** Free blocks less those the range still needs. */
  ghost function Balance(l: Layout, d: seq<Block>, s: seq<Inode>, i: nat, lo: nat, hi: nat): int {
    Space(l, d) - NeedRange(d, s, i, lo, hi)
  }

  lemma TooLittle(d: seq<Block>, s: seq<Inode>, i: nat, q: nat, hi: nat)
    requires q < hi
    ensures NeedRange(d, s, i, q, hi) >= NeedBlock(d, s, i, q)
  {
  }

  lemma DataCharged(l: Layout, d: seq<Block>, s: seq<Inode>, d': seq<Block>, s': seq<Inode>, owner: map<nat, Ref>,
                    i: nat, q: nat, hi: nat, data: Block)
    requires q < hi && Costs(l, d, s, d', s', i, q) && Kept(l, d', s', owner, {}, {}) && i < |s'| && q < MAXFILE
    requires BlockNo(d', s', i, q) != 0
    ensures BlockNo(d', s', i, q) < |d'|
    ensures Charged(l, d, s, d'[BlockNo(d', s', i, q) := data], s', i, q, hi)
  {
    OpenKept(l, d', s', owner, {}, {});
    DataKeeps(l, d', s', owner, i, q, data);
    FileBlock(l, d', s', owner, {}, i, q);
    var d2 := d'[BlockNo(d', s', i, q) := data];
    SameSpace(l, d', d2);
    RangeStep(l, d, s, d', s', i, q, hi);
    DataNeeds(d', s', d2, i, q + 1, hi);
  }

  /** A new indirect block has no entries. */
  lemma FreshIndirect(l: Layout, d: seq<Block>, s: seq<Inode>, d': seq<Block>, s': seq<Inode>, i: nat, n: nat)
    requires Fills(l, d, s, d', s', Slot(i, NDIRECT)) && NDIRECT <= n < MAXFILE && !IsRef(d, s, RefOf(i, n))
    ensures Named(d', s', RefOf(i, n)) == 0
    ensures NeedBlock(d, s, i, n) == 2 && Space(l, d') + 1 == Space(l, d)
  {
    OpenFills(l, d, s, d', s', Slot(i, NDIRECT));
  }
}
