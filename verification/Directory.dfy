/** Directories: files of 16-byte entries (fs.c:563-625, fs.h:57-60). */
module Directory {
  import opened Basics
  import opened FsSpec
  import opened FsSteps
  import opened FsSpace
  import opened FileSystem

  const DIRSIZ := 14
  const ENTRY := 16   // sizeof(struct dirent)

  /** A C string: the bytes before its NUL. */
  ghost predicate CString(s: seq<Byte>) { forall k :: 0 <= k < |s| ==> s[k] != 0 }

  /** struct dirent; inum 0 is a free entry. */
  datatype Dirent = Dirent(inum: nat, name: seq<Byte>)

  function Cut(name: seq<Byte>): (r: seq<Byte>)
    ensures |r| <= DIRSIZ
  {
    if |name| <= DIRSIZ then name else name[..DIRSIZ]
  }

  /** The bytes of a name field up to its first NUL, if any. */
  function UntilNul(field: seq<Byte>): (r: seq<Byte>)
    ensures |r| <= |field|
  {
    if field == [] || field[0] == 0 then [] else [field[0]] + UntilNul(field[1..])
  }

  lemma {:induction false} UntilNulAt(field: seq<Byte>, k: nat)
    requires k <= |field| && (k < |field| ==> field[k] == 0) && forall j :: 0 <= j < k ==> field[j] != 0
    ensures UntilNul(field) == field[..k]
    decreases k
  {
    if k > 0 {
      UntilNulAt(field[1..], k - 1);
      assert field[..k] == [field[0]] + field[1..][..k - 1];
    }
  }

  /** strncpy into the name field: the name, padded with NULs. */
  function Field(name: seq<Byte>): (r: seq<Byte>)
    ensures |r| == DIRSIZ
  {
    Cut(name) + seq(DIRSIZ - |Cut(name)|, _ => 0)
  }

  lemma FieldReadsBack(name: seq<Byte>)
    requires CString(name)
    ensures UntilNul(Field(name)) == Cut(name)
  {
    var k := |Cut(name)|;
    UntilNulAt(Field(name), k);
    assert Field(name)[..k] == Cut(name);
  }

  /** namecmp: equality of the first DIRSIZ bytes, up to a NUL. */
  method SameName(name: seq<Byte>, field: seq<Byte>) returns (same: bool)
    requires CString(name) && |field| == DIRSIZ
    ensures same <==> Cut(name) == UntilNul(field)
  {
    var k := 0;
    while k < DIRSIZ && k < |name| && name[k] == field[k]
      invariant 0 <= k <= DIRSIZ && k <= |name| && name[..k] == field[..k]
    {
      assert name[..k + 1] == name[..k] + [name[k]] && field[..k + 1] == field[..k] + [field[k]];
      k := k + 1;
    }
    same := k == DIRSIZ || (k == |name| && field[k] == 0);
    forall j | 0 <= j < k ensures field[j] != 0 && field[j] == name[j] { assert field[..k][j] == name[..k][j]; }
    if same {
      UntilNulAt(field, k);
    } else {
      NamesDiffer(name, field, k);
    }
  }

  lemma NamesDiffer(name: seq<Byte>, field: seq<Byte>, k: nat)
    requires CString(name) && |field| == DIRSIZ && k < DIRSIZ && k <= |name|
    requires forall j :: 0 <= j < k ==> field[j] != 0 && field[j] == name[j]
    requires if k == |name| then field[k] != 0 else name[k] != field[k]
    ensures Cut(name) != UntilNul(field)
  {
    UntilNulFrom(field, k);
    var u := UntilNul(field);
    if k < |name| {
      assert Cut(name)[k] == name[k];
      if k < |u| { assert u[k] == field[k]; }
    }
  }

  /** The bytes before k are all there, and byte k too unless it is a NUL. */
  lemma {:induction false} UntilNulFrom(field: seq<Byte>, k: nat)
    requires k < |field| && forall j :: 0 <= j < k ==> field[j] != 0
    ensures |UntilNul(field)| >= k && (field[k] != 0 ==> |UntilNul(field)| > k && UntilNul(field)[k] == field[k])
    ensures field[k] == 0 ==> |UntilNul(field)| == k
    decreases k
  {
    if k > 0 { UntilNulFrom(field[1..], k - 1); }
  }

  // ----- the entries of a directory -----

  function EntryAt(bytes: seq<Byte>, j: nat): Dirent
    requires (j + 1) * ENTRY <= |bytes|
  {
    var lo: int, hi: int := bytes[j * ENTRY], bytes[j * ENTRY + 1];
    Dirent(lo + 256 * hi, bytes[j * ENTRY + 2..(j + 1) * ENTRY])
  }

  function Entries(bytes: seq<Byte>): (r: seq<Dirent>)
    ensures |r| == |bytes| / ENTRY
  {
    seq(|bytes| / ENTRY, j requires 0 <= j < |bytes| / ENTRY => EntryAt(bytes, j))
  }

  predicate Matches(e: Dirent, name: seq<Byte>) { e.inum != 0 && Cut(name) == UntilNul(e.name) }

  /** The first entry for the name, |es| if there is none. */
  function Find(es: seq<Dirent>, name: seq<Byte>): (r: nat)
    ensures r <= |es| && (r < |es| ==> Matches(es[r], name)) && forall j :: 0 <= j < r ==> !Matches(es[j], name)
  {
    if es == [] then 0 else if Matches(es[0], name) then 0 else 1 + Find(es[1..], name)
  }

  lemma FindIs(es: seq<Dirent>, name: seq<Byte>, r: nat)
    requires r <= |es| && (r < |es| ==> Matches(es[r], name)) && forall j :: 0 <= j < r ==> !Matches(es[j], name)
    ensures Find(es, name) == r
  {
  }

  /** What the directory says about a name. */
  function Meaning(es: seq<Dirent>, name: seq<Byte>): Option<nat> {
    var k := Find(es, name);
    if k < |es| then Some(es[k].inum) else None
  }

  /** The first free entry, |es| if all are in use. */
  function FreeEntry(es: seq<Dirent>): (r: nat)
    ensures r <= |es| && (r < |es| ==> es[r].inum == 0) && forall j :: 0 <= j < r ==> es[j].inum != 0
  {
    if es == [] then 0 else if es[0].inum == 0 then 0 else 1 + FreeEntry(es[1..])
  }

  function Linked(es: seq<Dirent>, k: nat, e: Dirent): seq<Dirent>
    requires k <= |es|
  {
    if k < |es| then es[k := e] else es + [e]
  }

  /** A new name in a free entry, or behind the last one, means its inode and nothing else changes. */
  lemma LinkedMeaning(es: seq<Dirent>, k: nat, name: seq<Byte>, inum: nat, other: seq<Byte>)
    requires k <= |es| && (k < |es| ==> es[k].inum == 0) && CString(name) && inum != 0 && Find(es, name) == |es|
    ensures Meaning(Linked(es, k, Dirent(inum, Field(name))), other) ==
      if Cut(other) == Cut(name) then Some(inum) else Meaning(es, other)
  {
    var e := Dirent(inum, Field(name));
    var es' := Linked(es, k, e);
    FieldReadsBack(name);
    if Cut(other) == Cut(name) {
      forall j | 0 <= j < k ensures !Matches(es'[j], other) { assert es'[j] == es[j]; assert !Matches(es[j], name); }
      FindIs(es', other, k);
    } else {
      var f := Find(es, other);
      if f < |es| { assert f != k; }
      var g := if f == |es| then |es'| else f;
      forall j | 0 <= j < g ensures !Matches(es'[j], other) { if j != k { assert es'[j] == es[j]; } }
      FindIs(es', other, g);
    }
  }

  // ----- bytes of an entry -----

  function EntryBytes(e: Dirent): (r: seq<Byte>)
    requires |e.name| == DIRSIZ && e.inum < 0x1_0000
    ensures |r| == ENTRY
  {
    [e.inum % 256, e.inum / 256] + e.name
  }

  lemma EntryRoundTrip(e: Dirent)
    requires |e.name| == DIRSIZ && e.inum < 0x1_0000
    ensures EntryAt(EntryBytes(e), 0) == e
  {
    assert EntryBytes(e)[2..ENTRY] == e.name;
  }

  lemma SliceEntry(bytes: seq<Byte>, j: nat)
    requires (j + 1) * ENTRY <= |bytes|
    ensures EntryAt(bytes[j * ENTRY..(j + 1) * ENTRY], 0) == EntryAt(bytes, j)
  {
    var s := bytes[j * ENTRY..(j + 1) * ENTRY];
    assert s[2..ENTRY] == bytes[j * ENTRY + 2..(j + 1) * ENTRY];
  }

  /** Writing an entry's bytes writes that entry. */
  lemma SplicedEntries(bytes: seq<Byte>, k: nat, e: Dirent)
    requires |bytes| % ENTRY == 0 && k <= |bytes| / ENTRY && |e.name| == DIRSIZ && e.inum < 0x1_0000
    ensures Entries(Spliced(bytes, k * ENTRY, EntryBytes(e))) == Linked(Entries(bytes), k, e)
  {
    var r := Spliced(bytes, k * ENTRY, EntryBytes(e));
    var es, es' := Entries(r), Linked(Entries(bytes), k, e);
    assert |es| == |es'|;
    forall j | 0 <= j < |es| ensures es[j] == es'[j] {
      SliceEntry(r, j);
      if j == k {
        assert r[j * ENTRY..(j + 1) * ENTRY] == EntryBytes(e);
        EntryRoundTrip(e);
      } else {
        SplicedElsewhere(bytes, k, EntryBytes(e), j);
        SliceEntry(bytes, j);
      }
    }
  }

  lemma SplicedElsewhere(bytes: seq<Byte>, k: nat, src: seq<Byte>, j: nat)
    requires |bytes| % ENTRY == 0 && k <= |bytes| / ENTRY && |src| == ENTRY && j != k && (j + 1) * ENTRY <= |bytes|
    ensures Spliced(bytes, k * ENTRY, src)[j * ENTRY..(j + 1) * ENTRY] == bytes[j * ENTRY..(j + 1) * ENTRY]
  {
    var r, at, end := Spliced(bytes, k * ENTRY, src), j * ENTRY, (j + 1) * ENTRY;
    if j < k {
      assert r[..k * ENTRY][at..end] == r[at..end] && bytes[..k * ENTRY][at..end] == bytes[at..end];
    } else {
      var s := k * ENTRY + ENTRY;
      assert s <= at;
      assert r[s..][at - s..end - s] == r[at..end] && bytes[s..][at - s..end - s] == bytes[at..end];
    }
  }

  // ----- dirlookup and dirlink -----

  /** A directory: a file without holes of whole entries. */
  ghost predicate IsDir(fs: FileSystem, dp: nat)
    reads fs
  {
    fs.Valid() && dp < |fs.inodes| && NoHoles(fs.disk, fs.inodes, dp) && fs.inodes[dp].size % ENTRY == 0
  }

  ghost function DirEntries(fs: FileSystem, dp: nat): seq<Dirent>
    requires dp < |fs.inodes|
    reads fs
  {
    Entries(FileBytes(fs.disk, fs.inodes, dp))
  }

  datatype Lookup = Found(off: nat, inum: nat) | Missing

  /** Reads the entry at off. */
  method ReadEntry(fs: FileSystem, dp: nat, off: nat) returns (e: Dirent)
    requires IsDir(fs, dp) && off % ENTRY == 0 && off < fs.inodes[dp].size
    modifies fs
    ensures fs.disk == old(fs.disk) && fs.inodes == old(fs.inodes) && fs.owner == old(fs.owner)
    ensures off / ENTRY < |DirEntries(fs, dp)| && e == DirEntries(fs, dp)[off / ENTRY]
  {
    SizeLimit(fs.l, fs.disk, fs.inodes, fs.owner, dp);
    ghost var bytes := FileBytes(fs.disk, fs.inodes, dp);
    var r := fs.Readi(dp, off, ENTRY);
    EntryBounds(off, |bytes|);
    SliceEntry(bytes, off / ENTRY);
    e := EntryAt(r.bytes, 0);
  }

  lemma EntryBounds(off: nat, size: nat)
    requires off % ENTRY == 0 && size % ENTRY == 0 && off < size
    ensures off / ENTRY < size / ENTRY && off + ENTRY <= size && off / ENTRY * ENTRY == off
    ensures (off / ENTRY + 1) * ENTRY == off + ENTRY <= size
    ensures (off + ENTRY) % ENTRY == 0 && (off + ENTRY) / ENTRY == off / ENTRY + 1
  {
  }

  /** dirlookup, up to the iget of what it finds. */
  method Dirlookup(fs: FileSystem, dp: nat, name: seq<Byte>) returns (r: Lookup)
    requires IsDir(fs, dp) && CString(name)
    modifies fs
    ensures fs.disk == old(fs.disk) && fs.inodes == old(fs.inodes) && fs.owner == old(fs.owner)
    ensures var es := DirEntries(fs, dp); var k := Find(es, name);
            if k < |es| then r == Found(k * ENTRY, es[k].inum) else r == Missing
  {
    var off := 0;
    ghost var es := DirEntries(fs, dp);
    while off < fs.inodes[dp].size
      invariant IsDir(fs, dp) && fs.disk == old(fs.disk) && fs.inodes == old(fs.inodes) && fs.owner == old(fs.owner)
      invariant off % ENTRY == 0 && off <= fs.inodes[dp].size && NotBefore(es, name, off / ENTRY)
      decreases fs.inodes[dp].size - off
    {
      EntryBounds(off, fs.inodes[dp].size);
      NextEntry(es, name, off / ENTRY);
      var hit, inum := TryEntry(fs, dp, name, off);
      if hit { return Found(off, inum); }
      off := off + ENTRY;
    }
    NextEntry(es, name, off / ENTRY);
    r := Missing;
  }

  ghost predicate NotBefore(es: seq<Dirent>, name: seq<Byte>, n: nat) {
    n <= |es| && forall j :: 0 <= j < n ==> !Matches(es[j], name)
  }

  lemma NextEntry(es: seq<Dirent>, name: seq<Byte>, n: nat)
    requires NotBefore(es, name, n)
    ensures if n < |es| && !Matches(es[n], name) then NotBefore(es, name, n + 1) else Find(es, name) == n
  {
    if n == |es| || Matches(es[n], name) { FindIs(es, name, n); }
  }

  /** One round of dirlookup's loop. */
  method TryEntry(fs: FileSystem, dp: nat, name: seq<Byte>, off: nat) returns (matches: bool, inum: nat)
    requires IsDir(fs, dp) && CString(name) && off % ENTRY == 0 && off < fs.inodes[dp].size
    modifies fs
    ensures fs.disk == old(fs.disk) && fs.inodes == old(fs.inodes) && fs.owner == old(fs.owner)
    ensures off / ENTRY < |DirEntries(fs, dp)|
    ensures matches <==> Matches(DirEntries(fs, dp)[off / ENTRY], name)
    ensures inum == DirEntries(fs, dp)[off / ENTRY].inum
  {
    var de := ReadEntry(fs, dp, off);
    inum := de.inum;
    matches := false;
    if de.inum != 0 { matches := SameName(name, de.name); }
  }

  /** dirlink's search for an empty entry. */
  method FirstFreeEntry(fs: FileSystem, dp: nat) returns (off: nat)
    requires IsDir(fs, dp)
    modifies fs
    ensures fs.disk == old(fs.disk) && fs.inodes == old(fs.inodes) && fs.owner == old(fs.owner)
    ensures off % ENTRY == 0 && off <= fs.inodes[dp].size && off / ENTRY <= |DirEntries(fs, dp)|
    ensures off / ENTRY < |DirEntries(fs, dp)| ==> DirEntries(fs, dp)[off / ENTRY].inum == 0
    ensures off == FreeEntry(DirEntries(fs, dp)) * ENTRY
  {
    off := 0;
    ghost var es := DirEntries(fs, dp);
    while off < fs.inodes[dp].size
      invariant IsDir(fs, dp) && fs.disk == old(fs.disk) && fs.inodes == old(fs.inodes) && fs.owner == old(fs.owner)
      invariant off % ENTRY == 0 && off <= fs.inodes[dp].size && InUseBefore(es, off / ENTRY)
      decreases fs.inodes[dp].size - off
    {
      var de := ReadEntry(fs, dp, off);
      EntryBounds(off, fs.inodes[dp].size);
      if de.inum == 0 {
        FreeEntryIs(es, off / ENTRY);
        return;
      }
      NextInUse(es, off / ENTRY);
      off := off + ENTRY;
    }
    FreeEntryIs(es, off / ENTRY);
  }

  lemma FreeEntryIs(es: seq<Dirent>, n: nat)
    requires InUseBefore(es, n) && (n < |es| ==> es[n].inum == 0)
    ensures FreeEntry(es) == n
  {
  }

  ghost predicate InUseBefore(es: seq<Dirent>, n: nat) { n <= |es| && forall j :: 0 <= j < n ==> es[j].inum != 0 }

  lemma NextInUse(es: seq<Dirent>, n: nat)
    requires InUseBefore(es, n) && n < |es| && es[n].inum != 0
    ensures InUseBefore(es, n + 1)
  {
  }

  datatype Outcome = Done | Exists | Stopped

  /** The directory may have an entry at off, and the disk the blocks it needs. */
  ghost predicate EntryFits(fs: FileSystem, dp: nat, off: nat)
    reads fs
  {
    off + ENTRY <= MAXFILE * BSIZE && Space(fs.l, fs.disk) >= NeedWrite(fs.disk, fs.inodes, dp, off, ENTRY)
  }

  /** dirlink.  Stopped stands for a panic: the directory is full, or the disk. */
  method Dirlink(fs: FileSystem, dp: nat, name: seq<Byte>, inum: nat) returns (r: Outcome)
    requires IsDir(fs, dp) && CString(name) && 0 < inum < 0x1_0000
    modifies fs
    ensures r == Exists <==> old(Meaning(DirEntries(fs, dp), name)).Some?
    ensures r == Exists ==> fs.disk == old(fs.disk) && fs.inodes == old(fs.inodes)
    ensures r == Stopped <==> r != Exists && !old(EntryFits(fs, dp, FreeEntry(DirEntries(fs, dp)) * ENTRY))
    ensures r == Done ==> IsDir(fs, dp) && |fs.inodes| == |old(fs.inodes)|
    ensures r == Done ==> forall other :: Meaning(DirEntries(fs, dp), other) ==
                            if Cut(other) == Cut(name) then Some(inum) else old(Meaning(DirEntries(fs, dp), other))
    ensures r == Done ==> forall h :: 0 <= h < |fs.inodes| && h != dp ==>
                            FileBytes(fs.disk, fs.inodes, h) == old(FileBytes(fs.disk, fs.inodes, h))
  {
    var found := Dirlookup(fs, dp, name);
    if found.Found? { return Exists; }
    var off := FirstFreeEntry(fs, dp);
    ghost var es := DirEntries(fs, dp);
    var ok := WriteEntry(fs, dp, off, Dirent(inum, Field(name)));
    if !ok { return Stopped; }
    forall other
      ensures Meaning(DirEntries(fs, dp), other) == if Cut(other) == Cut(name) then Some(inum) else Meaning(es, other)
    {
      LinkedMeaning(es, off / ENTRY, name, inum, other);
    }
    r := Done;
  }

  /** Writes one entry, in place or at the end. */
  method WriteEntry(fs: FileSystem, dp: nat, off: nat, de: Dirent) returns (ok: bool)
    requires IsDir(fs, dp) && off % ENTRY == 0 && off <= fs.inodes[dp].size && |de.name| == DIRSIZ && de.inum < 0x1_0000
    modifies fs
    ensures ok <==> old(EntryFits(fs, dp, off))
    ensures ok ==> IsDir(fs, dp) && |fs.inodes| == |old(fs.inodes)|
    ensures ok ==> off / ENTRY <= |old(DirEntries(fs, dp))|
    ensures ok ==> DirEntries(fs, dp) == Linked(old(DirEntries(fs, dp)), off / ENTRY, de)
    ensures ok ==>
      forall h :: 0 <= h < |fs.inodes| && h != dp ==>
        FileBytes(fs.disk, fs.inodes, h) == old(FileBytes(fs.disk, fs.inodes, h))
  {
    SizeLimit(fs.l, fs.disk, fs.inodes, fs.owner, dp);
    ghost var d0, s0 := fs.disk, fs.inodes;
    var w := fs.Writei(dp, off, EntryBytes(de));
    ok := w.Ok?;
    if ok { EntryWritten(d0, s0, fs.disk, fs.inodes, dp, off, de); }
  }

  lemma EntryWritten(d0: seq<Block>, s0: seq<Inode>, d: seq<Block>, s: seq<Inode>, dp: nat, off: nat, de: Dirent)
    requires |de.name| == DIRSIZ && de.inum < 0x1_0000 && off % ENTRY == 0
    requires Written(d0, s0, d, s, dp, off, EntryBytes(de)) && s0[dp].size % ENTRY == 0 && NoHoles(d0, s0, dp)
    ensures s[dp].size % ENTRY == 0 && NoHoles(d, s, dp) && off / ENTRY <= |Entries(FileBytes(d0, s0, dp))|
    ensures Entries(FileBytes(d, s, dp)) == Linked(Entries(FileBytes(d0, s0, dp)), off / ENTRY, de)
  {
    var size := s0[dp].size;
    assert off / ENTRY <= size / ENTRY && off / ENTRY * ENTRY == off;
    SplicedEntries(FileBytes(d0, s0, dp), off / ENTRY, de);
    assert s[dp].size == |FileBytes(d, s, dp)|;
  }
}
