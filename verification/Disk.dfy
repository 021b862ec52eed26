/** Disk blocks, devices and sequences of block writes (fs.h, buf.h, param.h). */
module Disk {

  const MAXOPBLOCKS := 10
  const LOGSIZE := MAXOPBLOCKS * 3
  const NBUF := MAXOPBLOCKS * 3

  /** Words of four bytes in one block: BSIZE / sizeof(int). */
  const BWORDS := 128

  type Block = b: seq<int> | |b| == BWORDS witness seq(BWORDS, _ => 0)

  datatype BlockId = BlockId(dev: int, no: int)

  type DiskMap = map<BlockId, Block>

  /** One completed bwrite; the disk driver makes each of them atomic. */
  datatype Write = Write(id: BlockId, data: Block)

  function Apply(d: DiskMap, ws: seq<Write>): (r: DiskMap)
    decreases |ws|
  {
    if ws == [] then d
    else
      var w := ws[|ws| - 1];
      Apply(d, ws[..|ws| - 1])[w.id := w.data]
  }

  ghost predicate WritesInto(d: DiskMap, ws: seq<Write>) {
    forall i :: 0 <= i < |ws| ==> ws[i].id in d
  }

  ghost predicate DistinctTargets(ws: seq<Write>) {
    forall i, j :: 0 <= i < j < |ws| ==> ws[i].id != ws[j].id
  }

  lemma {:induction false} ApplyOne(d: DiskMap, ws: seq<Write>, k: nat)
    requires k < |ws|
    ensures Apply(d, ws[..k + 1]) == Apply(d, ws[..k])[ws[k].id := ws[k].data]
  {
    assert ws[..k + 1][..k] == ws[..k];
  }

  lemma {:induction false} ApplySnoc(d: DiskMap, ws: seq<Write>, w: Write)
    ensures Apply(d, ws + [w]) == Apply(d, ws)[w.id := w.data]
  {
    assert (ws + [w])[..|ws|] == ws;
  }

  lemma {:induction false} ApplyConcat(d: DiskMap, xs: seq<Write>, ys: seq<Write>)
    ensures Apply(d, xs + ys) == Apply(Apply(d, xs), ys)
    decreases |ys|
  {
    if ys == [] {
      assert xs + ys == xs;
    } else {
      var k := |ys| - 1;
      ApplyConcat(d, xs, ys[..k]);
      assert (xs + ys)[..|xs + ys| - 1] == xs + ys[..k];
    }
  }

  lemma {:induction false} ApplyKeepsKeys(d: DiskMap, ws: seq<Write>)
    requires WritesInto(d, ws)
    ensures Apply(d, ws).Keys == d.Keys
    decreases |ws|
  {
    if ws != [] {
      ApplyKeepsKeys(d, ws[..|ws| - 1]);
    }
  }

  /** Writes to different blocks: each target holds its own data, every other block is unchanged. */
  lemma {:induction false} ApplyDistinct(d: DiskMap, ws: seq<Write>)
    requires DistinctTargets(ws)
    ensures forall i :: 0 <= i < |ws| ==> ws[i].id in Apply(d, ws) && Apply(d, ws)[ws[i].id] == ws[i].data
    ensures forall id :: id in d && (forall i :: 0 <= i < |ws| ==> ws[i].id != id)
              ==> id in Apply(d, ws) && Apply(d, ws)[id] == d[id]
    decreases |ws|
  {
    if ws != [] {
      var k := |ws| - 1;
      ApplyDistinct(d, ws[..k]);
      forall id | id in d && (forall i :: 0 <= i < |ws| ==> ws[i].id != id)
        ensures id in Apply(d, ws) && Apply(d, ws)[id] == d[id]
      {
        assert ws[k].id != id;
        forall i | 0 <= i < k ensures ws[..k][i].id != id { assert ws[i].id != id; }
      }
      forall i | 0 <= i < |ws|
        ensures ws[i].id in Apply(d, ws) && Apply(d, ws)[ws[i].id] == ws[i].data
      {
        if i < k { assert ws[..k][i] == ws[i]; }
      }
    }
  }
}
