/** The redo log on disk: header format, the block writes of a commit and of a recovery,
    and what a crash between any two of those writes leaves behind (log.c). */
module LogSpec {
  import opened Disk

  /** The log area of one device, as initlog reads it from the superblock. */
  datatype LogArea = LogArea(dev: int, start: int, size: int) {
    function Head(): BlockId { BlockId(dev, start) }
    function Slot(i: int): BlockId { BlockId(dev, start + i + 1) }
    function Home(b: int): BlockId { BlockId(dev, b) }
    predicate Inside(id: BlockId) { id.dev == dev && start <= id.no < start + size }
    /** The most blocks log_write lets a transaction hold. */
    function Capacity(): int { if LOGSIZE < size - 1 then LOGSIZE else size - 1 }
  }

  ghost predicate Distinct(s: seq<int>) {
    forall i, j :: 0 <= i < j < |s| ==> s[i] != s[j]
  }

  /** Block numbers a transaction may log: few enough, distinct, on the disk, outside the log. */
  ghost predicate Loggable(a: LogArea, d: DiskMap, blocks: seq<int>) {
    && |blocks| <= a.Capacity()
    && Distinct(blocks)
    && forall i :: 0 <= i < |blocks| ==> a.Home(blocks[i]) in d && !a.Inside(a.Home(blocks[i]))
  }

  /** struct logheader laid over a block: n in the first word, then the block numbers. */
  function EncodeHead(prev: Block, blocks: seq<int>): (r: Block)
    requires |blocks| <= LOGSIZE
  {
    [|blocks|] + blocks + prev[1 + |blocks|..]
  }

  predicate HeadOk(h: Block) { 0 <= h[0] <= LOGSIZE }

  function DecodeHead(h: Block): (r: seq<int>)
    requires HeadOk(h)
    ensures |r| == h[0]
  {
    h[1..1 + h[0]]
  }

  /** read_head undoes write_head, whatever the header block held before. */
  lemma HeadRoundTrip(prev: Block, blocks: seq<int>)
    requires |blocks| <= LOGSIZE
    ensures HeadOk(EncodeHead(prev, blocks)) && DecodeHead(EncodeHead(prev, blocks)) == blocks
  {
    var h := EncodeHead(prev, blocks);
    assert h[0] == |blocks|;
    assert h[1..1 + |blocks|] == blocks;
  }

  /** A disk whose log area is present and whose header, empty or not, can be replayed. */
  ghost predicate Formatted(a: LogArea, d: DiskMap) {
    && a.size >= 1
    && (forall i :: 0 <= i < a.Capacity() ==> a.Slot(i) in d)
    && a.Head() in d
    && HeadOk(d[a.Head()])
    && Loggable(a, d, DecodeHead(d[a.Head()]))
  }

  ghost function Targets(a: LogArea, d: DiskMap): (r: seq<int>)
    requires Formatted(a, d)
  {
    DecodeHead(d[a.Head()])
  }

  ghost predicate Idle(a: LogArea, d: DiskMap) {
    Formatted(a, d) && Targets(a, d) == []
  }

  /** The blocks outside the log area. */
  ghost function HomeBlocks(a: LogArea, d: DiskMap): map<BlockId, Block> {
    map id | id in d && !a.Inside(id) :: d[id]
  }

  function IndexOf(s: seq<int>, x: int): (r: nat)
    requires x in s
    ensures r < |s| && s[r] == x
  {
    if s[0] == x then 0 else 1 + IndexOf(s[1..], x)
  }

  ghost predicate Names(a: LogArea, blocks: seq<int>, id: BlockId) {
    id.dev == a.dev && id.no in blocks
  }

  /** `home` with every block in `blocks` replaced by its entry in `vals`, all at once. */
  ghost function Installed(a: LogArea, home: map<BlockId, Block>, blocks: seq<int>,
                           vals: seq<Block>): map<BlockId, Block>
    requires |vals| == |blocks|
  {
    map id | id in home :: if Names(a, blocks, id) then vals[IndexOf(blocks, id.no)] else home[id]
  }

  ghost function SlotData(a: LogArea, d: DiskMap, n: nat): (r: seq<Block>)
    requires forall i :: 0 <= i < n ==> a.Slot(i) in d
    ensures |r| == n
    ensures forall i :: 0 <= i < n ==> r[i] == d[a.Slot(i)]
  {
    seq(n, i requires 0 <= i < n => d[a.Slot(i)])
  }

  /** What the home blocks mean: a committed log overrides the blocks it names. */
  ghost function Logical(a: LogArea, d: DiskMap): map<BlockId, Block>
    requires Formatted(a, d)
  {
    var t := Targets(a, d);
    Installed(a, HomeBlocks(a, d), t, SlotData(a, d, |t|))
  }

  // ----- the block writes of the code, in order -----

  /** write_log */
  function LogWrites(a: LogArea, vals: seq<Block>): (r: seq<Write>)
    ensures |r| == |vals|
  {
    seq(|vals|, i requires 0 <= i < |vals| => Write(a.Slot(i), vals[i]))
  }

  /** install_trans */
  function InstallWrites(a: LogArea, blocks: seq<int>, vals: seq<Block>): (r: seq<Write>)
    requires |blocks| == |vals|
    ensures |r| == |vals|
  {
    seq(|vals|, i requires 0 <= i < |vals| => Write(a.Home(blocks[i]), vals[i]))
  }

  /** install_trans, then write_head with n = 0 (the end of commit and of recover_from_log). */
  function Replay(a: LogArea, head: Block, blocks: seq<int>, vals: seq<Block>): (r: seq<Write>)
    requires |blocks| == |vals|
    ensures |r| == |vals| + 1
  {
    InstallWrites(a, blocks, vals) + [Write(a.Head(), EncodeHead(head, []))]
  }

  /** commit */
  function CommitWrites(a: LogArea, head: Block, blocks: seq<int>, vals: seq<Block>): (r: seq<Write>)
    requires |blocks| == |vals| <= LOGSIZE
    ensures |r| == if |blocks| == 0 then 0 else 2 * |blocks| + 2
  {
    if |blocks| == 0 then [] else
      var h := EncodeHead(head, blocks);
      LogWrites(a, vals) + [Write(a.Head(), h)] + Replay(a, h, blocks, vals)
  }

  /** recover_from_log */
  ghost function RecoverWrites(a: LogArea, d: DiskMap): (r: seq<Write>)
    requires Formatted(a, d)
    ensures |r| == |Targets(a, d)| + 1
  {
    var t := Targets(a, d);
    Replay(a, d[a.Head()], t, SlotData(a, d, |t|))
  }

  // ----- recovery -----

  lemma InstallsAreDistinct(a: LogArea, d: DiskMap, blocks: seq<int>, vals: seq<Block>, k: nat)
    requires |blocks| == |vals| && Loggable(a, d, blocks) && k <= |vals|
    ensures DistinctTargets(InstallWrites(a, blocks, vals)[..k])
    ensures WritesInto(d, InstallWrites(a, blocks, vals)[..k])
  {
  }

  /** The disk after the first k installs. */
  lemma InstallPrefix(a: LogArea, d: DiskMap, k: nat)
    requires Formatted(a, d) && k <= |Targets(a, d)|
    ensures var e := Apply(d, RecoverWrites(a, d)[..k]);
            && e.Keys == d.Keys
            && (forall id :: id in d && !Names(a, Targets(a, d)[..k], id) ==> e[id] == d[id])
            && (forall i :: 0 <= i < k ==> e[a.Home(Targets(a, d)[i])] == d[a.Slot(i)])
  {
    var t := Targets(a, d);
    var vals := SlotData(a, d, |t|);
    var ws := InstallWrites(a, t, vals)[..k];
    assert RecoverWrites(a, d)[..k] == ws;
    InstallsAreDistinct(a, d, t, vals, k);
    ApplyDistinct(d, ws);
    ApplyKeepsKeys(d, ws);
    var e := Apply(d, ws);
    forall id | id in d && !Names(a, t[..k], id) ensures e[id] == d[id] {
      forall i | 0 <= i < |ws| ensures ws[i].id != id { assert t[..k][i] == t[i]; }
    }
    forall i | 0 <= i < k ensures e[a.Home(t[i])] == d[a.Slot(i)] {
      assert ws[i].id == a.Home(t[i]);
    }
  }

  /** Two formatted disks with the same log and the same home blocks outside the log's targets
      mean the same. */
  lemma SameMeaning(a: LogArea, d: DiskMap, e: DiskMap)
    requires Formatted(a, d) && Formatted(a, e) && e.Keys == d.Keys
    requires Targets(a, e) == Targets(a, d)
    requires forall i :: 0 <= i < |Targets(a, d)| ==> e[a.Slot(i)] == d[a.Slot(i)]
    requires forall id :: id in d && !a.Inside(id) && !Names(a, Targets(a, d), id) ==> e[id] == d[id]
    ensures Logical(a, e) == Logical(a, d)
  {
    var t := Targets(a, d);
    assert SlotData(a, e, |t|) == SlotData(a, d, |t|);
    assert HomeBlocks(a, e).Keys == HomeBlocks(a, d).Keys;
  }

  lemma UnlockedSlots(a: LogArea, d: DiskMap, i: int)
    requires Formatted(a, d) && 0 <= i < a.Capacity()
    ensures a.Inside(a.Slot(i)) && a.Inside(a.Head()) && a.Slot(i) != a.Head()
  {
  }

  /** Disk e still has its log area and means m. */
  ghost predicate Means(a: LogArea, d: DiskMap, e: DiskMap, m: map<BlockId, Block>) {
    e.Keys == d.Keys && Formatted(a, e) && Logical(a, e) == m
  }

  lemma RecoveryInstalling(a: LogArea, d: DiskMap, k: nat)
    requires Formatted(a, d) && k <= |Targets(a, d)|
    ensures Means(a, d, Apply(d, RecoverWrites(a, d)[..k]), Logical(a, d))
  {
    var t := Targets(a, d);
    InstallPrefix(a, d, k);
    var e := Apply(d, RecoverWrites(a, d)[..k]);
    forall id | id in d && a.Inside(id) ensures e[id] == d[id] {
      assert !Names(a, t[..k], id);
    }
    forall i | 0 <= i < |t| ensures e[a.Slot(i)] == d[a.Slot(i)] { UnlockedSlots(a, d, i); }
    assert e[a.Head()] == d[a.Head()];
    forall id | id in d && !a.Inside(id) && !Names(a, t, id) ensures e[id] == d[id] {
      assert !Names(a, t[..k], id);
    }
    SameMeaning(a, d, e);
  }

  lemma RecoveryDone(a: LogArea, d: DiskMap)
    requires Formatted(a, d)
    ensures var e := Apply(d, RecoverWrites(a, d));
            e.Keys == d.Keys && Idle(a, e) && HomeBlocks(a, e) == Logical(a, d)
  {
    var n := |Targets(a, d)|;
    var ws := RecoverWrites(a, d);
    InstallPrefix(a, d, n);
    ApplyOne(d, ws, n);
    assert ws[..n + 1] == ws;
    var e0 := Apply(d, ws[..n]);
    assert Targets(a, d)[..n] == Targets(a, d);
    RecoveredHome(a, d, e0);
    HeaderCleared(a, d, e0);
  }

  /** Emptying the header ends the log and touches no home block. */
  lemma HeaderCleared(a: LogArea, d: DiskMap, e0: DiskMap)
    requires Formatted(a, d) && e0.Keys == d.Keys
    ensures var e := e0[a.Head() := EncodeHead(d[a.Head()], [])];
            e.Keys == d.Keys && Idle(a, e) && HomeBlocks(a, e) == HomeBlocks(a, e0)
  {
    HeadRoundTrip(d[a.Head()], []);
    assert a.Inside(a.Head());
  }

  /** With every target installed the home blocks are what the disk meant. */
  lemma RecoveredHome(a: LogArea, d: DiskMap, e: DiskMap)
    requires Formatted(a, d) && e.Keys == d.Keys
    requires forall id {:trigger Names(a, Targets(a, d), id)} ::
      id in d && !Names(a, Targets(a, d), id) ==> e[id] == d[id]
    requires forall i :: 0 <= i < |Targets(a, d)| ==> e[a.Home(Targets(a, d)[i])] == d[a.Slot(i)]
    ensures HomeBlocks(a, e) == Logical(a, d)
  {
    var home, meant := HomeBlocks(a, e), Logical(a, d);
    forall id | id in home ensures id in meant && home[id] == meant[id] { RecoveredBlock(a, d, e, id); }
    assert forall id :: id in meant ==> id in home;
  }

  lemma RecoveredBlock(a: LogArea, d: DiskMap, e: DiskMap, id: BlockId)
    requires Formatted(a, d) && e.Keys == d.Keys && id in d && !a.Inside(id)
    requires !Names(a, Targets(a, d), id) ==> e[id] == d[id]
    requires forall i :: 0 <= i < |Targets(a, d)| ==>
      a.Home(Targets(a, d)[i]) in d && e[a.Home(Targets(a, d)[i])] == d[a.Slot(i)]
    ensures e[id] == Logical(a, d)[id]
  {
    var t := Targets(a, d);
    if Names(a, t, id) {
      var i := IndexOf(t, id.no);
      assert a.Home(t[i]) == id;
    }
  }

  lemma IdleMeaning(a: LogArea, d: DiskMap)
    requires Idle(a, d)
    ensures Logical(a, d) == HomeBlocks(a, d)
  {
  }

  /** A crash during recovery loses nothing: after any prefix of recovery's writes the disk is
      still replayable and means the same; after all of them the home blocks hold that meaning
      and the log is empty. */
  lemma RecoveryPrefix(a: LogArea, d: DiskMap, k: nat)
    requires Formatted(a, d) && k <= |RecoverWrites(a, d)|
    ensures var e := Apply(d, RecoverWrites(a, d)[..k]);
            && Means(a, d, e, Logical(a, d))
            && (k == |RecoverWrites(a, d)| ==> Idle(a, e) && HomeBlocks(a, e) == Logical(a, d))
  {
    var ws := RecoverWrites(a, d);
    if k < |ws| {
      RecoveryInstalling(a, d, k);
    } else {
      assert ws[..k] == ws;
      RecoveryDone(a, d);
      IdleMeaning(a, Apply(d, ws));
    }
  }

  // ----- commit -----

  lemma CommitLogging(a: LogArea, d: DiskMap, blocks: seq<int>, vals: seq<Block>, k: nat)
    requires Idle(a, d) && Loggable(a, d, blocks) && |vals| == |blocks|
    requires 0 < |blocks| && k <= |blocks|
    ensures Means(a, d, Apply(d, CommitWrites(a, d[a.Head()], blocks, vals)[..k]), HomeBlocks(a, d))
  {
    LogPhase(a, d, vals, k);
    assert CommitWrites(a, d[a.Head()], blocks, vals)[..k] == LogWrites(a, vals)[..k];
    var e := Apply(d, LogWrites(a, vals)[..k]);
    SameMeaning(a, d, e);
    IdleMeaning(a, d);
  }

  /** The header write is the commit point, and the writes left after it are exactly those a
      recovery of that disk performs. */
  lemma CommitPoint(a: LogArea, d: DiskMap, blocks: seq<int>, vals: seq<Block>)
    requires Idle(a, d) && Loggable(a, d, blocks) && |vals| == |blocks| > 0
    ensures var n := |blocks|;
            var ws := CommitWrites(a, d[a.Head()], blocks, vals);
            var e := Apply(d, ws[..n + 1]);
            && Means(a, d, e, Installed(a, HomeBlocks(a, d), blocks, vals))
            && ws[n + 1..] == RecoverWrites(a, e)
  {
    var n := |blocks|;
    var ws := CommitWrites(a, d[a.Head()], blocks, vals);
    var h := EncodeHead(d[a.Head()], blocks);
    LogPhase(a, d, vals, n);
    assert ws[..n] == LogWrites(a, vals)[..n];
    ApplyOne(d, ws, n);
    var e := Apply(d, ws[..n + 1]);
    assert e == Apply(d, ws[..n])[a.Head() := h];
    HeadRoundTrip(d[a.Head()], blocks);
    CommittedMeaning(a, d, e, blocks, vals);
    assert SlotData(a, e, n) == vals;
    assert ws[n + 1..] == Replay(a, h, blocks, vals);
  }

  lemma PrefixSplits(ws: seq<Write>, n: nat, k: nat)
    requires n <= k <= |ws|
    ensures ws[..k] == ws[..n] + ws[n..][..k - n]
  {
  }

  lemma CommitReplaying(a: LogArea, d: DiskMap, blocks: seq<int>, vals: seq<Block>, k: nat)
    requires Idle(a, d) && Loggable(a, d, blocks) && |vals| == |blocks| > 0
    requires |blocks| < k <= |CommitWrites(a, d[a.Head()], blocks, vals)|
    ensures var ws := CommitWrites(a, d[a.Head()], blocks, vals);
            var e := Apply(d, ws[..k]);
            && Means(a, d, e, Installed(a, HomeBlocks(a, d), blocks, vals))
            && (k == |ws| ==> Idle(a, e) && HomeBlocks(a, e) == Logical(a, e))
  {
    var n := |blocks|;
    var ws := CommitWrites(a, d[a.Head()], blocks, vals);
    CommitPoint(a, d, blocks, vals);
    var e := Apply(d, ws[..n + 1]);
    var rest := RecoverWrites(a, e)[..k - n - 1];
    PrefixSplits(ws, n + 1, k);
    ApplyConcat(d, ws[..n + 1], rest);
    RecoveryPrefix(a, e, k - n - 1);
  }

  /** A crash after any prefix of commit's writes leaves either the state before the transaction
      or the state with all of its blocks installed; it is the latter exactly when the header
      write is among the completed ones. */
  lemma CommitPrefix(a: LogArea, d: DiskMap, blocks: seq<int>, vals: seq<Block>, k: nat)
    requires Idle(a, d) && Loggable(a, d, blocks) && |vals| == |blocks|
    requires k <= |CommitWrites(a, d[a.Head()], blocks, vals)|
    ensures var ws := CommitWrites(a, d[a.Head()], blocks, vals);
            var e := Apply(d, ws[..k]);
            && Means(a, d, e, if |blocks| < k then Installed(a, HomeBlocks(a, d), blocks, vals) else HomeBlocks(a, d))
            && (k == |ws| ==> Idle(a, e) && HomeBlocks(a, e) == Logical(a, e))
  {
    var n := |blocks|;
    var ws := CommitWrites(a, d[a.Head()], blocks, vals);
    if n == 0 {
      assert ws[..k] == [];
      IdleMeaning(a, d);
    } else if k <= n {
      CommitLogging(a, d, blocks, vals, k);
    } else {
      CommitReplaying(a, d, blocks, vals, k);
    }
  }

  lemma LogPhase(a: LogArea, d: DiskMap, vals: seq<Block>, k: nat)
    requires Idle(a, d) && k <= |vals| <= a.Capacity()
    ensures var e := Apply(d, LogWrites(a, vals)[..k]);
            && e.Keys == d.Keys
            && (forall id :: id in d && (!a.Inside(id) || id == a.Head()) ==> e[id] == d[id])
            && (forall i :: 0 <= i < k ==> e[a.Slot(i)] == vals[i])
            && Idle(a, e)
  {
    var ws := LogWrites(a, vals)[..k];
    assert DistinctTargets(ws);
    assert WritesInto(d, ws) by {
      forall i | 0 <= i < |ws| ensures ws[i].id in d { UnlockedSlots(a, d, i); }
    }
    ApplyDistinct(d, ws);
    ApplyKeepsKeys(d, ws);
    var e := Apply(d, ws);
    forall id | id in d && (!a.Inside(id) || id == a.Head()) ensures e[id] == d[id] {
      forall i | 0 <= i < |ws| ensures ws[i].id != id { UnlockedSlots(a, d, i); }
    }
    forall i | 0 <= i < k ensures e[a.Slot(i)] == vals[i] {
      assert ws[i].id == a.Slot(i);
    }
  }

  lemma CommittedMeaning(a: LogArea, d: DiskMap, e: DiskMap, blocks: seq<int>, vals: seq<Block>)
    requires Idle(a, d) && Loggable(a, d, blocks) && |vals| == |blocks| && e.Keys == d.Keys
    requires HeadOk(e[a.Head()]) && DecodeHead(e[a.Head()]) == blocks
    requires forall i :: 0 <= i < |vals| ==> e[a.Slot(i)] == vals[i]
    requires forall id :: id in d && !a.Inside(id) ==> e[id] == d[id]
    ensures Formatted(a, e) && Logical(a, e) == Installed(a, HomeBlocks(a, d), blocks, vals)
  {
    assert SlotData(a, e, |blocks|) == vals;
    assert HomeBlocks(a, e) == HomeBlocks(a, d);
  }

  // ----- any number of crashed recoveries -----

  /** The disk after recoveries that crash after ks[0], ks[1], ... writes. */
  ghost function Crashed(a: LogArea, d: DiskMap, ks: seq<nat>): (e: DiskMap)
    requires Formatted(a, d)
    decreases |ks|
  {
    if ks == [] then d
    else
      var ws := RecoverWrites(a, d);
      var k := if ks[0] < |ws| then ks[0] else |ws|;
      RecoveryPrefix(a, d, k);
      Crashed(a, Apply(d, ws[..k]), ks[1..])
  }

  lemma {:induction false} CrashedRecoveries(a: LogArea, d: DiskMap, ks: seq<nat>)
    requires Formatted(a, d)
    ensures Formatted(a, Crashed(a, d, ks)) && Logical(a, Crashed(a, d, ks)) == Logical(a, d)
    ensures Crashed(a, d, ks).Keys == d.Keys
    decreases |ks|
  {
    if ks != [] {
      var ws := RecoverWrites(a, d);
      var k := if ks[0] < |ws| then ks[0] else |ws|;
      RecoveryPrefix(a, d, k);
      CrashedRecoveries(a, Apply(d, ws[..k]), ks[1..]);
    }
  }

  /** Crash atomicity: commit crashes after any k writes, any number of recoveries crash at any
      point, one recovery completes; the home blocks then hold all of the transaction or none
      of it, and all of it exactly when the header had been written. */
  lemma CrashAtomicity(a: LogArea, d: DiskMap, blocks: seq<int>, vals: seq<Block>, k: nat, ks: seq<nat>)
    requires Idle(a, d) && Loggable(a, d, blocks) && |vals| == |blocks|
    requires k <= |CommitWrites(a, d[a.Head()], blocks, vals)|
    ensures var e := Apply(d, CommitWrites(a, d[a.Head()], blocks, vals)[..k]);
            && Formatted(a, e)
            && var c := Crashed(a, e, ks);
            && Formatted(a, c)
            && var r := Apply(c, RecoverWrites(a, c));
            && Idle(a, r)
            && HomeBlocks(a, r)
               == (if |blocks| < k then Installed(a, HomeBlocks(a, d), blocks, vals) else HomeBlocks(a, d))
  {
    CommitPrefix(a, d, blocks, vals, k);
    var e := Apply(d, CommitWrites(a, d[a.Head()], blocks, vals)[..k]);
    CrashedRecoveries(a, e, ks);
    var c := Crashed(a, e, ks);
    var ws := RecoverWrites(a, c);
    assert ws[..|ws|] == ws;
    RecoveryPrefix(a, c, |ws|);
  }
}
