/** Runs that meet the limits of the log: what log_write's unlocked guards let through, and when
    re-logging a block panics (log.c:340). */
module LogLimits {
  import opened Disk
  import opened LogSpec
  import opened LogMachine

  /** LOGSIZE home blocks from `base` on that the operations below may log. */
  ghost predicate Spare(a: LogArea, d: DiskMap, base: int) {
    && Idle(a, d)
    && forall b :: base <= b < base + LOGSIZE ==> a.Home(b) in d && !a.Inside(a.Home(b))
  }

  function Zero(): (r: Block) { seq(BWORDS, _ => 0) }

  function FirstBlocks(base: int, m: nat): (r: seq<int>) { seq(m, i => base + i) }

  function Pins(base: int, m: nat): map<int, Block> { map b | b in FirstBlocks(base, m) :: Zero() }

  /** Three operations have taken turns logging m blocks. */
  function TurnOps(m: nat): (r: seq<Op>)
    requires m <= LOGSIZE
  {
    seq(NPROC, p requires 0 <= p < NPROC => if p < 3 then Active(MAXOPBLOCKS - (m + 2 - p) / 3) else Out)
  }

  function Filled(d: DiskMap, base: int, m: nat): State
    requires m <= LOGSIZE
  {
    State(d, Pins(base, m), FirstBlocks(base, m), 3, TurnOps(m), Running, false)
  }

  ghost predicate Reaches(a: LogArea, s: State) {
    exists run, steps :: IsRun(a, run, steps) && run[|run| - 1] == s
  }

  lemma Extend(a: LogArea, s: State, step: Step, next: State)
    requires Reaches(a, s) && Next(a, s, step, next)
    ensures Reaches(a, next)
  {
    var run, steps :| IsRun(a, run, steps) && run[|run| - 1] == s;
    var longer, more := run + [next], steps + [step];
    forall i | 0 <= i < |more| ensures Follows(a, longer, more, i) {
      if i < |steps| { assert Follows(a, run, steps, i); }
    }
    assert IsRun(a, longer, more);
  }

  lemma ThreeBegin(a: LogArea, d: DiskMap, base: int)
    requires Spare(a, d, base)
    ensures Reaches(a, Filled(d, base, 0))
  {
    var s0 := State(d, map[], [], 0, seq(NPROC, _ => Out), Running, false);
    assert IsRun(a, [s0], []);
    assert [s0][|[s0]| - 1] == s0;
    var s1 := s0.(outstanding := 1, ops := s0.ops[0 := Active(MAXOPBLOCKS)]);
    Extend(a, s0, Begin(0), s1);
    var s2 := s1.(outstanding := 2, ops := s1.ops[1 := Active(MAXOPBLOCKS)]);
    Extend(a, s1, Begin(1), s2);
    var s3 := s2.(outstanding := 3, ops := s2.ops[2 := Active(MAXOPBLOCKS)]);
    Extend(a, s2, Begin(2), s3);
    assert s3.ops == TurnOps(0);
    assert FirstBlocks(base, 0) == [];
    assert Pins(base, 0) == map[];
    assert s3 == Filled(d, base, 0);
  }

  /** The state after the operation whose turn it is has passed the guards for block m. */
  function Guarded(d: DiskMap, base: int, m: nat): State
    requires m < LOGSIZE
  {
    var s := Filled(d, base, m);
    s.(ops := s.ops[m % 3 := Checked(s.ops[m % 3].left, base + m, Zero())])
  }

  lemma GuardStep(a: LogArea, d: DiskMap, base: int, m: nat)
    requires Spare(a, d, base) && m < LOGSIZE && m < a.size - 1
    ensures Next(a, Filled(d, base, m), Check(m % 3, base + m, Zero()), Guarded(d, base, m))
  {
  }

  lemma AppendStep(a: LogArea, d: DiskMap, base: int, m: nat)
    requires Spare(a, d, base) && m < LOGSIZE
    ensures Next(a, Guarded(d, base, m), Append(m % 3), Filled(d, base, m + 1))
  {
    var s, t := Guarded(d, base, m), Filled(d, base, m + 1);
    assert base + m !in s.lh;
    assert t.lh == s.lh + [base + m];
    assert t.pinned == s.pinned[base + m := Zero()];
    forall p | 0 <= p < NPROC
      ensures t.ops[p] == s.ops[m % 3 := Active(s.ops[m % 3].left - 1)][p]
    {
    }
    assert t.ops == s.ops[m % 3 := Active(s.ops[m % 3].left - 1)];
  }

  lemma {:induction false} Fill(a: LogArea, d: DiskMap, base: int, m: nat)
    requires Spare(a, d, base) && m <= LOGSIZE && m <= a.size - 1
    ensures Reaches(a, Filled(d, base, m))
  {
    if m == 0 {
      ThreeBegin(a, d, base);
    } else {
      Fill(a, d, base, m - 1);
      GuardStep(a, d, base, m - 1);
      Extend(a, Filled(d, base, m - 1), Check((m - 1) % 3, base + m - 1, Zero()), Guarded(d, base, m - 1));
      AppendStep(a, d, base, m - 1);
      Extend(a, Guarded(d, base, m - 1), Append((m - 1) % 3), Filled(d, base, m));
    }
  }

  /** In state s operation p calls log_write for block b, and the kernel panics. */
  ghost predicate Panics(a: LogArea, s: State, p: nat, b: int) {
    && Reaches(a, s) && !s.panicked && p < |s.ops| && s.ops[p].Active?
    && Next(a, s, Check(p, b, Zero()), s.(panicked := true))
  }

  /** Re-logging a block the transaction already holds panics once the log is full, although it
      needs no room: a run within every operation's budget of new blocks reaches the panic. */
  lemma AbsorptionPanics(a: LogArea, d: DiskMap, base: int)
    requires Spare(a, d, base) && a.size > LOGSIZE
    ensures exists s, p: nat, b :: Panics(a, s, p, b) && b in s.lh
  {
    Fill(a, d, base, LOGSIZE);
    var s := Filled(d, base, LOGSIZE);
    assert s.lh[0] == base;
    assert Panics(a, s, 0, base);
  }

  /** In an area of at most LOGSIZE blocks an operation panics on a new block that its budget and
      its reservation cover, with no race: the area is full before the reservation is. */
  lemma BudgetPanics(a: LogArea, d: DiskMap, base: int)
    requires Spare(a, d, base) && a.size <= LOGSIZE
    ensures exists s, p: nat, b :: Panics(a, s, p, b) && b !in s.lh && s.ops[p].left >= 1
  {
    var m := a.size - 1;
    Fill(a, d, base, m);
    var s := Filled(d, base, m);
    assert Panics(a, s, m % 3, base + m);
  }

  /** No operation with budget left meets log_write's guards. */
  ghost predicate BudgetSuffices(a: LogArea) {
    forall s, p: nat :: Reaches(a, s) && p < |s.ops| && s.ops[p].Active? && s.ops[p].left >= 1 ==> !CheckPanics(a, s)
  }

  /** An operation within its budget passes log_write's guards in every reachable state exactly when
      the log area has more than LOGSIZE blocks. */
  lemma BudgetSufficesIff(a: LogArea, d: DiskMap, base: int)
    requires Spare(a, d, base)
    ensures BudgetSuffices(a) <==> a.size > LOGSIZE
  {
    if a.size > LOGSIZE {
      forall s, p: nat | Reaches(a, s) && p < |s.ops| && s.ops[p].Active? && s.ops[p].left >= 1
        ensures !CheckPanics(a, s)
      {
        var run, steps :| IsRun(a, run, steps) && run[|run| - 1] == s;
        LogWritePanics(a, run, steps, |run| - 1, p);
      }
    } else {
      BudgetPanics(a, d, base);
      var s, p: nat, b :| Panics(a, s, p, b) && b !in s.lh && s.ops[p].left >= 1;
      assert CheckPanics(a, s) && s.ops[p].Active?;
    }
  }

  /** Two operations have passed the size guard together. */
  function BothChecked(d: DiskMap, base: int, m: nat): State
    requires m + 1 < LOGSIZE
  {
    var s, q := Guarded(d, base, m), (m + 1) % 3;
    s.(ops := s.ops[q := Checked(TurnOps(m)[q].left, base + m + 1, Zero())])
  }

  lemma SecondGuard(a: LogArea, d: DiskMap, base: int, m: nat)
    requires Spare(a, d, base) && m + 2 == a.size <= LOGSIZE
    ensures Next(a, Guarded(d, base, m), Check((m + 1) % 3, base + m + 1, Zero()), BothChecked(d, base, m))
  {
    assert Guarded(d, base, m).ops[(m + 1) % 3] == TurnOps(m)[(m + 1) % 3];
  }

  lemma FirstAppends(a: LogArea, d: DiskMap, base: int, m: nat)
    requires Spare(a, d, base) && m + 1 < LOGSIZE
    ensures Next(a, BothChecked(d, base, m), Append(m % 3), Guarded(d, base, m + 1))
  {
    AppendStep(a, d, base, m);
    var t, u, q := BothChecked(d, base, m), Guarded(d, base, m + 1), (m + 1) % 3;
    assert TurnOps(m)[q].left == TurnOps(m + 1)[q].left;
    assert u.ops == t.ops[m % 3 := Active(t.ops[m % 3].left - 1)];
  }

  /** Both then append. */
  lemma RaceSteps(a: LogArea, d: DiskMap, base: int, m: nat)
    requires Spare(a, d, base) && m + 2 == a.size <= LOGSIZE
    ensures Reaches(a, Filled(d, base, a.size))
  {
    Fill(a, d, base, m);
    GuardStep(a, d, base, m);
    Extend(a, Filled(d, base, m), Check(m % 3, base + m, Zero()), Guarded(d, base, m));
    SecondGuard(a, d, base, m);
    Extend(a, Guarded(d, base, m), Check((m + 1) % 3, base + m + 1, Zero()), BothChecked(d, base, m));
    BothAppend(a, d, base, m);
  }

  lemma BothAppend(a: LogArea, d: DiskMap, base: int, m: nat)
    requires Spare(a, d, base) && m + 1 < LOGSIZE && Reaches(a, BothChecked(d, base, m))
    ensures Reaches(a, Filled(d, base, m + 2))
  {
    FirstAppends(a, d, base, m);
    Extend(a, BothChecked(d, base, m), Append(m % 3), Guarded(d, base, m + 1));
    AppendStep(a, d, base, m + 1);
    Extend(a, Guarded(d, base, m + 1), Append((m + 1) % 3), Filled(d, base, m + 2));
  }

  /** So the log outgrows its area. */
  lemma GuardsRace(a: LogArea, d: DiskMap, base: int)
    requires Spare(a, d, base) && 2 <= a.size <= LOGSIZE
    ensures exists s :: Reaches(a, s) && |s.lh| == a.size
  {
    RaceSteps(a, d, base, a.size - 2);
    assert |Filled(d, base, a.size).lh| == a.size;
  }

  /** The commit that begins when all three operations have ended. */
  function Commits(a: LogArea, d: DiskMap, base: int, n: nat): State
    requires n <= LOGSIZE && a.Head() in d
  {
    State(d, Pins(base, n), FirstBlocks(base, n), 0, seq(NPROC, _ => Out),
      Committing(d, CommitWrites(a, d[a.Head()], FirstBlocks(base, n), seq(n, _ => Zero())), 0), false)
  }

  lemma ThreeEnd(a: LogArea, d: DiskMap, base: int, n: nat)
    requires n <= LOGSIZE && a.Head() in d && Reaches(a, Filled(d, base, n))
    ensures Reaches(a, Commits(a, d, base, n))
  {
    var s := Filled(d, base, n);
    var s1 := s.(outstanding := 2, ops := s.ops[0 := Out]);
    Extend(a, s, End(0), s1);
    var s2 := s1.(outstanding := 1, ops := s1.ops[1 := Out]);
    Extend(a, s1, End(1), s2);
    var s3 := Commits(a, d, base, n);
    assert s3.ops == s2.ops[2 := Out];
    assert PinnedData(s2.lh, s2.pinned) == seq(n, _ => Zero());
    Extend(a, s2, End(2), s3);
  }

  /** Any number of a commit's writes can be made. */
  lemma {:induction false} Committed(a: LogArea, s: State, k: nat) returns (t: State)
    requires Reaches(a, s) && !s.panicked && s.phase.Committing? && s.phase.k == 0 && k <= |s.phase.ws|
    ensures Reaches(a, t) && t.phase.Committing? && t.phase.k == k && t.phase.ws == s.phase.ws && !t.panicked
    ensures k > 0 ==> t.phase.ws[k - 1].id in t.disk && t.disk[t.phase.ws[k - 1].id] == t.phase.ws[k - 1].data
  {
    if k == 0 {
      t := s;
    } else {
      var u := Committed(a, s, k - 1);
      var w := u.phase.ws[k - 1];
      t := u.(disk := u.disk[w.id := w.data], phase := Committing(u.phase.base, u.phase.ws, k));
      Extend(a, u, CommitWrite, t);
    }
  }

  /** A commit has written a block behind the log area, the one that follows it. */
  ghost predicate WrotePast(a: LogArea, s: State) {
    && s.phase.Committing? && 1 <= a.size == s.phase.k <= |s.phase.ws|
    && s.phase.ws[a.size - 1].id == BlockId(a.dev, a.start + a.size) && !a.Inside(s.phase.ws[a.size - 1].id)
    && s.phase.ws[a.size - 1].id in s.disk && s.disk[s.phase.ws[a.size - 1].id] == s.phase.ws[a.size - 1].data
  }

  /** And then commit writes past the area. */
  lemma RaceWritesPast(a: LogArea, d: DiskMap, base: int)
    requires Spare(a, d, base) && 2 <= a.size <= LOGSIZE
    ensures exists s :: Reaches(a, s) && WrotePast(a, s)
  {
    RaceSteps(a, d, base, a.size - 2);
    ThreeEnd(a, d, base, a.size);
    var s := Commits(a, d, base, a.size);
    var t := Committed(a, s, a.size);
    assert t.phase.ws[a.size - 1] == Write(a.Slot(a.size - 1), Zero());
    assert WrotePast(a, t);
  }

  /** Every reachable transaction fits its log area exactly when the area has more than LOGSIZE
      blocks; mkfs creates one of LOGSIZE blocks. */
  lemma LogFitsIff(a: LogArea, d: DiskMap, base: int)
    requires Spare(a, d, base) && a.size >= 2
    ensures (forall s :: Reaches(a, s) ==> |s.lh| <= a.size - 1) <==> a.size > LOGSIZE
  {
    if a.size > LOGSIZE {
      forall s | Reaches(a, s) ensures |s.lh| <= a.size - 1 {
        var run, steps :| IsRun(a, run, steps) && run[|run| - 1] == s;
        RunReserves(a, run, steps, |run| - 1);
      }
    } else {
      GuardsRace(a, d, base);
    }
  }
}
