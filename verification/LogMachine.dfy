/** The logging system over whole runs: operations of NPROC processes interleave with the block
    writes of commit and recovery, and the machine may crash at any step (log.c). */
module LogMachine {
  import opened Disk
  import opened LogSpec

  const NPROC := 64

  /** Where a process stands between begin_op and end_op.  `left` is what remains of its budget of
      MAXOPBLOCKS newly logged blocks.  Checked: log_write has passed its unlocked guards and has
      not yet taken log.lock. */
  datatype Op = Out | Active(left: nat) | Checked(left: nat, b: int, data: Block)

  /** `base` records the disk at the start of the commit or recovery in progress. */
  datatype Phase =
    | Running
    | Committing(base: DiskMap, ws: seq<Write>, k: nat)
    | Recovering(base: DiskMap, ws: seq<Write>, k: nat)

  datatype State = State(
    disk: DiskMap,
    pinned: map<int, Block>,  // the dirty buffers
    lh: seq<int>,             // log.lh.block[0..n)
    outstanding: int,
    ops: seq<Op>,
    phase: Phase,
    panicked: bool)

  datatype Step =
    | Begin(p: nat)
    | Check(p: nat, b: int, data: Block)
    | Append(p: nat)
    | End(p: nat)
    | CommitWrite | CommitDone
    | Crash
    | RecoverWrite | RecoverDone

  function PinnedData(lh: seq<int>, pinned: map<int, Block>): (r: seq<Block>)
    requires forall i :: 0 <= i < |lh| ==> lh[i] in pinned
    ensures |r| == |lh| && forall i :: 0 <= i < |lh| ==> r[i] == pinned[lh[i]]
  {
    seq(|lh|, i requires 0 <= i < |lh| => pinned[lh[i]])
  }

  /** The pinned buffers are those of the logged blocks. */
  ghost predicate PinsMatch(s: State) {
    && (forall i :: 0 <= i < |s.lh| ==> s.lh[i] in s.pinned)
    && (forall b :: b in s.pinned ==> b in s.lh)
  }

  /** begin_op lets the caller through: otherwise it sleeps. */
  predicate BeginGuard(s: State) {
    s.phase.Running? && !(|s.lh| + (s.outstanding + 1) * MAXOPBLOCKS > LOGSIZE)
  }

  /** log_write's unlocked guards. */
  predicate CheckPanics(a: LogArea, s: State) {
    |s.lh| >= LOGSIZE || |s.lh| >= a.size - 1 || s.outstanding < 1
  }

  /** The effect of each step; `next` is the state after it. */
  ghost predicate Next(a: LogArea, s: State, step: Step, next: State) {
    match step
    case Begin(p) =>
      && !s.panicked && p < |s.ops| && s.ops[p].Out? && BeginGuard(s)
      && next == s.(outstanding := s.outstanding + 1, ops := s.ops[p := Active(MAXOPBLOCKS)])
    case Check(p, b, data) =>
      && !s.panicked && p < |s.ops| && s.ops[p].Active?
      // the caller's side: a home block, and a new one only within its budget
      && a.Home(b) in s.disk && !a.Inside(a.Home(b)) && (b in s.lh || s.ops[p].left >= 1)
      && next == (if CheckPanics(a, s) then s.(panicked := true)
                  else s.(ops := s.ops[p := Checked(s.ops[p].left, b, data)]))
    case Append(p) =>
      && !s.panicked && p < |s.ops| && s.ops[p].Checked?
      && var op := s.ops[p];
      && (op.b in s.lh || op.left >= 1)
      && next == (if op.b in s.lh
                  then s.(pinned := s.pinned[op.b := op.data], ops := s.ops[p := Active(op.left)])
                  else s.(pinned := s.pinned[op.b := op.data], lh := s.lh + [op.b],
                    ops := s.ops[p := Active(op.left - 1)]))
    case End(p) =>
      && !s.panicked && p < |s.ops| && s.ops[p].Active?
      && var t := s.(outstanding := s.outstanding - 1, ops := s.ops[p := Out]);
      && (if !s.phase.Running? then next == t.(panicked := true)
          else if t.outstanding != 0 then next == t
          else
            && a.Head() in s.disk && PinsMatch(s) && |s.lh| <= LOGSIZE
            && next == t.(phase := Committing(s.disk,
               CommitWrites(a, s.disk[a.Head()], s.lh, PinnedData(s.lh, s.pinned)), 0)))
    case CommitWrite =>
      && !s.panicked && s.phase.Committing? && s.phase.k < |s.phase.ws|
      && var w := s.phase.ws[s.phase.k];
      && next == s.(disk := s.disk[w.id := w.data], phase := Committing(s.phase.base, s.phase.ws, s.phase.k + 1))
    case CommitDone =>
      && !s.panicked && s.phase.Committing? && s.phase.k == |s.phase.ws|
      && next == s.(lh := [], pinned := map[], phase := Running)
    case Crash =>
      && Formatted(a, s.disk)
      && next == State(s.disk, map[], [], 0, seq(|s.ops|, _ => Out), Recovering(s.disk, RecoverWrites(a, s.disk), 0),
         false)
    case RecoverWrite =>
      && s.phase.Recovering? && s.phase.k < |s.phase.ws|
      && var w := s.phase.ws[s.phase.k];
      && next == s.(disk := s.disk[w.id := w.data], phase := Recovering(s.phase.base, s.phase.ws, s.phase.k + 1))
    case RecoverDone =>
      && s.phase.Recovering? && s.phase.k == |s.phase.ws|
      && next == s.(phase := Running)
  }

  /** A formatted disk, just mounted. */
  ghost predicate Init(a: LogArea, s: State) {
    && Idle(a, s.disk)
    && s == State(s.disk, map[], [], 0, seq(NPROC, _ => Out), Running, false)
  }

  // ----- the specification: durable and volatile home blocks -----

  datatype Abs = Abs(durable: map<BlockId, Block>, volatile: map<BlockId, Block>, active: set<nat>)

  /** What a step is to the users of the log. */
  datatype Action =
    | Enter(p: nat)                             // operation p begins
    | Leave(p: nat)                             // operation p ends
    | Put(p: nat, id: BlockId, data: Block)     // operation p changes one block
    | Harden                                    // the volatile state becomes durable
    | Settled                                   // everything written is durable
    | Fall                                      // a crash
    | Rest                                      // nothing they could see

  /** Group commit as its users see it: operations change only the volatile state, the volatile
      state becomes durable in one step while no operation is active, a commit is over only when it
      has, and only a crash falls back to the durable state. */
  ghost predicate AbsNext(s: Abs, act: Action, t: Abs) {
    match act
    case Enter(p) => p !in s.active && t == s.(active := s.active + {p})
    case Leave(p) => p in s.active && t == s.(active := s.active - {p})
    case Put(p, id, data) => p in s.active && id in s.volatile && t == s.(volatile := s.volatile[id := data])
    case Harden => s.active == {} && t == s.(durable := s.volatile)
    case Settled => s.active == {} && s.durable == s.volatile && t == s
    case Fall => t == Abs(s.durable, s.durable, {})
    case Rest => t == s
  }

  /** The action of each step: of a commit's writes, the one to the header is the commit. */
  ghost function ActionOf(a: LogArea, s: State, step: Step): Action {
    match step
    case Begin(p) => Enter(p)
    case Append(p) => if p < |s.ops| && s.ops[p].Checked? then Put(p, a.Home(s.ops[p].b), s.ops[p].data) else Rest
    case End(p) => Leave(p)
    case CommitWrite => if s.phase.Committing? && s.phase.k == |s.lh| then Harden else Rest
    case CommitDone => Settled
    case Crash => Fall
    case _ => Rest
  }

  ghost function Overlay(a: LogArea, home: map<BlockId, Block>, pinned: map<int, Block>): map<BlockId, Block> {
    map id | id in home :: if id.dev == a.dev && id.no in pinned then pinned[id.no] else home[id]
  }

  ghost function AbsOf(a: LogArea, s: State): Abs
    requires Formatted(a, s.disk)
  {
    Abs(Logical(a, s.disk), Overlay(a, Logical(a, s.disk), s.pinned), set p | 0 <= p < |s.ops| && !s.ops[p].Out?)
  }

  // ----- counting -----

  function Count(ops: seq<Op>): nat {
    if ops == [] then 0 else (if ops[0].Out? then 0 else 1) + Count(ops[1..])
  }

  function Unused(op: Op): nat { if op.Out? then 0 else op.left }

  /** The unused budgets of all outstanding operations. */
  function Budget(ops: seq<Op>): nat {
    if ops == [] then 0 else Unused(ops[0]) + Budget(ops[1..])
  }

  lemma {:induction false} CountUpdate(ops: seq<Op>, p: nat, op: Op)
    requires p < |ops|
    ensures Count(ops[p := op]) == Count(ops) - (if ops[p].Out? then 0 else 1) + (if op.Out? then 0 else 1)
    ensures Budget(ops[p := op]) == Budget(ops) - Unused(ops[p]) + Unused(op)
  {
    var u := ops[p := op];
    if p == 0 {
      assert u[1..] == ops[1..];
    } else {
      assert u[1..] == ops[1..][p - 1 := op];
      CountUpdate(ops[1..], p - 1, op);
    }
  }

  lemma {:induction false} AllOut(ops: seq<Op>)
    ensures Count(ops) == 0 <==> (forall p :: 0 <= p < |ops| ==> ops[p].Out?)
    ensures Count(ops) == 0 ==> Budget(ops) == 0
  {
    if ops != [] {
      AllOut(ops[1..]);
      assert forall p :: 0 < p < |ops| ==> ops[p] == ops[1..][p - 1];
      assert (forall p :: 0 <= p < |ops| ==> ops[p].Out?) <==>
             ops[0].Out? && (forall p :: 0 <= p < |ops[1..]| ==> ops[1..][p].Out?);
    }
  }

  lemma {:induction false} BudgetCovers(ops: seq<Op>, p: nat)
    requires p < |ops|
    ensures Unused(ops[p]) <= Budget(ops)
  {
    if p > 0 { BudgetCovers(ops[1..], p - 1); }
  }

  ghost predicate WithinBudget(ops: seq<Op>) {
    forall p :: 0 <= p < |ops| ==> Unused(ops[p]) <= MAXOPBLOCKS
  }

  /** begin_op reserves a whole budget per operation, which covers what is still unused. */
  lemma {:induction false} BudgetBound(ops: seq<Op>)
    requires WithinBudget(ops)
    ensures Budget(ops) <= MAXOPBLOCKS * Count(ops)
  {
    if ops != [] {
      assert Unused(ops[0]) <= MAXOPBLOCKS;
      forall p | 0 <= p < |ops[1..]| ensures Unused(ops[1..][p]) <= MAXOPBLOCKS { assert ops[1..][p] == ops[p + 1]; }
      BudgetBound(ops[1..]);
    }
  }

  // ----- the invariant -----

  ghost predicate PhaseInv(a: LogArea, s: State) {
    match s.phase
    case Running => Idle(a, s.disk)
    case Committing(base, ws, k) =>
      && s.outstanding == 0 && PinsMatch(s)
      && Idle(a, base) && Loggable(a, base, s.lh)
      && ws == CommitWrites(a, base[a.Head()], s.lh, PinnedData(s.lh, s.pinned))
      && k <= |ws| && s.disk == Apply(base, ws[..k])
    case Recovering(base, ws, k) =>
      && s.outstanding == 0 && s.lh == []
      && Formatted(a, base) && ws == RecoverWrites(a, base)
      && k <= |ws| && s.disk == Apply(base, ws[..k])
  }

  ghost predicate OpsInv(a: LogArea, s: State) {
    && s.outstanding == Count(s.ops)
    && |s.lh| + Budget(s.ops) <= LOGSIZE
    && WithinBudget(s.ops)
    && forall p :: 0 <= p < |s.ops| && s.ops[p].Checked? ==>
         && a.Home(s.ops[p].b) in s.disk && !a.Inside(a.Home(s.ops[p].b))
         && (s.ops[p].b in s.lh || s.ops[p].left >= 1)
  }

  ghost predicate Inv(a: LogArea, s: State) {
    && Formatted(a, s.disk)
    && PinsMatch(s)
    && Distinct(s.lh)
    && (forall i :: 0 <= i < |s.lh| ==> a.Home(s.lh[i]) in s.disk && !a.Inside(a.Home(s.lh[i])))
    && OpsInv(a, s)
    && PhaseInv(a, s)
  }

  lemma InitInv(a: LogArea, s: State)
    requires Init(a, s)
    ensures Inv(a, s)
  {
    AllOut(s.ops);
  }

  /** What the log holds when it is written out is what the volatile state shows. */
  lemma OverlayIsInstalled(a: LogArea, home: map<BlockId, Block>, s: State)
    requires PinsMatch(s)
    ensures Installed(a, home, s.lh, PinnedData(s.lh, s.pinned)) == Overlay(a, home, s.pinned)
  {
  }

  lemma OverlayTwice(a: LogArea, home: map<BlockId, Block>, pinned: map<int, Block>)
    ensures Overlay(a, Overlay(a, home, pinned), pinned) == Overlay(a, home, pinned)
    ensures Overlay(a, home, map[]) == home
  {
  }

  /** What a step guarantees: the invariant again, and its action of the specification. */
  ghost predicate Kept(a: LogArea, s: State, step: Step, next: State) {
    && Formatted(a, s.disk)
    && Inv(a, next)
    && AbsNext(AbsOf(a, s), ActionOf(a, s, step), AbsOf(a, next))
  }

  lemma BeginKeeps(a: LogArea, s: State, p: nat, next: State)
    requires Inv(a, s) && Next(a, s, Begin(p), next)
    ensures Kept(a, s, Begin(p), next)
  {
    CountUpdate(s.ops, p, Active(MAXOPBLOCKS));
    BudgetBound(s.ops);
    assert AbsOf(a, next).active == AbsOf(a, s).active + {p};
  }

  lemma CheckKeeps(a: LogArea, s: State, p: nat, b: int, data: Block, next: State)
    requires Inv(a, s) && Next(a, s, Check(p, b, data), next)
    ensures Kept(a, s, Check(p, b, data), next)
  {
    AllOut(s.ops);
    CountUpdate(s.ops, p, Checked(s.ops[p].left, b, data));
    assert AbsOf(a, next).active == AbsOf(a, s).active;
  }

  lemma OverlayUpdate(a: LogArea, home: map<BlockId, Block>, pinned: map<int, Block>, b: int, data: Block)
    requires a.Home(b) in home
    ensures Overlay(a, home, pinned[b := data]) == Overlay(a, home, pinned)[a.Home(b) := data]
  {
  }

  lemma AppendAbs(a: LogArea, s: State, p: nat, next: State)
    requires Formatted(a, s.disk) && OpsInv(a, s) && Next(a, s, Append(p), next)
    ensures AbsNext(AbsOf(a, s), ActionOf(a, s, Append(p)), AbsOf(a, next))
  {
    var op := s.ops[p];
    OverlayUpdate(a, Logical(a, s.disk), s.pinned, op.b, op.data);
    assert AbsOf(a, next).active == AbsOf(a, s).active;
  }

  lemma AppendKeeps(a: LogArea, s: State, p: nat, next: State)
    requires Inv(a, s) && Next(a, s, Append(p), next)
    ensures Kept(a, s, Append(p), next)
  {
    AppendInv(a, s, p, next);
    AppendAbs(a, s, p, next);
  }

  lemma AppendInv(a: LogArea, s: State, p: nat, next: State)
    requires Inv(a, s) && Next(a, s, Append(p), next)
    ensures Inv(a, next)
  {
    AllOut(s.ops);
    CountUpdate(s.ops, p, next.ops[p]);
    assert PinsMatch(next) && Distinct(next.lh);
    assert OpsInv(a, next);
  }

  lemma EndAbs(a: LogArea, s: State, p: nat, next: State)
    requires Formatted(a, s.disk) && Next(a, s, End(p), next)
    ensures AbsNext(AbsOf(a, s), Leave(p), AbsOf(a, next))
  {
    assert AbsOf(a, next).active == AbsOf(a, s).active - {p};
  }

  lemma EndKeeps(a: LogArea, s: State, p: nat, next: State)
    requires |s.lh| <= a.size - 1
    requires Inv(a, s) && Next(a, s, End(p), next)
    ensures Kept(a, s, End(p), next)
  {
    EndInv(a, s, p, next);
    EndAbs(a, s, p, next);
  }

  lemma EndInv(a: LogArea, s: State, p: nat, next: State)
    requires |s.lh| <= a.size - 1
    requires Inv(a, s) && Next(a, s, End(p), next)
    ensures Inv(a, next)
  {
    CountUpdate(s.ops, p, Out);
    AllOut(s.ops);
    if next.phase.Committing? {
      assert next.phase.ws[..0] == [];
      assert Loggable(a, s.disk, s.lh);
    }
  }

  /** In the middle of a commit: before the header write the disk still means what it did, after
      it the disk means the volatile state. */
  lemma CommitMeaning(a: LogArea, s: State)
    requires PhaseInv(a, s) && s.phase.Committing?
    ensures var home := HomeBlocks(a, s.phase.base);
            && Means(a, s.phase.base, s.disk, if |s.lh| < s.phase.k then Overlay(a, home, s.pinned) else home)
            && Overlay(a, Logical(a, s.disk), s.pinned) == Overlay(a, home, s.pinned)
            && (s.phase.k == |s.phase.ws| ==> Idle(a, s.disk) && Logical(a, s.disk) == Overlay(a, home, s.pinned))
  {
    var Committing(base, ws, k) := s.phase;
    var home := HomeBlocks(a, base);
    CommitPrefix(a, base, s.lh, PinnedData(s.lh, s.pinned), k);
    OverlayIsInstalled(a, home, s);
    OverlayTwice(a, home, s.pinned);
    if s.lh == [] {
      assert forall b :: b in s.pinned ==> b in s.lh;
      assert s.pinned == map[];
    }
  }

  lemma CommitWriteInv(a: LogArea, s: State, next: State)
    requires Inv(a, s) && Next(a, s, CommitWrite, next)
    ensures Inv(a, next)
  {
    CommitWritePhase(a, s, next);
    CommitFormat(a, s);
    CommitFormat(a, next);
  }

  lemma CommitWritePhase(a: LogArea, s: State, next: State)
    requires PhaseInv(a, s) && Next(a, s, CommitWrite, next)
    ensures PhaseInv(a, next)
  {
    ApplyOne(s.phase.base, s.phase.ws, s.phase.k);
  }

  lemma CommitFormat(a: LogArea, s: State)
    requires PhaseInv(a, s) && s.phase.Committing?
    ensures Formatted(a, s.disk) && s.disk.Keys == s.phase.base.Keys
  {
    CommitMeaning(a, s);
  }

  lemma CommitWriteKeeps(a: LogArea, s: State, next: State)
    requires Inv(a, s) && Next(a, s, CommitWrite, next)
    ensures Kept(a, s, CommitWrite, next)
  {
    CommitWriteInv(a, s, next);
    CommitMeaning(a, s);
    CommitMeaning(a, next);
    AllOut(s.ops);
    var x, y := AbsOf(a, s), AbsOf(a, next);
    assert x.active == {} == y.active;
    assert x.volatile == y.volatile;
    assert y.durable == if s.phase.k == |s.lh| then x.volatile else x.durable;
  }

  lemma CommitDoneKeeps(a: LogArea, s: State, next: State)
    requires Inv(a, s) && Next(a, s, CommitDone, next)
    ensures Kept(a, s, CommitDone, next)
  {
    CommitMeaning(a, s);
    OverlayTwice(a, Logical(a, s.disk), s.pinned);
    AllOut(s.ops);
  }

  lemma CrashKeeps(a: LogArea, s: State, next: State)
    requires Inv(a, s) && Next(a, s, Crash, next)
    ensures Kept(a, s, Crash, next)
  {
    AllOut(next.ops);
    OverlayTwice(a, Logical(a, s.disk), s.pinned);
    assert next.phase.ws[..0] == [];
    assert AbsOf(a, next).active == {};
  }

  lemma RecoverMeaning(a: LogArea, s: State)
    requires PhaseInv(a, s) && s.phase.Recovering?
    ensures Means(a, s.phase.base, s.disk, Logical(a, s.phase.base))
    ensures s.phase.k == |s.phase.ws| ==> Idle(a, s.disk)
  {
    RecoveryPrefix(a, s.phase.base, s.phase.k);
  }

  lemma RecoverWritePhase(a: LogArea, s: State, next: State)
    requires PhaseInv(a, s) && Next(a, s, RecoverWrite, next)
    ensures PhaseInv(a, next) && Means(a, s.disk, next.disk, Logical(a, s.phase.base))
  {
    ApplyOne(s.phase.base, s.phase.ws, s.phase.k);
    RecoverMeaning(a, s);
    RecoverMeaning(a, next);
  }

  lemma RecoverWriteKeeps(a: LogArea, s: State, next: State)
    requires Inv(a, s) && Next(a, s, RecoverWrite, next)
    ensures Kept(a, s, RecoverWrite, next)
  {
    RecoverWriteInv(a, s, next);
    RecoverWritePhase(a, s, next);
    RecoverMeaning(a, s);
    assert AbsOf(a, s) == AbsOf(a, next);
  }

  lemma RecoverWriteInv(a: LogArea, s: State, next: State)
    requires Inv(a, s) && Next(a, s, RecoverWrite, next)
    ensures Inv(a, next)
  {
    RecoverWritePhase(a, s, next);
    AllOut(s.ops);
  }

  lemma RecoverDoneKeeps(a: LogArea, s: State, next: State)
    requires Inv(a, s) && Next(a, s, RecoverDone, next)
    ensures Kept(a, s, RecoverDone, next)
  {
    RecoverMeaning(a, s);
    AllOut(s.ops);
  }

  lemma StepKeeps(a: LogArea, s: State, step: Step, next: State)
    requires |s.lh| <= a.size - 1
    requires Inv(a, s) && Next(a, s, step, next)
    ensures Kept(a, s, step, next)
  {
    match step
    case Begin(p) => BeginKeeps(a, s, p, next);
    case Check(p, b, data) => CheckKeeps(a, s, p, b, data, next);
    case Append(p) => AppendKeeps(a, s, p, next);
    case End(p) => EndKeeps(a, s, p, next);
    case CommitWrite => CommitWriteKeeps(a, s, next);
    case CommitDone => CommitDoneKeeps(a, s, next);
    case Crash => CrashKeeps(a, s, next);
    case RecoverWrite => RecoverWriteKeeps(a, s, next);
    case RecoverDone => RecoverDoneKeeps(a, s, next);
  }

  // ----- whole runs -----

  /** The states of a run; run[i+1] follows run[i] by steps[i]. */
  ghost predicate IsRun(a: LogArea, run: seq<State>, steps: seq<Step>) {
    && |run| == |steps| + 1
    && Init(a, run[0])
    && forall i :: 0 <= i < |steps| ==> Follows(a, run, steps, i)
  }

  ghost predicate Follows(a: LogArea, run: seq<State>, steps: seq<Step>, i: nat) {
    i + 1 < |run| && i < |steps| && Next(a, run[i], steps[i], run[i + 1])
  }

  // ----- reservations, for every size of the log area -----

  /** What begin_op's reservation keeps, whatever the size of the log area. */
  ghost predicate Reserved(s: State) {
    && s.outstanding == Count(s.ops)
    && |s.lh| + Budget(s.ops) <= LOGSIZE
    && WithinBudget(s.ops)
    && Distinct(s.lh)
    && (!s.phase.Running? ==> s.outstanding == 0)
    && (forall p :: 0 <= p < |s.ops| && s.ops[p].Checked? ==> s.ops[p].b in s.lh || s.ops[p].left >= 1)
  }

  lemma StepReserves(a: LogArea, s: State, step: Step, next: State)
    requires Reserved(s) && Next(a, s, step, next)
    ensures Reserved(next)
  {
    match step
    case Begin(p) => BeginReserves(a, s, p, next);
    case Check(p, b, data) => CountUpdate(s.ops, p, Checked(s.ops[p].left, b, data));
    case Append(p) => AppendReserves(a, s, p, next);
    case End(p) => EndReserves(a, s, p, next);
    case Crash => AllOut(next.ops);
    case _ => AllOut(s.ops);
  }

  lemma BeginReserves(a: LogArea, s: State, p: nat, next: State)
    requires Reserved(s) && Next(a, s, Begin(p), next)
    ensures Reserved(next)
  {
    AllOut(s.ops);
    CountUpdate(s.ops, p, Active(MAXOPBLOCKS));
    BudgetBound(s.ops);
  }

  lemma AppendReserves(a: LogArea, s: State, p: nat, next: State)
    requires Reserved(s) && Next(a, s, Append(p), next)
    ensures Reserved(next)
  {
    AllOut(s.ops);
    CountUpdate(s.ops, p, next.ops[p]);
  }

  lemma EndReserves(a: LogArea, s: State, p: nat, next: State)
    requires Reserved(s) && Next(a, s, End(p), next)
    ensures Reserved(next)
  {
    AllOut(s.ops);
    CountUpdate(s.ops, p, Out);
  }

  lemma {:induction false} RunReserves(a: LogArea, run: seq<State>, steps: seq<Step>, i: nat)
    requires IsRun(a, run, steps) && i < |run|
    ensures Reserved(run[i])
  {
    if i == 0 {
      AllOut(run[0].ops);
    } else {
      RunReserves(a, run, steps, i - 1);
      assert Follows(a, run, steps, i - 1);
      StepReserves(a, run[i - 1], steps[i - 1], run[i]);
    }
  }

  /** Reservations in every reachable state: committing means nobody is outstanding, logged block
      numbers are distinct, and the log has room for every unused budget.  So end_op never finds
      log.committing set, and an append never runs past block[LOGSIZE]. */
  lemma Reservations(a: LogArea, run: seq<State>, steps: seq<Step>, i: nat)
    requires IsRun(a, run, steps) && i < |run|
    ensures run[i].phase.Committing? ==> run[i].outstanding == 0
    ensures Distinct(run[i].lh)
    ensures |run[i].lh| + Budget(run[i].ops) <= LOGSIZE
    ensures forall p :: 0 <= p < |run[i].ops| && run[i].ops[p].Active? ==> run[i].phase.Running?
    ensures forall p :: 0 <= p < |run[i].ops| && run[i].ops[p].Checked? && run[i].ops[p].b !in run[i].lh
              ==> |run[i].lh| < LOGSIZE
  {
    RunReserves(a, run, steps, i);
    var s := run[i];
    AllOut(s.ops);
    forall p | 0 <= p < |s.ops| && s.ops[p].Checked? && s.ops[p].b !in s.lh ensures |s.lh| < LOGSIZE {
      BudgetCovers(s.ops, p);
    }
  }

  /** Exactly when log_write panics inside an operation: the transaction has reached the capacity of
      its log area.  Once it has LOGSIZE blocks no budget is left; so in an area of more than LOGSIZE
      blocks an operation with budget left never meets the guards. */
  lemma LogWritePanics(a: LogArea, run: seq<State>, steps: seq<Step>, i: nat, p: nat)
    requires IsRun(a, run, steps) && i < |run|
    requires p < |run[i].ops| && run[i].ops[p].Active?
    ensures CheckPanics(a, run[i]) <==> |run[i].lh| >= a.Capacity()
    ensures |run[i].lh| >= LOGSIZE ==> Budget(run[i].ops) == 0
    ensures a.size > LOGSIZE && run[i].ops[p].left >= 1 ==> !CheckPanics(a, run[i])
  {
    RunReserves(a, run, steps, i);
    AllOut(run[i].ops);
    BudgetCovers(run[i].ops, p);
  }

  // ----- refinement -----

  /** Every transaction of the run fits its log area. */
  ghost predicate Fits(a: LogArea, run: seq<State>) {
    forall j :: 0 <= j < |run| ==> |run[j].lh| <= a.size - 1
  }

  /** In an area of more than LOGSIZE blocks every run fits. */
  lemma LargeAreaFits(a: LogArea, run: seq<State>, steps: seq<Step>)
    requires a.size > LOGSIZE && IsRun(a, run, steps)
    ensures Fits(a, run)
  {
    forall j | 0 <= j < |run| ensures |run[j].lh| <= a.size - 1 { RunReserves(a, run, steps, j); }
  }

  /** As long as the transactions so far fit their area, the invariant holds. */
  lemma {:induction false} RunInv(a: LogArea, run: seq<State>, steps: seq<Step>, i: nat)
    requires IsRun(a, run, steps) && i < |run|
    requires forall j :: 0 <= j < i ==> |run[j].lh| <= a.size - 1
    ensures Inv(a, run[i])
  {
    if i == 0 {
      InitInv(a, run[0]);
    } else {
      RunInv(a, run, steps, i - 1);
      StepOfRun(a, run, steps, i);
    }
  }

  lemma StepOfRun(a: LogArea, run: seq<State>, steps: seq<Step>, i: nat)
    requires IsRun(a, run, steps) && 1 <= i < |run| && Inv(a, run[i - 1]) && |run[i - 1].lh| <= a.size - 1
    ensures Inv(a, run[i])
  {
    assert Follows(a, run, steps, i - 1);
    StepKeeps(a, run[i - 1], steps[i - 1], run[i]);
  }

  /** Every run of the logging system whose transactions fit their area, crashes included, is action
      by action a run of atomic group commit. */
  lemma RunRefines(a: LogArea, run: seq<State>, steps: seq<Step>)
    requires IsRun(a, run, steps) && Fits(a, run)
    ensures forall i :: 0 <= i < |run| ==> Formatted(a, run[i].disk)
    ensures forall i :: 0 <= i < |steps| ==>
      AbsNext(AbsOf(a, run[i]), ActionOf(a, run[i], steps[i]), AbsOf(a, run[i + 1]))
  {
    forall i | 0 <= i < |run| ensures Formatted(a, run[i].disk) { RunInv(a, run, steps, i); }
    forall i | 0 <= i < |steps|
      ensures AbsNext(AbsOf(a, run[i]), ActionOf(a, run[i], steps[i]), AbsOf(a, run[i + 1]))
    {
      RunInv(a, run, steps, i);
      assert Follows(a, run, steps, i);
      StepKeeps(a, run[i], steps[i], run[i + 1]);
    }
  }

  /** In an area of more than LOGSIZE blocks that is every run. */
  lemma LargeAreaRefines(a: LogArea, run: seq<State>, steps: seq<Step>)
    requires a.size > LOGSIZE && IsRun(a, run, steps)
    ensures forall i :: 0 <= i < |run| ==> Formatted(a, run[i].disk)
    ensures forall i :: 0 <= i < |steps| ==>
      AbsNext(AbsOf(a, run[i]), ActionOf(a, run[i], steps[i]), AbsOf(a, run[i + 1]))
  {
    LargeAreaFits(a, run, steps);
    RunRefines(a, run, steps);
  }

  // ----- durability -----

  ghost predicate IsAbsRun(xs: seq<Abs>, acts: seq<Action>) {
    |xs| == |acts| + 1 && forall k {:trigger acts[k]} :: 0 <= k < |acts| ==> AbsNext(xs[k], acts[k], xs[k + 1])
  }

  /** The run as the users of the log see it. */
  ghost function Seen(a: LogArea, run: seq<State>): (xs: seq<Abs>)
    requires forall i :: 0 <= i < |run| ==> Formatted(a, run[i].disk)
  {
    seq(|run|, i requires 0 <= i < |run| => AbsOf(a, run[i]))
  }

  ghost function Actions(a: LogArea, run: seq<State>, steps: seq<Step>): (acts: seq<Action>)
    requires |run| == |steps| + 1
    ensures |acts| == |steps| && forall i :: 0 <= i < |steps| ==> acts[i] == ActionOf(a, run[i], steps[i])
  {
    seq(|steps|, i requires 0 <= i < |steps| => ActionOf(a, run[i], steps[i]))
  }

  lemma RunSeen(a: LogArea, run: seq<State>, steps: seq<Step>)
    requires IsRun(a, run, steps) && Fits(a, run)
    ensures forall i :: 0 <= i < |run| ==> Formatted(a, run[i].disk)
    ensures IsAbsRun(Seen(a, run), Actions(a, run, steps))
  {
    RunRefines(a, run, steps);
  }

  /** What is durable when a commit is over stays so until another commit hardens. */
  lemma {:induction false} SettledStays(xs: seq<Abs>, acts: seq<Action>, i: nat, j: nat)
    requires IsAbsRun(xs, acts) && i < j <= |acts| && acts[i] == Settled
    requires forall k :: i <= k < j ==> acts[k] != Harden
    ensures xs[j].durable == xs[i].volatile
    ensures acts[j - 1] == Fall ==> xs[j].volatile == xs[i].volatile
  {
    assert AbsNext(xs[j - 1], acts[j - 1], xs[j]);
    if j > i + 1 { SettledStays(xs, acts, i, j - 1); }
  }

  /** Durability: once a commit is over, what the operations had written by then is what every later
      crash falls back to, until another commit reaches its header write. */
  lemma CommitSurvives(a: LogArea, run: seq<State>, steps: seq<Step>, i: nat, j: nat)
    requires IsRun(a, run, steps) && Fits(a, run) && i < j < |run| && steps[i] == CommitDone
    requires forall k :: i <= k < j ==> ActionOf(a, run[k], steps[k]) != Harden
    ensures Formatted(a, run[i].disk) && Formatted(a, run[j].disk)
    ensures AbsOf(a, run[j]).durable == AbsOf(a, run[i]).volatile
    ensures steps[j - 1] == Crash ==> AbsOf(a, run[j]).volatile == AbsOf(a, run[i]).volatile
  {
    RunSeen(a, run, steps);
    SettledStays(Seen(a, run), Actions(a, run, steps), i, j);
  }

  // ----- the last end_op -----

  /** Between commits, with nobody outstanding, nothing is left to write. */
  ghost predicate Clean(s: State) {
    s.phase.Recovering? || (s.phase.Running? && s.outstanding == 0) ==> s.lh == [] && s.pinned == map[]
  }

  lemma StepClean(a: LogArea, s: State, step: Step, next: State)
    requires Reserved(s) && Clean(s) && Next(a, s, step, next)
    ensures Clean(next)
  {
    AllOut(s.ops);
  }

  lemma {:induction false} RunClean(a: LogArea, run: seq<State>, steps: seq<Step>, i: nat)
    requires IsRun(a, run, steps) && i < |run|
    ensures Clean(run[i])
  {
    if i > 0 {
      RunClean(a, run, steps, i - 1);
      RunReserves(a, run, steps, i - 1);
      assert Follows(a, run, steps, i - 1);
      StepClean(a, run[i - 1], steps[i - 1], run[i]);
    }
  }

  /** p is the only process inside an operation. */
  ghost predicate Alone(s: State, p: nat) {
    p < |s.ops| && s.ops[p].Active? && forall q :: 0 <= q < |s.ops| && q != p ==> s.ops[q].Out?
  }

  lemma AloneCounts(s: State, p: nat)
    requires Alone(s, p)
    ensures Count(s.ops) == 1
  {
    CountUpdate(s.ops, p, Out);
    AllOut(s.ops[p := Out]);
  }

  /** In every run the end_op of the last operation begins the commit, and no other end_op does. */
  lemma LastEndCommits(a: LogArea, run: seq<State>, steps: seq<Step>, i: nat, p: nat)
    requires IsRun(a, run, steps) && i < |steps| && steps[i] == End(p)
    ensures !run[i + 1].panicked
    ensures run[i + 1].phase.Committing? <==> Alone(run[i], p)
  {
    RunReserves(a, run, steps, i);
    assert Follows(a, run, steps, i);
    var s := run[i];
    AllOut(s.ops);
    CountUpdate(s.ops, p, Out);
    AllOut(s.ops[p := Out]);
    if Alone(s, p) { AloneCounts(s, p); }
    if s.outstanding == 1 {
      forall q | 0 <= q < |s.ops| && q != p ensures s.ops[q].Out? { assert s.ops[p := Out][q] == s.ops[q]; }
    }
  }

  /** In every reachable state between commits with nobody outstanding, everything written is durable. */
  lemma RestIsDurable(a: LogArea, run: seq<State>, steps: seq<Step>, i: nat)
    requires IsRun(a, run, steps) && Fits(a, run) && i < |run|
    requires run[i].phase.Running? && run[i].outstanding == 0
    ensures run[i].lh == [] && Formatted(a, run[i].disk) && AbsOf(a, run[i]).durable == AbsOf(a, run[i]).volatile
  {
    RunClean(a, run, steps, i);
    RunInv(a, run, steps, i);
    OverlayTwice(a, Logical(a, run[i].disk), map[]);
  }

  /** Nobody inside, nobody begins, no crash: the volatile state stays. */
  lemma {:induction false} QuietStays(xs: seq<Abs>, acts: seq<Action>, i: nat, j: nat)
    requires IsAbsRun(xs, acts) && i <= j <= |acts| && xs[i].active == {}
    requires forall k :: i <= k < j ==> !acts[k].Enter? && !acts[k].Fall?
    ensures xs[j].active == {} && xs[j].volatile == xs[i].volatile
  {
    if j > i {
      QuietStays(xs, acts, i, j - 1);
      assert AbsNext(xs[j - 1], acts[j - 1], xs[j]);
    }
  }

  /** Once the last operation has ended, the next one begins only when everything written before is
      durable. */
  lemma NextBeginIsDurable(a: LogArea, run: seq<State>, steps: seq<Step>, i: nat, j: nat, p: nat, q: nat)
    requires IsRun(a, run, steps) && Fits(a, run) && i < j < |steps|
    requires steps[i] == End(p) && Alone(run[i], p) && steps[j] == Begin(q)
    requires forall k :: i < k < j ==> !steps[k].Begin? && !steps[k].Crash?
    ensures Formatted(a, run[i].disk) && Formatted(a, run[j].disk)
    ensures AbsOf(a, run[j]).durable == AbsOf(a, run[i]).volatile
  {
    RunSeen(a, run, steps);
    var xs, acts := Seen(a, run), Actions(a, run, steps);
    assert AbsNext(xs[i], acts[i], xs[i + 1]);
    AloneActive(a, run[i], p);
    QuietActions(a, run, steps, i + 1, j);
    QuietStays(xs, acts, i + 1, j);
    BeginsIdle(a, run, steps, j, q);
    RestIsDurable(a, run, steps, j);
  }

  lemma AloneActive(a: LogArea, s: State, p: nat)
    requires Formatted(a, s.disk) && Alone(s, p)
    ensures AbsOf(a, s).active == {p}
  {
  }

  lemma QuietActions(a: LogArea, run: seq<State>, steps: seq<Step>, i: nat, j: nat)
    requires |run| == |steps| + 1 && i <= j <= |steps|
    requires forall k :: i <= k < j ==> !steps[k].Begin? && !steps[k].Crash?
    ensures forall k :: i <= k < j ==> !Actions(a, run, steps)[k].Enter? && !Actions(a, run, steps)[k].Fall?
  {
  }

  /** A state in which begin_op lets somebody in and nobody is active is at rest. */
  lemma BeginsIdle(a: LogArea, run: seq<State>, steps: seq<Step>, j: nat, q: nat)
    requires IsRun(a, run, steps) && j < |steps| && steps[j] == Begin(q) && Formatted(a, run[j].disk)
    requires AbsOf(a, run[j]).active == {}
    ensures run[j].phase.Running? && run[j].outstanding == 0
  {
    RunReserves(a, run, steps, j);
    assert Follows(a, run, steps, j);
    forall p | 0 <= p < |run[j].ops| ensures run[j].ops[p].Out? { assert p !in AbsOf(a, run[j]).active; }
    AllOut(run[j].ops);
  }

  // ----- what can happen next -----

  /** begin_op lets a process in exactly when no commit or recovery is under way and its whole budget fits
      beside what is logged and what the others have reserved. */
  lemma BeginIff(a: LogArea, s: State, p: nat)
    requires !s.panicked && p < |s.ops| && s.ops[p].Out?
    ensures (exists next :: Next(a, s, Begin(p), next)) <==>
            s.phase.Running? && |s.lh| + s.outstanding * MAXOPBLOCKS + MAXOPBLOCKS <= LOGSIZE
  {
    var next := s.(outstanding := s.outstanding + 1, ops := s.ops[p := Active(MAXOPBLOCKS)]);
    if BeginGuard(s) { assert Next(a, s, Begin(p), next); }
  }

  /** No run gets stuck: while the kernel has not panicked, a commit or recovery can go on, a process
      inside an operation can go on, and if there is none anybody can begin. */
  lemma NeverStuck(a: LogArea, run: seq<State>, steps: seq<Step>, i: nat, p: nat)
    requires IsRun(a, run, steps) && Fits(a, run) && i < |run| && !run[i].panicked && p < |run[i].ops|
    ensures !run[i].phase.Running? ==>
      exists step: Step, next :: !step.Crash? && Next(a, run[i], step, next)
    ensures run[i].ops[p].Active? ==> exists next :: Next(a, run[i], End(p), next)
    ensures run[i].ops[p].Checked? ==> exists next :: Next(a, run[i], Append(p), next)
    ensures run[i].phase.Running? && run[i].outstanding == 0 ==> exists next :: Next(a, run[i], Begin(p), next)
  {
    var s := run[i];
    RunInv(a, run, steps, i);
    RunClean(a, run, steps, i);
    AllOut(s.ops);
    if !s.phase.Running? {
      WritesGoOn(a, s);
    } else if s.outstanding == 0 {
      BeginIff(a, s, p);
    }
    if s.ops[p].Active? { EndGoesOn(a, s, p); }
    if s.ops[p].Checked? { AppendGoesOn(a, s, p); }
  }

  lemma WritesGoOn(a: LogArea, s: State)
    requires Inv(a, s) && !s.panicked && !s.phase.Running?
    ensures exists step: Step, next :: !step.Crash? && Next(a, s, step, next)
  {
    match s.phase
    case Committing(base, ws, k) =>
      if k < |ws| {
        var d := s.disk[ws[k].id := ws[k].data];
        assert Next(a, s, CommitWrite, s.(disk := d, phase := Committing(base, ws, k + 1)));
      } else {
        assert Next(a, s, CommitDone, s.(lh := [], pinned := map[], phase := Running));
      }
    case Recovering(base, ws, k) =>
      if k < |ws| {
        var d := s.disk[ws[k].id := ws[k].data];
        assert Next(a, s, RecoverWrite, s.(disk := d, phase := Recovering(base, ws, k + 1)));
      } else {
        assert Next(a, s, RecoverDone, s.(phase := Running));
      }
  }

  lemma EndGoesOn(a: LogArea, s: State, p: nat)
    requires Inv(a, s) && !s.panicked && p < |s.ops| && s.ops[p].Active?
    ensures exists next :: Next(a, s, End(p), next)
  {
    var t := s.(outstanding := s.outstanding - 1, ops := s.ops[p := Out]);
    if !s.phase.Running? {
      assert Next(a, s, End(p), t.(panicked := true));
    } else if t.outstanding != 0 {
      assert Next(a, s, End(p), t);
    } else {
      var ws := CommitWrites(a, s.disk[a.Head()], s.lh, PinnedData(s.lh, s.pinned));
      assert Next(a, s, End(p), t.(phase := Committing(s.disk, ws, 0)));
    }
  }

  lemma AppendGoesOn(a: LogArea, s: State, p: nat)
    requires Inv(a, s) && !s.panicked && p < |s.ops| && s.ops[p].Checked?
    ensures exists next :: Next(a, s, Append(p), next)
  {
    var op := s.ops[p];
    var t := s.(pinned := s.pinned[op.b := op.data]);
    if op.b in s.lh {
      assert Next(a, s, Append(p), t.(ops := s.ops[p := Active(op.left)]));
    } else {
      assert Next(a, s, Append(p), t.(lh := s.lh + [op.b], ops := s.ops[p := Active(op.left - 1)]));
    }
  }

  /** The kernel panics exactly at a log_write whose transaction has reached the capacity of its area. */
  lemma PanicsIff(a: LogArea, run: seq<State>, steps: seq<Step>, i: nat)
    requires IsRun(a, run, steps) && i < |steps| && !run[i].panicked
    ensures run[i + 1].panicked <==> steps[i].Check? && |run[i].lh| >= a.Capacity()
  {
    RunReserves(a, run, steps, i);
    assert Follows(a, run, steps, i);
    AllOut(run[i].ops);
    if steps[i].Check? { LogWritePanics(a, run, steps, i, steps[i].p); }
  }
}
