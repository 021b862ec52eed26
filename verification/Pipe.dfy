/** Pipes over sleep and wakeup (pipe.c:59-121, proc.c:445-502), as the steps of any number of
    processes.  Acquiring a lock is one step, taken when the lock is free; everything a process does
    between two such points is split at each access to shared state. */
module Pipe {
  const PIPESIZE := 512
  const WORD := 0x1_0000_0000   // uint counters wrap here
  const NOBODY := -1

  datatype Channel = ReadChannel | WriteChannel   // &p->nread, &p->nwrite

  datatype Op =
    | Nothing
    | Write(buf: seq<int>, i: nat)   // pipewrite, i bytes stored so far
    | Read(n: nat, got: seq<int>)    // piperead
    | Close(writable: bool)          // pipeclose

  datatype PC =
    | Idle
    | Want         // acquire(&p->lock)
    | Body         // holding p->lock
    | WakeWant     // wakeup: acquire(&ptable.lock)
    | WakeDo       // wakeup1
    | WakeRel      // release(&ptable.lock)
    | Leave        // release(&p->lock) and return
    | SleepWant    // sleep: acquire(&ptable.lock)
    | SleepRel     // release(&p->lock)
    | SleepSet     // p->chan = chan; p->state = SLEEPING
    | SleepSched   // sched: the scheduler releases ptable.lock
    | Asleep       // off the CPU
    | Resume       // scheduled again: p->chan = 0; release(&ptable.lock)

  datatype Status = Active | Sleeping(chan: Channel) | Runnable

  datatype Thread = Thread(op: Op, pc: PC, status: Status)

  /** The pipe, the two locks, the processes, who is closing an end, and the history: every byte
      stored and by whom, every byte taken and by whom. */
  datatype Sys = Sys(threads: seq<Thread>, pipeLock: int, ptLock: int,
                     data: seq<int>, nread: nat, nwrite: nat, readOpen: bool, writeOpen: bool, freed: bool,
                     writeCloser: int, readCloser: int,
                     written: seq<int>, writers: seq<nat>, taken: seq<int>, readers: seq<nat>)

  datatype Event = Begin(t: nat, op: Op) | Run(t: nat)

  // ----- the steps -----

  function Wakes(op: Op): Channel {
    if op.Write? || (op.Close? && op.writable) then ReadChannel else WriteChannel
  }

  function SleepsOn(op: Op): Channel { if op.Write? then WriteChannel else ReadChannel }

  predicate HoldsPipe(pc: PC) {
    pc.Body? || pc.WakeWant? || pc.WakeDo? || pc.WakeRel? || pc.Leave? || pc.SleepWant? || pc.SleepRel?
  }
  predicate HoldsPt(pc: PC) {
    pc.WakeDo? || pc.WakeRel? || pc.SleepRel? || pc.SleepSet? || pc.SleepSched? || pc.Resume?
  }

  predicate Full(s: Sys) { s.nwrite == (s.nread + PIPESIZE) % WORD }
  predicate Empty(s: Sys) { s.nread == s.nwrite }

  /** Calls come from holders of an open file, and an end is closed by its last holder: not while
      another process is inside a call on that end, and never twice. */
  predicate MayBegin(s: Sys, op: Op) {
    match op
    case Nothing => false
    case Write(buf, i) => i == 0 && s.writeOpen && s.writeCloser == NOBODY
    case Read(n, got) => got == [] && s.readOpen && s.readCloser == NOBODY
    case Close(w) =>
      if w then s.writeOpen && s.writeCloser == NOBODY && forall t :: 0 <= t < |s.threads| ==> !s.threads[t].op.Write?
      else s.readOpen && s.readCloser == NOBODY && forall t :: 0 <= t < |s.threads| ==> !s.threads[t].op.Read?
  }

  predicate CanRun(s: Sys, t: nat) {
    t < |s.threads| &&
    match s.threads[t].pc
    case Idle => false
    case Want => s.pipeLock == NOBODY
    case WakeWant => s.ptLock == NOBODY
    case SleepWant => s.ptLock == NOBODY
    case Asleep => s.threads[t].status == Runnable && s.ptLock == NOBODY
    case _ => true
  }

  predicate Enabled(s: Sys, e: Event) {
    match e
    case Begin(t, op) => t < |s.threads| && s.threads[t].pc == Idle && MayBegin(s, op)
    case Run(t) => CanRun(s, t) && |s.data| == PIPESIZE
  }

  function Goto(s: Sys, t: nat, pc: PC): Sys
    requires t < |s.threads|
  {
    s.(threads := s.threads[t := s.threads[t].(pc := pc)])
  }

  /** The call returns. */
  function Return(s: Sys, t: nat): Sys
    requires t < |s.threads|
  {
    s.(threads := s.threads[t := Thread(Nothing, Idle, Active)], pipeLock := NOBODY,
       writeCloser := if s.writeCloser == t then NOBODY else s.writeCloser,
       readCloser := if s.readCloser == t then NOBODY else s.readCloser)
  }

  function WriteBody(s: Sys, t: nat): Sys
    requires t < |s.threads| && s.threads[t].op.Write? && |s.data| == PIPESIZE
  {
    var op := s.threads[t].op;
    if op.i >= |op.buf| then Goto(s, t, WakeWant)
    else if Full(s) then
      if !s.readOpen then Return(s, t) else Goto(s, t, WakeWant)
    else
      s.(threads := s.threads[t := s.threads[t].(op := Write(op.buf, op.i + 1))],
         data := s.data[s.nwrite % PIPESIZE := op.buf[op.i]],
         nwrite := (s.nwrite + 1) % WORD,
         written := s.written + [op.buf[op.i]],
         writers := s.writers + [t])
  }

  function ReadBody(s: Sys, t: nat): Sys
    requires t < |s.threads| && s.threads[t].op.Read? && |s.data| == PIPESIZE
  {
    var op := s.threads[t].op;
    if op.got == [] && Empty(s) && s.writeOpen then Goto(s, t, SleepWant)
    else if |op.got| >= op.n || Empty(s) then Goto(s, t, WakeWant)
    else
      var b := s.data[s.nread % PIPESIZE];
      s.(threads := s.threads[t := s.threads[t].(op := Read(op.n, op.got + [b]))],
         nread := (s.nread + 1) % WORD,
         taken := s.taken + [b],
         readers := s.readers + [t])
  }

  function CloseBody(s: Sys, t: nat): Sys
    requires t < |s.threads| && s.threads[t].op.Close?
  {
    Goto(if s.threads[t].op.writable then s.(writeOpen := false) else s.(readOpen := false), t, WakeWant)
  }

  /** wakeup1 */
  function Woken(th: Thread, ch: Channel): Thread {
    if th.status == Sleeping(ch) then th.(status := Runnable) else th
  }

  function WakeAll(threads: seq<Thread>, ch: Channel): (r: seq<Thread>)
    ensures |r| == |threads| && forall i :: 0 <= i < |threads| ==> r[i] == Woken(threads[i], ch)
  {
    seq(|threads|, i requires 0 <= i < |threads| => Woken(threads[i], ch))
  }

  function RunStep(s: Sys, t: nat): Sys
    requires CanRun(s, t) && |s.data| == PIPESIZE
  {
    var th := s.threads[t];
    match th.pc
    case Want => Goto(s, t, Body).(pipeLock := t)
    case Body =>
      if th.op.Write? then WriteBody(s, t) else if th.op.Read? then ReadBody(s, t)
        else if th.op.Close? then CloseBody(s, t) else s
    case WakeWant => Goto(s, t, WakeDo).(ptLock := t)
    case WakeDo => Goto(s.(threads := WakeAll(s.threads, Wakes(th.op))), t, WakeRel)
    case WakeRel => Goto(s, t, if th.op.Write? && th.op.i < |th.op.buf| then SleepWant else Leave).(ptLock := NOBODY)
    case Leave => Return(s, t).(freed := s.freed || (th.op.Close? && !s.readOpen && !s.writeOpen))
    case SleepWant => Goto(s, t, SleepRel).(ptLock := t)
    case SleepRel => Goto(s, t, SleepSet).(pipeLock := NOBODY)
    case SleepSet => s.(threads := s.threads[t := Thread(th.op, SleepSched, Sleeping(SleepsOn(th.op)))])
    case SleepSched => Goto(s, t, Asleep).(ptLock := NOBODY)
    case Asleep => s.(threads := s.threads[t := Thread(th.op, Resume, Active)], ptLock := t)
    case Resume => Goto(s, t, Want).(ptLock := NOBODY)
  }

  function Apply(s: Sys, e: Event): Sys
    requires Enabled(s, e)
  {
    match e
    case Begin(t, op) =>
      s.(threads := s.threads[t := Thread(op, Want, Active)],
         writeCloser := if op == Close(true) then t else s.writeCloser,
         readCloser := if op == Close(false) then t else s.readCloser)
    case Run(t) => RunStep(s, t)
  }

  /** pipealloc, with n processes. */
  function Start(n: nat): Sys {
    Sys(seq(n, _ => Thread(Nothing, Idle, Active)), NOBODY, NOBODY, seq(PIPESIZE, _ => 0), 0, 0, true, true, false,
      NOBODY, NOBODY, [], [], [], [])
  }

  // ----- the invariant -----

  predicate SleepPC(pc: PC) {
    pc.SleepWant? || pc.SleepRel? || pc.SleepSet? || pc.SleepSched? || pc.Asleep? || pc.Resume?
  }

  predicate ThreadOk(th: Thread) {
    && (th.pc == Idle <==> th.op == Nothing)
    && (th.status == Active <==> th.pc != SleepSched && th.pc != Asleep)
    && (th.status.Sleeping? ==> th.status.chan == SleepsOn(th.op))
    && (th.status == Runnable ==> th.pc == Asleep)
    && (SleepPC(th.pc) ==> th.op.Write? || th.op.Read?)
    && (th.op.Write? ==> th.op.i <= |th.op.buf|)
    && (th.op.Write? && SleepPC(th.pc) ==> th.op.i < |th.op.buf|)
    && (th.op.Read? ==> |th.op.got| <= th.op.n)
  }

  predicate EndsOk(s: Sys, t: int, th: Thread) {
    && (th.op.Write? ==> s.writeOpen && s.writeCloser == NOBODY)
    && (th.op.Read? ==> s.readOpen && s.readCloser == NOBODY)
    && (th.op == Close(true) <==> s.writeCloser == t)
    && (th.op == Close(false) <==> s.readCloser == t)
    && (th.op.Close? ==> ((if th.op.writable then s.writeOpen else s.readOpen) <==> (th.pc.Want? || th.pc.Body?)))
    && (s.freed ==> th.op == Nothing)
  }

  ghost predicate RingOk(s: Sys) {
    && |s.data| == PIPESIZE && |s.taken| <= |s.written| <= |s.taken| + PIPESIZE
    && s.taken == s.written[..|s.taken|]
    && s.nread == |s.taken| % WORD && s.nwrite == |s.written| % WORD
    && forall k :: |s.taken| <= k < |s.written| ==> s.data[k % PIPESIZE] == s.written[k]
  }

  /** Nothing to do for those who wait on ch. */
  predicate Stuck(s: Sys, ch: Channel) {
    if ch == ReadChannel then Empty(s) && s.writeOpen else Full(s) && s.readOpen
  }

  /** The holder of the pipe's lock has yet to wake those who wait on ch.  A reader that has taken
      nothing owes nothing. */
  predicate Owed(s: Sys, ch: Channel) {
    && 0 <= s.pipeLock < |s.threads|
    && var th := s.threads[s.pipeLock];
       Wakes(th.op) == ch && (th.pc.WakeWant? || th.pc.WakeDo? || (th.pc.Body? && !(th.op.Read? && th.op.got == [])))
  }

  /** Asleep, or past the point where it decided to sleep. */
  predicate Waiting(th: Thread) {
    (th.pc.SleepWant? || th.pc.SleepRel? || th.pc.SleepSet? || th.pc.SleepSched?)
      || (th.pc == Asleep && th.status.Sleeping?)
  }

  /** A writer that wakes the readers before it waits for them. */
  predicate AboutToWait(th: Thread) {
    th.op.Write? && th.op.i < |th.op.buf| && (th.pc.WakeWant? || th.pc.WakeDo? || th.pc.WakeRel?)
  }

  predicate SleepOk(s: Sys, th: Thread) {
    && (Waiting(th) ==> Stuck(s, SleepsOn(th.op)) || Owed(s, SleepsOn(th.op)))
    && (AboutToWait(th) ==> Full(s) && s.readOpen)
  }

  /** What holds of process t. */
  predicate Fine(s: Sys, t: int, th: Thread) {
    && ThreadOk(th)
    && (HoldsPipe(th.pc) <==> s.pipeLock == t)
    && (HoldsPt(th.pc) <==> s.ptLock == t)
    && EndsOk(s, t, th)
    && SleepOk(s, th)
  }

  predicate Someone(s: Sys, t: int) { t == NOBODY || 0 <= t < |s.threads| }

  predicate SharedOk(s: Sys) {
    && |s.data| == PIPESIZE && Someone(s, s.pipeLock) && Someone(s, s.ptLock) && Someone(s, s.writeCloser)
    && Someone(s, s.readCloser)
    && (s.freed ==> !s.readOpen && !s.writeOpen)
  }

  ghost predicate Inv(s: Sys) {
    SharedOk(s) && RingOk(s) && forall t :: 0 <= t < |s.threads| ==> Fine(s, t, s.threads[t])
  }

  lemma StartInv(n: nat)
    ensures Inv(Start(n))
  {
  }

  /** The counters tell full and empty apart, also when they have wrapped. */
  lemma CountersExact(s: Sys)
    requires RingOk(s)
    ensures Full(s) <==> |s.written| == |s.taken| + PIPESIZE
    ensures Empty(s) <==> |s.written| == |s.taken|
  {
    var n, m := |s.written|, |s.taken|;
    assert (m % WORD + PIPESIZE) % WORD == (m + PIPESIZE) % WORD;
    if (m + PIPESIZE) % WORD == n % WORD { Congruent(n, m + PIPESIZE); }
    if n % WORD == m % WORD { Congruent(m, n); }
  }

  lemma Congruent(a: int, b: int)
    requires 0 <= a <= b < a + WORD && a % WORD == b % WORD
    ensures a == b
  {
  }

  // ----- a step of t keeps what holds of t, and of any other process u -----

  lemma WriteOwn(s: Sys, t: nat)
    requires SharedOk(s) && CanRun(s, t) && Fine(s, t, s.threads[t]) && s.threads[t].pc == Body
    requires s.threads[t].op.Write?
    ensures SharedOk(RunStep(s, t)) && Fine(RunStep(s, t), t, RunStep(s, t).threads[t])
  {
  }

  lemma WriteOther(s: Sys, t: nat, u: nat)
    requires SharedOk(s) && RingOk(s) && CanRun(s, t) && u < |s.threads| && u != t
    requires Fine(s, t, s.threads[t]) && Fine(s, u, s.threads[u]) && s.threads[t].pc == Body && s.threads[t].op.Write?
    ensures Fine(RunStep(s, t), u, RunStep(s, t).threads[u])
  {
  }

  lemma ReadOwn(s: Sys, t: nat)
    requires SharedOk(s) && CanRun(s, t) && Fine(s, t, s.threads[t]) && s.threads[t].pc == Body && s.threads[t].op.Read?
    ensures SharedOk(RunStep(s, t)) && Fine(RunStep(s, t), t, RunStep(s, t).threads[t])
  {
  }

  lemma ReadOther(s: Sys, t: nat, u: nat)
    requires SharedOk(s) && RingOk(s) && CanRun(s, t) && u < |s.threads| && u != t
    requires Fine(s, t, s.threads[t]) && Fine(s, u, s.threads[u]) && s.threads[t].pc == Body && s.threads[t].op.Read?
    ensures Fine(RunStep(s, t), u, RunStep(s, t).threads[u])
  {
    CountersExact(s);
  }

  lemma CloseOwn(s: Sys, t: nat)
    requires SharedOk(s) && CanRun(s, t) && Fine(s, t, s.threads[t]) && s.threads[t].pc == Body
    requires s.threads[t].op.Close?
    ensures SharedOk(RunStep(s, t)) && Fine(RunStep(s, t), t, RunStep(s, t).threads[t])
  {
  }

  lemma CloseOther(s: Sys, t: nat, u: nat)
    requires SharedOk(s) && RingOk(s) && CanRun(s, t) && u < |s.threads| && u != t
    requires Fine(s, t, s.threads[t]) && Fine(s, u, s.threads[u]) && s.threads[t].pc == Body && s.threads[t].op.Close?
    ensures Fine(RunStep(s, t), u, RunStep(s, t).threads[u])
  {
  }

  lemma WakeupOwn(s: Sys, t: nat)
    requires SharedOk(s) && CanRun(s, t) && Fine(s, t, s.threads[t])
    requires (s.threads[t].pc.WakeWant? || s.threads[t].pc.WakeDo? || s.threads[t].pc.WakeRel?)
    ensures SharedOk(RunStep(s, t)) && Fine(RunStep(s, t), t, RunStep(s, t).threads[t])
  {
  }

  lemma WakeupOther(s: Sys, t: nat, u: nat)
    requires SharedOk(s) && RingOk(s) && CanRun(s, t) && u < |s.threads| && u != t
    requires Fine(s, t, s.threads[t]) && Fine(s, u, s.threads[u])
    requires (s.threads[t].pc.WakeWant? || s.threads[t].pc.WakeDo? || s.threads[t].pc.WakeRel?)
    ensures Fine(RunStep(s, t), u, RunStep(s, t).threads[u])
  {
  }

  lemma SleepOwn(s: Sys, t: nat)
    requires SharedOk(s) && CanRun(s, t) && Fine(s, t, s.threads[t])
    requires (s.threads[t].pc.SleepWant? || s.threads[t].pc.SleepRel? || s.threads[t].pc.SleepSet?
      || s.threads[t].pc.SleepSched?)
    ensures SharedOk(RunStep(s, t)) && Fine(RunStep(s, t), t, RunStep(s, t).threads[t])
  {
  }

  lemma SleepOther(s: Sys, t: nat, u: nat)
    requires SharedOk(s) && RingOk(s) && CanRun(s, t) && u < |s.threads| && u != t
    requires Fine(s, t, s.threads[t]) && Fine(s, u, s.threads[u])
    requires (s.threads[t].pc.SleepWant? || s.threads[t].pc.SleepRel? || s.threads[t].pc.SleepSet?
      || s.threads[t].pc.SleepSched?)
    ensures Fine(RunStep(s, t), u, RunStep(s, t).threads[u])
  {
  }

  lemma TurnOwn(s: Sys, t: nat)
    requires SharedOk(s) && CanRun(s, t) && Fine(s, t, s.threads[t])
    requires (s.threads[t].pc.Want? || s.threads[t].pc.Leave? || s.threads[t].pc.Asleep? || s.threads[t].pc.Resume?)
    ensures SharedOk(RunStep(s, t)) && Fine(RunStep(s, t), t, RunStep(s, t).threads[t])
  {
  }

  lemma TurnOther(s: Sys, t: nat, u: nat)
    requires SharedOk(s) && RingOk(s) && CanRun(s, t) && u < |s.threads| && u != t
    requires Fine(s, t, s.threads[t]) && Fine(s, u, s.threads[u])
    requires (s.threads[t].pc.Want? || s.threads[t].pc.Leave? || s.threads[t].pc.Asleep? || s.threads[t].pc.Resume?)
    ensures Fine(RunStep(s, t), u, RunStep(s, t).threads[u])
  {
  }

  // ----- the ring -----

  lemma StoreKeepsRing(s: Sys, t: nat)
    requires RingOk(s) && t < |s.threads| && s.threads[t].op.Write? && s.threads[t].op.i < |s.threads[t].op.buf|
    requires !Full(s)
    ensures RingOk(WriteBody(s, t))
  {
    CountersExact(s);
    var s' := WriteBody(s, t);
    var n := |s.written|;
    Remainder(n);
    forall k | |s'.taken| <= k < |s'.written| ensures s'.data[k % PIPESIZE] == s'.written[k] {
      if k < n { SlotsDiffer(k, n); }
    }
  }

  lemma TakeKeepsRing(s: Sys, t: nat)
    requires RingOk(s) && t < |s.threads| && s.threads[t].op.Read? && |s.threads[t].op.got| < s.threads[t].op.n
    requires !Empty(s)
    ensures RingOk(ReadBody(s, t))
  {
    CountersExact(s);
    Remainder(|s.taken|);
  }

  lemma Remainder(n: nat)
    ensures (n % WORD) % PIPESIZE == n % PIPESIZE && (n % WORD + 1) % WORD == (n + 1) % WORD
  {
  }

  lemma SlotsDiffer(k: nat, n: nat)
    requires k < n < k + PIPESIZE
    ensures k % PIPESIZE != n % PIPESIZE
  {
  }

  lemma BodyKeepsRing(s: Sys, t: nat)
    requires RingOk(s) && CanRun(s, t) && s.threads[t].pc == Body
    ensures RingOk(RunStep(s, t))
  {
    var op := s.threads[t].op;
    if op.Write? && op.i < |op.buf| && !Full(s) {
      StoreKeepsRing(s, t);
    } else if op.Read? && |op.got| < op.n && !Empty(s) {
      TakeKeepsRing(s, t);
    }
  }

  /** Only the three bodies touch the pipe. */
  lemma OutsideBody(s: Sys, t: nat)
    requires CanRun(s, t) && |s.data| == PIPESIZE && s.threads[t].pc != Body
    ensures var r := RunStep(s, t);
            && r.data == s.data && r.nread == s.nread && r.nwrite == s.nwrite && r.written == s.written
            && r.taken == s.taken
            && |r.threads| == |s.threads|
  {
  }

  lemma InsideBody(s: Sys, t: nat)
    requires CanRun(s, t) && |s.data| == PIPESIZE && s.threads[t].pc == Body
    ensures |RunStep(s, t).threads| == |s.threads|
  {
  }

  lemma OwnKept(s: Sys, t: nat)
    requires SharedOk(s) && CanRun(s, t) && Fine(s, t, s.threads[t]) && t < |RunStep(s, t).threads|
    ensures SharedOk(RunStep(s, t)) && Fine(RunStep(s, t), t, RunStep(s, t).threads[t])
  {
    match s.threads[t].pc
    case Body =>
      match s.threads[t].op {
        case Write(_, _) => WriteOwn(s, t);
        case Read(_, _) => ReadOwn(s, t);
        case Close(_) => CloseOwn(s, t);
      }
    case WakeWant => WakeupOwn(s, t);
    case WakeDo => WakeupOwn(s, t);
    case WakeRel => WakeupOwn(s, t);
    case Want => TurnOwn(s, t);
    case Leave => TurnOwn(s, t);
    case Asleep => TurnOwn(s, t);
    case Resume => TurnOwn(s, t);
    case _ => SleepOwn(s, t);
  }

  lemma OtherKept(s: Sys, t: nat, u: nat)
    requires SharedOk(s) && RingOk(s) && CanRun(s, t) && u < |s.threads| && u != t
    requires |RunStep(s, t).threads| == |s.threads|
    requires Fine(s, t, s.threads[t]) && Fine(s, u, s.threads[u])
    ensures Fine(RunStep(s, t), u, RunStep(s, t).threads[u])
  {
    match s.threads[t].pc
    case Body =>
      match s.threads[t].op {
        case Write(_, _) => WriteOther(s, t, u);
        case Read(_, _) => ReadOther(s, t, u);
        case Close(_) => CloseOther(s, t, u);
      }
    case WakeWant => WakeupOther(s, t, u);
    case WakeDo => WakeupOther(s, t, u);
    case WakeRel => WakeupOther(s, t, u);
    case Want => TurnOther(s, t, u);
    case Leave => TurnOther(s, t, u);
    case Asleep => TurnOther(s, t, u);
    case Resume => TurnOther(s, t, u);
    case _ => SleepOther(s, t, u);
  }

  lemma RunKeepsRing(s: Sys, t: nat)
    requires RingOk(s) && CanRun(s, t)
    ensures RingOk(RunStep(s, t)) && |RunStep(s, t).threads| == |s.threads|
  {
    if s.threads[t].pc == Body {
      BodyKeepsRing(s, t);
      InsideBody(s, t);
    } else {
      OutsideBody(s, t);
    }
  }

  lemma RunKeepsInv(s: Sys, t: nat)
    requires Inv(s) && CanRun(s, t)
    ensures Inv(RunStep(s, t))
  {
    RunKeepsRing(s, t);
    OwnKept(s, t);
    forall u | 0 <= u < |s.threads| ensures Fine(RunStep(s, t), u, RunStep(s, t).threads[u]) {
      if u != t { OtherKept(s, t, u); }
    }
  }

  lemma BeginKeepsInv(s: Sys, t: nat, op: Op)
    requires Inv(s) && Enabled(s, Begin(t, op))
    ensures Inv(Apply(s, Begin(t, op)))
  {
    var s' := Apply(s, Begin(t, op));
    forall u | 0 <= u < |s.threads| ensures Fine(s', u, s'.threads[u]) {
      assert Fine(s, t, s.threads[t]) && Fine(s, u, s.threads[u]);
    }
  }

  // ----- every interleaving -----

  ghost predicate Trace(states: seq<Sys>, events: seq<Event>) {
    && |states| == |events| + 1
    && forall i :: 0 <= i < |events| ==> Enabled(states[i], events[i]) && states[i + 1] == Apply(states[i], events[i])
  }

  lemma {:induction false} TraceInv(n: nat, states: seq<Sys>, events: seq<Event>, k: nat)
    requires Trace(states, events) && states[0] == Start(n) && k < |states|
    ensures Inv(states[k])
  {
    if k == 0 {
      StartInv(n);
    } else {
      TraceInv(n, states, events, k - 1);
      match events[k - 1]
      case Begin(t, op) => BeginKeepsInv(states[k - 1], t, op);
      case Run(t) => RunKeepsInv(states[k - 1], t);
    }
  }

  /** In every state of every run: the bytes read are a prefix of the bytes written, at most PIPESIZE
      are buffered and the ring holds exactly them; and while the pipe's lock is free, whoever sleeps
      on nread has an empty pipe with its writer open, whoever sleeps on nwrite a full one with its
      reader open. */
  lemma PipeSafe(n: nat, states: seq<Sys>, events: seq<Event>, k: nat)
    requires Trace(states, events) && states[0] == Start(n) && k < |states|
    ensures var s := states[k];
            && s.taken <= s.written && |s.written| - |s.taken| <= PIPESIZE == |s.data|
            && (forall b :: |s.taken| <= b < |s.written| ==> s.data[b % PIPESIZE] == s.written[b])
            && (forall t :: 0 <= t < |s.threads| && s.threads[t].status.Sleeping? && s.pipeLock == NOBODY ==>
                 Stuck(s, s.threads[t].status.chan))
            && (s.freed ==> forall t :: 0 <= t < |s.threads| ==> s.threads[t].op == Nothing)
  {
    TraceInv(n, states, events, k);
    var s := states[k];
    forall t | 0 <= t < |s.threads| && s.threads[t].status.Sleeping? && s.pipeLock == NOBODY
      ensures Stuck(s, s.threads[t].status.chan)
    {
      assert Fine(s, t, s.threads[t]);
    }
    forall t | 0 <= t < |s.threads| && s.freed ensures s.threads[t].op == Nothing {
      assert Fine(s, t, s.threads[t]);
    }
  }

  /** Whoever holds ptable.lock can go on, and then whoever holds the pipe's. */
  lemma HoldersRun(s: Sys)
    requires Inv(s)
    ensures s.ptLock != NOBODY ==> CanRun(s, s.ptLock)
    ensures s.ptLock == NOBODY && s.pipeLock != NOBODY ==> CanRun(s, s.pipeLock)
  {
    if s.ptLock != NOBODY {
      assert Fine(s, s.ptLock, s.threads[s.ptLock]);
    } else if s.pipeLock != NOBODY {
      assert Fine(s, s.pipeLock, s.threads[s.pipeLock]);
    }
  }

  ghost predicate AllAsleep(s: Sys, ch: Channel) {
    forall t :: 0 <= t < |s.threads| && s.threads[t].op != Nothing ==>
      s.threads[t].status == Sleeping(ch) && Stuck(s, ch)
  }

  /** No run gets stuck half-way: if no process inside a call can take a step, they are all asleep on
      the same channel, and rightly so. */
  lemma NoDeadlock(n: nat, states: seq<Sys>, events: seq<Event>, k: nat)
    requires Trace(states, events) && states[0] == Start(n) && k < |states|
    requires forall t :: 0 <= t < |states[k].threads| ==> !CanRun(states[k], t)
    ensures exists ch :: AllAsleep(states[k], ch)
  {
    TraceInv(n, states, events, k);
    var s := states[k];
    HoldersRun(s);
    CountersExact(s);
    var ch := if Empty(s) then ReadChannel else WriteChannel;
    forall t | 0 <= t < |s.threads| && s.threads[t].op != Nothing
      ensures s.threads[t].status == Sleeping(ch) && Stuck(s, ch)
    {
      assert !CanRun(s, t);
      assert Fine(s, t, s.threads[t]);
    }
    assert AllAsleep(s, ch);
  }

  // ----- what each call transfers -----

  /** The bytes of a history that process t moved. */
  function By(bytes: seq<int>, who: seq<nat>, t: nat): (r: seq<int>)
    requires |who| == |bytes|
    decreases |bytes|
  {
    if bytes == [] then []
    else
      var n := |bytes| - 1;
      By(bytes[..n], who[..n], t) + if who[n] == t then [bytes[n]] else []
  }

  lemma ByMore(bytes: seq<int>, who: seq<nat>, b: int, u: nat, t: nat)
    requires |who| == |bytes|
    ensures By(bytes + [b], who + [u], t) == By(bytes, who, t) + if u == t then [b] else []
  {
    assert (bytes + [b])[..|bytes|] == bytes && (who + [u])[..|who|] == who;
  }

  predicate EndsWith(s: seq<int>, t: seq<int>) { |t| <= |s| && s[|s| - |t|..] == t }

  lemma EndsWithMore(s: seq<int>, t: seq<int>, b: int)
    requires EndsWith(s, t)
    ensures EndsWith(s + [b], t + [b])
  {
    var u, v := s + [b], t + [b];
    assert u[|u| - |v|..] == s[|s| - |t|..] + [b];
  }

  /** What process t stored last is the part of its buffer done so far; what it took last is what its
      call will return. */
  predicate Exact(s: Sys, t: nat, op: Op) {
    && |s.writers| == |s.written| && |s.readers| == |s.taken|
    && (op.Write? ==> op.i <= |op.buf| && EndsWith(By(s.written, s.writers, t), op.buf[..op.i]))
    && (op.Read? ==> EndsWith(By(s.taken, s.readers, t), op.got))
  }

  lemma RunKeepsExact(s: Sys, t: nat, u: nat)
    requires Inv(s) && CanRun(s, t) && u < |s.threads| && Exact(s, u, s.threads[u].op)
    ensures |RunStep(s, t).threads| == |s.threads| && Exact(RunStep(s, t), u, RunStep(s, t).threads[u].op)
  {
    RunKeepsRing(s, t);
    assert Fine(s, t, s.threads[t]);
    var th := s.threads[t];
    if th.pc == Body && th.op.Write? && th.op.i < |th.op.buf| && !Full(s) {
      StoreKeepsExact(s, t, u);
    } else if th.pc == Body && th.op.Read? && !(th.op.got == [] && Empty(s) && s.writeOpen) && |th.op.got| < th.op.n
      && !Empty(s) {
      TakeKeepsExact(s, t, u);
    } else {
      RestKeepsExact(s, t, u);
    }
  }

  lemma StoreKeepsExact(s: Sys, t: nat, u: nat)
    requires |s.data| == PIPESIZE && t < |s.threads| && u < |s.threads| && Exact(s, u, s.threads[u].op)
    requires s.threads[t].op.Write? && s.threads[t].op.i < |s.threads[t].op.buf| && !Full(s)
    ensures Exact(WriteBody(s, t), u, WriteBody(s, t).threads[u].op)
  {
    var op := s.threads[t].op;
    var b := op.buf[op.i];
    ByMore(s.written, s.writers, b, t, u);
    StoreEffect(s, t);
    if u == t {
      EndsWithMore(By(s.written, s.writers, u), op.buf[..op.i], b);
      assert op.buf[..op.i + 1] == op.buf[..op.i] + [b];
    }
  }

  lemma StoreEffect(s: Sys, t: nat)
    requires |s.data| == PIPESIZE && t < |s.threads|
    requires s.threads[t].op.Write? && s.threads[t].op.i < |s.threads[t].op.buf| && !Full(s)
    ensures var r, op := WriteBody(s, t), s.threads[t].op;
            && r.written == s.written + [op.buf[op.i]] && r.writers == s.writers + [t]
            && r.taken == s.taken && r.readers == s.readers
            && r.threads == s.threads[t := s.threads[t].(op := Write(op.buf, op.i + 1))]
  {
  }

  lemma TakeKeepsExact(s: Sys, t: nat, u: nat)
    requires |s.data| == PIPESIZE && t < |s.threads| && u < |s.threads| && Exact(s, u, s.threads[u].op)
    requires s.threads[t].op.Read? && |s.threads[t].op.got| < s.threads[t].op.n && !Empty(s)
    ensures Exact(ReadBody(s, t), u, ReadBody(s, t).threads[u].op)
  {
    var op := s.threads[t].op;
    var b := s.data[s.nread % PIPESIZE];
    ByMore(s.taken, s.readers, b, t, u);
    if u == t { EndsWithMore(By(s.taken, s.readers, u), op.got, b); }
  }

  /** No other step moves a byte or an operation's count. */
  lemma RestKeepsExact(s: Sys, t: nat, u: nat)
    requires |s.data| == PIPESIZE && CanRun(s, t) && u < |s.threads| && Exact(s, u, s.threads[u].op)
    requires var th := s.threads[t];
             th.pc == Body ==>
               (th.op.Write? ==> th.op.i >= |th.op.buf| || Full(s))
               && (th.op.Read? ==> |th.op.got| >= th.op.n || Empty(s))
    ensures |RunStep(s, t).threads| == |s.threads| && Exact(RunStep(s, t), u, RunStep(s, t).threads[u].op)
  {
    if s.threads[t].pc == Body { QuietBody(s, t, u); } else { OutsideOps(s, t, u); }
  }

  lemma QuietBody(s: Sys, t: nat, u: nat)
    requires |s.data| == PIPESIZE && CanRun(s, t) && u < |s.threads| && s.threads[t].pc == Body
    requires var th := s.threads[t];
             (th.op.Write? ==> th.op.i >= |th.op.buf| || Full(s))
               && (th.op.Read? ==> |th.op.got| >= th.op.n || Empty(s))
    ensures SameHistory(s, RunStep(s, t), u)
  {
  }

  predicate SameHistory(s: Sys, r: Sys, u: nat) {
    && |r.threads| == |s.threads| && u < |s.threads|
    && r.written == s.written && r.writers == s.writers && r.taken == s.taken && r.readers == s.readers
    && (r.threads[u].op == s.threads[u].op || r.threads[u].op == Nothing)
  }

  lemma OutsideOps(s: Sys, t: nat, u: nat)
    requires CanRun(s, t) && |s.data| == PIPESIZE && s.threads[t].pc != Body && u < |s.threads|
    ensures SameHistory(s, RunStep(s, t), u)
  {
  }

  lemma BeginKeepsExact(s: Sys, t: nat, op: Op, u: nat)
    requires Enabled(s, Begin(t, op)) && u < |s.threads| && Exact(s, u, s.threads[u].op)
    ensures var r := Apply(s, Begin(t, op)); |r.threads| == |s.threads| && Exact(r, u, r.threads[u].op)
  {
    assert op.Write? ==> op.buf[..op.i] == [];
  }

  /** In every state of every run: a pipewrite has stored exactly the bytes of its buffer up to its
      count, in order, and a piperead holds exactly the bytes it has taken, in order. */
  lemma {:induction false} CallsExact(n: nat, states: seq<Sys>, events: seq<Event>, k: nat, u: nat)
    requires Trace(states, events) && states[0] == Start(n) && k < |states| && u < n
    ensures |states[k].threads| == n && Exact(states[k], u, states[k].threads[u].op)
    decreases k
  {
    if k > 0 {
      CallsExact(n, states, events, k - 1, u);
      TraceInv(n, states, events, k - 1);
      match events[k - 1]
      case Begin(t, op) => BeginKeepsExact(states[k - 1], t, op, u);
      case Run(t) => RunKeepsExact(states[k - 1], t, u);
    }
  }

  // ----- how much each call transfers -----

  /** Past its loop: the call wakes the other side and returns. */
  predicate Finishing(pc: PC) { pc.WakeWant? || pc.WakeDo? || pc.WakeRel? || pc.Leave? }

  /** A piperead that stops has its n bytes or has emptied the pipe, and has nothing only if the writer
      is gone; a pipewrite that leaves has stored all of its buffer. */
  predicate Complete(s: Sys, th: Thread) {
    && (th.op.Read? && Finishing(th.pc) ==>
         && (|th.op.got| >= th.op.n || Empty(s))
         && (th.op.got == [] && th.op.n > 0 ==> !s.writeOpen))
    && (th.op.Write? && th.pc == Leave ==> th.op.i >= |th.op.buf|)
  }

  lemma RunKeepsComplete(s: Sys, t: nat, u: nat)
    requires Inv(s) && CanRun(s, t) && u < |s.threads| && Complete(s, s.threads[u])
    ensures |RunStep(s, t).threads| == |s.threads| && Complete(RunStep(s, t), RunStep(s, t).threads[u])
  {
    RunKeepsRing(s, t);
    assert Fine(s, t, s.threads[t]) && Fine(s, u, s.threads[u]);
    if s.threads[t].pc == Body { BodyCompletes(s, t, u); } else { RestCompletes(s, t, u); }
  }

  lemma BodyCompletes(s: Sys, t: nat, u: nat)
    requires |s.data| == PIPESIZE && CanRun(s, t) && u < |s.threads| && s.threads[t].pc == Body
    requires Complete(s, s.threads[u]) && Fine(s, t, s.threads[t]) && Fine(s, u, s.threads[u])
    requires |RunStep(s, t).threads| == |s.threads|
    ensures Complete(RunStep(s, t), RunStep(s, t).threads[u])
  {
  }

  lemma RestCompletes(s: Sys, t: nat, u: nat)
    requires |s.data| == PIPESIZE && CanRun(s, t) && u < |s.threads| && s.threads[t].pc != Body
    requires Complete(s, s.threads[u]) && |RunStep(s, t).threads| == |s.threads|
    ensures Complete(RunStep(s, t), RunStep(s, t).threads[u])
  {
    OutsideBody(s, t);
    RestFlags(s, t, u);
    if u == t { RestOwn(s, t); }
  }

  lemma RestFlags(s: Sys, t: nat, u: nat)
    requires |s.data| == PIPESIZE && CanRun(s, t) && u < |s.threads| && s.threads[t].pc != Body
    requires |RunStep(s, t).threads| == |s.threads|
    ensures var r := RunStep(s, t);
            && r.writeOpen == s.writeOpen
            && (u != t ==> r.threads[u].op == s.threads[u].op && r.threads[u].pc == s.threads[u].pc)
  {
  }

  /** Outside its loop a process goes on to the end of its call, or back to its loop. */
  ghost predicate GoesOn(th: Thread, now: Thread) {
    && (now.op == th.op || now == Thread(Nothing, Idle, Active))
    && (Finishing(now.pc) ==> Finishing(th.pc) && now.op == th.op)
    && (now.pc == Leave && now.op.Write? ==> now.op.i >= |now.op.buf|)
  }

  lemma RestOwn(s: Sys, t: nat)
    requires |s.data| == PIPESIZE && CanRun(s, t) && s.threads[t].pc != Body
    requires |RunStep(s, t).threads| == |s.threads|
    ensures GoesOn(s.threads[t], RunStep(s, t).threads[t])
  {
    var pc := s.threads[t].pc;
    if pc.WakeWant? || pc.WakeDo? || pc.WakeRel? || pc.Leave? { WakeGoesOn(s, t); } else { SleepGoesOn(s, t); }
  }

  lemma WakeGoesOn(s: Sys, t: nat)
    requires |s.data| == PIPESIZE && CanRun(s, t) && |RunStep(s, t).threads| == |s.threads|
    requires Finishing(s.threads[t].pc)
    ensures GoesOn(s.threads[t], RunStep(s, t).threads[t])
  {
  }

  lemma SleepGoesOn(s: Sys, t: nat)
    requires |s.data| == PIPESIZE && CanRun(s, t) && |RunStep(s, t).threads| == |s.threads|
    requires s.threads[t].pc != Body && !Finishing(s.threads[t].pc)
    ensures GoesOn(s.threads[t], RunStep(s, t).threads[t])
  {
  }

  lemma {:induction false} TraceComplete(n: nat, states: seq<Sys>, events: seq<Event>, k: nat, u: nat)
    requires Trace(states, events) && states[0] == Start(n) && k < |states| && u < n
    ensures |states[k].threads| == n && Complete(states[k], states[k].threads[u])
    decreases k
  {
    if k > 0 {
      TraceComplete(n, states, events, k - 1, u);
      TraceInv(n, states, events, k - 1);
      match events[k - 1]
      case Begin(t, op) => BeginKeepsComplete(states[k - 1], t, op, u);
      case Run(t) => RunKeepsComplete(states[k - 1], t, u);
    }
  }

  lemma BeginKeepsComplete(s: Sys, t: nat, op: Op, u: nat)
    requires Enabled(s, Begin(t, op)) && u < |s.threads| && Complete(s, s.threads[u])
    ensures var r := Apply(s, Begin(t, op)); |r.threads| == |s.threads| && Complete(r, r.threads[u])
  {
  }

  /** Both are the same call. */
  predicate SameCall(op: Op, now: Op) {
    match op
    case Nothing => now == Nothing
    case Write(buf, _) => now.Write? && now.buf == buf
    case Read(n, _) => now.Read? && now.n == n
    case Close(w) => now == Close(w)
  }

  lemma StepSameCall(s: Sys, e: Event, u: nat)
    requires Enabled(s, e) && |s.data| == PIPESIZE && u < |s.threads| && s.threads[u].op != Nothing
    requires e.Begin? ==> s.threads[u].pc != Idle
    ensures var r := Apply(s, e);
            |r.threads| == |s.threads| && (r.threads[u].op == Nothing || SameCall(s.threads[u].op, r.threads[u].op))
  {
    if e.Run? {
      if s.threads[e.t].pc == Body { BodySameCall(s, e.t, u); } else { OutsideOps(s, e.t, u); }
    }
  }

  lemma BodySameCall(s: Sys, t: nat, u: nat)
    requires CanRun(s, t) && |s.data| == PIPESIZE && s.threads[t].pc == Body && u < |s.threads|
    ensures var r := RunStep(s, t);
            && |r.threads| == |s.threads|
            && (r.threads[u].op == Nothing || SameCall(s.threads[u].op, r.threads[u].op))
  {
    BodyEffect(s, t);
  }

  predicate OthersSame(s: Sys, r: Sys, t: nat) {
    |r.threads| == |s.threads| && forall u :: 0 <= u < |s.threads| && u != t ==> r.threads[u] == s.threads[u]
  }

  /** What a body does to the processes: at most one byte more for t, or t's call returns. */
  lemma BodyEffect(s: Sys, t: nat)
    requires CanRun(s, t) && |s.data| == PIPESIZE && s.threads[t].pc == Body
    ensures var r, op := RunStep(s, t), s.threads[t].op;
            && OthersSame(s, r, t)
            && (r.threads[t].op == Nothing || SameCall(op, r.threads[t].op))
            && (r.threads[t].op == Nothing && op != Nothing ==>
                 op.Write? && op.i < |op.buf| && Full(s) && !s.readOpen)
  {
    match s.threads[t].op
    case Nothing =>
    case Write(_, _) => WriteEffect(s, t);
    case Read(_, _) => ReadEffect(s, t);
    case Close(_) =>
  }

  lemma WriteEffect(s: Sys, t: nat)
    requires t < |s.threads| && |s.data| == PIPESIZE && s.threads[t].op.Write?
    ensures var r, op := WriteBody(s, t), s.threads[t].op;
            && OthersSame(s, r, t)
            && (r.threads[t].op == Nothing || SameCall(op, r.threads[t].op))
            && (r.threads[t].op == Nothing ==> op.i < |op.buf| && Full(s) && !s.readOpen)
  {
  }

  lemma ReadEffect(s: Sys, t: nat)
    requires t < |s.threads| && |s.data| == PIPESIZE && s.threads[t].op.Read?
    ensures var r, op := ReadBody(s, t), s.threads[t].op;
            && OthersSame(s, r, t)
            && SameCall(op, r.threads[t].op)
  {
  }

  /** Process u is inside the call it began with event i. */
  ghost predicate Inside(states: seq<Sys>, i: nat, k: nat, u: nat) {
    forall j :: i < j <= k < |states| ==> u < |states[j].threads| && states[j].threads[u].op != Nothing
  }

  lemma {:induction false} CallKept(n: nat, states: seq<Sys>, events: seq<Event>, i: nat, k: nat, u: nat, op: Op)
    requires Trace(states, events) && states[0] == Start(n) && u < n && i < k < |states|
    requires events[i] == Begin(u, op) && Inside(states, i, k, u)
    ensures |states[k].threads| == n && SameCall(op, states[k].threads[u].op)
    decreases k
  {
    if k == i + 1 {
      CallBegins(n, states, events, i, u, op);
    } else {
      CallKept(n, states, events, i, k - 1, u, op);
      assert states[k - 1].threads[u].op != Nothing;
      CallStep(n, states, events, k, u);
      assert states[k].threads[u].op != Nothing;
    }
  }

  lemma CallBegins(n: nat, states: seq<Sys>, events: seq<Event>, i: nat, u: nat, op: Op)
    requires Trace(states, events) && states[0] == Start(n) && u < n && i < |events| && events[i] == Begin(u, op)
    ensures |states[i + 1].threads| == n && SameCall(op, states[i + 1].threads[u].op)
  {
    CallsExact(n, states, events, i, u);
  }

  lemma CallStep(n: nat, states: seq<Sys>, events: seq<Event>, k: nat, u: nat)
    requires Trace(states, events) && states[0] == Start(n) && u < n && 1 <= k < |states|
    requires |states[k - 1].threads| == n && states[k - 1].threads[u].op != Nothing
    ensures |states[k].threads| == n
    ensures states[k].threads[u].op == Nothing || SameCall(states[k - 1].threads[u].op, states[k].threads[u].op)
  {
    TraceInv(n, states, events, k - 1);
    assert Fine(states[k - 1], u, states[k - 1].threads[u]);
    StepSameCall(states[k - 1], events[k - 1], u);
  }

  /** What a call has done when it returns from state s. */
  ghost predicate Outcome(s: Sys, t: nat, op: Op, now: Op) {
    match op
    case Nothing => false
    // the whole buffer, or -1 from a full pipe whose reader is gone
    case Write(buf, _) =>
      && now.Write? && now.buf == buf && now.i <= |buf|
      && |s.writers| == |s.written| && EndsWith(By(s.written, s.writers, t), buf[..now.i])
      && (now.i < |buf| ==> Full(s) && !s.readOpen)
    // n bytes, or all there were, and none only from a pipe whose writer is gone
    case Read(n, _) =>
      && now.Read? && now.n == n && |now.got| <= n
      && |s.readers| == |s.taken| && EndsWith(By(s.taken, s.readers, t), now.got)
      && (|now.got| < n ==> Empty(s)) && (now.got == [] && n > 0 ==> !s.writeOpen)
    case Close(w) => now == Close(w) && if w then !s.writeOpen else !s.readOpen
  }

  /** In every run, a call that began with event i and returns with event k has done what it promises. */
  lemma CallsComplete(n: nat, states: seq<Sys>, events: seq<Event>, i: nat, k: nat, u: nat, op: Op)
    requires Trace(states, events) && states[0] == Start(n) && u < n && i < k < |events|
    requires events[i] == Begin(u, op) && Inside(states, i, k, u)
    requires u < |states[k + 1].threads| && states[k + 1].threads[u].op == Nothing
    ensures u < |states[k].threads| && Outcome(states[k], u, op, states[k].threads[u].op)
  {
    CallKept(n, states, events, i, k, u, op);
    CallsExact(n, states, events, k, u);
    TraceComplete(n, states, events, k, u);
    TraceInv(n, states, events, k);
    assert states[k].threads[u].op != Nothing;
    assert Fine(states[k], u, states[k].threads[u]);
    ReturnsFrom(states[k], events[k], u);
  }

  /** A call returns only from Leave, or from a pipewrite's loop with the reader gone. */
  lemma ReturnsFrom(s: Sys, e: Event, u: nat)
    requires Enabled(s, e) && |s.data| == PIPESIZE && u < |s.threads| && s.threads[u].op != Nothing
    requires s.threads[u].pc != Idle && u < |Apply(s, e).threads| && Apply(s, e).threads[u].op == Nothing
    ensures e == Run(u)
    ensures var th := s.threads[u];
            th.pc == Leave || (th.pc == Body && th.op.Write? && th.op.i < |th.op.buf| && Full(s) && !s.readOpen)
  {
    if e.Run? {
      if s.threads[e.t].pc == Body { BodyReturns(s, e.t, u); } else { OutsideReturns(s, e.t, u); }
    }
  }

  lemma BodyReturns(s: Sys, t: nat, u: nat)
    requires CanRun(s, t) && |s.data| == PIPESIZE && s.threads[t].pc == Body && u < |s.threads|
    requires s.threads[u].op != Nothing && u < |RunStep(s, t).threads| && RunStep(s, t).threads[u].op == Nothing
    ensures var op := s.threads[t].op;
            t == u && op.Write? && op.i < |op.buf| && Full(s) && !s.readOpen
  {
    BodyEffect(s, t);
  }

  lemma OutsideReturns(s: Sys, t: nat, u: nat)
    requires CanRun(s, t) && |s.data| == PIPESIZE && s.threads[t].pc != Body && u < |s.threads|
    requires s.threads[u].op != Nothing && u < |RunStep(s, t).threads| && RunStep(s, t).threads[u].op == Nothing
    ensures t == u && s.threads[t].pc == Leave
  {
  }

  // ----- the pipe's memory -----

  /** Between closing the second end and giving the memory back, the closer holds the lock. */
  predicate FreedOk(s: Sys) {
    !s.readOpen && !s.writeOpen && !s.freed ==>
      && 0 <= s.pipeLock < |s.threads|
      && s.threads[s.pipeLock].op.Close? && Finishing(s.threads[s.pipeLock].pc)
  }

  lemma RunKeepsFreed(s: Sys, t: nat)
    requires Inv(s) && CanRun(s, t) && FreedOk(s)
    ensures FreedOk(RunStep(s, t))
  {
    RunKeepsRing(s, t);
    assert Fine(s, t, s.threads[t]);
    if 0 <= s.pipeLock < |s.threads| { assert Fine(s, s.pipeLock, s.threads[s.pipeLock]); }
  }

  /** In every state of every run in which nobody holds the lock, the pipe's memory has been given back
      exactly when both ends are closed. */
  lemma {:induction false} FreedIff(n: nat, states: seq<Sys>, events: seq<Event>, k: nat)
    requires Trace(states, events) && states[0] == Start(n) && k < |states|
    ensures FreedOk(states[k])
    ensures states[k].pipeLock == NOBODY ==> (states[k].freed <==> !states[k].readOpen && !states[k].writeOpen)
    decreases k
  {
    TraceInv(n, states, events, k);
    if k > 0 {
      FreedIff(n, states, events, k - 1);
      TraceInv(n, states, events, k - 1);
      match events[k - 1]
      case Begin(t, op) => assert Fine(states[k - 1], t, states[k - 1].threads[t]);
      case Run(t) => RunKeepsFreed(states[k - 1], t);
    }
  }
}
