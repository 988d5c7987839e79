/** The multiprocessor run protocol: traps, the big kernel lock, env_run, sched_yield,
    sched_halt, env_destroy and the system calls that change an environment's status
    (kern/trap.c, kern/env.c, kern/sched.c, kern/syscall.c, kern/spinlock.c), as the
    steps of any number of CPUs over any number of environment slots. */
module Smp {
  datatype Status = Free | Dying | Runnable | Running | NotRunnable

  /** Where a CPU holding the lock is: at the zombie test of trap, dispatching, at
      the tail of trap, in sched_yield. */
  datatype Place = Entry | Dispatch | Tail | Yield

  /** spin_lock is the exchange (Spin to Got) and the recording of the owner (Got to
      Kernel); spin_unlock is the clearing of the owner (Kernel to Leaving) and the
      exchange (Leaving to the mode after it). */
  datatype Mode = User | Halted | Spin(at: Place) | Got(at: Place) | Kernel(at: Place) | Leaving(halt: bool) | Monitor

  datatype Cur = None | Some(env: nat)

  datatype Cpu = Cpu(cur: Cur, mode: Mode)

  datatype State = State(status: seq<Status>, recving: seq<bool>, cpus: seq<Cpu>, locked: bool, owner: Cur)

  datatype Call =
    | Other                               // nothing that bears on the protocol
    | SysYield                            // sys_yield, or the timer
    | Exofork(env: nat)
    | SetStatus(env: nat, to: Status)
    | Destroy(env: nat)
    | Recv(validDst: bool)
    | Send(env: nat)

  datatype Event =
    | Trap(cpu: nat)
    | Timer(cpu: nat)                     // wakes a halted CPU
    | Exchange(cpu: nat)
    | Record(cpu: nat)
    | Enter(cpu: nat)
    | Sys(cpu: nat, call: Call)
    | TrapTail(cpu: nat)
    | Schedule(cpu: nat, choice: Cur)
    | Release(cpu: nat)

  function SetCpu(s: State, c: nat, k: Cpu): State {
    if c < |s.cpus| then s.(cpus := s.cpus[c := k]) else s
  }

  function SetMode(s: State, c: nat, m: Mode): State {
    if c < |s.cpus| then SetCpu(s, c, s.cpus[c].(mode := m)) else s
  }

  function Mark(s: State, e: nat, to: Status): State {
    if e < |s.status| then s.(status := s.status[e := to]) else s
  }

  function Flag(s: State, e: nat, b: bool): State {
    if e < |s.recving| then s.(recving := s.recving[e := b]) else s
  }

  predicate Exists(s: State, e: nat) {
    e < |s.status| && s.status[e] != Free
  }

  predicate CurIs(s: State, c: nat, e: nat) {
    c < |s.cpus| && s.cpus[c].cur == Some(e)
  }

  // ---------- pieces of the code ----------

  /** env_run, up to the release of the lock. */
  function EnvRun(s: State, c: nat, e: nat): State
    requires c < |s.cpus|
  {
    var s1 := match s.cpus[c].cur
              case Some(o) => if o < |s.status| && s.status[o] == Running then Mark(s, o, Runnable) else s
              case None => s;
    SetCpu(Mark(s1, e, Running), c, Cpu(Some(e), Leaving(false))).(owner := None)
  }

  /** sched_halt: the monitor when no environment is runnable, running or dying. */
  function SchedHalt(s: State, c: nat): State {
    if exists e | 0 <= e < |s.status| :: s.status[e] == Runnable || s.status[e] == Running || s.status[e] == Dying then
      SetCpu(s, c, Cpu(None, Leaving(true))).(owner := None)
    else SetMode(s, c, Monitor)
  }

  predicate CurHas(s: State, c: nat, st: Status)
    requires c < |s.cpus|
  {
    var cur := s.cpus[c].cur;
    cur.Some? && cur.env < |s.status| && s.status[cur.env] == st
  }

  /** The zombie test at the head of trap. */
  function DoEnter(s: State, c: nat): State
    requires c < |s.cpus|
  {
    if CurHas(s, c, Dying) then SetCpu(Mark(s, s.cpus[c].cur.env, Free), c, Cpu(None, Kernel(Yield)))
    else SetMode(s, c, Kernel(Dispatch))
  }

  /** The tail of trap: resume the current environment or yield. */
  function DoTail(s: State, c: nat): State
    requires c < |s.cpus|
  {
    if CurHas(s, c, Running) then EnvRun(s, c, s.cpus[c].cur.env) else SetMode(s, c, Kernel(Yield))
  }

  /** sched_yield, with the environment it settles on. */
  function DoSchedule(s: State, c: nat, choice: Cur): State
    requires c < |s.cpus|
  {
    if choice.Some? then EnvRun(s, c, choice.env)
    else if CurHas(s, c, Running) then EnvRun(s, c, s.cpus[c].cur.env)
    else SchedHalt(s, c)
  }

  function DoCall(s: State, c: nat, call: Call): State
    requires c < |s.cpus|
  {
    match call
    case Other => SetMode(s, c, Kernel(Tail))
    case SysYield => SetMode(s, c, Kernel(Yield))
    case Exofork(e) => SetMode(Flag(Mark(s, e, NotRunnable), e, false), c, Kernel(Tail))
    case SetStatus(e, to) => SetMode(Mark(s, e, to), c, Kernel(Tail))
    case Destroy(e) =>
      if e < |s.status| && s.status[e] == Running && s.cpus[c].cur != Some(e) then
        SetMode(Mark(s, e, Dying), c, Kernel(Tail))
      else if s.cpus[c].cur == Some(e) then SetCpu(Mark(s, e, Free), c, Cpu(None, Kernel(Yield)))
      else SetMode(Mark(s, e, Free), c, Kernel(Tail))
    case Recv(validDst) =>
      var e := if s.cpus[c].cur.Some? then s.cpus[c].cur.env else 0;
      if validDst then SetMode(Flag(Mark(s, e, NotRunnable), e, true), c, Kernel(Yield))
      else SetMode(Flag(s, e, true), c, Kernel(Tail))
    case Send(e) => SetMode(Flag(Mark(s, e, Runnable), e, false), c, Kernel(Tail))
  }

  /** When a call reaches the part that changes state; envid2env has found the
      environment, and a receiver is waiting for a send. */
  predicate CanCall(s: State, c: nat, call: Call)
    requires c < |s.cpus|
  {
    match call
    case Other => s.cpus[c].cur.Some?
    case SysYield => true
    case Exofork(e) => s.cpus[c].cur.Some? && e < |s.status| && s.status[e] == Free
    case SetStatus(e, to) => s.cpus[c].cur.Some? && Exists(s, e) && (to == Runnable || to == NotRunnable)
    case Destroy(e) => s.cpus[c].cur.Some? && Exists(s, e)
    case Recv(_) => s.cpus[c].cur.Some?
    case Send(e) => s.cpus[c].cur.Some? && Exists(s, e) && e < |s.recving| && s.recving[e]
  }

  predicate Enabled(s: State, ev: Event) {
    && ev.cpu < |s.cpus|
    && var k := s.cpus[ev.cpu];
       match ev
       case Trap(c) => k.mode == User
       case Timer(c) => k.mode == Halted
       case Exchange(c) => k.mode.Spin?
       case Record(c) => k.mode.Got?
       case Enter(c) => k.mode == Kernel(Entry)
       case Sys(c, call) => k.mode == Kernel(Dispatch) && CanCall(s, c, call)
       case TrapTail(c) => k.mode == Kernel(Tail)
       case Schedule(c, choice) =>
         && k.mode == Kernel(Yield)
         && (choice.Some? ==> choice.env < |s.status| && s.status[choice.env] == Runnable)
         && (choice.None? ==> forall e :: 0 <= e < |s.status| ==> s.status[e] != Runnable)
       case Release(c) => k.mode.Leaving?
  }

  function Next(s: State, ev: Event): State
    requires Enabled(s, ev)
  {
    var k := s.cpus[ev.cpu];
    match ev
    case Trap(c) => SetMode(s, c, Spin(Entry))
    case Timer(c) => SetMode(s, c, Spin(Yield))
    case Exchange(c) => if s.locked then s else SetMode(s, c, Got(k.mode.at)).(locked := true)
    case Record(c) => SetMode(s, c, Kernel(k.mode.at)).(owner := Some(c))
    case Enter(c) => DoEnter(s, c)
    case Sys(c, call) => DoCall(s, c, call)
    case TrapTail(c) => DoTail(s, c)
    case Schedule(c, choice) => DoSchedule(s, c, choice)
    case Release(c) => SetMode(s, c, if k.mode.halt then Halted else User).(locked := false)
  }

  // ---------- the invariant ----------

  predicate HoldsLock(m: Mode) {
    m.Got? || m.Kernel? || m.Leaving? || m.Monitor?
  }

  /** The lock is held by at most one CPU, the recorded owner once it is recorded,
      and it is free when nobody holds it. */
  ghost predicate LockOk(s: State) {
    && (forall c :: 0 <= c < |s.cpus| && HoldsLock(s.cpus[c].mode) ==> s.locked)
    && (forall c, d :: 0 <= c < |s.cpus| && 0 <= d < |s.cpus| ==>
         HoldsLock(s.cpus[c].mode) && HoldsLock(s.cpus[d].mode) ==> c == d)
    && (s.locked ==> exists c :: 0 <= c < |s.cpus| && HoldsLock(s.cpus[c].mode))
    && (forall c :: 0 <= c < |s.cpus| && OwnerRecorded(s.cpus[c].mode) ==> s.owner == Some(c))
    && (s.owner.Some? ==> s.owner.env < |s.cpus| && OwnerRecorded(s.cpus[s.owner.env].mode))
  }

  predicate OwnerRecorded(m: Mode) {
    m.Kernel? || m.Monitor?
  }

  /** What the status of a CPU's current environment may be at each point. */
  predicate CurOk(s: State, c: nat)
    requires c < |s.cpus|
  {
    var k := s.cpus[c];
    match k.mode
    case User => RunsOrDies(s, k.cur)
    case Leaving(halt) => if halt then k.cur == None else RunsOrDies(s, k.cur)
    case Spin(at) => if at == Entry then RunsOrDies(s, k.cur) else at == Yield && k.cur == None
    case Got(at) => if at == Entry then RunsOrDies(s, k.cur) else at == Yield && k.cur == None
    case Kernel(at) =>
      if at == Entry then RunsOrDies(s, k.cur)
      else if at == Dispatch then k.cur.Some? && k.cur.env < |s.status| && s.status[k.cur.env] == Running
      else k.cur.Some? ==> Exists(s, k.cur.env) && s.status[k.cur.env] != Dying
    case Halted => k.cur == None
    case Monitor => k.cur.Some? ==> Exists(s, k.cur.env) && s.status[k.cur.env] != Dying
  }

  predicate RunsOrDies(s: State, cur: Cur) {
    cur.Some? && cur.env < |s.status| && (s.status[cur.env] == Running || s.status[cur.env] == Dying)
  }

  ghost predicate Inv(s: State) {
    && |s.recving| == |s.status|
    && LockOk(s)
    && (forall c :: 0 <= c < |s.cpus| ==> CurOk(s, c))
    && (forall c: nat, d: nat, e: nat :: CurIs(s, c, e) && CurIs(s, d, e) ==> c == d)
    && (forall e :: 0 <= e < |s.status| ==> Covered(s, e))
  }

  ghost predicate Covered(s: State, e: nat)
    requires e < |s.status|
  {
    s.status[e] == Running || s.status[e] == Dying ==> exists c :: CurIs(s, c, e)
  }

  /** The system calls that break the protocol: setting the status of, or completing
      a receive of, an environment that another CPU is running, and destroying a
      dying environment a second time. */
  ghost predicate Hazard(s: State, ev: Event) {
    ev.Sys? &&
    match ev.call
    case SetStatus(e, to) => exists d :: d != ev.cpu && CurIs(s, d, e)
    case Destroy(e) => e < |s.status| && s.status[e] == Dying
    case Send(e) => exists d :: d != ev.cpu && CurIs(s, d, e)
    case _ => false
  }

  // ---------- every step keeps the invariant, or is a hazard ----------

  /** What a step of CPU c may do to the lock: nothing, or one of the four half-steps
      of spin_lock and spin_unlock. */
  predicate LockStep(s: State, n: State, c: nat) {
    && c < |s.cpus| == |n.cpus|
    && (forall d :: 0 <= d < |s.cpus| && d != c ==> n.cpus[d] == s.cpus[d])
    && var m, k := s.cpus[c].mode, n.cpus[c].mode;
       || (n.locked == s.locked && n.owner == s.owner && HoldsLock(m) == HoldsLock(k)
           && OwnerRecorded(m) == OwnerRecorded(k))
       || (m.Spin? && k.Got? && !s.locked && n.locked && n.owner == s.owner)
       || (m.Got? && k.Kernel? && n.locked == s.locked && n.owner == Some(c))
       || (m.Kernel? && k.Leaving? && n.locked == s.locked && n.owner == None)
       || (m.Leaving? && !HoldsLock(k) && !n.locked && n.owner == s.owner)
  }

  /** A change of statuses and of one CPU that stays in the kernel is no lock step. */
  lemma KernelStep(s: State, n: State, c: nat, k: Cpu)
    requires c < |s.cpus| && s.cpus[c].mode.Kernel? && k.mode.Kernel?
    requires n.cpus == s.cpus[c := k] && n.locked == s.locked && n.owner == s.owner
    ensures LockStep(s, n, c)
  {
  }

  lemma CallLockStep(s: State, c: nat, call: Call)
    requires |s.recving| == |s.status| && c < |s.cpus| && s.cpus[c].mode == Kernel(Dispatch)
    ensures |DoCall(s, c, call).recving| == |DoCall(s, c, call).status| == |s.status|
    ensures LockStep(s, DoCall(s, c, call), c)
  {
    var n := DoCall(s, c, call);
    KernelStep(s, n, c, n.cpus[c]);
  }

  lemma TailLockStep(s: State, c: nat)
    requires |s.recving| == |s.status| && c < |s.cpus| && s.cpus[c].mode.Kernel?
    ensures |DoTail(s, c).recving| == |DoTail(s, c).status| == |s.status|
    ensures LockStep(s, DoTail(s, c), c)
  {
  }

  lemma ScheduleLockStep(s: State, c: nat, choice: Cur)
    requires |s.recving| == |s.status| && c < |s.cpus| && s.cpus[c].mode.Kernel?
    ensures |DoSchedule(s, c, choice).recving| == |DoSchedule(s, c, choice).status| == |s.status|
    ensures LockStep(s, DoSchedule(s, c, choice), c)
  {
  }

  lemma NextLockStep(s: State, ev: Event)
    requires |s.recving| == |s.status| && Enabled(s, ev)
    ensures |Next(s, ev).recving| == |Next(s, ev).status| == |s.status|
    ensures LockStep(s, Next(s, ev), ev.cpu)
  {
    match ev
    case Sys(c, call) => CallLockStep(s, c, call);
    case TrapTail(c) => TailLockStep(s, c);
    case Schedule(c, choice) => ScheduleLockStep(s, c, choice);
    case _ =>
  }

  lemma LockStepKeeps(s: State, n: State, c: nat)
    requires LockOk(s) && LockStep(s, n, c)
    ensures LockOk(n)
  {
    if n.locked {
      if s.locked {
        var h :| 0 <= h < |s.cpus| && HoldsLock(s.cpus[h].mode);
        assert HoldsLock(n.cpus[h].mode);
      } else {
        assert HoldsLock(n.cpus[c].mode);
      }
    }
  }

  lemma CallCurSelf(s: State, c: nat, call: Call)
    requires c < |s.cpus| && s.cpus[c].mode == Kernel(Dispatch) && CurOk(s, c) && CanCall(s, c, call)
    requires !Hazard(s, Sys(c, call))
    ensures c < |DoCall(s, c, call).cpus| && CurOk(DoCall(s, c, call), c)
  {
  }

  lemma CallCovered(s: State, c: nat, call: Call, e: nat)
    requires c < |s.cpus| && s.cpus[c].mode == Kernel(Dispatch) && CurOk(s, c) && CanCall(s, c, call)
    requires !Hazard(s, Sys(c, call)) && e < |s.status| == |DoCall(s, c, call).status| && Covered(s, e)
    requires |s.recving| == |s.status|
    ensures Covered(DoCall(s, c, call), e)
  {
    var n := DoCall(s, c, call);
    CallLockStep(s, c, call);
    if n.status[e] == Running || n.status[e] == Dying {
      var d: nat :| CurIs(s, d, e);
      assert CurIs(n, d, e);
    }
  }

  lemma NextCurSelf(s: State, ev: Event)
    requires Inv(s) && Enabled(s, ev) && !Hazard(s, ev)
    ensures ev.cpu < |Next(s, ev).cpus| && CurOk(Next(s, ev), ev.cpu)
  {
    NextLockStep(s, ev);
    assert CurOk(s, ev.cpu);
    if ev.Sys? {
      CallCurSelf(s, ev.cpu, ev.call);
    }
  }

  lemma NextCurOther(s: State, ev: Event, c: nat)
    requires Inv(s) && Enabled(s, ev) && !Hazard(s, ev) && c < |s.cpus| && c != ev.cpu
    ensures |Next(s, ev).cpus| == |s.cpus| && CurOk(Next(s, ev), c)
  {
    NextLockStep(s, ev);
    assert CurOk(s, c) && CurOk(s, ev.cpu);
    var k, l := s.cpus[c], s.cpus[ev.cpu];
    assert k.cur.Some? ==> CurIs(s, c, k.cur.env) && (l.cur.Some? ==> CurIs(s, ev.cpu, l.cur.env));
    if ev.Sys? {
      CallCurOther(s, ev.cpu, ev.call, c);
    }
  }

  lemma CallCurOther(s: State, b: nat, call: Call, c: nat)
    requires |s.recving| == |s.status| && b < |s.cpus| && c < |s.cpus| && c != b && CanCall(s, b, call)
    requires !Hazard(s, Sys(b, call)) && CurOk(s, c) && CurOk(s, b) && s.cpus[b].mode == Kernel(Dispatch)
    requires !HoldsLock(s.cpus[c].mode)
    requires s.cpus[c].cur.Some? ==> CurIs(s, c, s.cpus[c].cur.env) && !CurIs(s, b, s.cpus[c].cur.env)
    ensures |DoCall(s, b, call).cpus| == |s.cpus| && CurOk(DoCall(s, b, call), c)
  {
    CallLockStep(s, b, call);
  }

  lemma NextDistinct(s: State, ev: Event, c: nat, d: nat, e: nat)
    requires Inv(s) && Enabled(s, ev) && !Hazard(s, ev) && CurIs(Next(s, ev), c, e) && CurIs(Next(s, ev), d, e)
    ensures c == d
  {
    NextLockStep(s, ev);
    if c != d {
      assert CurIs(s, c, e) && CurIs(s, d, e) ==> c == d;
      if c == ev.cpu {
        NextDistinctFrom(s, ev, d, e);
      } else if d == ev.cpu {
        NextDistinctFrom(s, ev, c, e);
      }
    }
  }

  /** A CPU never takes an environment that another one runs. */
  lemma NextDistinctFrom(s: State, ev: Event, d: nat, e: nat)
    requires Inv(s) && Enabled(s, ev) && !Hazard(s, ev) && d != ev.cpu && CurIs(s, d, e)
    ensures !CurIs(Next(s, ev), ev.cpu, e)
  {
    assert CurOk(s, ev.cpu) && CurOk(s, d);
    assert !CurIs(s, ev.cpu, e);
  }

  lemma NextCovered(s: State, ev: Event, e: nat)
    requires Inv(s) && Enabled(s, ev) && !Hazard(s, ev) && e < |s.status| == |Next(s, ev).status|
    ensures Covered(Next(s, ev), e)
  {
    var n := Next(s, ev);
    NextLockStep(s, ev);
    assert Covered(s, e) && CurOk(s, ev.cpu);
    if ev.Sys? {
      CallCovered(s, ev.cpu, ev.call, e);
    } else if n.status[e] == Running || n.status[e] == Dying {
      if s.status[e] == Running || s.status[e] == Dying {
        var c: nat :| CurIs(s, c, e);
        StaysCurrent(s, ev, c, e);
      } else {
        assert CurIs(n, ev.cpu, e);
      }
    }
  }

  /** A CPU does not let go of an environment that goes on running or dying. */
  lemma StaysCurrent(s: State, ev: Event, c: nat, e: nat)
    requires Enabled(s, ev) && !ev.Sys? && |s.recving| == |s.status| && CurIs(s, c, e) && CurOk(s, ev.cpu)
    requires e < |Next(s, ev).status| && (Next(s, ev).status[e] == Running || Next(s, ev).status[e] == Dying)
    ensures CurIs(Next(s, ev), c, e)
  {
    NextLockStep(s, ev);
  }

  lemma NextInv(s: State, ev: Event)
    requires Inv(s) && Enabled(s, ev) && !Hazard(s, ev)
    ensures Inv(Next(s, ev))
  {
    var n := Next(s, ev);
    NextLockStep(s, ev);
    LockStepKeeps(s, n, ev.cpu);
    forall c | 0 <= c < |n.cpus| ensures CurOk(n, c) {
      if c == ev.cpu {
        NextCurSelf(s, ev);
      } else {
        NextCurOther(s, ev, c);
      }
    }
    forall c: nat, d: nat, e: nat | CurIs(n, c, e) && CurIs(n, d, e) ensures c == d {
      NextDistinct(s, ev, c, d, e);
    }
    forall e | 0 <= e < |n.status| ensures Covered(n, e) {
      NextCovered(s, ev, e);
    }
  }

  /** After a hazard some CPU outside the kernel runs an environment that is neither
      RUNNING nor DYING. */
  lemma HazardBreaks(s: State, ev: Event) returns (d: nat)
    requires Inv(s) && Enabled(s, ev) && Hazard(s, ev)
    ensures d < |s.cpus| == |Next(s, ev).cpus| && d != ev.cpu && !HoldsLock(Next(s, ev).cpus[d].mode)
    ensures Next(s, ev).cpus[d].cur.Some? && !RunsOrDies(Next(s, ev), Next(s, ev).cpus[d].cur)
  {
    var e := ev.call.env;
    assert CurOk(s, ev.cpu);
    if ev.call.Destroy? {
      assert Covered(s, e);
      d :| CurIs(s, d, e);
    } else {
      d :| d != ev.cpu && CurIs(s, d, e);
    }
    assert CurOk(s, d);
  }

  /** The exact condition: a step keeps the invariant if and only if it is no hazard. */
  lemma StepSafeIff(s: State, ev: Event)
    requires Inv(s) && Enabled(s, ev)
    ensures Inv(Next(s, ev)) <==> !Hazard(s, ev)
  {
    if Hazard(s, ev) {
      var d := HazardBreaks(s, ev);
      assert !CurOk(Next(s, ev), d);
    } else {
      NextInv(s, ev);
    }
  }

  // ---------- receives ----------

  /** An environment flagged as receiving is blocked. */
  ghost predicate ReceiversBlocked(s: State)
    requires |s.recving| == |s.status|
  {
    forall e :: 0 <= e < |s.status| && s.recving[e] && s.status[e] != Free ==> s.status[e] == NotRunnable
  }

  /** A receive names a valid destination, and nobody makes a receiver runnable by
      hand.  Both are visible in the arguments of the call. */
  predicate Disciplined(s: State, ev: Event) {
    ev.Sys? ==>
      && (ev.call.Recv? ==> ev.call.validDst)
      && (ev.call.SetStatus? && ev.call.to == Runnable ==> ev.call.env < |s.recving| && !s.recving[ev.call.env])
  }

  /** sys_ipc_recv raises the flag before it looks at dstva: a receive with an
      invalid destination is the one thing, next to waking a receiver by hand, that
      leaves a running environment flagged. */
  lemma ReceiversBlockedIff(s: State, ev: Event)
    requires Inv(s) && ReceiversBlocked(s) && Enabled(s, ev) && !Hazard(s, ev)
    ensures |Next(s, ev).recving| == |Next(s, ev).status|
    ensures ReceiversBlocked(Next(s, ev)) <==> Disciplined(s, ev)
  {
    NextLockStep(s, ev);
    assert CurOk(s, ev.cpu);
    if ev.Sys? {
      if Disciplined(s, ev) {
        DisciplinedBlocks(s, ev.cpu, ev.call);
      } else {
        UndisciplinedWakes(s, ev.cpu, ev.call);
      }
    }
  }

  lemma DisciplinedBlocks(s: State, c: nat, call: Call)
    requires |s.recving| == |s.status| && ReceiversBlocked(s) && c < |s.cpus| && CanCall(s, c, call)
    requires |DoCall(s, c, call).recving| == |DoCall(s, c, call).status| == |s.status|
    requires s.cpus[c].mode == Kernel(Dispatch) && CurOk(s, c) && Disciplined(s, Sys(c, call))
    ensures ReceiversBlocked(DoCall(s, c, call))
  {
  }

  lemma UndisciplinedWakes(s: State, c: nat, call: Call)
    requires |s.recving| == |s.status| && c < |s.cpus| && CanCall(s, c, call)
    requires |DoCall(s, c, call).recving| == |DoCall(s, c, call).status| == |s.status|
    requires s.cpus[c].mode == Kernel(Dispatch) && CurOk(s, c) && !Disciplined(s, Sys(c, call))
    ensures !ReceiversBlocked(DoCall(s, c, call))
  {
    var n := DoCall(s, c, call);
    var e := if call.Recv? then s.cpus[c].cur.env else call.env;
    assert n.recving[e] && n.status[e] != Free && n.status[e] != NotRunnable;
  }

  /** While receivers are blocked a send is never a hazard. */
  lemma BlockedSendsSafe(s: State, ev: Event)
    requires Inv(s) && ReceiversBlocked(s) && Enabled(s, ev) && ev.Sys? && ev.call.Send?
    ensures !Hazard(s, ev)
  {
    forall d: nat ensures d != ev.cpu ==> !CurIs(s, d, ev.call.env) {
      assert d < |s.cpus| ==> CurOk(s, d);
    }
  }

  // ---------- whole runs ----------

  /** After boot: CPU 0 holds the lock and is about to schedule, the others are
      waiting for the lock, and environments are free or runnable. */
  ghost predicate Boot(s: State) {
    && |s.cpus| >= 1 && |s.recving| == |s.status| && s.locked && s.owner == Some(0)
    && s.cpus[0] == Cpu(None, Kernel(Yield))
    && (forall c :: 1 <= c < |s.cpus| ==> s.cpus[c] == Cpu(None, Spin(Yield)))
    && (forall e :: 0 <= e < |s.status| ==> (s.status[e] == Free || s.status[e] == Runnable) && !s.recving[e])
  }

  /** The guards: no status is set on an environment another CPU runs, nothing dying
      is destroyed again, and receives are disciplined. */
  ghost predicate Guarded(s: State, ev: Event) {
    && Disciplined(s, ev)
    && (ev.Sys? && ev.call.SetStatus? ==> forall d :: d != ev.cpu ==> !CurIs(s, d, ev.call.env))
    && (ev.Sys? && ev.call.Destroy? ==> ev.call.env < |s.status| && s.status[ev.call.env] != Dying)
  }

  ghost predicate Run(s: State, trace: seq<Event>, n: State)
    decreases |trace|
  {
    if trace == [] then n == s
    else Enabled(s, trace[0]) && Guarded(s, trace[0]) && Run(Next(s, trace[0]), trace[1..], n)
  }

  lemma {:induction false} RunInv(s: State, trace: seq<Event>, n: State)
    requires Inv(s) && ReceiversBlocked(s) && Run(s, trace, n)
    ensures Inv(n) && ReceiversBlocked(n)
    decreases |trace|
  {
    if trace == [] {
    } else {
      var ev := trace[0];
      if ev.Sys? && ev.call.Send? {
        BlockedSendsSafe(s, ev);
      }
      NextInv(s, ev);
      ReceiversBlockedIff(s, ev);
      RunInv(Next(s, ev), trace[1..], n);
    }
  }

  /** Run safety: whenever the kernel lock is free, an environment is RUNNING or
      DYING exactly when it is the current one of some CPU, and of one only. */
  lemma LockFreeMeansConsistent(s: State, trace: seq<Event>, n: State, e: nat)
    requires Boot(s) && Run(s, trace, n) && !n.locked && e < |n.status|
    ensures n.status[e] == Running || n.status[e] == Dying <==> exists c :: CurIs(n, c, e)
    ensures forall c, d :: CurIs(n, c, e) && CurIs(n, d, e) ==> c == d
  {
    BootInv(s);
    RunInv(s, trace, n);
    assert Covered(n, e);
    forall c: nat | CurIs(n, c, e) ensures n.status[e] == Running || n.status[e] == Dying {
      assert CurOk(n, c);
    }
  }

  /** Mutual exclusion, and the two self-checks of the spinlock: a CPU that is about
      to acquire the lock does not hold it, and one about to release it does. */
  lemma LockExclusive(s: State, trace: seq<Event>, n: State, c: nat, d: nat)
    requires Boot(s) && Run(s, trace, n) && c < |n.cpus| && d < |n.cpus| && HoldsLock(n.cpus[c].mode)
    ensures n.locked && (c != d ==> !HoldsLock(n.cpus[d].mode))
    ensures n.cpus[d].mode.Spin? ==> n.owner != Some(d)
    ensures n.cpus[c].mode.Kernel? ==> n.owner == Some(c)
  {
    BootInv(s);
    RunInv(s, trace, n);
  }

  // ---------- what becomes of an environment ----------

  /** What each step does to the environment it is about. */
  lemma StepOutcome(s: State, ev: Event)
    requires Inv(s) && Enabled(s, ev)
    ensures |Next(s, ev).recving| == |Next(s, ev).status| == |s.status| && |Next(s, ev).cpus| == |s.cpus|
    ensures ev.Sys? || ev.Enter? ==> s.cpus[ev.cpu].cur.Some? && s.cpus[ev.cpu].cur.env < |s.status|
    ensures var n, c := Next(s, ev), ev.cpu;
      match ev
      case Sys(_, Exofork(e)) => n.status[e] == NotRunnable && !n.recving[e]
      case Sys(_, SetStatus(e, to)) => n.status[e] == to
      case Sys(_, Destroy(e)) =>
        && n.status[e] == (if s.status[e] == Running && !CurIs(s, c, e) then Dying else Free)
        && !CurIs(n, c, e)
      case Sys(_, Recv(valid)) =>
        var e := s.cpus[c].cur.env;
        n.recving[e] && n.status[e] == if valid then NotRunnable else Running
      case Sys(_, Send(e)) => n.status[e] == Runnable && !n.recving[e]
      case Enter(_) =>
        s.status[s.cpus[c].cur.env] == Dying ==> n.status[s.cpus[c].cur.env] == Free && n.cpus[c].cur == None
      case Schedule(_, Some(e)) => n.status[e] == Running && CurIs(n, c, e)
      case _ => n.recving == s.recving
  {
    NextLockStep(s, ev);
    assert CurOk(s, ev.cpu);
  }

  /** The only steps that change a status, and how. */
  predicate Turns(s: State, ev: Event, e: nat, from: Status, to: Status) {
    match ev
    case Sys(c, Exofork(x)) => x == e && from == Free
    case Sys(c, SetStatus(x, _)) => x == e && from != Free && from != Dying && (to == Runnable || to == NotRunnable)
    case Sys(c, Destroy(x)) => x == e && (to == Free || (to == Dying && from == Running && !CurIs(s, c, e)))
    case Sys(c, Recv(valid)) => valid && CurIs(s, c, e) && from == Running && to == NotRunnable
    case Sys(c, Send(x)) => x == e && to == Runnable
    case Enter(c) => CurIs(s, c, e) && from == Dying && to == Free
    case Schedule(c, choice) =>
      if choice == Some(e) then from == Runnable && to == Running
      else choice.Some? && CurIs(s, c, e) && from == Running && to == Runnable
    case _ => false
  }

  lemma StatusTurns(s: State, ev: Event, e: nat)
    requires Inv(s) && Enabled(s, ev) && !Hazard(s, ev)
    requires e < |s.status| == |Next(s, ev).status| && Next(s, ev).status[e] != s.status[e]
    ensures Turns(s, ev, e, s.status[e], Next(s, ev).status[e])
  {
    assert CurOk(s, ev.cpu);
    if ev.Sys? {
      CallTurns(s, ev.cpu, ev.call, e);
    }
  }

  lemma CallTurns(s: State, c: nat, call: Call, e: nat)
    requires Inv(s) && Enabled(s, Sys(c, call)) && !Hazard(s, Sys(c, call))
    requires e < |s.status| == |DoCall(s, c, call).status| && DoCall(s, c, call).status[e] != s.status[e]
    ensures Turns(s, Sys(c, call), e, s.status[e], DoCall(s, c, call).status[e])
  {
    assert CurOk(s, c);
    if s.status[e] == Dying {
      DyingElsewhere(s, c, e);
    }
  }

  lemma DyingElsewhere(s: State, c: nat, e: nat)
    requires Inv(s) && c < |s.cpus| && s.cpus[c].mode == Kernel(Dispatch) && e < |s.status| && s.status[e] == Dying
    ensures exists d: nat :: d != c && CurIs(s, d, e)
  {
    assert Covered(s, e) && CurOk(s, c);
  }

  /** A flag is raised by a receive and lowered by a send or a new environment. */
  lemma FlagTurns(s: State, ev: Event, e: nat)
    requires |s.recving| == |s.status| && Enabled(s, ev) && CurOk(s, ev.cpu)
    requires e < |s.recving| == |Next(s, ev).recving| && Next(s, ev).recving[e] != s.recving[e]
    ensures ev.Sys?
    ensures if s.recving[e] then ev.call == Exofork(e) || ev.call == Send(e) else ev.call.Recv? && CurIs(s, ev.cpu, e)
  {
    NextFlags(s, ev);
  }

  function FlagsAfter(s: State, c: nat, call: Call): seq<bool>
    requires |s.recving| == |s.status| && c < |s.cpus| && CanCall(s, c, call) && CurOk(s, c)
    requires s.cpus[c].mode == Kernel(Dispatch)
  {
    match call
    case Exofork(x) => s.recving[x := false]
    case Send(x) => s.recving[x := false]
    case Recv(_) => s.recving[s.cpus[c].cur.env := true]
    case _ => s.recving
  }

  lemma NextFlags(s: State, ev: Event)
    requires |s.recving| == |s.status| && Enabled(s, ev) && CurOk(s, ev.cpu)
    ensures !ev.Sys? ==> Next(s, ev).recving == s.recving
    ensures ev.Sys? ==> Next(s, ev).recving == FlagsAfter(s, ev.cpu, ev.call)
  {
  }

  /** e is not flagged, not RUNNABLE and current nowhere. */
  ghost predicate Asleep(s: State, e: nat) {
    && e < |s.status| && e < |s.recving| && !s.recving[e]
    && (s.status[e] == NotRunnable || s.status[e] == Free) && forall c: nat :: !CurIs(s, c, e)
  }

  lemma NextAsleep(s: State, ev: Event, e: nat)
    requires Inv(s) && Asleep(s, e) && Enabled(s, ev) && Guarded(s, ev) && !Hazard(s, ev)
    requires ev.Sys? ==> ev.call != SetStatus(e, Runnable)
    ensures Asleep(Next(s, ev), e)
  {
    NextLockStep(s, ev);
    var n := Next(s, ev);
    assert CurOk(s, ev.cpu);
    if n.recving[e] {
      FlagTurns(s, ev, e);
    }
    if n.status[e] != s.status[e] {
      StatusTurns(s, ev, e);
    }
    forall c: nat ensures !CurIs(n, c, e) {
      assert c < |s.cpus| && c != ev.cpu ==> n.cpus[c] == s.cpus[c];
      assert !CurIs(s, c, e) && CurOk(s, ev.cpu);
    }
  }

  predicate NeverWoken(trace: seq<Event>, e: nat) {
    forall ev :: ev in trace && ev.Sys? ==> ev.call != SetStatus(e, Runnable)
  }

  lemma {:induction false} StaysAsleep(s: State, trace: seq<Event>, n: State, e: nat)
    requires Inv(s) && ReceiversBlocked(s) && Asleep(s, e) && Run(s, trace, n) && NeverWoken(trace, e)
    ensures Asleep(n, e)
    decreases |trace|
  {
    if trace != [] {
      GuardedSafe(s, trace[0]);
      NextAsleep(s, trace[0], e);
      ReceiversBlockedIff(s, trace[0]);
      NextInv(s, trace[0]);
      StaysAsleep(Next(s, trace[0]), trace[1..], n, e);
    }
  }

  lemma GuardedSafe(s: State, ev: Event)
    requires Inv(s) && ReceiversBlocked(s) && Enabled(s, ev) && Guarded(s, ev)
    ensures !Hazard(s, ev)
  {
    if ev.Sys? && ev.call.Send? {
      BlockedSendsSafe(s, ev);
    }
  }

  /** A new child does not run before it is set RUNNABLE: until then it is current on no
      CPU and no scheduler may choose it, over every run. */
  lemma ChildSleeps(s0: State, before: seq<Event>, s: State, c: nat, e: nat, trace: seq<Event>, n: State)
    requires Boot(s0) && Run(s0, before, s) && Enabled(s, Sys(c, Exofork(e)))
    requires Run(Next(s, Sys(c, Exofork(e))), trace, n) && NeverWoken(trace, e)
    ensures forall d: nat :: !CurIs(n, d, e) && !Enabled(n, Schedule(d, Some(e)))
  {
    BootInv(s0);
    RunInv(s0, before, s);
    NextInv(s, Sys(c, Exofork(e)));
    ReceiversBlockedIff(s, Sys(c, Exofork(e)));
    ExoforkAsleep(s, c, e);
    StaysAsleep(Next(s, Sys(c, Exofork(e))), trace, n, e);
  }

  lemma ExoforkAsleep(s: State, c: nat, e: nat)
    requires Inv(s) && Enabled(s, Sys(c, Exofork(e)))
    ensures Asleep(Next(s, Sys(c, Exofork(e))), e)
  {
    StepOutcome(s, Sys(c, Exofork(e)));
    forall d: nat ensures !CurIs(Next(s, Sys(c, Exofork(e))), d, e) {
      assert d < |s.cpus| ==> CurOk(s, d);
      assert CurIs(Next(s, Sys(c, Exofork(e))), d, e) ==> CurIs(s, d, e);
    }
  }

  /** e has been destroyed. */
  predicate Gone(s: State, e: nat) {
    e < |s.status| && (s.status[e] == Free || s.status[e] == Dying)
  }

  predicate NeverReused(trace: seq<Event>, e: nat) {
    forall ev :: ev in trace && ev.Sys? ==> ev.call != Exofork(e)
  }

  lemma {:induction false} StaysGone(s: State, trace: seq<Event>, n: State, e: nat)
    requires Inv(s) && ReceiversBlocked(s) && Gone(s, e) && Run(s, trace, n) && NeverReused(trace, e)
    ensures Gone(n, e) && Inv(n)
    decreases |trace|
  {
    if trace != [] {
      var ev := trace[0];
      GuardedSafe(s, ev);
      NextLockStep(s, ev);
      if Next(s, ev).status[e] != s.status[e] {
        StatusTurns(s, ev, e);
        assert Covered(s, e);
      }
      ReceiversBlockedIff(s, ev);
      NextInv(s, ev);
      StaysGone(Next(s, ev), trace[1..], n, e);
    }
  }

  /** A destroyed environment is never scheduled again and no system call of its own takes
      effect any more, over every run until its slot is reused; the CPU that still runs
      it frees it when it next traps. */
  lemma DestroyedIsGone(s0: State, before: seq<Event>, s: State, c: nat, e: nat, trace: seq<Event>, n: State)
    requires Boot(s0) && Run(s0, before, s) && Enabled(s, Sys(c, Destroy(e))) && Guarded(s, Sys(c, Destroy(e)))
    requires Run(Next(s, Sys(c, Destroy(e))), trace, n) && NeverReused(trace, e)
    ensures forall d: nat :: !Enabled(n, Schedule(d, Some(e)))
    ensures forall d: nat :: CurIs(n, d, e) ==> Reaps(n, d, e)
  {
    BootInv(s0);
    RunInv(s0, before, s);
    DestroyGone(s, c, e);
    StaysGone(Next(s, Sys(c, Destroy(e))), trace, n, e);
    GoneForGood(n, e);
  }

  lemma GoneForGood(s: State, e: nat)
    requires Inv(s) && Gone(s, e)
    ensures forall d: nat :: !Enabled(s, Schedule(d, Some(e)))
    ensures forall d: nat :: CurIs(s, d, e) ==> Reaps(s, d, e)
  {
    forall d: nat | CurIs(s, d, e) ensures Reaps(s, d, e) {
      GoneFrees(s, d, e);
    }
  }

  lemma DestroyGone(s: State, c: nat, e: nat)
    requires Inv(s) && ReceiversBlocked(s) && Enabled(s, Sys(c, Destroy(e))) && Guarded(s, Sys(c, Destroy(e)))
    ensures var n := Next(s, Sys(c, Destroy(e))); Inv(n) && ReceiversBlocked(n) && Gone(n, e)
  {
    NextInv(s, Sys(c, Destroy(e)));
    ReceiversBlockedIff(s, Sys(c, Destroy(e)));
    StepOutcome(s, Sys(c, Destroy(e)));
  }

  /** CPU d, which has e as its current environment, makes no call for it, and frees it
      when it enters the kernel. */
  ghost predicate Reaps(s: State, d: nat, e: nat) {
    && e < |s.status|
    && (forall call :: !Enabled(s, Sys(d, call)))
    && (Enabled(s, Enter(d)) ==>
         && s.status[e] == Dying && e < |Next(s, Enter(d)).status| && d < |Next(s, Enter(d)).cpus|
         && Next(s, Enter(d)).status[e] == Free && Next(s, Enter(d)).cpus[d].cur == None)
  }

  lemma GoneFrees(s: State, d: nat, e: nat)
    requires Inv(s) && Gone(s, e) && CurIs(s, d, e)
    ensures Reaps(s, d, e)
  {
    assert CurOk(s, d);
  }

  // ---------- the way out of the kernel ----------

  /** How many steps of its own a CPU may still take with the lock. */
  function Remaining(m: Mode): nat {
    match m
    case Got(at) => 1 + AtMost(at)
    case Kernel(at) => AtMost(at)
    case Leaving(_) => 1
    case _ => 0
  }

  function AtMost(at: Place): nat {
    match at case Entry => 5 case Dispatch => 4 case Tail => 3 case Yield => 2
  }

  /** A CPU with the lock is always able to go on, and each step brings it nearer to the
      release: it leaves the kernel after at most six steps of its own, unless it stops in
      the monitor, where it keeps the lock. */
  lemma HolderAdvances(s: State, c: nat)
    requires Inv(s) && c < |s.cpus| && HoldsLock(s.cpus[c].mode) && s.cpus[c].mode != Monitor
    ensures exists ev: Event :: ev.cpu == c && Enabled(s, ev)
    ensures forall ev: Event :: ev.cpu == c && Enabled(s, ev) && !Hazard(s, ev) ==>
              && c < |Next(s, ev).cpus| && Remaining(Next(s, ev).cpus[c].mode) < Remaining(s.cpus[c].mode) <= 6
              && (Remaining(Next(s, ev).cpus[c].mode) == 0 ==>
                   (Next(s, ev).locked <==> Next(s, ev).cpus[c].mode == Monitor))
  {
    assert CurOk(s, c);
    var next := HolderCanStep(s, c);
    forall ev: Event | ev.cpu == c && Enabled(s, ev) && !Hazard(s, ev)
      ensures c < |Next(s, ev).cpus| && Remaining(Next(s, ev).cpus[c].mode) < Remaining(s.cpus[c].mode)
      ensures Remaining(Next(s, ev).cpus[c].mode) == 0 ==>
                (Next(s, ev).locked <==> Next(s, ev).cpus[c].mode == Monitor)
    {
      NextLockStep(s, ev);
    }
  }

  lemma HolderCanStep(s: State, c: nat) returns (ev: Event)
    requires Inv(s) && c < |s.cpus| && HoldsLock(s.cpus[c].mode) && s.cpus[c].mode != Monitor
    ensures ev.cpu == c && Enabled(s, ev)
  {
    match s.cpus[c].mode
    case Got(_) => ev := Record(c);
    case Leaving(_) => ev := Release(c);
    case Kernel(at) =>
      match at
      case Entry => ev := Enter(c);
      case Dispatch => ev := Sys(c, SysYield);
      case Tail => ev := TrapTail(c);
      case Yield =>
        if e :| 0 <= e < |s.status| && s.status[e] == Runnable {
          ev := Schedule(c, Some(e));
        } else {
          ev := Schedule(c, None);
        }
  }

  /** Where sched_yield leads when nothing is runnable: back to the caller if it is
      RUNNING, else to the monitor exactly when every environment is free or blocked,
      else to a halt with no current environment. */
  lemma NothingRunnable(s: State, c: nat)
    requires Inv(s) && Enabled(s, Schedule(c, None))
    ensures var n := Next(s, Schedule(c, None));
      && n.status == s.status && c < |n.cpus|
      && (CurHas(s, c, Running) <==> n.cpus[c] == Cpu(s.cpus[c].cur, Leaving(false)))
      && (!CurHas(s, c, Running) ==>
           if forall e :: 0 <= e < |s.status| ==> s.status[e] == Free || s.status[e] == NotRunnable then
             n.cpus[c].mode == Monitor
           else n.cpus[c] == Cpu(None, Leaving(true)))
  {
    if CurHas(s, c, Running) {
      assert Next(s, Schedule(c, None)).status == s.status;
    }
  }

  /** The tail of trap resumes exactly a RUNNING current environment. */
  lemma TailResumesIff(s: State, c: nat)
    requires Inv(s) && Enabled(s, TrapTail(c))
    ensures var n := Next(s, TrapTail(c));
      && n.status == s.status && c < |n.cpus|
      && n.cpus[c] == s.cpus[c].(mode := if CurHas(s, c, Running) then Leaving(false) else Kernel(Yield))
  {
    assert CurHas(s, c, Running) ==> Next(s, TrapTail(c)).status == s.status;
  }

  // ---------- a guarded run up to a hazard ----------

  lemma {:induction false} RunSnoc(s: State, trace: seq<Event>, m: State, ev: Event)
    requires Run(s, trace, m) && Enabled(m, ev) && Guarded(m, ev)
    ensures Run(s, trace + [ev], Next(m, ev))
    decreases |trace|
  {
    if trace == [] {
      assert Run(Next(m, ev), [], Next(m, ev));
      assert ([] + [ev])[1..] == [];
    } else {
      RunSnoc(Next(s, trace[0]), trace[1..], m, ev);
      assert (trace + [ev])[1..] == trace[1..] + [ev];
    }
  }

  /** Two CPUs and two environments after boot. */
  const TWOCPUS := State([Runnable, Runnable], [false, false],
                         [Cpu(None, Kernel(Yield)), Cpu(None, Spin(Yield))], true, Some(0))

  lemma TwoCpusBoot()
    ensures Boot(TWOCPUS)
  {
    var s := TWOCPUS;
    assert |s.cpus| == |s.status| == 2 && s.cpus[1] == Cpu(None, Spin(Yield));
    assert s.status[0] == s.status[1] == Runnable && !s.recving[0] && !s.recving[1];
  }

  /** Each CPU dispatches one environment. */
  lemma BothRun() returns (trace: seq<Event>)
    ensures Run(TWOCPUS, trace, State([Running, Running], [false, false],
                                      [Cpu(Some(0), User), Cpu(Some(1), User)], false, None))
  {
    var s := TWOCPUS;
    assert Run(s, [], s);
    RunSnoc(TWOCPUS, [], s, Schedule(0, Some(0)));
    s, trace := Next(s, Schedule(0, Some(0))), [Schedule(0, Some(0))];
    assert s == State([Running, Runnable], [false, false],
                      [Cpu(Some(0), Leaving(false)), Cpu(None, Spin(Yield))], true, None);
    RunSnoc(TWOCPUS, trace, s, Release(0));
    s, trace := Next(s, Release(0)), trace + [Release(0)];
    RunSnoc(TWOCPUS, trace, s, Exchange(1));
    s, trace := Next(s, Exchange(1)), trace + [Exchange(1)];
    RunSnoc(TWOCPUS, trace, s, Record(1));
    s, trace := Next(s, Record(1)), trace + [Record(1)];
    assert s == State([Running, Runnable], [false, false],
                      [Cpu(Some(0), User), Cpu(None, Kernel(Yield))], true, Some(1));
    RunSnoc(TWOCPUS, trace, s, Schedule(1, Some(1)));
    s, trace := Next(s, Schedule(1, Some(1))), trace + [Schedule(1, Some(1))];
    assert s == State([Running, Running], [false, false],
                      [Cpu(Some(0), User), Cpu(Some(1), Leaving(false))], true, None);
    RunSnoc(TWOCPUS, trace, s, Release(1));
    s, trace := Next(s, Release(1)), trace + [Release(1)];
    assert s == State([Running, Running], [false, false], [Cpu(Some(0), User), Cpu(Some(1), User)], false, None);
  }

  /** A CPU whose environment is running traps and comes to dispatching its call. */
  lemma Enters(s0: State, before: seq<Event>, s: State, c: nat) returns (trace: seq<Event>, n: State)
    requires Run(s0, before, s) && c < |s.cpus| && s.cpus[c].mode == User && CurHas(s, c, Running) && !s.locked
    ensures Run(s0, trace, n)
    ensures n == SetMode(s, c, Kernel(Dispatch)).(locked := true, owner := Some(c))
  {
    RunSnoc(s0, before, s, Trap(c));
    n, trace := Next(s, Trap(c)), before + [Trap(c)];
    RunSnoc(s0, trace, n, Exchange(c));
    n, trace := Next(n, Exchange(c)), trace + [Exchange(c)];
    RunSnoc(s0, trace, n, Record(c));
    n, trace := Next(n, Record(c)), trace + [Record(c)];
    RunSnoc(s0, trace, n, Enter(c));
    n, trace := Next(n, Enter(c)), trace + [Enter(c)];
  }

  /** It goes back to its environment from the tail of trap. */
  lemma Leaves(s0: State, before: seq<Event>, s: State, c: nat) returns (trace: seq<Event>, n: State)
    requires Run(s0, before, s) && c < |s.cpus| && s.cpus[c].mode == Kernel(Tail) && CurHas(s, c, Running)
    ensures Run(s0, trace, n)
    ensures n == SetMode(s, c, User).(locked := false, owner := None)
  {
    RunSnoc(s0, before, s, TrapTail(c));
    n, trace := Next(s, TrapTail(c)), before + [TrapTail(c)];
    assert n.status == s.status;
    RunSnoc(s0, trace, n, Release(c));
    n, trace := Next(n, Release(c)), trace + [Release(c)];
  }

  /** Guarded runs from boot after which a single system call is a hazard: CPU 0 may
      set the status of the environment that CPU 1 runs. */
  lemma HazardReached() returns (trace: seq<Event>, n: State)
    ensures Boot(TWOCPUS) && Run(TWOCPUS, trace, n)
    ensures Enabled(n, Sys(0, SetStatus(1, NotRunnable))) && Hazard(n, Sys(0, SetStatus(1, NotRunnable)))
  {
    TwoCpusBoot();
    trace := BothRun();
    var s := State([Running, Running], [false, false], [Cpu(Some(0), User), Cpu(Some(1), User)], false, None);
    trace, n := Enters(TWOCPUS, trace, s, 0);
    assert CurIs(n, 1, 1);
  }

  /** CPU 0 may destroy it twice while it runs. */
  lemma SecondDestroyReached() returns (trace: seq<Event>, n: State)
    ensures Boot(TWOCPUS) && Run(TWOCPUS, trace, n)
    ensures Enabled(n, Sys(0, Destroy(1))) && Hazard(n, Sys(0, Destroy(1)))
  {
    TwoCpusBoot();
    trace := BothRun();
    var s := State([Running, Running], [false, false], [Cpu(Some(0), User), Cpu(Some(1), User)], false, None);
    trace, n := Enters(TWOCPUS, trace, s, 0);
    RunSnoc(TWOCPUS, trace, n, Sys(0, Destroy(1)));
    n, trace := Next(n, Sys(0, Destroy(1))), trace + [Sys(0, Destroy(1))];
    assert n == State([Running, Dying], [false, false],
                      [Cpu(Some(0), Kernel(Tail)), Cpu(Some(1), User)], true, Some(0));
    trace, n := Leaves(TWOCPUS, trace, n, 0);
    trace, n := Enters(TWOCPUS, trace, n, 0);
  }

  /** CPU 1 comes to dispatching its call while CPU 0 is in user mode. */
  lemma SecondEnters() returns (trace: seq<Event>, n: State)
    ensures Boot(TWOCPUS) && Run(TWOCPUS, trace, n)
    ensures n == State([Running, Running], [false, false],
                       [Cpu(Some(0), User), Cpu(Some(1), Kernel(Dispatch))], true, Some(1))
  {
    TwoCpusBoot();
    trace := BothRun();
    var s := State([Running, Running], [false, false], [Cpu(Some(0), User), Cpu(Some(1), User)], false, None);
    trace, n := Enters(TWOCPUS, trace, s, 1);
  }

  /** Once an environment that CPU 1 runs is flagged as receiving, CPU 0 may send to it. */
  lemma SendAfterFlag(s: State) returns (trace: seq<Event>, n: State)
    requires s == State([Running, Running], [false, true],
                        [Cpu(Some(0), User), Cpu(Some(1), Kernel(Tail))], true, Some(1))
    ensures Run(s, trace, n) && Enabled(n, Sys(0, Send(1))) && Hazard(n, Sys(0, Send(1)))
  {
    assert Run(s, [], s);
    trace, n := Leaves(s, [], s, 1);
    trace, n := Enters(s, trace, n, 0);
    assert CurIs(n, 1, 1);
  }

  /** One receive with an invalid destination in an otherwise guarded run is enough for
      a send to be a hazard. */
  lemma ReceiveHazardReached() returns (before: seq<Event>, s: State, after: seq<Event>, n: State)
    ensures Boot(TWOCPUS) && Run(TWOCPUS, before, s) && Enabled(s, Sys(1, Recv(false)))
    ensures Run(Next(s, Sys(1, Recv(false))), after, n)
    ensures Enabled(n, Sys(0, Send(1))) && Hazard(n, Sys(0, Send(1)))
  {
    before, s := SecondEnters();
    after, n := SendAfterFlag(Next(s, Sys(1, Recv(false))));
  }

  lemma BootInv(s: State)
    requires Boot(s)
    ensures Inv(s) && ReceiversBlocked(s)
  {
    assert HoldsLock(s.cpus[0].mode);
    forall c | 0 <= c < |s.cpus| ensures CurOk(s, c) {
    }
  }
}
