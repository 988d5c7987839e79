/** The two schedulers (kern/sched.c) on one CPU, with the calls between two scheduling
    decisions that touch a status or a priority (kern/env.c, kern/syscall.c). */
module Sched {
  const BOOST_INTERVAL := 20
  const MAX_PRIORITY := 5

  datatype Status = Free | Dying | Runnable | Running | NotRunnable

  datatype Slot = None | Some(value: nat)

  /** The scheduler compiled in. */
  datatype Policy = RoundRobin | Priorities

  /** cur is the slot of curenv; calls is sched_stats.scheduler_calls. */
  datatype State = State(status: seq<Status>, prio: seq<int>, cur: Slot, calls: nat)

  predicate Shape(s: State) {
    && |s.status| == |s.prio| > 0
    && (s.cur.Some? ==> s.cur.value < |s.status|)
  }

  /** Priorities stay within 0..5. */
  predicate Valid(s: State) {
    && Shape(s)
    && forall i :: 0 <= i < |s.prio| ==> 0 <= s.prio[i] <= MAX_PRIORITY
  }

  // ---------- the choice ----------

  function Start(s: State): nat {
    if s.cur.Some? then s.cur.value else 0
  }

  /** The slot at distance k from start, going round. */
  function Around(s: State, k: nat): (i: nat)
    requires Shape(s)
    ensures i < |s.status|
  {
    (Start(s) + k) % |s.status|
  }

  /** One turn of the scan. */
  function Better(s: State, policy: Policy, b: Slot, i: nat): Slot
    requires Shape(s) && i < |s.status| && (b.Some? ==> b.value < |s.status|)
  {
    if s.status[i] == Runnable && (b.None? || (policy.Priorities? && s.prio[i] > s.prio[b.value])) then Some(i) else b
  }

  /** The best of the first n slots going round from start. */
  function Best(s: State, policy: Policy, n: nat): (b: Slot)
    requires Shape(s)
    ensures b.Some? ==> b.value < |s.status|
  {
    if n == 0 then None else Better(s, policy, Best(s, policy, n - 1), Around(s, n - 1))
  }

  function Pick(s: State, policy: Policy): Slot
    requires Shape(s)
  {
    Best(s, policy, |s.status|)
  }

  /** A slot that beats another one nearer to start: it is runnable, and the other
      one is not or has a lower priority. */
  predicate Beats(s: State, policy: Policy, i: nat, j: nat)
    requires Shape(s) && i < |s.status| && j < |s.status|
  {
    s.status[i] == Runnable && (s.status[j] == Runnable ==> policy.Priorities? && s.prio[i] > s.prio[j])
  }

  /** Slot b, at distance k, is the nearest runnable one of the first n, and under
      priorities the nearest one of the highest priority. */
  ghost predicate Nearest(s: State, policy: Policy, n: nat, b: Slot, k: nat)
    requires Shape(s)
  {
    match b
    case None => forall j :: 0 <= j < n ==> s.status[Around(s, j)] != Runnable
    case Some(i) =>
      && k < n && i == Around(s, k) && s.status[i] == Runnable
      && (forall j :: 0 <= j < k ==> Beats(s, policy, i, Around(s, j)))
      && (policy.Priorities? ==>
           forall j :: 0 <= j < n && s.status[Around(s, j)] == Runnable ==> s.prio[Around(s, j)] <= s.prio[i])
  }

  /** The choice is the nearest runnable slot, under priorities the nearest one of
      the highest priority; there is none only if nothing is runnable. */
  lemma {:induction false} BestIsNearest(s: State, policy: Policy, n: nat) returns (k: nat)
    requires Shape(s)
    ensures Nearest(s, policy, n, Best(s, policy, n), k)
  {
    k := 0;
    if n > 0 {
      k := BestIsNearest(s, policy, n - 1);
      if Best(s, policy, n) != Best(s, policy, n - 1) {
        k := n - 1;
      }
    }
  }

  // ---------- one call of sched_yield ----------

  /** boost_all_envs. */
  function Boost(s: State): (r: State)
    requires Shape(s)
    ensures Shape(r) && r.cur == s.cur && r.status == s.status
  {
    s.(prio := seq(|s.prio|, i requires 0 <= i < |s.prio| =>
         if s.status[i] != Free && s.prio[i] < MAX_PRIORITY then s.prio[i] + 1 else s.prio[i]))
  }

  /** env_run. */
  function EnvRun(s: State, q: nat): State
    requires Shape(s) && q < |s.status|
  {
    var st := if s.cur.Some? && s.status[s.cur.value] == Running then s.status[s.cur.value := Runnable] else s.status;
    s.(status := st[q := Running], cur := Some(q))
  }

  /** The call up to the choice. */
  function Counted(s: State, policy: Policy): (r: State)
    requires Shape(s)
    ensures Shape(r) && r.cur == s.cur && r.status == s.status
  {
    var t := s.(calls := s.calls + 1);
    if policy.Priorities? && t.calls >= BOOST_INTERVAL then Boost(t) else t
  }

  /** Whether the chosen environment loses a priority depends on a counter that the
      code reads out of bounds: a free choice. */
  function Demoted(s: State, q: nat, demote: bool): State
    requires Shape(s) && q < |s.status|
  {
    if demote && s.prio[q] > 0 then s.(prio := s.prio[q := s.prio[q] - 1]) else s
  }

  predicate Quiet(s: State) {
    forall i :: 0 <= i < |s.status| ==> s.status[i] != Runnable && s.status[i] != Running && s.status[i] != Dying
  }

  /** What is left when nothing is runnable: resume, enter the monitor, or halt. */
  function Idle(s: State): State
    requires Shape(s)
  {
    if s.cur.Some? && s.status[s.cur.value] == Running then EnvRun(s, s.cur.value)
    else if Quiet(s) then s
    else s.(cur := None)
  }

  function SchedYield(s: State, policy: Policy, demote: bool): State
    requires Shape(s)
  {
    var t := Counted(s, policy);
    var b := Pick(t, policy);
    if b.None? then Idle(t)
    else EnvRun(if policy.Priorities? then Demoted(t, b.value, demote) else t, b.value)
  }

  // ---------- what happens between two calls ----------

  datatype Event =
    | Yield(demote: bool)
    | SetPriority(p: int)                 // sys_set_priority of the running environment
    | Alloc(slot: nat, parent: Slot)      // env_alloc
    | SetStatus(slot: nat, to: Status)    // any change between two live statuses
    | Release(slot: nat)                  // env_free

  predicate Enabled(s: State, ev: Event)
    requires Shape(s)
  {
    match ev
    case Yield(_) => true
    case SetPriority(_) => s.cur.Some? && s.status[s.cur.value] == Running
    case Alloc(i, parent) => i < |s.status| && s.status[i] == Free && (parent.Some? ==> parent.value < |s.status|)
    case SetStatus(i, to) => i < |s.status| && s.status[i] != Free && to != Free
    case Release(i) => i < |s.status| && s.status[i] != Free
  }

  function Next(s: State, policy: Policy, ev: Event): State
    requires Shape(s) && Enabled(s, ev)
  {
    match ev
    case Yield(demote) => SchedYield(s, policy, demote)
    case SetPriority(p) =>
      if 0 <= p < MAX_PRIORITY && p <= s.prio[s.cur.value] then s.(prio := s.prio[s.cur.value := p]) else s
    case Alloc(i, parent) =>
      s.(status := s.status[i := Runnable],
         prio := s.prio[i := if parent.Some? then s.prio[parent.value] else MAX_PRIORITY])
    case SetStatus(i, to) => s.(status := s.status[i := to])
    case Release(i) => s.(status := s.status[i := Free], cur := if s.cur == Some(i) then None else s.cur)
  }

  /** No step takes a priority out of 0..5. */
  lemma NextValid(s: State, policy: Policy, ev: Event)
    requires Valid(s) && Enabled(s, ev)
    ensures Valid(Next(s, policy, ev)) && |Next(s, policy, ev).status| == |s.status|
  {
    if ev.Yield? {
      YieldValid(s, policy, ev.demote);
    }
  }

  lemma YieldValid(s: State, policy: Policy, demote: bool)
    requires Valid(s)
    ensures Valid(SchedYield(s, policy, demote)) && |SchedYield(s, policy, demote).status| == |s.status|
  {
    var t := Counted(s, policy);
    assert Valid(t);
    assert Pick(t, policy).Some? ==> Valid(Demoted(t, Pick(t, policy).value, demote));
  }

  /** Only the current environment is RUNNING. */
  predicate OneRunning(s: State)
    requires Shape(s)
  {
    forall i :: 0 <= i < |s.status| && s.status[i] == Running ==> s.cur == Some(i)
  }

  /** A call of sched_yield leaves one RUNNING environment at most, the current one; the
      one it chooses is RUNNING afterwards, and the one it leaves is RUNNABLE if it was
      RUNNING.  It halts only when nothing is runnable or running. */
  lemma YieldRunsOne(s: State, policy: Policy, demote: bool)
    requires Shape(s) && OneRunning(s)
    ensures var n, b := SchedYield(s, policy, demote), Pick(Counted(s, policy), policy);
      && Shape(n) && |n.status| == |s.status| && OneRunning(n)
      && (b.Some? ==> n.cur == b && n.status[b.value] == Running)
      && (forall i :: 0 <= i < |s.status| && n.cur != Some(i) ==>
            n.status[i] == if s.status[i] == Running then Runnable else s.status[i])
      && (n.cur == None && s.cur != None ==>
            forall i :: 0 <= i < |s.status| ==> s.status[i] != Runnable && s.status[i] != Running)
  {
    var t := Counted(s, policy);
    if Pick(t, policy).None? {
      NoneRunnable(t, policy);
    } else {
      var k := BestIsNearest(t, policy, |t.status|);
      RunsOne(t, Pick(t, policy).value);
      RunsOne(Demoted(t, Pick(t, policy).value, demote), Pick(t, policy).value);
    }
  }

  /** With nothing RUNNABLE a call changes no status: it resumes a RUNNING caller; else, if
      every environment is free or blocked, the kernel enters its monitor and the caller
      stays current; else the processor halts with no current environment. */
  lemma NothingToRun(s: State, policy: Policy, demote: bool)
    requires Shape(s) && forall i :: 0 <= i < |s.status| ==> s.status[i] != Runnable
    ensures var n := SchedYield(s, policy, demote);
      && n.status == s.status && n.calls == s.calls + 1
      && n.cur == if || (s.cur.Some? && s.status[s.cur.value] == Running)
                     || (forall i :: 0 <= i < |s.status| ==> s.status[i] == Free || s.status[i] == NotRunnable)
                  then s.cur else None
  {
    var t := Counted(s, policy);
    var k := BestIsNearest(t, policy, |t.status|);
    if s.cur.Some? && s.status[s.cur.value] == Running {
      assert s.status[s.cur.value := Runnable][s.cur.value := Running] == s.status;
    }
  }

  lemma RunsOne(s: State, q: nat)
    requires Shape(s) && OneRunning(s) && q < |s.status|
    ensures Shape(EnvRun(s, q)) && OneRunning(EnvRun(s, q)) && EnvRun(s, q).status[q] == Running
    ensures forall i :: 0 <= i < |s.status| && i != q ==>
              EnvRun(s, q).status[i] == if s.status[i] == Running then Runnable else s.status[i]
  {
  }

  /** The scan misses nothing. */
  lemma NoneRunnable(s: State, policy: Policy)
    requires Shape(s) && Pick(s, policy).None?
    ensures forall i :: 0 <= i < |s.status| ==> s.status[i] != Runnable
  {
    var k := BestIsNearest(s, policy, |s.status|);
    forall i | 0 <= i < |s.status| ensures s.status[i] != Runnable {
      AroundDistance(s, i);
      assert s.status[Around(s, Distance(Start(s), i, |s.status|))] != Runnable;
    }
  }

  /** Environment e is RUNNABLE from here to the end of the trace; it is never
      dispatched, as that would make it RUNNING. */
  predicate Waits(s: State, policy: Policy, trace: seq<Event>, e: nat)
    requires Valid(s)
    decreases |trace|
  {
    && e < |s.status| && s.status[e] == Runnable
    && (trace != [] ==>
        && Enabled(s, trace[0])
        && (NextValid(s, policy, trace[0]);
            Waits(Next(s, policy, trace[0]), policy, trace[1..], e)))
  }

  /** The caller of sched_yield has set its own status to RUNNABLE. */
  predicate CallerRunnable(s: State)
    requires Shape(s)
  {
    s.cur.Some? && s.status[s.cur.value] == Runnable
  }

  /** All calls of sched_yield but those of a RUNNABLE caller. */
  function Calls(s: State, policy: Policy, trace: seq<Event>, e: nat): nat
    requires Valid(s) && Waits(s, policy, trace, e)
    decreases |trace|
  {
    if trace == [] then 0 else
      NextValid(s, policy, trace[0]);
      (if trace[0].Yield? && !CallerRunnable(s) then 1 else 0)
      + Calls(Next(s, policy, trace[0]), policy, trace[1..], e)
  }

  /** The calls entered with curenv NULL. */
  function NullCalls(s: State, policy: Policy, trace: seq<Event>, e: nat): nat
    requires Valid(s) && Waits(s, policy, trace, e)
    decreases |trace|
  {
    if trace == [] then 0 else
      NextValid(s, policy, trace[0]);
      (if trace[0].Yield? && s.cur.None? then 1 else 0) + NullCalls(Next(s, policy, trace[0]), policy, trace[1..], e)
  }

  // ---------- the circular distance shrinks ----------

  /** How far e is ahead of i, going round. */
  function Distance(i: nat, e: nat, n: nat): nat
    requires i < n && e < n
  {
    if i <= e then e - i else e + n - i
  }

  /** The calls e may still lose to the environments between start and e. */
  function Ahead(s: State, e: nat): nat
    requires Shape(s) && e < |s.status|
  {
    if s.cur.Some? && s.cur.value != e then Distance(s.cur.value, e, |s.status|) - 1 else 0
  }

  lemma Modulo(a: nat, k: nat, n: nat)
    requires a < n && k <= n
    ensures (a + k) % n == if a + k < n then a + k else a + k - n
  {
  }

  lemma Distribute(n: nat, d: nat)
    ensures n * (d + 1) == n * d + n
  {
  }

  lemma AroundDistance(s: State, e: nat)
    requires Shape(s) && e < |s.status| && Start(s) < |s.status|
    ensures Distance(Start(s), e, |s.status|) < |s.status|
    ensures Around(s, Distance(Start(s), e, |s.status|)) == e
  {
    Modulo(Start(s), Distance(Start(s), e, |s.status|), |s.status|);
  }

  lemma DistanceAround(s: State, k: nat, d: nat, e: nat)
    requires Shape(s) && k <= d < |s.status| && Around(s, d) == e && Start(s) < |s.status|
    ensures Distance(Around(s, k), e, |s.status|) == d - k
  {
    Modulo(Start(s), k, |s.status|);
    Modulo(Start(s), d, |s.status|);
  }

  /** The scheduler's choice lies between start and any runnable environment of the
      highest priority, and is not start itself unless start is runnable. */
  lemma PickIsBetween(s: State, policy: Policy, e: nat)
    requires Valid(s) && e < |s.status| && s.status[e] == Runnable
    requires policy.Priorities? ==> s.prio[e] == MAX_PRIORITY
    ensures Pick(s, policy).Some? && s.status[Pick(s, policy).value] == Runnable
    ensures Distance(Pick(s, policy).value, e, |s.status|) <= Distance(Start(s), e, |s.status|)
    ensures s.status[Start(s)] != Runnable ==>
              Distance(Pick(s, policy).value, e, |s.status|) < Distance(Start(s), e, |s.status|)
  {
    var k := BestIsNearest(s, policy, |s.status|);
    var d := Distance(Start(s), e, |s.status|);
    AroundDistance(s, e);
    assert s.status[Around(s, d)] == Runnable;
    DistanceAround(s, k, d, e);
    assert k == 0 ==> Around(s, 0) == Start(s);
  }

  lemma YieldPicks(s: State, policy: Policy, demote: bool, e: nat)
    requires Valid(s) && e < |s.status| && s.status[e] == Runnable
    ensures Pick(Counted(s, policy), policy).Some?
    ensures SchedYield(s, policy, demote).cur == Pick(Counted(s, policy), policy)
    ensures SchedYield(s, policy, demote).calls == s.calls + 1
    ensures SchedYield(s, policy, demote).cur != Some(e) ==>
              SchedYield(s, policy, demote).prio[e] == Counted(s, policy).prio[e]
    ensures SchedYield(s, policy, demote).cur == Some(e) ==> SchedYield(s, policy, demote).status[e] == Running
  {
    var t := Counted(s, policy);
    var k := BestIsNearest(t, policy, |t.status|);
    AroundDistance(t, e);
  }

  /** One event while e has the highest priority (or priorities do not matter). */
  lemma TopStep(s: State, policy: Policy, trace: seq<Event>, e: nat)
    requires Valid(s) && trace != [] && Waits(s, policy, trace, e)
    requires policy.Priorities? ==> s.prio[e] == MAX_PRIORITY
    ensures var n := Next(s, policy, trace[0]);
      && Shape(n) && e < |n.status|
      && (policy.Priorities? ==> n.prio[e] == MAX_PRIORITY)
      && (if !trace[0].Yield? then Ahead(n, e) <= Ahead(s, e)
          else if CallerRunnable(s) then Ahead(n, e) <= Ahead(s, e)
          else if s.cur.Some? then Ahead(n, e) + 1 <= Ahead(s, e)
          else Ahead(n, e) + 2 <= |s.status|)
  {
    NextValid(s, policy, trace[0]);
    if trace[0].Yield? {
      var t := Counted(s, policy);
      YieldPicks(s, policy, trace[0].demote, e);
      assert Valid(t);
      PickIsBetween(t, policy, e);
      AroundDistance(t, e);
    }
  }

  lemma {:induction false} TopWait(s: State, policy: Policy, trace: seq<Event>, e: nat)
    requires Valid(s) && Waits(s, policy, trace, e)
    requires policy.Priorities? ==> s.prio[e] == MAX_PRIORITY
    ensures Calls(s, policy, trace, e) <= Ahead(s, e) + |s.status| * NullCalls(s, policy, trace, e)
    decreases |trace|
  {
    if trace != [] {
      var n := Next(s, policy, trace[0]);
      NextValid(s, policy, trace[0]);
      TopStep(s, policy, trace, e);
      TopWait(n, policy, trace[1..], e);
      var d, d1 := NullCalls(s, policy, trace, e), NullCalls(n, policy, trace[1..], e);
      Distribute(|s.status|, d1);
    }
  }

  /** Round-robin: a RUNNABLE environment is dispatched within NENV * (d + 1) calls by
      callers that are not RUNNABLE, whatever else happens. */
  lemma RoundRobinBound(s: State, trace: seq<Event>, e: nat)
    requires Valid(s) && Waits(s, RoundRobin, trace, e)
    ensures Calls(s, RoundRobin, trace, e) < |s.status| * (NullCalls(s, RoundRobin, trace, e) + 1)
  {
    TopWait(s, RoundRobin, trace, e);
    Distribute(|s.status|, NullCalls(s, RoundRobin, trace, e));
  }

  // ---------- boosts ----------

  /** The calls until e has the highest priority. */
  function Climb(s: State, e: nat): int
    requires Shape(s) && e < |s.prio|
  {
    (if s.calls + 1 < BOOST_INTERVAL then BOOST_INTERVAL - 1 - s.calls else 0) + MAX_PRIORITY - s.prio[e]
  }

  lemma ClimbStep(s: State, trace: seq<Event>, e: nat)
    requires Valid(s) && trace != [] && Waits(s, Priorities, trace, e) && s.prio[e] < MAX_PRIORITY
    ensures var n := Next(s, Priorities, trace[0]);
      && Valid(n) && |n.status| == |s.status|
      && Climb(n, e) + (if trace[0].Yield? && !CallerRunnable(s) then 1 else 0) <= Climb(s, e)
  {
    NextValid(s, Priorities, trace[0]);
    if trace[0].Yield? {
      YieldPicks(s, Priorities, trace[0].demote, e);
    }
  }

  lemma {:induction false} ClimbWait(s: State, trace: seq<Event>, e: nat)
    requires Valid(s) && Waits(s, Priorities, trace, e)
    ensures Calls(s, Priorities, trace, e) < Climb(s, e) + |s.status| * (NullCalls(s, Priorities, trace, e) + 1)
    decreases |trace|
  {
    var d := NullCalls(s, Priorities, trace, e);
    Distribute(|s.status|, d);
    if s.prio[e] == MAX_PRIORITY {
      TopWait(s, Priorities, trace, e);
    } else if trace != [] {
      var n := Next(s, Priorities, trace[0]);
      ClimbStep(s, trace, e);
      ClimbWait(n, trace[1..], e);
      var d1 := NullCalls(n, Priorities, trace[1..], e);
      Distribute(|s.status|, d1);
      Distribute(|s.status|, d1 + 1);
    }
  }

  /** Priorities: a RUNNABLE environment is dispatched within BOOST_INTERVAL +
      MAX_PRIORITY + NENV * (d + 1) such calls, whatever the others do. */
  lemma PrioritiesBound(s: State, trace: seq<Event>, e: nat)
    requires Valid(s) && Waits(s, Priorities, trace, e)
    ensures Calls(s, Priorities, trace, e) < 20 + 5 + |s.status| * (NullCalls(s, Priorities, trace, e) + 1)
  {
    ClimbWait(s, trace, e);
  }

  // ---------- a RUNNABLE caller ----------

  lemma AroundStart(s: State, k: nat)
    requires Shape(s) && k < |s.status|
    ensures Around(s, k) == Start(s) <==> k == 0
    ensures Around(s, 0) == Start(s)
  {
    Modulo(Start(s), k, |s.status|);
    Modulo(Start(s), 0, |s.status|);
  }

  /** The scan begins at the caller, not after it: round-robin chooses the caller
      exactly when the caller is RUNNABLE. */
  lemma CallerChosenIff(s: State)
    requires Shape(s)
    ensures Pick(s, RoundRobin) == Some(Start(s)) <==> s.status[Start(s)] == Runnable
  {
    var k := BestIsNearest(s, RoundRobin, |s.status|);
    AroundStart(s, if k < |s.status| then k else 0);
  }

  /** The caller sets its own status to RUNNABLE and yields, n times over. */
  function Selfish(c: nat, n: nat): seq<Event> {
    if n == 0 then [] else [SetStatus(c, Runnable), Yield(false)] + Selfish(c, n - 1)
  }

  function Yields(trace: seq<Event>): nat {
    if trace == [] then 0 else (if trace[0].Yield? then 1 else 0) + Yields(trace[1..])
  }

  /** There is no bound on the calls of a RUNNABLE caller: a running environment can
      keep any other one waiting for as many of them as it likes. */
  lemma {:induction false} SelfishCallerStarves(s: State, c: nat, e: nat, n: nat)
    requires Valid(s) && s.cur == Some(c) && s.status[c] == Running
    requires e < |s.status| && e != c && s.status[e] == Runnable
    ensures Waits(s, RoundRobin, Selfish(c, n), e) && Yields(Selfish(c, n)) == n
    ensures Calls(s, RoundRobin, Selfish(c, n), e) == 0
    decreases n
  {
    if n > 0 {
      var rest := Selfish(c, n - 1);
      var trace := Selfish(c, n);
      var a := Next(s, RoundRobin, trace[0]);
      assert trace[1..] == [Yield(false)] + rest && trace[1..][1..] == rest;
      CallerChosenIff(Counted(a, RoundRobin));
      var b := Next(a, RoundRobin, Yield(false));
      assert Valid(a) && b.cur == Some(c) && b.status[c] == Running && b.status[e] == Runnable;
      NextValid(a, RoundRobin, Yield(false));
      SelfishCallerStarves(b, c, e, n - 1);
    }
  }

  // ---------- priorities ----------

  /** The only events that change a priority, and how: a program lowers its own, a new
      environment takes that of its parent or the highest, and a call of the priority
      scheduler raises by one what is in use and below the highest, from the BOOST_INTERVALth
      on, and may lower by one the RUNNABLE one that it dispatches. */
  predicate Turns(s: State, policy: Policy, ev: Event, i: nat, now: int)
    requires Valid(s) && Enabled(s, ev) && i < |s.prio|
  {
    match ev
    case SetPriority(p) => s.cur == Some(i) && now == p < s.prio[i]
    case Alloc(x, parent) => x == i && now == (if parent.Some? then s.prio[parent.value] else MAX_PRIORITY)
    case Yield(demote) =>
      var boosted := s.calls + 1 >= BOOST_INTERVAL && s.status[i] != Free && s.prio[i] < MAX_PRIORITY;
      var lowered := demote && s.status[i] == Runnable && SchedYield(s, policy, demote).cur == Some(i);
      policy.Priorities? && now == s.prio[i] + (if boosted then 1 else 0) - (if lowered then 1 else 0)
    case _ => false
  }

  lemma PriorityTurns(s: State, policy: Policy, ev: Event, i: nat)
    requires Valid(s) && Enabled(s, ev) && i < |s.prio|
    ensures |Next(s, policy, ev).prio| == |s.prio|
    ensures Next(s, policy, ev).prio[i] != s.prio[i] ==> Turns(s, policy, ev, i, Next(s, policy, ev).prio[i])
  {
    if ev.Yield? {
      YieldPriority(s, policy, ev.demote, i);
    }
  }

  lemma YieldPriority(s: State, policy: Policy, demote: bool, i: nat)
    requires Valid(s) && i < |s.prio|
    ensures |SchedYield(s, policy, demote).prio| == |s.prio|
    ensures SchedYield(s, policy, demote).prio[i] != s.prio[i] ==>
              Turns(s, policy, Yield(demote), i, SchedYield(s, policy, demote).prio[i])
  {
    var t := Counted(s, policy);
    var k := BestIsNearest(t, policy, |t.status|);
  }

  /** And it does change it then: sys_set_priority is obeyed exactly for a priority from 0
      on that is below the highest and not above the old one, and a new environment inherits. */
  lemma PriorityIsSet(s: State, policy: Policy, ev: Event)
    requires Valid(s) && Enabled(s, ev)
    ensures ev.SetPriority? ==>
              (Next(s, policy, ev).prio == s.prio[s.cur.value := ev.p]
               <==> (0 <= ev.p < MAX_PRIORITY && ev.p <= s.prio[s.cur.value]) || ev.p == s.prio[s.cur.value])
    ensures ev.Alloc? && ev.parent.Some? ==> Next(s, policy, ev).prio == s.prio[ev.slot := s.prio[ev.parent.value]]
    ensures ev.Alloc? && ev.parent.None? ==> Next(s, policy, ev).prio == s.prio[ev.slot := MAX_PRIORITY]
    ensures ev.Alloc? ==> Next(s, policy, ev).status == s.status[ev.slot := Runnable]
  {
    if ev.SetPriority? && Next(s, policy, ev).prio != s.prio[s.cur.value := ev.p] {
      assert s.prio[s.cur.value := s.prio[s.cur.value]] == s.prio;
    }
  }

  /** The events that are no calls change the status of their slot only; an environment
      that is freed is current no more. */
  lemma EventOutcome(s: State, policy: Policy, ev: Event)
    requires Valid(s) && Enabled(s, ev) && !ev.Yield?
    ensures var n := Next(s, policy, ev);
      match ev
      case SetPriority(_) => n.status == s.status && n.cur == s.cur && s.status[s.cur.value] == Running
      case Alloc(i, _) => s.status[i] == Free && n.status == s.status[i := Runnable] && n.cur == s.cur
      case SetStatus(i, to) => s.status[i] != Free && to != Free && n == s.(status := s.status[i := to])
      case Release(i) =>
        && s.status[i] != Free && n.status == s.status[i := Free] && n.prio == s.prio
        && n.cur != Some(i) && (s.cur != Some(i) ==> n.cur == s.cur)
      case _ => true
  {
  }

  // ---------- the scheduler as the kernel runs it ----------

  /** In round-robin the first runnable slot found is kept. */
  lemma {:induction false} FirstIsKept(s: State, m: nat, n: nat)
    requires Shape(s) && m <= n && Best(s, RoundRobin, m).Some?
    ensures Best(s, RoundRobin, n) == Best(s, RoundRobin, m)
  {
    if m < n {
      FirstIsKept(s, m, n - 1);
    }
  }

  class Scheduler {
    var status: array<Status>
    var prio: array<int>
    var curenv: Slot
    var calls: nat

    ghost function Value(): State
      reads this, status, prio
    {
      State(status[..], prio[..], curenv, calls)
    }

    ghost predicate Ready()
      reads this, status, prio
    {
      Shape(Value())
    }

    method BoostAllEnvs()
      requires Ready()
      modifies prio
      ensures Value() == Boost(old(Value()))
    {
      ghost var s := Value();
      var i := 0;
      while i < status.Length
        invariant 0 <= i <= status.Length && prio.Length == status.Length
        invariant forall j :: 0 <= j < i ==> prio[j] == Boost(s).prio[j]
        invariant forall j :: i <= j < prio.Length ==> prio[j] == s.prio[j]
        invariant status[..] == s.status && curenv == s.cur && calls == s.calls
      {
        if status[i] != Free && prio[i] < MAX_PRIORITY {
          prio[i] := prio[i] + 1;
        }
        i := i + 1;
      }
      assert prio[..] == Boost(s).prio;
    }

    method FindRunnable() returns (b: Slot)
      requires Ready()
      ensures b == Pick(Value(), RoundRobin)
    {
      var start := if curenv.Some? then curenv.value else 0;
      var i := 0;
      while i < status.Length
        invariant 0 <= i <= status.Length
        invariant Best(Value(), RoundRobin, i) == None
      {
        var index := (start + i) % status.Length;
        if status[index] == Runnable {
          assert Best(Value(), RoundRobin, i + 1) == Some(index);
          FirstIsKept(Value(), i + 1, status.Length);
          return Some(index);
        }
        i := i + 1;
      }
      return None;
    }

    method FindBestPriority() returns (b: Slot)
      requires Ready()
      ensures b == Pick(Value(), Priorities)
    {
      var start := if curenv.Some? then curenv.value else 0;
      b := None;
      var best, i := 0, 0;
      while i < status.Length
        invariant 0 <= i <= status.Length
        invariant b == Best(Value(), Priorities, i)
        invariant b.Some? ==> best == prio[b.value]
      {
        var index := (start + i) % status.Length;
        if status[index] == Runnable && (b.None? || prio[index] > best) {
          b, best := Some(index), prio[index];
        }
        i := i + 1;
      }
    }

    method Dispatch(q: nat)
      requires Ready() && q < status.Length
      modifies this`curenv, status
      ensures Value() == EnvRun(old(Value()), q)
    {
      if curenv.Some? && status[curenv.value] == Running {
        status[curenv.value] := Runnable;
      }
      curenv := Some(q);
      status[q] := Running;
      assert status[..] == EnvRun(old(Value()), q).status;
    }

    /** Whether anything is left to wait for; if not, the kernel enters its monitor. */
    method AnyAlive() returns (alive: bool)
      requires Ready()
      ensures alive <==> !Quiet(Value())
    {
      var i := 0;
      while i < status.Length
        invariant 0 <= i <= status.Length
        invariant forall j :: 0 <= j < i ==> status[j] != Runnable && status[j] != Running && status[j] != Dying
      {
        if status[i] == Runnable || status[i] == Running || status[i] == Dying {
          assert Value().status[i] == status[i];
          return true;
        }
        i := i + 1;
      }
      return false;
    }

    method Demote(q: nat, demote: bool)
      requires Ready() && q < prio.Length
      modifies prio
      ensures Value() == Demoted(old(Value()), q, demote)
    {
      if demote && prio[q] > 0 {
        prio[q] := prio[q] - 1;
        assert prio[..] == Demoted(old(Value()), q, demote).prio;
      }
    }

    method ResumeOrHalt()
      requires Ready()
      modifies this`curenv, status
      ensures Value() == Idle(old(Value()))
    {
      if curenv.Some? && status[curenv.value] == Running {
        Dispatch(curenv.value);
      } else {
        var alive := AnyAlive();
        if alive {
          curenv := None;
        }
      }
    }

    method Yield(policy: Policy, demote: bool)
      requires Ready()
      modifies this`curenv, this`calls, status, prio
      ensures Value() == SchedYield(old(Value()), policy, demote)
    {
      calls := calls + 1;
      var b: Slot;
      if policy.RoundRobin? {
        b := FindRunnable();
      } else {
        if calls >= BOOST_INTERVAL {
          BoostAllEnvs();
        }
        b := FindBestPriority();
        if b.Some? {
          Demote(b.value, demote);
        }
      }
      if b.Some? {
        Dispatch(b.value);
      } else {
        ResumeOrHalt();
      }
    }
  }
}
