/** Message passing: sys_ipc_try_send and sys_ipc_recv (kern/syscall.c) with the library
    calls ipc_send and ipc_recv (lib/ipc.c), interleaved in any order.  Environment
    identifiers are indices and are not reused. */
module Ipc {
  import opened Mmu
  import PageCalls

  datatype Status = Runnable | NotRunnable | Free

  /** A page argument: none, or one with its permissions; passes tells whether the
      checks on it succeed, maps whether the transfer then does. */
  datatype Page = NoPage | Page(perm: nat, passes: bool, maps: bool)

  datatype Send = Send(to: nat, value: int, page: Page)

  /** Where an environment is: in its own code, after the trap of sys_ipc_recv, after
      the read of env_ipc_from, that of env_ipc_perm, or in the loop of ipc_send. */
  datatype Place = Own | InRecv | GotFrom(sender: nat) | GotPerm(sender: nat, perm: nat) | Sending(msg: Send) | Panicked

  /** The fields of struct Env that messages go through; ok tells whether eax, the
      result of the system call, is zero. */
  datatype Env =
    Env(status: Status, recving: bool, dstva: nat, from: nat, perm: nat, value: int, ok: bool, place: Place)

  /** perm is what the send left in env_ipc_perm. */
  datatype Message = Message(from: nat, to: nat, perm: nat, value: int)

  /** What a receive returned. */
  datatype Received = Received(from: nat, perm: nat, value: int)

  /** sent is the history of sends that returned 0; got and told are what the completed
      ipc_recv calls of each environment returned, and the ipc_send calls that returned. */
  datatype State = State(envs: seq<Env>, sent: seq<Message>, got: seq<seq<Received>>, told: seq<seq<Message>>)

  // ---------- the system calls ----------

  datatype Result = Success | BadEnv | NotRecv | Inval | NotMapped

  predicate Live(envs: seq<Env>, e: nat) {
    e < |envs| && envs[e].status != Free
  }

  /** What a successful send leaves in env_ipc_perm of the receiver. */
  function SentPerm(env: Env, page: Page): nat {
    if page.NoPage? then 0
    else if env.dstva == 0 then env.perm
    else PageCalls.WithUserPresent(page.perm)
  }

  /** What the comments promise: the permissions of the transferred page, if there is one. */
  function PromisedPerm(env: Env, page: Page): nat {
    if page.Page? && env.dstva != 0 then PageCalls.WithUserPresent(page.perm) else 0
  }

  /** sys_ipc_try_send. */
  function TrySend(envs: seq<Env>, cur: nat, m: Send): (r: (Result, seq<Env>))
    ensures |r.1| == |envs|
  {
    if !Live(envs, m.to) then (BadEnv, envs)
    else if !envs[m.to].recving then (NotRecv, envs)
    else if m.page.Page? && !m.page.passes then (Inval, envs)
    else if m.page.Page? && envs[m.to].dstva != 0 && !m.page.maps then (NotMapped, envs)
    else
      var to := envs[m.to].(from := cur, recving := false, perm := SentPerm(envs[m.to], m.page),
                            value := m.value, ok := true, status := Runnable);
      (Success, envs[m.to := to])
  }

  predicate ValidDst(dstva: nat) {
    dstva < UTOP && dstva % PGSIZE == 0
  }

  /** sys_ipc_recv: the flag is raised before the address is looked at. */
  function Recv(env: Env, dstva: nat): Env {
    if ValidDst(dstva) then env.(recving := true, dstva := dstva, status := NotRunnable, ok := false)
    else env.(recving := true, ok := false)
  }

  // ---------- steps ----------

  datatype Event =
    | CallSend(e: nat, msg: Send)         // ipc_send is entered
    | Attempt(e: nat)                     // one turn of its loop
    | CallRecv(e: nat, dstva: nat)
    | ReadFrom(e: nat)                    // ipc_recv goes on after the system call
    | ReadPerm(e: nat)
    | ReadValue(e: nat)
    | SetStatus(e: nat, to: Status)       // sys_env_set_status
    | Exit(e: nat)

  predicate Shape(s: State) {
    |s.got| == |s.told| == |s.envs|
  }

  predicate Enabled(s: State, ev: Event) {
    && ev.e < |s.envs| && Shape(s)
    && var env := s.envs[ev.e];
       match ev
       case CallSend(_, _) => env.status == Runnable && env.place == Own
       case Attempt(_) => env.status == Runnable && env.place.Sending?
       case CallRecv(_, _) => env.status == Runnable && env.place == Own
       case ReadFrom(_) => env.status == Runnable && env.place == InRecv
       case ReadPerm(_) => env.status == Runnable && env.place.GotFrom?
       case ReadValue(_) => env.status == Runnable && env.place.GotPerm?
       case SetStatus(_, to) => env.status != Free && to != Free
       case Exit(_) => env.status != Free
  }

  function Put(s: State, e: nat, env: Env): State
    requires e < |s.envs|
  {
    s.(envs := s.envs[e := env])
  }

  function LogOf(envs: seq<Env>, e: nat, m: Send): Message {
    Message(e, m.to, if m.to < |envs| then SentPerm(envs[m.to], m.page) else 0, m.value)
  }

  /** One turn of ipc_send: done, again, or panic. */
  function DoAttempt(s: State, e: nat): State
    requires e < |s.envs| && Shape(s) && s.envs[e].place.Sending?
  {
    var m := s.envs[e].place.msg;
    var (r, envs) := TrySend(s.envs, e, m);
    match r
    case NotRecv => s
    case Success =>
      var log := LogOf(s.envs, e, m);
      State(envs[e := envs[e].(place := Own)], s.sent + [log], s.got, s.told[e := s.told[e] + [log]])
    case _ => Put(s, e, s.envs[e].(place := Panicked))
  }

  function Next(s: State, ev: Event): State
    requires Enabled(s, ev)
  {
    var env := s.envs[ev.e];
    match ev
    case CallSend(e, m) => Put(s, e, env.(place := Sending(m)))
    case Attempt(e) => DoAttempt(s, e)
    case CallRecv(e, dstva) => Put(s, e, Recv(env, dstva).(place := InRecv))
    case ReadFrom(e) => Put(s, e, env.(place := if env.ok then GotFrom(env.from) else Own))
    case ReadPerm(e) => Put(s, e, env.(place := GotPerm(env.place.sender, env.perm)))
    case ReadValue(e) =>
      var r := Received(env.place.sender, env.place.perm, env.value);
      Put(s, e, env.(place := Own)).(got := s.got[e := s.got[e] + [r]])
    case SetStatus(e, to) => Put(s, e, env.(status := to))
    case Exit(e) => Put(s, e, env.(status := Free))
  }

  // ---------- the history seen from one end ----------

  function OneTo(m: Message, r: nat): seq<Received> {
    if m.to == r then [Received(m.from, m.perm, m.value)] else []
  }

  function To(sent: seq<Message>, r: nat): seq<Received> {
    if sent == [] then []
    else To(sent[..|sent| - 1], r) + OneTo(sent[|sent| - 1], r)
  }

  function By(sent: seq<Message>, e: nat): seq<Message> {
    if sent == [] then []
    else By(sent[..|sent| - 1], e) + if sent[|sent| - 1].from == e then [sent[|sent| - 1]] else []
  }

  /** The message an environment has been given and has not read to the end. */
  function Pending(env: Env): seq<Received> {
    if env.place == InRecv && env.ok then [Received(env.from, env.perm, env.value)]
    else if env.place.GotFrom? then [Received(env.place.sender, env.perm, env.value)]
    else if env.place.GotPerm? then [Received(env.place.sender, env.place.perm, env.value)]
    else []
  }

  // ---------- invariants ----------

  /** A live environment flagged as receiving is blocked in its receive. */
  predicate Blocked(env: Env) {
    env.recving && env.status != Free ==> env.status == NotRunnable && env.place == InRecv && !env.ok
  }

  ghost predicate AllBlocked(s: State) {
    forall e :: 0 <= e < |s.envs| ==> Blocked(s.envs[e])
  }

  /** Nothing is lost, duplicated or overwritten: what e was sent is what its receives
      returned, in order, followed by the one message it is still reading. */
  ghost predicate Exact(s: State, e: nat)
    requires Shape(s) && e < |s.envs|
  {
    && To(s.sent, e) == s.got[e] + Pending(s.envs[e])
    && By(s.sent, e) == s.told[e]
  }

  ghost predicate Inv(s: State) {
    Shape(s) && AllBlocked(s) && forall e :: 0 <= e < |s.envs| ==> Exact(s, e)
  }

  /** A receive names a page-aligned address below UTOP, and nobody sets the status of a
      blocked receiver to RUNNABLE. */
  predicate Disciplined(s: State, ev: Event)
    requires ev.e < |s.envs|
  {
    && (ev.CallRecv? ==> ValidDst(ev.dstva))
    && (ev.SetStatus? && ev.to == Runnable ==> !s.envs[ev.e].recving)
  }

  lemma Appended(sent: seq<Message>, m: Message, e: nat)
    ensures To(sent + [m], e) == To(sent, e) + OneTo(m, e)
    ensures By(sent + [m], e) == By(sent, e) + if m.from == e then [m] else []
  {
    assert (sent + [m])[..|sent|] == sent;
  }

  /** The flag means blocked after a step exactly when the step is disciplined. */
  lemma BlockedIff(s: State, ev: Event)
    requires Shape(s) && AllBlocked(s) && Enabled(s, ev)
    ensures AllBlocked(Next(s, ev)) <==> Disciplined(s, ev)
  {
    var n := Next(s, ev);
    if Disciplined(s, ev) {
      forall e | 0 <= e < |n.envs| ensures Blocked(n.envs[e]) {
        assert Blocked(s.envs[e]);
      }
    } else {
      assert Blocked(s.envs[ev.e]);
      assert !Blocked(n.envs[ev.e]);
    }
  }

  /** A send that is accepted goes to a receiver that has nothing pending. */
  lemma AcceptedBy(s: State, c: nat)
    requires Inv(s) && Enabled(s, Attempt(c)) && TrySend(s.envs, c, s.envs[c].place.msg).0 == Success
    ensures var m := s.envs[c].place.msg; var n := DoAttempt(s, c);
      && m.to < |s.envs| && m.to != c && |n.envs| == |s.envs| && Shape(n)
      && n.sent == s.sent + [LogOf(s.envs, c, m)] && n.got == s.got
      && n.told == s.told[c := s.told[c] + [LogOf(s.envs, c, m)]]
      && Pending(s.envs[m.to]) == [] && Pending(n.envs[m.to]) == OneTo(LogOf(s.envs, c, m), m.to)
      && Pending(s.envs[c]) == Pending(n.envs[c]) == []
      && forall e :: 0 <= e < |s.envs| && e != c && e != m.to ==> n.envs[e] == s.envs[e]
  {
    assert Blocked(s.envs[s.envs[c].place.msg.to]);
  }

  lemma AttemptExact(s: State, c: nat, e: nat)
    requires Inv(s) && Enabled(s, Attempt(c)) && e < |s.envs|
    ensures Shape(DoAttempt(s, c)) && |DoAttempt(s, c).envs| == |s.envs| && Exact(DoAttempt(s, c), e)
  {
    var m := s.envs[c].place.msg;
    assert Exact(s, e);
    if TrySend(s.envs, c, m).0 == Success {
      AcceptedBy(s, c);
      Appended(s.sent, LogOf(s.envs, c, m), e);
      var n := DoAttempt(s, c);
      if e != m.to {
        assert Pending(n.envs[e]) == Pending(s.envs[e]) && OneTo(LogOf(s.envs, c, m), e) == [];
      } else {
        assert s.got[e] + [] == s.got[e];
      }
    }
  }

  /** Even an undisciplined step keeps the count, as long as flags were right before. */
  lemma NextExact(s: State, ev: Event, e: nat)
    requires Inv(s) && Enabled(s, ev) && e < |s.envs|
    ensures Shape(Next(s, ev)) && |Next(s, ev).envs| == |s.envs| && Exact(Next(s, ev), e)
  {
    assert Exact(s, e) && Blocked(s.envs[e]);
    if ev.Attempt? {
      AttemptExact(s, ev.e, e);
    }
  }

  lemma NextInv(s: State, ev: Event)
    requires Inv(s) && Enabled(s, ev) && Disciplined(s, ev)
    ensures Inv(Next(s, ev))
  {
    BlockedIff(s, ev);
    forall e | 0 <= e < |s.envs| ensures |Next(s, ev).envs| == |s.envs| && Shape(Next(s, ev)) && Exact(Next(s, ev), e) {
      NextExact(s, ev, e);
    }
    assert |Next(s, ev).envs| == |s.envs|;
  }

  // ---------- what one attempt comes to ----------

  /** The page is in order: it passes the checks, and can be mapped if one is wanted. */
  predicate Deliverable(env: Env, page: Page) {
    page.Page? ==> page.passes && (env.dstva != 0 ==> page.maps)
  }

  /** ipc_send tries again exactly while its receiver is live and not receiving, and panics
      exactly when the receiver is gone or takes no such page; else the receiver, and
      nobody else, is woken with the message. */
  lemma AttemptOutcome(s: State, c: nat)
    requires Inv(s) && Enabled(s, Attempt(c))
    ensures var m, n := s.envs[c].place.msg, Next(s, Attempt(c));
      && |n.envs| == |s.envs|
      && (n == s <==> Live(s.envs, m.to) && !s.envs[m.to].recving)
      && (n.envs[c].place == Panicked <==>
           !Live(s.envs, m.to) || (s.envs[m.to].recving && !Deliverable(s.envs[m.to], m.page)))
      && (n.envs[c].place == Panicked ==> n.sent == s.sent && n.envs == s.envs[c := s.envs[c].(place := Panicked)])
      && (n.envs[c].place == Own ==>
           && Live(s.envs, m.to) && s.envs[m.to].recving && m.to != c
           && n.envs[m.to].status == Runnable && !n.envs[m.to].recving && n.envs[m.to].place == InRecv
           && n.envs[m.to].from == c && n.envs[m.to].value == m.value && n.envs[m.to].ok
           && n.envs == s.envs[m.to := n.envs[m.to]][c := n.envs[c]])
  {
    var m := s.envs[c].place.msg;
    assert m.to < |s.envs| ==> Blocked(s.envs[m.to]);
    assert s.envs[c := s.envs[c].(place := Panicked)][c] != s.envs[c];
  }

  /** The error codes of the system call. */
  lemma TrySendFailsIff(envs: seq<Env>, cur: nat, m: Send)
    ensures var (r, n) := TrySend(envs, cur, m);
      && (r == BadEnv <==> !Live(envs, m.to))
      && (r == NotRecv <==> Live(envs, m.to) && !envs[m.to].recving)
      && (r == Success <==> Live(envs, m.to) && envs[m.to].recving && Deliverable(envs[m.to], m.page))
      && (r == Inval ==> m.page.Page? && !m.page.passes) && (r == NotMapped ==> m.page.Page? && !m.page.maps)
      && (r != Success ==> n == envs)
  {
  }

  // ---------- whole runs ----------

  ghost predicate Boot(s: State) {
    && Shape(s) && s.sent == []
    && forall e :: 0 <= e < |s.envs| ==>
         s.got[e] == [] && s.told[e] == [] && !s.envs[e].recving && s.envs[e].place == Own
  }

  ghost predicate Run(s: State, trace: seq<Event>, n: State)
    decreases |trace|
  {
    if trace == [] then n == s
    else Enabled(s, trace[0]) && Disciplined(s, trace[0]) && Run(Next(s, trace[0]), trace[1..], n)
  }

  lemma {:induction false} RunInv(s: State, trace: seq<Event>, n: State)
    requires Inv(s) && Run(s, trace, n)
    ensures Inv(n)
    decreases |trace|
  {
    if trace != [] {
      NextInv(s, trace[0]);
      RunInv(Next(s, trace[0]), trace[1..], n);
    }
  }

  /** Exactly-once delivery over every interleaving: the senders, permissions and
      values that the completed receives of r returned are, in order, the sends to r that returned 0,
      all of them but at most one that r is still reading; and the sends that returned 0
      are the ipc_send calls that returned. */
  lemma ExactlyOnce(s: State, trace: seq<Event>, n: State, r: nat)
    requires Boot(s) && Run(s, trace, n) && r < |n.envs|
    ensures Shape(n) && To(n.sent, r) == n.got[r] + Pending(n.envs[r]) && |Pending(n.envs[r])| <= 1
    ensures n.envs[r].place == Own ==> n.got[r] == To(n.sent, r)
    ensures By(n.sent, r) == n.told[r]
  {
    assert Inv(s);
    RunInv(s, trace, n);
    assert Exact(n, r);
  }

  // ---------- where the guards are needed ----------

  lemma RunCons(s: State, ev: Event, rest: seq<Event>, n: State)
    requires Enabled(s, ev) && Disciplined(s, ev) && Run(Next(s, ev), rest, n)
    ensures Run(s, [ev] + rest, n)
  {
    assert ([ev] + rest)[1..] == rest;
  }

  predicate Idle(s: State, e: nat) {
    e < |s.envs| && s.envs[e].status == Runnable && s.envs[e].place == Own
  }

  /** A disciplined run after which r is not receiving, yet some send to it that
      returned 0 is missing from what its receives returned. */
  ghost predicate Loses(s: State, trace: seq<Event>, n: State, r: nat) {
    Run(s, trace, n) && Shape(n) && r < |n.envs| && n.envs[r].place == Own && To(n.sent, r) != n.got[r]
  }

  /** A receiver that runs with its flag up leaves ipc_recv with nothing, and the next
      send to it succeeds. */
  lemma FlaggedLoses(s: State, r: nat, c: nat) returns (trace: seq<Event>, n: State)
    requires Shape(s) && r < |s.envs| && Exact(s, r) && r != c && Idle(s, c)
    requires s.envs[r].recving && s.envs[r].status == Runnable && s.envs[r].place == InRecv && !s.envs[r].ok
    ensures Loses(s, trace, n, r)
  {
    var m := Send(r, 0, NoPage);
    var a := Next(s, ReadFrom(r));
    var b := Next(a, CallSend(c, m));
    assert b.envs[r].recving && b.envs[r].place == Own && b.sent == s.sent && b.got == s.got;
    n := Next(b, Attempt(c));
    assert n.sent == s.sent + [LogOf(b.envs, c, m)] && n.got == s.got && n.envs[r].place == Own;
    Appended(s.sent, LogOf(b.envs, c, m), r);
    trace := [Attempt(c)] + [];
    RunCons(b, Attempt(c), [], n);
    RunCons(a, CallSend(c, m), trace, n);
    trace := [CallSend(c, m)] + trace;
    RunCons(s, ReadFrom(r), trace, n);
    trace := [ReadFrom(r)] + trace;
  }

  lemma NothingLost(s: State, trace: seq<Event>, n: State, r: nat)
    requires Inv(s)
    ensures !Loses(s, trace, n, r)
  {
    if Run(s, trace, n) {
      RunInv(s, trace, n);
      assert r < |n.envs| ==> Exact(n, r);
    }
  }

  /** The exact condition: with another environment able to send, a disciplined run can
      go on from a step to the loss of a message if and only if the step is not
      disciplined. */
  lemma LossIff(s0: State, before: seq<Event>, s: State, ev: Event, c: nat)
    requires Boot(s0) && Run(s0, before, s) && Enabled(s, ev) && c != ev.e && Idle(s, c)
    ensures (exists trace, n, r :: Loses(Next(s, ev), trace, n, r)) <==> !Disciplined(s, ev)
  {
    assert Inv(s0);
    RunInv(s0, before, s);
    if Disciplined(s, ev) {
      NextInv(s, ev);
      forall trace, n, r ensures !Loses(Next(s, ev), trace, n, r) {
        NothingLost(Next(s, ev), trace, n, r);
      }
    } else {
      assert Blocked(s.envs[ev.e]);
      NextExact(s, ev, ev.e);
      var trace, n := FlaggedLoses(Next(s, ev), ev.e, c);
    }
  }

  /** A receive with an invalid destination fails and leaves the flag up, so that the
      next send succeeds into nowhere. */
  lemma InvalidReceiveLosesMessage(s: State, r: nat, e: nat, dstva: nat) returns (a: State, b: State, n: State)
    requires Inv(s) && r < |s.envs| && e < |s.envs| && r != e && !ValidDst(dstva)
    requires s.envs[r].status == Runnable && s.envs[r].place == Own
    requires s.envs[e].status == Runnable && s.envs[e].place.Sending? && s.envs[e].place.msg.to == r
    requires var page := s.envs[e].place.msg.page; page.Page? ==> page.passes && page.maps
    ensures Enabled(s, CallRecv(r, dstva)) && a == Next(s, CallRecv(r, dstva))
    ensures Enabled(a, ReadFrom(r)) && b == Next(a, ReadFrom(r))
    ensures Enabled(b, Attempt(e)) && n == Next(b, Attempt(e))
    ensures Shape(n) && r < |n.envs| && n.envs[r].place == Own
    ensures To(n.sent, r) == n.got[r] + OneTo(LogOf(s.envs, e, s.envs[e].place.msg), r)
  {
    a := Next(s, CallRecv(r, dstva));
    b := Next(a, ReadFrom(r));
    n := SentNowhere(b, r, e);
    assert To(s.sent, r) == s.got[r] by {
      assert Exact(s, r);
    }
    Appended(s.sent, LogOf(b.envs, e, s.envs[e].place.msg), r);
  }

  lemma SentNowhere(b: State, r: nat, e: nat) returns (n: State)
    requires Shape(b) && r < |b.envs| && e < |b.envs| && r != e && b.envs[r].recving && b.envs[r].status == Runnable
    requires b.envs[r].place == Own && b.envs[e].status == Runnable && b.envs[e].place.Sending?
    requires b.envs[e].place.msg.to == r && Deliverable(b.envs[r], b.envs[e].place.msg.page)
    ensures Enabled(b, Attempt(e)) && n == Next(b, Attempt(e)) && Shape(n) && r < |n.envs| && n.envs[r].place == Own
    ensures n.sent == b.sent + [LogOf(b.envs, e, b.envs[e].place.msg)] && n.got == b.got
  {
    n := Next(b, Attempt(e));
  }

  // ---------- permissions ----------

  /** The two halves of a message: r waits, e sends, r reads. */
  lemma Accepts(s: State, r: nat, e: nat, dstva: nat, m: Send) returns (n: State)
    requires Shape(s) && Idle(s, r) && Idle(s, e) && r != e && ValidDst(dstva) && m.to == r
    requires m.page.Page? ==> m.page.passes && m.page.maps
    ensures forall rest: seq<Event>, z: State :: Run(n, rest, z) ==>
              Run(s, [CallRecv(r, dstva)] + ([CallSend(e, m)] + ([Attempt(e)] + rest)), z)
    ensures Shape(n) && |n.envs| == |s.envs| && Idle(n, e) && n.got == s.got
    ensures var env := s.envs[r].(dstva := dstva);
      n.envs[r] == env.(recving := false, from := e, perm := SentPerm(env, m.page), value := m.value,
                        ok := true, status := Runnable, place := InRecv)
  {
    var a := Next(s, CallRecv(r, dstva));
    var b := Next(a, CallSend(e, m));
    n := Next(b, Attempt(e));
    forall rest: seq<Event>, z: State | Run(n, rest, z)
      ensures Run(s, [CallRecv(r, dstva)] + ([CallSend(e, m)] + ([Attempt(e)] + rest)), z)
    {
      RunCons(b, Attempt(e), rest, z);
      RunCons(a, CallSend(e, m), [Attempt(e)] + rest, z);
      RunCons(s, CallRecv(r, dstva), [CallSend(e, m)] + ([Attempt(e)] + rest), z);
    }
  }

  lemma Reads(s: State, r: nat) returns (trace: seq<Event>, n: State)
    requires Shape(s) && r < |s.envs| && s.envs[r].status == Runnable && s.envs[r].place == InRecv && s.envs[r].ok
    ensures Run(s, trace, n) && Shape(n) && |n.envs| == |s.envs|
    ensures n.envs == s.envs[r := s.envs[r].(place := Own)]
    ensures n.got[r] == s.got[r] + [Received(s.envs[r].from, s.envs[r].perm, s.envs[r].value)]
  {
    var a := Next(s, ReadFrom(r));
    var b := Next(a, ReadPerm(r));
    n := Next(b, ReadValue(r));
    RunCons(b, ReadValue(r), [], n);
    trace := [ReadValue(r)] + [];
    RunCons(a, ReadPerm(r), trace, n);
    trace := [ReadPerm(r)] + trace;
    RunCons(s, ReadFrom(r), trace, n);
    trace := [ReadFrom(r)] + trace;
  }

  /** One whole message from e to r. */
  lemma Exchanged(s: State, r: nat, e: nat, dstva: nat, m: Send) returns (trace: seq<Event>, n: State)
    requires Shape(s) && Idle(s, r) && Idle(s, e) && r != e && ValidDst(dstva) && m.to == r
    requires m.page.Page? ==> m.page.passes && m.page.maps
    ensures Run(s, trace, n) && Shape(n) && Idle(n, r) && Idle(n, e)
    ensures n.envs[r].dstva == dstva && n.envs[r].perm == SentPerm(s.envs[r].(dstva := dstva), m.page)
    ensures n.got[r] == s.got[r] + [Received(e, n.envs[r].perm, m.value)]
  {
    var a := Accepts(s, r, e, dstva, m);
    trace, n := Reads(a, r);
    trace := [CallRecv(r, dstva)] + ([CallSend(e, m)] + ([Attempt(e)] + trace));
  }

  /** A receiver that names address 0, as ipc_recv does for "no page", is told the
      permissions of an earlier page when the sender offers one. */
  lemma StalePermission(s: State, r: nat, e: nat, perm: nat, again: nat)
      returns (first: seq<Event>, a: State, second: seq<Event>, n: State)
    requires Boot(s) && Idle(s, r) && Idle(s, e) && r != e
    ensures Run(s, first, a) && Run(a, second, n) && Shape(n) && r < |n.envs|
    ensures var told := Received(e, PageCalls.WithUserPresent(perm), 0); told.perm != 0 && n.got[r] == [told, told]
    ensures n.envs[r].dstva == 0
  {
    first, a := Exchanged(s, r, e, PGSIZE, Send(r, 0, Page(perm, true, true)));
    second, n := Exchanged(a, r, e, 0, Send(r, 0, Page(again, true, true)));
  }

  // ---------- the system calls as the kernel runs them ----------

  class Kernel {
    var envs: array<Env>

    ghost function Value(): seq<Env>
      reads this, envs
    {
      envs[..]
    }

    /** The receiver is told the promised permissions unless it named address 0, was
        offered a page, and had been told others before. */
    method SysIpcTrySend(cur: nat, m: Send) returns (r: Result)
      modifies envs
      ensures r == TrySend(old(Value()), cur, m).0 && Value() == TrySend(old(Value()), cur, m).1
      ensures r == Success ==>
        (envs[m.to].perm == PromisedPerm(old(envs[m.to]), m.page) <==>
         !(m.page.Page? && old(envs[m.to].dstva) == 0 && old(envs[m.to].perm) != 0))
    {
      if m.to >= envs.Length || envs[m.to].status == Free {
        return BadEnv;
      }
      if !envs[m.to].recving {
        return NotRecv;
      }
      var dst := envs[m.to];
      if m.page.NoPage? {
        dst := dst.(perm := 0);
      } else {
        if !m.page.passes {
          return Inval;
        }
        if dst.dstva != 0 {
          if !m.page.maps {
            return NotMapped;
          }
          dst := dst.(perm := PageCalls.WithUserPresent(m.page.perm));
        }
      }
      dst := dst.(from := cur);
      dst := dst.(recving := false);
      dst := dst.(value := m.value);
      dst := dst.(ok := true);
      envs[m.to] := dst.(status := Runnable);
      r := Success;
    }

    /** Returns whether the call blocks. */
    method SysIpcRecv(cur: nat, dstva: nat) returns (blocks: bool)
      requires cur < envs.Length
      modifies envs
      ensures blocks == ValidDst(dstva)
      ensures Value() == old(Value())[cur := Recv(old(envs[cur]), dstva)]
    {
      envs[cur] := envs[cur].(recving := true, ok := false);
      if dstva >= UTOP || dstva % PGSIZE != 0 {
        return false;
      }
      envs[cur] := envs[cur].(dstva := dstva);
      envs[cur] := envs[cur].(status := NotRunnable);
      blocks := true;
    }
  }
}
