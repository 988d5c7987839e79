/** Environment identifiers and the environment free list: env_init, env_alloc, env_free
    and envid2env (kern/env.c), with 32-bit identifiers that wrap around. */
module EnvIds {
  const NENV := 1024
  const GENERATION := 4096
  const TWO31 := 0x8000_0000
  /** How many different identifiers a slot has. */
  const PERIOD := 0x7_ffff

  datatype Slot = None | Some(value: nat)

  datatype Lookup = Found(slot: Slot) | BadEnv

  datatype Allocated = Fresh(slot: nat) | NoFreeEnv | NoMem

  // ---------- the next identifier of a slot ----------

  /** The 32-bit two's complement value of x. */
  function Wrap(x: int): (r: int)
    ensures -TWO31 <= r < TWO31 && (x - r) % 0x1_0000_0000 == 0
  {
    (x + TWO31) % 0x1_0000_0000 - TWO31
  }

  /** id & (NENV - 1), for negative identifiers too. */
  function Envx(id: int): (r: nat)
    ensures r < NENV && (id - r) % NENV == 0
  {
    id % NENV
  }

  function NextId(id: int, slot: nat): int {
    var g := Wrap(id + GENERATION);
    var generation := g - Envx(g);
    (if generation <= 0 then GENERATION else generation) + slot
  }

  /** The n-th identifier a slot is given, counting from 1; before that it is 0. */
  function NthId(slot: nat, n: nat): int {
    if n == 0 then 0 else GENERATION * ((n - 1) % PERIOD + 1) + slot
  }

  lemma NextRound(n: nat)
    requires n >= 1
    ensures n % PERIOD == if (n - 1) % PERIOD + 1 == PERIOD then 0 else (n - 1) % PERIOD + 1
  {
    var q, r := (n - 1) / PERIOD, (n - 1) % PERIOD;
    assert n == PERIOD * q + (r + 1);
    if r + 1 == PERIOD {
      assert n == PERIOD * (q + 1);
    }
  }

  /** The code computes exactly the n-th identifier from the one before it. */
  lemma NextIsNth(slot: nat, n: nat)
    requires slot < NENV
    ensures NextId(NthId(slot, n), slot) == NthId(slot, n + 1)
  {
    if n > 0 {
      NextRound(n);
      NextGeneration((n - 1) % PERIOD, slot);
    } else {
      assert Wrap(GENERATION) == GENERATION;
    }
  }

  /** The last generation of a period wraps to a negative number, and starts again. */
  lemma NextGeneration(r: nat, slot: nat)
    requires r < PERIOD && slot < NENV
    ensures NextId(GENERATION * (r + 1) + slot, slot)
         == GENERATION * (if r + 1 == PERIOD then 1 else r + 2) + slot
  {
    var id := GENERATION * (r + 1) + slot;
    if r + 1 == PERIOD {
      assert Wrap(id + GENERATION) == slot - TWO31;
    } else {
      var g := GENERATION * (r + 2) + slot;
      assert Wrap(id + GENERATION) == g;
      SlotOf(4 * (r + 2), slot);
      assert g == NENV * (4 * (r + 2)) + slot;
    }
  }

  lemma SlotOf(q: nat, slot: nat)
    requires slot < NENV
    ensures (NENV * q + slot) % NENV == slot
  {
  }

  /** Identifiers are positive and carry their slot in the low ten bits. */
  lemma NthIdShape(slot: nat, n: nat)
    requires slot < NENV && n >= 1
    ensures 0 < NthId(slot, n) < TWO31 && Envx(NthId(slot, n)) == slot
  {
    var r := (n - 1) % PERIOD;
    assert NthId(slot, n) == NENV * (4 * (r + 1)) + slot;
  }

  lemma Congruent(a: nat, b: nat)
    requires a <= b
    ensures a % PERIOD == b % PERIOD <==> (b - a) % PERIOD == 0
  {
    var q, r := a / PERIOD, a % PERIOD;
    var p, t := (b - a) / PERIOD, (b - a) % PERIOD;
    assert b == PERIOD * (q + p) + (r + t);
    if r + t >= PERIOD {
      assert b == PERIOD * (q + p + 1) + (r + t - PERIOD);
    }
  }

  /** A slot's identifiers repeat with period exactly 2^19 - 1. */
  lemma SameIdIff(slot: nat, a: nat, b: nat)
    requires 1 <= a <= b
    ensures NthId(slot, a) == NthId(slot, b) <==> (b - a) % PERIOD == 0
  {
    Congruent(a - 1, b - 1);
  }

  // ---------- the table ----------

  /** free is the free list, history the identifiers each slot has been given. */
  datatype Table = Table(ids: seq<int>, parents: seq<int>, live: seq<bool>, free: seq<nat>, history: seq<seq<int>>)

  predicate Shape(t: Table) {
    |t.ids| == |t.parents| == |t.live| == |t.history| == NENV
  }

  function Alloc(t: Table, parent: int, vm: bool): (r: (Allocated, Table))
    requires Shape(t) && forall k :: 0 <= k < |t.free| ==> t.free[k] < NENV
    ensures Shape(r.1)
  {
    if t.free == [] then (NoFreeEnv, t)
    else if !vm then (NoMem, t)
    else
      var e := t.free[0];
      var id := NextId(t.ids[e], e);
      (Fresh(e), Table(t.ids[e := id], t.parents[e := parent], t.live[e := true], t.free[1..],
                       t.history[e := t.history[e] + [id]]))
  }

  function Free(t: Table, e: nat): (r: Table)
    requires Shape(t) && e < NENV
    ensures Shape(r)
  {
    t.(live := t.live[e := false], free := [e] + t.free)
  }

  function Find(t: Table, cur: Slot, id: int, checkperm: bool): Lookup
    requires Shape(t) && (cur.Some? ==> cur.value < NENV) && (checkperm ==> cur.Some?)
  {
    if id == 0 then Found(cur)
    else
      var e := Envx(id);
      if !t.live[e] || t.ids[e] != id then BadEnv
      else if checkperm && cur != Some(e) && t.parents[e] != t.ids[cur.value] then BadEnv
      else Found(Some(e))
  }

  /** The free list holds each free slot once and nothing else; every slot's
      identifiers are the ones due to it. */
  ghost predicate Inv(t: Table) {
    && Shape(t)
    && (forall k :: 0 <= k < |t.free| ==> t.free[k] < NENV)
    && (forall i :: 0 <= i < NENV ==> (i in t.free <==> !t.live[i]))
    && (forall a, b :: 0 <= a < b < |t.free| ==> t.free[a] != t.free[b])
    && (forall i :: 0 <= i < NENV ==> SlotOk(t, i))
  }

  ghost predicate SlotOk(t: Table, i: nat)
    requires Shape(t) && i < NENV
  {
    && t.ids[i] == NthId(i, |t.history[i]|)
    && (t.live[i] ==> t.history[i] != [])
    && (forall k :: 0 <= k < |t.history[i]| ==> t.history[i][k] == NthId(i, k + 1))
  }

  const INITIAL: Table := Table(
    seq(NENV, i => 0), seq(NENV, i => 0), seq(NENV, i => false), seq(NENV, i => i), seq(NENV, i => []))

  lemma InitialInv()
    ensures Inv(INITIAL)
    ensures forall i :: 0 <= i < NENV ==>
              INITIAL.ids[i] == 0 && INITIAL.parents[i] == 0 && !INITIAL.live[i] && INITIAL.free[i] == i
  {
    forall i | 0 <= i < NENV ensures i in INITIAL.free {
      assert INITIAL.free[i] == i;
    }
  }

  lemma AllocInv(t: Table, parent: int, vm: bool)
    requires Inv(t)
    ensures Inv(Alloc(t, parent, vm).1)
  {
    var (r, n) := Alloc(t, parent, vm);
    if r.Fresh? {
      var e := t.free[0];
      NextIsNth(e, |t.history[e]|);
      assert t.free == [e] + t.free[1..];
      forall i | 0 <= i < NENV ensures SlotOk(n, i) && (i in n.free <==> !n.live[i]) {
        assert SlotOk(t, i);
        assert i in t.free <==> i == e || i in t.free[1..];
      }
    }
  }

  lemma FreeInv(t: Table, e: nat)
    requires Inv(t) && e < NENV && t.live[e]
    ensures Inv(Free(t, e))
  {
    var n := Free(t, e);
    assert n.free[0] == e && n.free[1..] == t.free;
    forall i | 0 <= i < NENV ensures SlotOk(n, i) && (i in n.free <==> !n.live[i]) {
      assert SlotOk(t, i);
    }
  }

  // ---------- histories ----------

  datatype Event = DoAlloc(parent: int, vm: bool) | DoFree(slot: nat)

  ghost predicate CanStep(t: Table, ev: Event) {
    && Shape(t) && (forall k :: 0 <= k < |t.free| ==> t.free[k] < NENV)
    && (ev.DoFree? ==> ev.slot < NENV && t.live[ev.slot])
  }

  ghost function Next(t: Table, ev: Event): Table
    requires CanStep(t, ev)
  {
    match ev
    case DoAlloc(parent, vm) => Alloc(t, parent, vm).1
    case DoFree(e) => Free(t, e)
  }

  ghost predicate Run(t: Table, trace: seq<Event>, n: Table)
    decreases |trace|
  {
    if trace == [] then n == t else CanStep(t, trace[0]) && Run(Next(t, trace[0]), trace[1..], n)
  }

  lemma {:induction false} RunInv(t: Table, trace: seq<Event>, n: Table)
    requires Inv(t) && Run(t, trace, n)
    ensures Inv(n)
    decreases |trace|
  {
    if trace != [] {
      match trace[0] {
        case DoAlloc(parent, vm) => AllocInv(t, parent, vm);
        case DoFree(e) => FreeInv(t, e);
      }
      RunInv(Next(t, trace[0]), trace[1..], n);
    }
  }

  /** Over every history of allocations and frees, live identifiers are positive, hold
      their slot, and are distinct. */
  lemma LiveIdsDistinct(trace: seq<Event>, n: Table, i: nat, j: nat)
    requires Run(INITIAL, trace, n)
    requires i < NENV && j < NENV && Shape(n) && n.live[i] && n.live[j]
    ensures 0 < n.ids[i] < TWO31 && Envx(n.ids[i]) == i
    ensures n.ids[i] == n.ids[j] ==> i == j
  {
    InitialInv();
    RunInv(INITIAL, trace, n);
    assert SlotOk(n, i) && SlotOk(n, j);
    NthIdShape(i, |n.history[i]|);
    NthIdShape(j, |n.history[j]|);
  }

  /** An identifier once given to a slot is found again exactly while the slot is live
      and has been given a multiple of 2^19 - 1 further identifiers: a stale one is
      rejected until the 2^19 - 1st reuse of its slot. */
  lemma StaleIdRejected(trace: seq<Event>, n: Table, slot: nat, k: nat, cur: Slot)
    requires Run(INITIAL, trace, n)
    requires Shape(n) && slot < NENV && k < |n.history[slot]| && (cur.Some? ==> cur.value < NENV)
    ensures var reuses := |n.history[slot]| - 1 - k;
      Find(n, cur, n.history[slot][k], false)
        == (if n.live[slot] && reuses % PERIOD == 0 then Found(Some(slot)) else BadEnv)
  {
    InitialInv();
    RunInv(INITIAL, trace, n);
    assert SlotOk(n, slot);
    NthIdShape(slot, k + 1);
    SameIdIff(slot, k + 1, |n.history[slot]|);
  }

  /** Whatever number is looked up, only a live environment of that very identifier is
      found, and with the permission check only the caller itself or its child; but 0
      always stands for the caller. */
  lemma FoundIsLive(t: Table, cur: Slot, id: int, checkperm: bool, e: nat)
    requires Inv(t) && (cur.Some? ==> cur.value < NENV) && (checkperm ==> cur.Some?)
    ensures id != 0 ==> Find(t, cur, id, checkperm) != Found(None)
    ensures Find(t, cur, id, checkperm) == Found(Some(e)) <==>
      if id == 0 then cur == Some(e)
      else e < NENV && t.live[e] && t.ids[e] == id
           && (checkperm ==> cur == Some(e) || t.parents[e] == t.ids[cur.value])
  {
    if e < NENV && t.live[e] {
      assert SlotOk(t, e);
      NthIdShape(e, |t.history[e]|);
    }
  }

  /** Why an allocation fails, and that a failed one changes nothing. */
  lemma AllocFailsIff(t: Table, parent: int, vm: bool)
    requires Inv(t)
    ensures var (r, n) := Alloc(t, parent, vm);
      && (r == NoFreeEnv <==> forall i :: 0 <= i < NENV ==> t.live[i])
      && (r == NoMem <==> !vm && exists i :: 0 <= i < NENV && !t.live[i])
      && (!r.Fresh? ==> n == t)
      && (r.Fresh? ==> r.slot < NENV && !t.live[r.slot] && n.live == t.live[r.slot := true])
  {
    if t.free != [] {
      assert t.free[0] in t.free;
    }
  }

  /** Whatever 32-bit word a slot holds, the next identifier is positive and its own. */
  lemma NextIdShape(id: int, slot: nat)
    requires -TWO31 <= id < TWO31 && slot < NENV
    ensures 0 < NextId(id, slot) < TWO31 && Envx(NextId(id, slot)) == slot && NextId(id, slot) != id
  {
    var g := Wrap(id + GENERATION);
    assert (g - Envx(g)) % NENV == 0;
  }

  // ---------- parents ----------

  /** Slot e is live with this identifier and parent. */
  predicate Holds(t: Table, e: nat, id: int, parent: int) {
    Shape(t) && e < NENV && t.live[e] && t.ids[e] == id && t.parents[e] == parent
  }

  lemma {:induction false} HoldsUntilFreed(t: Table, trace: seq<Event>, n: Table, e: nat, id: int, parent: int)
    requires Inv(t) && Run(t, trace, n) && Holds(t, e, id, parent) && DoFree(e) !in trace
    ensures Inv(n) && Holds(n, e, id, parent)
    decreases |trace|
  {
    if trace != [] {
      match trace[0] {
        case DoAlloc(p, vm) =>
          AllocInv(t, p, vm);
          AllocFailsIff(t, p, vm);
        case DoFree(x) => FreeInv(t, x);
      }
      HoldsUntilFreed(Next(t, trace[0]), trace[1..], n, e, id, parent);
    }
  }

  /** From its allocation for parent p until it is freed, whatever else is allocated and
      freed, a new environment is found with the permission check by the environment of
      identifier p and by itself, and by no other. */
  lemma FoundByParentIff(before: seq<Event>, t: Table, p: int, e: nat, trace: seq<Event>, n: Table, c: nat)
    requires Run(INITIAL, before, t) && Shape(t) && CanStep(t, DoAlloc(p, true)) && Alloc(t, p, true).0 == Fresh(e)
    requires Run(Alloc(t, p, true).1, trace, n) && DoFree(e) !in trace && c < NENV
    ensures Shape(n) && e < NENV && n.live[e]
    ensures Find(n, Some(c), n.ids[e], true) == (if c == e || n.ids[c] == p then Found(Some(e)) else BadEnv)
  {
    InitialInv();
    RunInv(INITIAL, before, t);
    AllocInv(t, p, true);
    NewHolds(t, p, e);
    var a := Alloc(t, p, true).1;
    HoldsUntilFreed(a, trace, n, e, a.ids[e], p);
    LiveIdNotZero(n, e);
    FoundIsLive(n, Some(c), n.ids[e], true, e);
  }

  lemma NewHolds(t: Table, p: int, e: nat)
    requires Inv(t) && Alloc(t, p, true).0 == Fresh(e)
    ensures e < NENV && Shape(Alloc(t, p, true).1) && Holds(Alloc(t, p, true).1, e, Alloc(t, p, true).1.ids[e], p)
  {
  }

  lemma LiveIdNotZero(t: Table, e: nat)
    requires Inv(t) && e < NENV && t.live[e]
    ensures t.ids[e] != 0 && Envx(t.ids[e]) == e
  {
    assert SlotOk(t, e);
    NthIdShape(e, |t.history[e]|);
  }

  // ---------- the table as the kernel keeps it ----------

  /** The free list threaded through env_link from slot i. */
  ghost predicate Chain(link: seq<Slot>, head: Slot, free: seq<nat>)
    decreases |free|
  {
    if free == [] then head == None
    else head == Some(free[0]) && free[0] < |link| && Chain(link, link[free[0]], free[1..])
  }

  lemma {:induction false} ChainKeeps(link: seq<Slot>, head: Slot, free: seq<nat>, e: nat, to: Slot)
    requires Chain(link, head, free) && e < |link| && e !in free
    ensures Chain(link[e := to], head, free)
    decreases |free|
  {
    if free != [] {
      ChainKeeps(link, link[free[0]], free[1..], e, to);
    }
  }

  lemma {:induction false} ChainUp(link: seq<Slot>, i: nat, free: seq<nat>)
    requires i <= |link| && free == seq(|link| - i, k requires 0 <= k => i + k)
    requires forall k :: 0 <= k < |link| ==> link[k] == if k + 1 < |link| then Some(k + 1) else None
    ensures Chain(link, if i < |link| then Some(i) else None, free)
    decreases |link| - i
  {
    if i < |link| {
      assert free[1..] == seq(|link| - (i + 1), k requires 0 <= k => i + 1 + k);
      ChainUp(link, i + 1, free[1..]);
    }
  }

  class Environments {
    const id: array<int>
    const parent: array<int>
    const live: array<bool>
    const link: array<Slot>
    var freeList: Slot
    ghost var free: seq<nat>
    ghost var history: seq<seq<int>>

    ghost function Value(): Table
      reads this, id, parent, live
    {
      Table(id[..], parent[..], live[..], free, history)
    }

    ghost predicate Valid()
      reads this, id, parent, live, link
    {
      && id != parent && link.Length == NENV
      && Inv(Value()) && Chain(link[..], freeList, free)
    }

    /** env_init. */
    constructor ()
      ensures Valid() && Value() == INITIAL && fresh(id) && fresh(parent) && fresh(live) && fresh(link)
    {
      id := new int[NENV](i => 0);
      parent := new int[NENV](i => 0);
      live := new bool[NENV](i => false);
      link := new Slot[NENV](i => None);
      freeList := Some(0);
      free := INITIAL.free;
      history := INITIAL.history;
      new;
      ThreadAll();
      assert Chain(link[..], freeList, free) by {
        ChainUp(link[..], 0, free);
      }
      assert id[..] == INITIAL.ids && parent[..] == INITIAL.parents && live[..] == INITIAL.live;
      assert Value() == INITIAL;
      InitialInv();
    }

    /** The loop of env_init. */
    method ThreadAll()
      requires id.Length == live.Length == link.Length == NENV && id != parent
      modifies id, live, link
      ensures forall k :: 0 <= k < NENV ==> id[k] == 0 && !live[k]
      ensures forall k :: 0 <= k < NENV ==> link[k] == if k + 1 < NENV then Some(k + 1) else None
    {
      var i := 0;
      while i < NENV
        invariant 0 <= i <= NENV
        invariant forall k :: 0 <= k < i ==> id[k] == 0 && !live[k] && link[k] == Some(k + 1)
      {
        id[i] := 0;
        live[i] := false;
        link[i] := Some(i + 1);
        i := i + 1;
      }
      link[NENV - 1] := None;
    }

    method EnvAlloc(parentId: int, vm: bool) returns (r: Allocated)
      requires Valid()
      modifies this, id, parent, live
      ensures Valid()
      ensures r == Alloc(old(Value()), parentId, vm).0 && Value() == Alloc(old(Value()), parentId, vm).1
    {
      AllocInv(Value(), parentId, vm);
      if freeList == None {
        return NoFreeEnv;
      }
      if !vm {
        return NoMem;
      }
      var e := freeList.value;
      var g := Wrap(id[e] + GENERATION);
      var generation := g - Envx(g);
      if generation <= 0 {
        generation := GENERATION;
      }
      id[e] := generation + e;
      parent[e] := parentId;
      live[e] := true;
      freeList := link[e];
      history := history[e := history[e] + [id[e]]];
      free := free[1..];
      r := Fresh(e);
    }

    method EnvFree(e: nat)
      requires Valid() && e < NENV && live[e]
      modifies this, live, link
      ensures Valid() && Value() == Free(old(Value()), e)
    {
      FreeInv(Value(), e);
      ChainKeeps(link[..], freeList, free, e, freeList);
      live[e] := false;
      link[e] := freeList;
      freeList := Some(e);
      free := [e] + free;
      assert free[1..] == old(free);
    }

    method EnvId2Env(cur: Slot, envid: int, checkperm: bool) returns (r: Lookup)
      requires Valid() && (cur.Some? ==> cur.value < NENV) && (checkperm ==> cur.Some?)
      ensures r == Find(Value(), cur, envid, checkperm)
    {
      if envid == 0 {
        return Found(cur);
      }
      var e := Envx(envid);
      if !live[e] || id[e] != envid {
        return BadEnv;
      }
      if checkperm && cur != Some(e) && parent[e] != id[cur.value] {
        return BadEnv;
      }
      r := Found(Some(e));
    }
  }
}
