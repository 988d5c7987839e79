/** Physical memory over whole runs: environments are created and freed, and while they
    live they allocate, map, unmap, send and write pages through the page system calls,
    in any order and any number. */
module MemoryRuns {
  import opened Mmu
  import opened Paging
  import opened EnvVm
  import opened PageCalls

  /** d, src and dst are directories, (i, j) the directory and table index of an address. */
  datatype Event =
    | Create(template: seq<nat>)
    | Allocate(d: nat, i: nat, j: nat, perm: nat)
    | Map(src: nat, si: nat, sj: nat, dst: nat, i: nat, j: nat, perm: nat)
    | Unmap(d: nat, i: nat, j: nat)
    | Send(src: nat, si: nat, sj: nat, dst: nat, i: nat, j: nat, perm: nat, stale: nat)
    | Write(d: nat, i: nat, j: nat, k: nat, w: nat)
    | Free(d: nat)

  /** What the kernel has checked by the time it acts.  The one clause it does not check
      is that a mapping asked for keeps the frame (PageCalls.EnvPageMapExact). */
  ghost predicate Enabled(m: Mem, a: Acct, ev: Event) {
    match ev
    case Create(template) => Template(template)
    case Allocate(d, i, j, perm) => d in a.dirs && i < USERPDES && j < NPTENTRIES
    case Map(src, si, sj, dst, i, j, perm) =>
      && src in a.dirs && dst in a.dirs && si < USERPDES && sj < NPTENTRIES && i < USERPDES && j < NPTENTRIES
      && (PteAt(m, src, si, sj) != 0 ==> KeepsFrame(FrameOf(PteAt(m, src, si, sj)), perm))
    case Unmap(d, i, j) => d in a.dirs && i < USERPDES && j < NPTENTRIES
    case Send(src, si, sj, dst, i, j, perm, stale) =>
      && src in a.dirs && dst in a.dirs && src != dst
      && si < USERPDES && sj < NPTENTRIES && i < USERPDES && j < NPTENTRIES
    case Write(d, i, j, k, w) => d in a.dirs && i < USERPDES && j < NPTENTRIES && PteAt(m, d, i, j) != 0
    case Free(d) => d in a.dirs
  }

  /** What sys_ipc_try_send reads for the sender's entry. */
  function SourceWord(m: Mem, src: nat, si: nat, sj: nat, stale: nat): nat {
    if PteAt(m, src, si, sj) != 0 then PteAt(m, src, si, sj) else stale
  }

  predicate Passes(pte: nat, perm: nat) {
    (pte == 0 || Present(pte)) && (Writable(perm) ==> Writable(PermOf(pte)))
  }

  /** The calls that lose a frame. */
  predicate Loses(m: Mem, ev: Event) {
    match ev
    case Allocate(d, i, j, perm) => Leaks(m, d, i, j, perm)
    case Send(src, si, sj, dst, i, j, perm, stale) =>
      Passes(SourceWord(m, src, si, sj, stale), perm) && Leaks(m, dst, i, j, WithUserPresent(perm))
    case _ => false
  }

  ghost function Next(m: Mem, ev: Event): Mem
    requires ev.Create? ==> Template(ev.template)
  {
    match ev
    case Create(template) => Setup(m, template)
    case Allocate(d, i, j, perm) => EnvPageAlloc(m, d, i, j, perm).0
    case Map(src, si, sj, dst, i, j, perm) => EnvPageMap(m, src, si, sj, dst, i, j, perm).0
    case Unmap(d, i, j) => Remove(m, d, i, j)
    case Send(src, si, sj, dst, i, j, perm, stale) =>
      SendReading(m, src, si, sj, dst, i, j, perm, SourceWord(m, src, si, sj, stale)).0
    case Write(d, i, j, k, w) => Store(m, FrameOf(PteAt(m, d, i, j)), k, w)
    case Free(d) => FreeEnv(m, d)
  }

  /** The live directories afterwards, and the frames lost so far. */
  function Owners(m: Mem, a: Acct, ev: Event): Acct {
    match ev
    case Create(_) => if m.free == [] then a else a.(dirs := a.dirs + {m.free[0]})
    case Free(d) => a.(dirs := a.dirs - {d})
    case _ => if Loses(m, ev) && m.free != [] then a.(hand := a.hand + {m.free[0]}) else a
  }

  lemma MapInv(m: Mem, a: Acct, src: nat, si: nat, sj: nat, dst: nat, i: nat, j: nat, perm: nat)
    requires Inv(m, a, NoFrame) && Enabled(m, a, Map(src, si, sj, dst, i, j, perm))
    ensures Inv(EnvPageMap(m, src, si, sj, dst, i, j, perm).0, a, NoFrame)
  {
    EnvPageMapExact(m, a, src, si, sj, dst, i, j, perm);
    var r := EnvPageMap(m, src, si, sj, dst, i, j, perm).1;
    assert r == 0 || r != 0;
  }

  lemma SendSecond(m: Mem, a: Acct, src: nat, si: nat, sj: nat, dst: nat, i: nat, j: nat, perm: nat)
    requires Sending(m, a, src, si, sj, dst, i, j, perm)
    requires EnvPageAlloc(m, dst, i, j, WithUserPresent(perm)).1 == 0
    ensures var p := WithUserPresent(perm);
            Inv(EnvPageMap(EnvPageAlloc(m, dst, i, j, p).0, src, si, sj, dst, i, j, p).0, a, NoFrame)
  {
    var p := WithUserPresent(perm);
    var n := EnvPageAlloc(m, dst, i, j, p).0;
    assert Inv(n, a, NoFrame) by {
      SendMiddle(m, a, src, si, sj, dst, i, j, perm);
    }
    SmallKeepsFrame(FrameOf(PteAt(n, src, si, sj)), p);
    MapInv(n, a, src, si, sj, dst, i, j, p);
  }

  lemma TransferInv(m: Mem, a: Acct, src: nat, si: nat, sj: nat, dst: nat, i: nat, j: nat, perm: nat)
    requires Sending(m, a, src, si, sj, dst, i, j, perm)
    ensures Inv(Transfer(m, src, si, sj, dst, i, j, perm).0,
                if Leaks(m, dst, i, j, WithUserPresent(perm)) then a.(hand := a.hand + {m.free[0]}) else a, NoFrame)
  {
    if EnvPageAlloc(m, dst, i, j, WithUserPresent(perm)).1 == 0 {
      AllocSucceeds(m, a, dst, i, j, WithUserPresent(perm));
      SendSecond(m, a, src, si, sj, dst, i, j, perm);
    } else {
      AllocFails(m, a, dst, i, j, WithUserPresent(perm));
    }
  }

  lemma SendMappedInv(m: Mem, a: Acct, src: nat, si: nat, sj: nat, dst: nat, i: nat, j: nat, perm: nat)
    requires Sending(m, a, src, si, sj, dst, i, j, perm)
    ensures Inv(SendPage(m, src, si, sj, dst, i, j, perm).0,
                if Passes(PteAt(m, src, si, sj), perm) && Leaks(m, dst, i, j, WithUserPresent(perm))
                then a.(hand := a.hand + {m.free[0]}) else a, NoFrame)
  {
    if Passes(PteAt(m, src, si, sj), perm) {
      TransferInv(m, a, src, si, sj, dst, i, j, perm);
    }
  }

  lemma SendInv(m: Mem, a: Acct, src: nat, si: nat, sj: nat, dst: nat, i: nat, j: nat, perm: nat, stale: nat)
    requires Inv(m, a, NoFrame) && Enabled(m, a, Send(src, si, sj, dst, i, j, perm, stale))
    ensures var ev := Send(src, si, sj, dst, i, j, perm, stale); Inv(Next(m, ev), Owners(m, a, ev), NoFrame)
  {
    if PteAt(m, src, si, sj) == 0 {
      SendUnmappedFails(m, a, src, si, sj, dst, i, j, perm, stale);
    } else {
      SendMappedInv(m, a, src, si, sj, dst, i, j, perm);
    }
  }

  lemma AllocSucceeds(m: Mem, a: Acct, d: nat, i: nat, j: nat, perm: nat)
    requires Inv(m, a, NoFrame) && d in a.dirs && i < USERPDES && j < NPTENTRIES
    requires EnvPageAlloc(m, d, i, j, perm).1 == 0
    ensures !Leaks(m, d, i, j, perm)
  {
  }

  lemma AllocFails(m: Mem, a: Acct, d: nat, i: nat, j: nat, perm: nat)
    requires Inv(m, a, NoFrame) && d in a.dirs && i < USERPDES && j < NPTENTRIES
    requires EnvPageAlloc(m, d, i, j, perm).1 != 0
    ensures EnvPageAlloc(m, d, i, j, perm).1 < 0
    ensures Inv(EnvPageAlloc(m, d, i, j, perm).0,
                if Leaks(m, d, i, j, perm) then a.(hand := a.hand + {m.free[0]}) else a, NoFrame)
  {
    EnvPageAllocExact(m, a, d, i, j, perm);
  }

  lemma WriteInv(m: Mem, a: Acct, d: nat, i: nat, j: nat, k: nat, w: nat)
    requires Inv(m, a, NoFrame) && Enabled(m, a, Write(d, i, j, k, w))
    ensures Inv(Store(m, FrameOf(PteAt(m, d, i, j)), k, w), a, NoFrame)
  {
    MappedIsData(m, a, NoFrame, d, i, j);
    UserStoreHarmless(m, a, FrameOf(PteAt(m, d, i, j)), k, w);
  }

  /** A lost frame was the head of the free list. */
  lemma HandGrows(m: Mem, a: Acct, ev: Event)
    requires Inv(m, a, NoFrame)
    ensures Owners(m, a, ev).managed == a.managed
    ensures |Owners(m, a, ev).hand| == |a.hand| + (if Loses(m, ev) then 1 else 0)
  {
    assert m.free != [] ==> m.free[0] in m.free;
  }

  /** Every event keeps the accounting. */
  lemma NextInv(m: Mem, a: Acct, ev: Event)
    requires Inv(m, a, NoFrame) && Enabled(m, a, ev)
    ensures Inv(Next(m, ev), Owners(m, a, ev), NoFrame)
  {
    match ev
    case Create(template) =>
      if m.free != [] {
        SetupInv(m, a, template);
      }
    case Allocate(d, i, j, perm) => EnvPageAllocExact(m, a, d, i, j, perm);
    case Map(src, si, sj, dst, i, j, perm) => MapInv(m, a, src, si, sj, dst, i, j, perm);
    case Unmap(d, i, j) => RemoveInv(m, a, NoFrame, d, i, j);
    case Send(src, si, sj, dst, i, j, perm, stale) => SendInv(m, a, src, si, sj, dst, i, j, perm, stale);
    case Write(d, i, j, k, w) => WriteInv(m, a, d, i, j, k, w);
    case Free(d) => FreeEnvFrees(m, a, d);
  }

  // ---------- whole runs ----------

  ghost predicate Run(m: Mem, a: Acct, trace: seq<Event>, n: Mem, b: Acct)
    decreases |trace|
  {
    if trace == [] then n == m && b == a
    else Enabled(m, a, trace[0]) && Run(Next(m, trace[0]), Owners(m, a, trace[0]), trace[1..], n, b)
  }

  /** How many calls of the run lose a frame. */
  ghost function Losses(m: Mem, a: Acct, trace: seq<Event>): nat
    decreases |trace|
  {
    if trace == [] || !Enabled(m, a, trace[0]) then 0
    else (if Loses(m, trace[0]) then 1 else 0) + Losses(Next(m, trace[0]), Owners(m, a, trace[0]), trace[1..])
  }

  lemma {:induction false} RunInv(m: Mem, a: Acct, trace: seq<Event>, n: Mem, b: Acct)
    requires Inv(m, a, NoFrame) && Run(m, a, trace, n, b)
    ensures Inv(n, b, NoFrame) && b.managed == a.managed
    ensures |b.hand| == |a.hand| + Losses(m, a, trace)
    decreases |trace|
  {
    if trace == [] {
    } else {
      NextInv(m, a, trace[0]);
      HandGrows(m, a, trace[0]);
      RunInv(Next(m, trace[0]), Owners(m, a, trace[0]), trace[1..], n, b);
    }
  }

  /** After any sequence of page operations, starting from a memory without environments
      such as page_init leaves: every count is the number of references, page tables are
      shared with nobody, and the frames that are free or referenced add up to all of
      the allocator's but one for each call that loses one. */
  lemma MemoryConserved(m: Mem, a: Acct, trace: seq<Event>, n: Mem, b: Acct)
    requires Inv(m, a, NoFrame) && a.hand == {} && Run(m, a, trace, n, b)
    ensures Inv(n, b, NoFrame)
    ensures |n.free| + |Used(n, b)| + Losses(m, a, trace) == |a.managed|
  {
    RunInv(m, a, trace, n, b);
    Conservation(n, b, NoFrame);
  }

  /** When all environments are gone, every frame that was not lost is free again. */
  lemma NothingLeftBehind(m: Mem, a: Acct, trace: seq<Event>, n: Mem, b: Acct)
    requires Inv(m, a, NoFrame) && a.hand == {} && Run(m, a, trace, n, b) && b.dirs == {}
    ensures |n.free| + Losses(m, a, trace) == |a.managed|
  {
    MemoryConserved(m, a, trace, n, b);
    forall f | f in b.managed ensures n.refs[f] == 0 {
      assert RefsTo(n, {}, f) == {};
    }
    assert Used(n, b) == {};
  }

  /** A frame that two user entries name, of one environment or of two, has a count of
      two at least: freeing one mapping never frees the other's page. */
  lemma SharedIsCounted(m: Mem, a: Acct, trace: seq<Event>, n: Mem, b: Acct, s: Slot, t: Slot, f: nat)
    requires Inv(m, a, NoFrame) && Run(m, a, trace, n, b)
    requires IsSlot(b.dirs, s) && IsSlot(b.dirs, t) && s != t && Names(n, s, f) && Names(n, t, f)
    ensures s.InTable? && t.InTable? && f < |n.refs| && n.refs[f] >= 2 && f !in n.free
  {
    RunInv(m, a, trace, n, b);
    SharedCount(n, b, s, t, f);
  }

  lemma SharedCount(m: Mem, a: Acct, s: Slot, t: Slot, f: nat)
    requires Inv(m, a, NoFrame) && IsSlot(a.dirs, s) && IsSlot(a.dirs, t) && s != t && Names(m, s, f) && Names(m, t, f)
    ensures s.InTable? && t.InTable? && f < |m.refs| && m.refs[f] >= 2 && f !in m.free
  {
    SharedInTables(m, a, s, t, f);
    SharedInTables(m, a, t, s, f);
    assert s in RefsTo(m, a.dirs, f) && t in RefsTo(m, a.dirs, f);
    SubsetSize({s, t}, RefsTo(m, a.dirs, f));
    assert |{s, t}| == 2;
  }

  lemma SharedInTables(m: Mem, a: Acct, s: Slot, t: Slot, f: nat)
    requires Inv(m, a, NoFrame) && IsSlot(a.dirs, s) && IsSlot(a.dirs, t) && s != t && Names(m, s, f) && Names(m, t, f)
    ensures s.InTable? && f in a.managed
  {
    assert s in RefsTo(m, a.dirs, f) && t in RefsTo(m, a.dirs, f);
    assert s.InDir? || s.Root? ==> RefsTo(m, a.dirs, f) == {s};
  }

  lemma SubsetSize<T>(x: set<T>, y: set<T>)
    requires x <= y
    ensures |x| <= |y|
  {
    assert y == x + (y - x);
  }
}
