/** What environments read: a page they are given is empty, a page they share shows the
    same words on both sides, and nothing but a write to its frame changes what a page
    holds for as long as it is mapped. */
module Contents {
  import opened Mmu
  import opened Paging
  import opened EnvVm
  import opened PageCalls
  import MemoryRuns

  ghost predicate Mapped(m: Mem, a: Acct, e: nat, k: nat, l: nat) {
    e in a.dirs && k < USERPDES && l < NPTENTRIES && PteAt(m, e, k, l) != 0
  }

  function FrameWords(m: Mem, f: nat): seq<nat> {
    if f < |m.words| then m.words[f] else []
  }

  /** The words that environment e reads in the page at (k, l). */
  function Page(m: Mem, e: nat, k: nat, l: nat): seq<nat> {
    FrameWords(m, FrameOf(PteAt(m, e, k, l)))
  }

  /** The page at (e, k, l) is where it was and holds what it held. */
  ghost predicate Kept(m: Mem, n: Mem, e: nat, k: nat, l: nat) {
    PteAt(n, e, k, l) == PteAt(m, e, k, l) && Page(n, e, k, l) == Page(m, e, k, l)
  }

  // ---------- one call ----------

  /** A frame that some entry names is a data frame also while a new one is in hand. */
  lemma MappedInAlloc(m: Mem, a: Acct, e: nat, k: nat, l: nat)
    requires Inv(m, a, NoFrame) && m.free != [] && Mapped(m, a, e, k, l)
    ensures var held, f := a.(hand := a.hand + {m.free[0]}), FrameOf(PteAt(m, e, k, l));
      && Inv(Alloc(m), held, NoFrame) && DataFrame(Alloc(m), held, m.free[0]) && DataFrame(Alloc(m), held, f)
      && FrameWords(Alloc(m), f) == FrameWords(m, f)
  {
    var held := a.(hand := a.hand + {m.free[0]});
    AllocInv(m, a);
    MappedIsData(m, a, NoFrame, e, k, l);
    MappedIsData(Alloc(m), held, NoFrame, e, k, l);
    assert m.free[0] in m.free;
  }

  lemma InsertWords(m: Mem, a: Acct, d: nat, i: nat, j: nat, f: nat, perm: nat, g: nat)
    requires Inv(m, a, NoFrame) && DataFrame(m, a, f) && DataFrame(m, a, g)
    requires d in a.dirs && i < USERPDES && j < NPTENTRIES
    ensures FrameWords(Insert(m, d, i, j, f, perm), g) == FrameWords(m, g)
  {
    InsertKeepsContents(m, a, d, i, j, f, perm, g);
  }

  /** A page that env_page_alloc maps is all zeros, whoever had its frame before. */
  lemma NewPageIsZero(m: Mem, a: Acct, d: nat, i: nat, j: nat, perm: nat)
    requires Inv(m, a, NoFrame) && d in a.dirs && i < USERPDES && j < NPTENTRIES
    requires EnvPageAlloc(m, d, i, j, perm).1 == 0
    ensures Page(EnvPageAlloc(m, d, i, j, perm).0, d, i, j) == Zeros()
  {
    var z, held := m.free[0], a.(hand := a.hand + {m.free[0]});
    EnvPageAllocExact(m, a, d, i, j, perm);
    AllocInv(m, a);
    InsertWords(Alloc(m), held, d, i, j, z, perm, z);
    PteWordFields(z, perm);
    SmallKeepsFrame(z, perm);
  }

  lemma AllocateKeeps(m: Mem, a: Acct, d: nat, i: nat, j: nat, perm: nat, e: nat, k: nat, l: nat)
    requires Inv(m, a, NoFrame) && d in a.dirs && i < USERPDES && j < NPTENTRIES
    requires Mapped(m, a, e, k, l) && !(e == d && k == i && l == j)
    ensures Kept(m, EnvPageAlloc(m, d, i, j, perm).0, e, k, l)
  {
    EnvPageAllocExact(m, a, d, i, j, perm);
    if GoodPerm(perm) && m.free != [] {
      var held := a.(hand := a.hand + {m.free[0]});
      MappedInAlloc(m, a, e, k, l);
      InsertWords(Alloc(m), held, d, i, j, m.free[0], perm, FrameOf(PteAt(m, e, k, l)));
    }
  }

  /** A mapping that env_page_map makes shows what the source page holds. */
  lemma MapShows(m: Mem, a: Acct, src: nat, si: nat, sj: nat, dst: nat, i: nat, j: nat, perm: nat)
    requires Inv(m, a, NoFrame) && src in a.dirs && dst in a.dirs
    requires si < USERPDES && sj < NPTENTRIES && i < USERPDES && j < NPTENTRIES
    requires EnvPageMap(m, src, si, sj, dst, i, j, perm).1 == 0 && KeepsFrame(FrameOf(PteAt(m, src, si, sj)), perm)
    ensures Page(EnvPageMap(m, src, si, sj, dst, i, j, perm).0, dst, i, j) == Page(m, src, si, sj)
  {
    var f := FrameOf(PteAt(m, src, si, sj));
    EnvPageMapExact(m, a, src, si, sj, dst, i, j, perm);
    MappedIsData(m, a, NoFrame, src, si, sj);
    InsertWords(m, a, dst, i, j, f, perm, f);
  }

  lemma MapKeeps(m: Mem, a: Acct, src: nat, si: nat, sj: nat, dst: nat, i: nat, j: nat, perm: nat,
                 e: nat, k: nat, l: nat)
    requires Inv(m, a, NoFrame) && src in a.dirs && dst in a.dirs
    requires si < USERPDES && sj < NPTENTRIES && i < USERPDES && j < NPTENTRIES
    requires Mapped(m, a, e, k, l) && !(e == dst && k == i && l == j)
    ensures Kept(m, EnvPageMap(m, src, si, sj, dst, i, j, perm).0, e, k, l)
  {
    var r := EnvPageMap(m, src, si, sj, dst, i, j, perm).1;
    EnvPageMapExact(m, a, src, si, sj, dst, i, j, perm);
    assert r == 0 || r != 0;
    if r == 0 {
      MappedIsData(m, a, NoFrame, src, si, sj);
      MappedIsData(m, a, NoFrame, e, k, l);
      InsertWords(m, a, dst, i, j, FrameOf(PteAt(m, src, si, sj)), perm, FrameOf(PteAt(m, e, k, l)));
    }
  }

  lemma UnmapKeeps(m: Mem, a: Acct, d: nat, i: nat, j: nat, e: nat, k: nat, l: nat)
    requires Inv(m, a, NoFrame) && d in a.dirs && i < USERPDES && j < NPTENTRIES
    requires Mapped(m, a, e, k, l) && !(e == d && k == i && l == j)
    ensures Kept(m, Remove(m, d, i, j), e, k, l)
  {
    RemoveMaps(m, a, NoFrame, d, i, j);
    MappedIsData(m, a, NoFrame, e, k, l);
    RemoveKeepsContents(m, a, NoFrame, d, i, j, FrameOf(PteAt(m, e, k, l)));
  }

  lemma TransferKeeps(m: Mem, a: Acct, src: nat, si: nat, sj: nat, dst: nat, i: nat, j: nat, perm: nat,
                      e: nat, k: nat, l: nat)
    requires Inv(m, a, NoFrame) && src in a.dirs && dst in a.dirs && src != dst
    requires si < USERPDES && sj < NPTENTRIES && i < USERPDES && j < NPTENTRIES
    requires Mapped(m, a, e, k, l) && !(e == dst && k == i && l == j)
    ensures Kept(m, Transfer(m, src, si, sj, dst, i, j, perm).0, e, k, l)
  {
    var p := WithUserPresent(perm);
    var n := EnvPageAlloc(m, dst, i, j, p);
    AllocateKeeps(m, a, dst, i, j, p, e, k, l);
    if n.1 >= 0 {
      AllocKeepsInv(m, a, dst, i, j, p);
      MapKeeps(n.0, a, src, si, sj, dst, i, j, p, e, k, l);
    }
  }

  /** A page that is sent arrives with the words that the sender reads. */
  lemma SendShows(m: Mem, a: Acct, src: nat, si: nat, sj: nat, dst: nat, i: nat, j: nat, perm: nat)
    requires Sending(m, a, src, si, sj, dst, i, j, perm) && SendPage(m, src, si, sj, dst, i, j, perm).1 == 0
    ensures Page(SendPage(m, src, si, sj, dst, i, j, perm).0, dst, i, j) == Page(m, src, si, sj)
  {
    var p := WithUserPresent(perm);
    var n := EnvPageAlloc(m, dst, i, j, p);
    AllocateKeeps(m, a, dst, i, j, p, src, si, sj);
    AllocKeepsInv(m, a, dst, i, j, p);
    SmallKeepsFrame(FrameOf(PteAt(m, src, si, sj)), p);
    MapShows(n.0, a, src, si, sj, dst, i, j, p);
  }

  // ---------- address spaces ----------

  lemma SetupKeeps(m: Mem, a: Acct, template: seq<nat>, e: nat, k: nat, l: nat)
    requires Inv(m, a, NoFrame) && Template(template) && Mapped(m, a, e, k, l)
    ensures Kept(m, Setup(m, template), e, k, l)
  {
    if m.free != [] {
      SetupMaps(m, a, template);
      MappedIsData(m, a, NoFrame, e, k, l);
      assert m.free[0] in m.free;
    }
  }

  lemma ClearOne(m: Mem, a: Acct, d: nat, i: nat, j: nat, e: nat, k: nat, l: nat)
    requires Inv(m, a, NoFrame) && d in a.dirs && i < USERPDES && j < NPTENTRIES && Mapped(m, a, e, k, l) && e != d
    ensures var n := Remove(m, d, i, j); Inv(n, a, NoFrame) && Mapped(n, a, e, k, l) && Kept(m, n, e, k, l)
  {
    RemoveInv(m, a, NoFrame, d, i, j);
    UnmapKeeps(m, a, d, i, j, e, k, l);
  }

  lemma {:induction false} ClearKeeps(m: Mem, a: Acct, d: nat, i: nat, j: nat, e: nat, k: nat, l: nat)
    requires Inv(m, a, NoFrame) && d in a.dirs && i < USERPDES && j <= NPTENTRIES && Mapped(m, a, e, k, l) && e != d
    ensures Kept(m, ClearFrom(m, d, i, j), e, k, l)
    decreases NPTENTRIES - j
  {
    if j < NPTENTRIES {
      ClearOne(m, a, d, i, j, e, k, l);
      ClearKeeps(Remove(m, d, i, j), a, d, i, j + 1, e, k, l);
    }
  }

  lemma DropTableKeeps(m: Mem, a: Acct, d: nat, i: nat, e: nat, k: nat, l: nat)
    requires Inv(m, a, NoFrame) && d in a.dirs && i < USERPDES && PdeAt(m, d, i) != 0
    requires forall x :: 0 <= x < NPTENTRIES ==> PteAt(m, d, i, x) == 0
    requires Mapped(m, a, e, k, l)
    ensures Kept(m, DropTable(m, d, i), e, k, l)
  {
    DropTableMaps(m, a, d, i);
    MappedIsData(m, a, NoFrame, e, k, l);
    NotData(m, a, FrameOf(PteAt(m, e, k, l)), d, i);
  }

  lemma DropAtKeeps(m0: Mem, m: Mem, a: Acct, d: nat, i: nat, e: nat, k: nat, l: nat)
    requires TornDownTo(m0, m, a, d, i, 0) && i < USERPDES && Mapped(m, a, e, k, l) && e != d
    ensures Kept(m, DropAt(m, d, i), e, k, l)
  {
    if PdeAt(m, d, i) != 0 {
      ClearKeeps(m, a, d, i, 0, e, k, l);
      ClearFromTears(m0, m, a, d, i, 0);
      DropTableKeeps(ClearFrom(m, d, i, 0), a, d, i, e, k, l);
    }
  }

  lemma {:induction false} DropFromKeeps(m0: Mem, m: Mem, a: Acct, d: nat, i: nat, e: nat, k: nat, l: nat)
    requires TornDownTo(m0, m, a, d, i, 0) && i <= USERPDES && Mapped(m, a, e, k, l) && e != d
    ensures Kept(m, DropFrom(m, d, i), e, k, l)
    decreases USERPDES - i
  {
    if i < USERPDES {
      DropAtKeeps(m0, m, a, d, i, e, k, l);
      DropAtTears(m0, m, a, d, i);
      DropFromKeeps(m0, DropAt(m, d, i), a, d, i + 1, e, k, l);
    }
  }

  /** env_free leaves every page of the other environments as it is. */
  lemma FreeKeeps(m: Mem, a: Acct, d: nat, e: nat, k: nat, l: nat)
    requires Inv(m, a, NoFrame) && d in a.dirs && Mapped(m, a, e, k, l) && e != d
    ensures Kept(m, FreeEnv(m, d), e, k, l)
  {
    DropFromKeeps(m, m, a, d, 0, e, k, l);
  }

  // ---------- whole runs ----------

  /** The event changes the entry (e, k, l) itself. */
  predicate Touches(ev: MemoryRuns.Event, e: nat, k: nat, l: nat) {
    match ev
    case Allocate(d, i, j, _) => e == d && k == i && l == j
    case Map(_, _, _, dst, i, j, _) => e == dst && k == i && l == j
    case Unmap(d, i, j) => e == d && k == i && l == j
    case Send(_, _, _, dst, i, j, _, _) => e == dst && k == i && l == j
    case Free(d) => e == d
    case _ => false
  }

  /** The words ws of frame f after the event: only a write to that frame, through
      whichever mapping, changes them. */
  function Written(m: Mem, ev: MemoryRuns.Event, f: nat, ws: seq<nat>): seq<nat> {
    if ev.Write? && FrameOf(PteAt(m, ev.d, ev.i, ev.j)) == f && ev.k < |ws| then ws[ev.k := ev.w] else ws
  }

  lemma WriteWrites(m: Mem, a: Acct, d: nat, i: nat, j: nat, x: nat, w: nat, e: nat, k: nat, l: nat)
    requires Inv(m, a, NoFrame) && Mapped(m, a, d, i, j) && Mapped(m, a, e, k, l)
    ensures var f, n := FrameOf(PteAt(m, d, i, j)), Store(m, FrameOf(PteAt(m, d, i, j)), x, w);
      && PteAt(n, e, k, l) == PteAt(m, e, k, l)
      && Page(n, e, k, l) == Written(m, MemoryRuns.Write(d, i, j, x, w), FrameOf(PteAt(m, e, k, l)), Page(m, e, k, l))
  {
    MappedIsData(m, a, NoFrame, d, i, j);
    UserStoreHarmless(m, a, FrameOf(PteAt(m, d, i, j)), x, w);
    MappedIsData(m, a, NoFrame, e, k, l);
  }

  lemma NextKept(m: Mem, a: Acct, ev: MemoryRuns.Event, e: nat, k: nat, l: nat)
    requires Inv(m, a, NoFrame) && MemoryRuns.Enabled(m, a, ev) && Mapped(m, a, e, k, l) && !Touches(ev, e, k, l)
    requires !ev.Write?
    ensures Kept(m, MemoryRuns.Next(m, ev), e, k, l)
  {
    match ev
    case Create(template) => SetupKeeps(m, a, template, e, k, l);
    case Allocate(d, i, j, perm) => AllocateKeeps(m, a, d, i, j, perm, e, k, l);
    case Map(src, si, sj, dst, i, j, perm) => MapKeeps(m, a, src, si, sj, dst, i, j, perm, e, k, l);
    case Unmap(d, i, j) => UnmapKeeps(m, a, d, i, j, e, k, l);
    case Send(src, si, sj, dst, i, j, perm, stale) => TransferKeeps(m, a, src, si, sj, dst, i, j, perm, e, k, l);
    case Free(d) => FreeKeeps(m, a, d, e, k, l);
  }

  lemma StaysOwner(m: Mem, a: Acct, ev: MemoryRuns.Event, e: nat)
    requires e in a.dirs && (ev.Free? ==> ev.d != e)
    ensures e in MemoryRuns.Owners(m, a, ev).dirs
  {
  }

  lemma NextPage(m: Mem, a: Acct, ev: MemoryRuns.Event, e: nat, k: nat, l: nat)
    requires Inv(m, a, NoFrame) && MemoryRuns.Enabled(m, a, ev) && Mapped(m, a, e, k, l) && !Touches(ev, e, k, l)
    ensures var n := MemoryRuns.Next(m, ev);
      && Mapped(n, MemoryRuns.Owners(m, a, ev), e, k, l) && PteAt(n, e, k, l) == PteAt(m, e, k, l)
      && Page(n, e, k, l) == Written(m, ev, FrameOf(PteAt(m, e, k, l)), Page(m, e, k, l))
  {
    StaysOwner(m, a, ev, e);
    if ev.Write? {
      WriteWrites(m, a, ev.d, ev.i, ev.j, ev.k, ev.w, e, k, l);
    } else {
      NextKept(m, a, ev, e, k, l);
    }
  }

  predicate NeverTouched(trace: seq<MemoryRuns.Event>, e: nat, k: nat, l: nat) {
    forall ev :: ev in trace ==> !Touches(ev, e, k, l)
  }

  ghost function AfterRun(m: Mem, a: Acct, trace: seq<MemoryRuns.Event>, f: nat, ws: seq<nat>): seq<nat>
    decreases |trace|
  {
    if trace == [] || !MemoryRuns.Enabled(m, a, trace[0]) then ws
    else AfterRun(MemoryRuns.Next(m, trace[0]), MemoryRuns.Owners(m, a, trace[0]), trace[1..], f,
                  Written(m, trace[0], f, ws))
  }

  /** For as long as an entry is not remapped, whatever all environments do, the page
      there holds its old words with the writes to its frame done in order, and nothing
      else: memory is never handed to two owners, and no bookkeeping is done in it. */
  lemma {:induction false} PageIsItsWrites(m: Mem, a: Acct, trace: seq<MemoryRuns.Event>, n: Mem, b: Acct,
                                           e: nat, k: nat, l: nat)
    requires Inv(m, a, NoFrame) && MemoryRuns.Run(m, a, trace, n, b)
    requires Mapped(m, a, e, k, l) && NeverTouched(trace, e, k, l)
    ensures Mapped(n, b, e, k, l) && PteAt(n, e, k, l) == PteAt(m, e, k, l)
    ensures Page(n, e, k, l) == AfterRun(m, a, trace, FrameOf(PteAt(m, e, k, l)), Page(m, e, k, l))
    decreases |trace|
  {
    if trace != [] {
      var ev := trace[0];
      NextPage(m, a, ev, e, k, l);
      MemoryRuns.NextInv(m, a, ev);
      PageIsItsWrites(MemoryRuns.Next(m, ev), MemoryRuns.Owners(m, a, ev), trace[1..], n, b, e, k, l);
    }
  }
}
