/** Address spaces as a whole: env_setup_vm creates one, env_free takes one apart
    (kern/env.c).  The lemmas say what each step of the teardown loop keeps and
    that the frames given back are exactly the ones the environment owned. */
module EnvVm {
  import opened Mmu
  import opened Paging

  /** The kernel half of a directory, copied into every environment's. */
  ghost predicate Template(t: seq<nat>) {
    |t| == NPTENTRIES && forall k :: 0 <= k < USERPDES ==> t[k] == 0
  }

  const UVPTPDE := 957

  /** env_setup_vm: a frame becomes a directory holding the kernel half, mapping
      itself at UVPT. */
  function Setup(m: Mem, template: seq<nat>): Mem
    requires |template| == NPTENTRIES
  {
    if m.free != [] && m.free[0] < |m.words| then
      var d := m.free[0];
      var dir: seq<nat> := template[UVPTPDE := PteWord(d, PTE_P + PTE_U)];
      Incref(m.(words := m.words[d := dir], free := m.free[1..]), d)
    else m
  }

  /** A new address space is empty below UTOP and disturbs no other. */
  lemma SetupInv(m: Mem, a: Acct, template: seq<nat>)
    requires Inv(m, a, NoFrame) && m.free != [] && Template(template)
    ensures var d, m', a' := m.free[0], Setup(m, template), a.(dirs := a.dirs + {m.free[0]});
            && d !in a.dirs && Inv(m', a', NoFrame) && SameMap(m, m', a.dirs)
            && forall k :: 0 <= k < USERPDES ==> PdeAt(m', d, k) == 0
  {
    FreeHasNoRefs(m, a, NoFrame, m.free[0]);
    SetupMaps(m, a, template);
    SetupCounted(m, a, template);
    SetupExclusive(m, a, template);
  }

  /** The new directory is the kernel's above UTOP but for one entry, at UVPT, through which
      the program may read, and not write, its own page tables; it has one reference. */
  lemma SetupKernelHalf(m: Mem, a: Acct, template: seq<nat>)
    requires Inv(m, a, NoFrame) && m.free != [] && Template(template)
    ensures var d, n := m.free[0], Setup(m, template); var uvpt := PdeAt(n, d, UVPTPDE);
      && UVPTPDE == PDX(0xef40_0000)
      && (forall k :: USERPDES <= k < NPTENTRIES && k != UVPTPDE ==> PdeAt(n, d, k) == template[k])
      && Present(uvpt) && FrameOf(uvpt) == d && UserBit(PermOf(uvpt)) && !Writable(PermOf(uvpt))
      && d < |n.refs| && n.refs[d] == 1 && n.free == m.free[1..]
  {
    FreeHasNoRefs(m, a, NoFrame, m.free[0]);
    PteWordFields(m.free[0], PTE_P + PTE_U);
    SmallKeepsFrame(m.free[0], PTE_P + PTE_U);
  }

  lemma SetupExclusive(m: Mem, a: Acct, template: seq<nat>)
    requires Inv(m, a, NoFrame) && m.free != [] && Template(template)
    ensures Exclusive(Setup(m, template), a.(dirs := a.dirs + {m.free[0]}))
  {
    var d, m', dirs := m.free[0], Setup(m, template), a.dirs + {m.free[0]};
    assert d in a.managed by {
      FreeHasNoRefs(m, a, NoFrame, d);
    }
    forall e | e in dirs ensures RefsTo(m', dirs, e) == {Root(e)} {
      SetupRoot(m, a, template, e);
    }
    SetupMaps(m, a, template);
    forall e, k | e in a.dirs && 0 <= k < USERPDES && PdeAt(m, e, k) != 0
      ensures RefsTo(m', dirs, TableOf(m, e, k)) == {InDir(e, k)}
    {
      SetupTable(m, a, template, e, k);
    }
  }

  lemma SetupRoot(m: Mem, a: Acct, template: seq<nat>, e: nat)
    requires Inv(m, a, NoFrame) && m.free != [] && Template(template) && e in a.dirs + {m.free[0]}
    ensures RefsTo(Setup(m, template), a.dirs + {m.free[0]}, e) == {Root(e)}
  {
    FreeHasNoRefs(m, a, NoFrame, m.free[0]);
    SetupRefs(m, a, template, e);
  }

  lemma SetupTable(m: Mem, a: Acct, template: seq<nat>, e: nat, k: nat)
    requires Inv(m, a, NoFrame) && m.free != [] && Template(template)
    requires e in a.dirs && k < USERPDES && PdeAt(m, e, k) != 0
    ensures RefsTo(Setup(m, template), a.dirs + {m.free[0]}, TableOf(m, e, k)) == {InDir(e, k)}
  {
    FreeHasNoRefs(m, a, NoFrame, m.free[0]);
    SetupRefs(m, a, template, TableOf(m, e, k));
    assert InDir(e, k) in RefsTo(m, a.dirs, TableOf(m, e, k));
  }

  lemma SetupCounted(m: Mem, a: Acct, template: seq<nat>)
    requires Inv(m, a, NoFrame) && m.free != [] && Template(template)
    ensures var m' := Setup(m, template);
            Shape(m', a) && FreeExact(m', a) && Counted(m', a.(dirs := a.dirs + {m.free[0]}), NoFrame)
  {
    var d, m' := m.free[0], Setup(m, template);
    FreeHasNoRefs(m, a, NoFrame, d);
    assert m.free == [d] + m.free[1..];
    forall g | g in a.managed ensures m'.refs[g] == 0 <==> g in m'.free || g in a.hand {
      assert g in m.free <==> g == d || g in m.free[1..];
    }
    forall g | g in a.managed ensures m'.refs[g] == |RefsTo(m', a.dirs + {d}, g)| {
      SetupRefs(m, a, template, g);
      assert Root(d) !in RefsTo(m, a.dirs, g);
    }
  }

  lemma SetupMaps(m: Mem, a: Acct, template: seq<nat>)
    requires Inv(m, a, NoFrame) && m.free != [] && Template(template)
    ensures var d, m' := m.free[0], Setup(m, template);
            && (forall k :: 0 <= k < USERPDES ==> PdeAt(m', d, k) == 0)
            && (forall e, k :: e in a.dirs && 0 <= k < USERPDES ==> PdeAt(m', e, k) == PdeAt(m, e, k))
            && SameMap(m, m', a.dirs)
  {
    var d, m' := m.free[0], Setup(m, template);
    FreeHasNoRefs(m, a, NoFrame, d);
    forall e, k | e in a.dirs && 0 <= k < USERPDES && PdeAt(m, e, k) != 0
      ensures TableOf(m, e, k) != d
    {
      assert InDir(e, k) in RefsTo(m, a.dirs, TableOf(m, e, k));
    }
  }

  lemma SetupRefs(m: Mem, a: Acct, template: seq<nat>, g: nat)
    requires Inv(m, a, NoFrame) && m.free != [] && Template(template)
    ensures var d := m.free[0];
            RefsTo(Setup(m, template), a.dirs + {d}, g)
              == RefsTo(m, a.dirs, g) + (if g == d then {Root(d)} else {})
  {
    var d, m' := m.free[0], Setup(m, template);
    forall s | IsSlot(a.dirs + {d}, s)
      ensures Names(m', s, g) <==> (IsSlot(a.dirs, s) && Names(m, s, g)) || (s == Root(d) && g == d)
    {
      SetupNames(m, a, template, g, s);
    }
  }

  lemma SetupNames(m: Mem, a: Acct, template: seq<nat>, g: nat, s: Slot)
    requires Inv(m, a, NoFrame) && m.free != [] && Template(template) && IsSlot(a.dirs + {m.free[0]}, s)
    ensures Names(Setup(m, template), s, g)
       <==> (IsSlot(a.dirs, s) && Names(m, s, g)) || (s == Root(m.free[0]) && g == m.free[0])
  {
    FreeHasNoRefs(m, a, NoFrame, m.free[0]);
    SetupMaps(m, a, template);
  }

  // ---------- env_free ----------

  /** The teardown of directory d is past table i, and inside table i past entry j. */
  ghost predicate TornDownTo(m0: Mem, m: Mem, a: Acct, d: nat, i: nat, j: nat) {
    && Inv(m, a, NoFrame) && d in a.dirs
    && (forall e, k :: e in a.dirs && 0 <= k < USERPDES ==>
         PdeAt(m, e, k) == if e == d && k < i then 0 else PdeAt(m0, e, k))
    && (forall e, k, l :: e in a.dirs && 0 <= k < USERPDES && 0 <= l < NPTENTRIES ==>
         PteAt(m, e, k, l) == if e == d && (k < i || (k == i && l < j)) then 0 else PteAt(m0, e, k, l))
  }

  /** One iteration of the inner loop: page_remove of entry (i, j). */
  lemma TearEntry(m0: Mem, m: Mem, a: Acct, d: nat, i: nat, j: nat)
    requires TornDownTo(m0, m, a, d, i, j) && i < USERPDES && j < NPTENTRIES
    ensures TornDownTo(m0, Remove(m, d, i, j), a, d, i, j + 1)
  {
    RemoveInv(m, a, NoFrame, d, i, j);
    RemoveMaps(m, a, NoFrame, d, i, j);
  }

  /** A directory entry that is not present has nothing below it. */
  lemma TearAbsent(m0: Mem, m: Mem, a: Acct, d: nat, i: nat)
    requires TornDownTo(m0, m, a, d, i, 0) && i < USERPDES && !Present(PdeAt(m, d, i))
    ensures PdeAt(m, d, i) == 0 && TornDownTo(m0, m, a, d, i + 1, 0)
  {
    assert PdeAt(m, d, i) == 0;
    assert forall l :: 0 <= l < NPTENTRIES ==> PteAt(m, d, i, l) == 0;
  }

  function DropTable(m: Mem, d: nat, i: nat): Mem {
    Decref(Store(m, d, i, 0), TableOf(m, d, i))
  }

  /** After the inner loop the table is empty; clearing its directory entry and
      dropping its one reference frees the table's frame. */
  lemma TearTable(m0: Mem, m: Mem, a: Acct, d: nat, i: nat)
    requires TornDownTo(m0, m, a, d, i, NPTENTRIES) && i < USERPDES && PdeAt(m, d, i) != 0
    ensures TornDownTo(m0, DropTable(m, d, i), a, d, i + 1, 0)
    ensures TableOf(m, d, i) in DropTable(m, d, i).free
  {
    DropTableMaps(m, a, d, i);
    DropTableInv(m, a, d, i);
  }

  lemma DropTableMaps(m: Mem, a: Acct, d: nat, i: nat)
    requires Inv(m, a, NoFrame) && d in a.dirs && i < USERPDES && PdeAt(m, d, i) != 0
    requires forall l :: 0 <= l < NPTENTRIES ==> PteAt(m, d, i, l) == 0
    ensures var m' := DropTable(m, d, i);
            && (forall e, k :: e in a.dirs && 0 <= k < USERPDES ==>
                 PdeAt(m', e, k) == if e == d && k == i then 0 else PdeAt(m, e, k))
            && SameMap(m, m', a.dirs)
  {
    var m' := DropTable(m, d, i);
    assert m'.words == Store(m, d, i, 0).words;
    forall e, k | e in a.dirs && 0 <= k < USERPDES && PdeAt(m, e, k) != 0
      ensures TableOf(m, e, k) != d
    {
      assert InDir(e, k) in RefsTo(m, a.dirs, TableOf(m, e, k));
    }
  }

  lemma DropTableRefs(m: Mem, a: Acct, d: nat, i: nat, g: nat)
    requires Inv(m, a, NoFrame) && d in a.dirs && i < USERPDES && PdeAt(m, d, i) != 0
    requires forall l :: 0 <= l < NPTENTRIES ==> PteAt(m, d, i, l) == 0
    ensures RefsTo(DropTable(m, d, i), a.dirs, g) == RefsTo(m, a.dirs, g) - {InDir(d, i)}
  {
    DropTableMaps(m, a, d, i);
    var m' := DropTable(m, d, i);
    forall s | IsSlot(a.dirs, s) && s != InDir(d, i) ensures Names(m', s, g) == Names(m, s, g) {
    }
  }

  lemma DropTableInv(m: Mem, a: Acct, d: nat, i: nat)
    requires Inv(m, a, NoFrame) && d in a.dirs && i < USERPDES && PdeAt(m, d, i) != 0
    requires forall l :: 0 <= l < NPTENTRIES ==> PteAt(m, d, i, l) == 0
    ensures Inv(DropTable(m, d, i), a, NoFrame) && TableOf(m, d, i) in DropTable(m, d, i).free
  {
    var m', t := DropTable(m, d, i), TableOf(m, d, i);
    var s := Store(m, d, i, 0);
    assert m.refs[t] == |{InDir(d, i)}|;
    assert Shape(s, a) && FreeExact(s, a);
    DecrefFree(s, a, t);
    DropTableMaps(m, a, d, i);
    forall g | g in a.managed ensures m'.refs[g] == |RefsTo(m', a.dirs, g)| {
      DropTableRefs(m, a, d, i, g);
      assert InDir(d, i) in RefsTo(m, a.dirs, g) <==> g == t;
    }
    DropTableExclusive(m, a, d, i);
  }

  lemma DropTableExclusive(m: Mem, a: Acct, d: nat, i: nat)
    requires Inv(m, a, NoFrame) && d in a.dirs && i < USERPDES && PdeAt(m, d, i) != 0
    requires forall l :: 0 <= l < NPTENTRIES ==> PteAt(m, d, i, l) == 0
    ensures Exclusive(DropTable(m, d, i), a)
  {
    var m' := DropTable(m, d, i);
    DropTableMaps(m, a, d, i);
    forall e | e in a.dirs ensures RefsTo(m', a.dirs, e) == {Root(e)} {
      DropTableRefs(m, a, d, i, e);
    }
    forall e, k | e in a.dirs && 0 <= k < USERPDES && PdeAt(m', e, k) != 0
      ensures RefsTo(m', a.dirs, TableOf(m', e, k)) == {InDir(e, k)}
    {
      DropTableRefs(m, a, d, i, TableOf(m, e, k));
    }
  }

  // ---------- the whole of env_free ----------

  /** What env_free of directory d may do to memory, and all it may do. */
  ghost predicate Freed(m0: Mem, m: Mem, a: Acct, d: nat) {
    && Inv(m, a.(dirs := a.dirs - {d}), NoFrame)
    && SameMap(m0, m, a.dirs - {d})
    && (forall e, k :: e in a.dirs - {d} && 0 <= k < USERPDES ==> PdeAt(m, e, k) == PdeAt(m0, e, k))
  }

  lemma TearRootRefs(m: Mem, a: Acct, d: nat, g: nat)
    requires Inv(m, a, NoFrame) && d in a.dirs
    requires forall k :: 0 <= k < USERPDES ==> PdeAt(m, d, k) == 0
    ensures RefsTo(Decref(m, d), a.dirs - {d}, g) == RefsTo(m, a.dirs, g) - {Root(d)}
  {
    var m' := Decref(m, d);
    RefsOfWords(m', m, a.dirs, g);
    forall s | IsSlot(a.dirs, s) && s.d == d && s != Root(d) ensures !Names(m, s, g) {
    }
    forall s | IsSlot(a.dirs, s) ensures Names(m', s, g) == Names(m, s, g) {
    }
  }

  lemma TearRootCounted(m: Mem, a: Acct, d: nat)
    requires Inv(m, a, NoFrame) && d in a.dirs
    requires forall k :: 0 <= k < USERPDES ==> PdeAt(m, d, k) == 0
    ensures Shape(Decref(m, d), a) && FreeExact(Decref(m, d), a) && d in Decref(m, d).free
    ensures Counted(Decref(m, d), a.(dirs := a.dirs - {d}), NoFrame)
  {
    assert m.refs[d] == |{Root(d)}|;
    DecrefFree(m, a, d);
    var m' := Decref(m, d);
    forall g | g in a.managed ensures m'.refs[g] == |RefsTo(m', a.dirs - {d}, g)| {
      TearRootRefs(m, a, d, g);
      assert Root(d) in RefsTo(m, a.dirs, g) <==> g == d;
    }
  }

  /** Dropping the directory itself once its user half is empty. */
  lemma TearRoot(m0: Mem, m: Mem, a: Acct, d: nat)
    requires TornDownTo(m0, m, a, d, USERPDES, 0)
    ensures Freed(m0, Decref(m, d), a, d) && d in Decref(m, d).free
  {
    var m', a' := Decref(m, d), a.(dirs := a.dirs - {d});
    TearRootCounted(m, a, d);
    assert forall e, k :: PdeAt(m', e, k) == PdeAt(m, e, k);
    assert forall e, k, l :: PteAt(m', e, k, l) == PteAt(m, e, k, l);
    assert Exclusive(m', a') by {
      TearRootExclusive(m, a, d);
    }
  }

  lemma TearRootExclusive(m: Mem, a: Acct, d: nat)
    requires Inv(m, a, NoFrame) && d in a.dirs
    requires forall k :: 0 <= k < USERPDES ==> PdeAt(m, d, k) == 0
    ensures Exclusive(Decref(m, d), a.(dirs := a.dirs - {d}))
  {
    var m', a' := Decref(m, d), a.(dirs := a.dirs - {d});
    assert forall e, k :: PdeAt(m', e, k) == PdeAt(m, e, k);
    assert forall e, k, l :: PteAt(m', e, k, l) == PteAt(m, e, k, l);
    forall e | e in a'.dirs ensures RefsTo(m', a'.dirs, e) == {Root(e)} {
      TearRootRefs(m, a, d, e);
    }
    forall e, k | e in a'.dirs && 0 <= k < USERPDES && PdeAt(m', e, k) != 0
      ensures RefsTo(m', a'.dirs, TableOf(m', e, k)) == {InDir(e, k)}
    {
      TearRootRefs(m, a, d, TableOf(m, e, k));
    }
  }

  /** The inner loop of env_free from entry j on. */
  function ClearFrom(m: Mem, d: nat, i: nat, j: nat): Mem
    decreases NPTENTRIES - j, m
  {
    if j >= NPTENTRIES then m else ClearFrom(Remove(m, d, i, j), d, i, j + 1)
  }

  /** One turn of the outer loop. */
  function DropAt(m: Mem, d: nat, i: nat): Mem {
    if PdeAt(m, d, i) == 0 then m else DropTable(ClearFrom(m, d, i, 0), d, i)
  }

  /** The outer loop from directory entry i on. */
  function DropFrom(m: Mem, d: nat, i: nat): Mem
    decreases USERPDES - i, m
  {
    if i >= USERPDES then m else DropFrom(DropAt(m, d, i), d, i + 1)
  }

  /** env_free, memory part. */
  function FreeEnv(m: Mem, d: nat): Mem {
    Decref(DropFrom(m, d, 0), d)
  }

  lemma {:induction false} ClearFromTears(m0: Mem, m: Mem, a: Acct, d: nat, i: nat, j: nat)
    requires TornDownTo(m0, m, a, d, i, j) && i < USERPDES && j <= NPTENTRIES
    ensures TornDownTo(m0, ClearFrom(m, d, i, j), a, d, i, NPTENTRIES)
    decreases NPTENTRIES - j
  {
    if j < NPTENTRIES {
      TearEntry(m0, m, a, d, i, j);
      ClearFromTears(m0, Remove(m, d, i, j), a, d, i, j + 1);
    }
  }

  lemma DropAtTears(m0: Mem, m: Mem, a: Acct, d: nat, i: nat)
    requires TornDownTo(m0, m, a, d, i, 0) && i < USERPDES
    ensures TornDownTo(m0, DropAt(m, d, i), a, d, i + 1, 0)
  {
    if PdeAt(m, d, i) == 0 {
      TearAbsent(m0, m, a, d, i);
    } else {
      var c := ClearFrom(m, d, i, 0);
      ClearFromTears(m0, m, a, d, i, 0);
      assert PdeAt(c, d, i) == PdeAt(m, d, i);
      TearTable(m0, c, a, d, i);
    }
  }

  lemma {:induction false} DropFromTears(m0: Mem, m: Mem, a: Acct, d: nat, i: nat)
    requires TornDownTo(m0, m, a, d, i, 0) && i <= USERPDES
    ensures TornDownTo(m0, DropFrom(m, d, i), a, d, USERPDES, 0)
    decreases USERPDES - i
  {
    if i < USERPDES {
      DropAtTears(m0, m, a, d, i);
      DropFromTears(m0, DropAt(m, d, i), a, d, i + 1);
    }
  }

  /** env_free leaves exactly the memory of the other environments. */
  lemma FreeEnvFrees(m: Mem, a: Acct, d: nat)
    requires Inv(m, a, NoFrame) && d in a.dirs
    ensures Freed(m, FreeEnv(m, d), a, d) && d in FreeEnv(m, d).free
  {
    DropFromTears(m, m, a, d, 0);
    TearRoot(m, DropFrom(m, d, 0), a, d);
  }

  ghost function OwnedBy(refs: set<Slot>, d: nat): set<Slot> {
    set s | s in refs && s.d == d
  }

  /** env_free returns exactly what the environment owned: every frame loses one
      count per mapping the environment had of it, the page tables and the
      directory included; a frame ends up free exactly when it was free before or
      nobody else refers to it. */
  lemma FreedExactly(m0: Mem, m: Mem, a: Acct, d: nat, g: nat)
    requires Inv(m0, a, NoFrame) && d in a.dirs && Freed(m0, m, a, d) && g in a.managed
    ensures m.refs[g] == m0.refs[g] - |OwnedBy(RefsTo(m0, a.dirs, g), d)|
    ensures g in m.free <==>
            g in m0.free || (g !in a.hand && RefsTo(m0, a.dirs, g) == OwnedBy(RefsTo(m0, a.dirs, g), d))
  {
    var before, after := RefsTo(m0, a.dirs, g), RefsTo(m, a.dirs - {d}, g);
    var owned := OwnedBy(before, d);
    FreedRefs(m0, m, a, d, g);
    assert |before| == |after| + |owned| by {
      assert before == after + owned && after !! owned;
    }
  }

  lemma FreedRefs(m0: Mem, m: Mem, a: Acct, d: nat, g: nat)
    requires d in a.dirs && Freed(m0, m, a, d)
    ensures var before := RefsTo(m0, a.dirs, g);
            RefsTo(m, a.dirs - {d}, g) == before - OwnedBy(before, d)
  {
    forall s | IsSlot(a.dirs - {d}, s) ensures Names(m, s, g) == Names(m0, s, g) {
    }
  }
}
