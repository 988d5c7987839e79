/** The machine of CowFork on the page tables of Paging: each of its steps is a page
    system call, a creation or an end of an environment, or a store, and the entries
    it speaks of are page-table words. */
module CowPages {
  import opened Mmu
  import opened Paging
  import opened PageCalls
  import EnvVm
  import C = CowFork

  const PTE_COW := 0x800
  const UTOPPAGE := USERPDES * NPTENTRIES

  /** The page directory of each environment. */
  type Dirs = map<nat, nat>

  datatype Joint = Joint(s: C.State, m: Mem, a: Acct, dirs: Dirs)

  // ---------- entries and words ----------

  /** The permissions that pgfault, duppage and fork ask for. */
  function Bits(w: bool, cow: bool): nat {
    PTE_P + PTE_U + (if w then PTE_W else 0) + (if cow then PTE_COW else 0)
  }

  function Entry(word: nat): C.Pte {
    C.Pte(FrameOf(word), Writable(PermOf(word)), PermOf(word) / PTE_COW % 2 == 1)
  }

  lemma EntryOfWord(f: nat, w: bool, cow: bool)
    ensures GoodPerm(Bits(w, cow)) && KeepsFrame(f, Bits(w, cow)) && (Writable(Bits(w, cow)) <==> w)
    ensures PteWord(f, Bits(w, cow)) != 0 && Entry(PteWord(f, Bits(w, cow))) == C.Pte(f, w, cow)
  {
    PteWordFields(f, Bits(w, cow));
    SmallKeepsFrame(f, Bits(w, cow));
    CowBit(PermOf(PteWord(f, Bits(w, cow))), Bits(w, cow));
  }

  lemma CowBit(x: nat, y: nat)
    requires x / 2 == y % PGSIZE / 2
    ensures x / PTE_COW % 2 == y / PTE_COW % 2
  {
  }

  // ---------- the relation ----------

  predicate Mirrors(s: C.State, m: Mem, d: nat, e: nat, v: nat) {
    && (C.Maps(s, e, v) <==> WordOf(m, d, v) != 0)
    && (C.Maps(s, e, v) ==> C.At(s, e, v) == Entry(WordOf(m, d, v)))
  }

  /** Every environment has a directory of its own, and its user half says what the
      machine says. */
  ghost predicate Models(j: Joint) {
    && Inv(j.m, j.a, NoFrame) && Owned(j)
    && (forall e: nat, v: nat :: C.Maps(j.s, e, v) ==> v < UTOPPAGE)
    && (forall e, v: nat :: e in j.dirs && v < UTOPPAGE ==> Mirrors(j.s, j.m, j.dirs[e], e, v))
  }

  ghost predicate Owned(j: Joint) {
    && j.s.envs.Keys == j.dirs.Keys && j.dirs.Values == j.a.dirs
    && (forall e, x :: e in j.dirs && x in j.dirs && j.dirs[e] == j.dirs[x] ==> e == x)
  }

  // ---------- steps ----------

  function AllocAt(m: Mem, d: nat, v: nat, w: bool, cow: bool): (Mem, int) {
    EnvPageAlloc(m, d, v / NPTENTRIES, v % NPTENTRIES, Bits(w, cow))
  }

  function MapAt(m: Mem, d: nat, v: nat, d2: nat, v2: nat, w: bool, cow: bool): (Mem, int) {
    EnvPageMap(m, d, v / NPTENTRIES, v % NPTENTRIES, d2, v2 / NPTENTRIES, v2 % NPTENTRIES, Bits(w, cow))
  }

  function UnmapAt(m: Mem, d: nat, v: nat): (Mem, int) {
    (Remove(m, d, v / NPTENTRIES, v % NPTENTRIES), 0)
  }

  function Dir(j: Joint, e: nat): nat {
    if e in j.dirs then j.dirs[e] else 0
  }

  /** The call that a step makes, and its result. */
  ghost function Call(j: Joint, template: seq<nat>, ev: C.Event): (Mem, int)
    requires C.Inv(j.s) && C.Enabled(j.s, ev) && EnvVm.Template(template)
  {
    match ev
    case Write(_, _, _, _) => (j.m, 0)
    case FaultAlloc(e, v, f) => AllocAt(j.m, Dir(j, e), C.PFTEMP, true, false)
    case FaultCopy(_) => (j.m, 0)
    case FaultMap(e) => MapAt(j.m, Dir(j, e), C.PFTEMP, Dir(j, e), j.s.envs[e].handler.v, true, false)
    case FaultUnmap(e) => UnmapAt(j.m, Dir(j, e), C.PFTEMP)
    case ForkStart(e, c) => (EnvVm.Setup(j.m, template), if j.m.free == [] then -E_NO_MEM else 0)
    case DupChild(e, v) =>
      MapAt(j.m, Dir(j, e), v, Dir(j, j.s.envs[e].fork.child), v, false, C.Remarked(C.At(j.s, e, v)))
    case Remark(e) =>
      var v := C.ChildWindow(j.s, e).v;
      MapAt(j.m, Dir(j, e), v, Dir(j, e), v, false, true)
    case ForkEnd(e, f) => AllocAt(j.m, Dir(j, j.s.envs[e].fork.child), C.XSTACK, true, false)
    case PageAlloc(e, v, f, w, cow) => AllocAt(j.m, Dir(j, e), v, w, cow)
    case PageUnmap(e, v) => UnmapAt(j.m, Dir(j, e), v)
    case Exit(e) => (EnvVm.FreeEnv(j.m, Dir(j, e)), 0)
  }

  /** The call succeeds, and a frame that the step names is the one the allocator gives. */
  ghost predicate Succeeds(j: Joint, template: seq<nat>, ev: C.Event)
    requires C.Inv(j.s) && C.Enabled(j.s, ev) && EnvVm.Template(template)
  {
    && Call(j, template, ev).1 == 0
    && (ev.FaultAlloc? || ev.ForkEnd? || ev.PageAlloc? ==> j.m.free != [] && ev.f == j.m.free[0])
    && (ev.PageAlloc? || ev.PageUnmap? ==> ev.v < UTOPPAGE)
  }

  ghost function Step(j: Joint, template: seq<nat>, ev: C.Event): Joint
    requires C.Inv(j.s) && C.Enabled(j.s, ev) && EnvVm.Template(template) && Succeeds(j, template, ev)
  {
    var m, s := Call(j, template, ev).0, C.Next(j.s, ev);
    match ev
    case ForkStart(e, c) =>
      Joint(s, m, j.a.(dirs := j.a.dirs + {j.m.free[0]}), j.dirs[c := j.m.free[0]])
    case Exit(e) => Joint(s, m, j.a.(dirs := j.a.dirs - {Dir(j, e)}), j.dirs - {e})
    case _ => Joint(s, m, j.a, j.dirs)
  }

  // ---------- what the calls do to the relation ----------

  lemma SamePage(v: nat, w: nat)
    ensures v / NPTENTRIES == w / NPTENTRIES && v % NPTENTRIES == w % NPTENTRIES <==> v == w
  {
  }

  lemma InUserHalf(v: nat)
    requires v < UTOPPAGE
    ensures v / NPTENTRIES < USERPDES && v % NPTENTRIES < NPTENTRIES
  {
  }

  /** One word changes, to that of the entry set. */
  lemma SetMirrors(j: Joint, n: Joint, e: nat, v: nat, word: nat)
    requires Models(j) && e in j.dirs && v < UTOPPAGE && word != 0 && C.OneSet(j.s, n.s, e, v, Entry(word))
    requires n.a == j.a && n.dirs == j.dirs && n.s.envs.Keys == j.s.envs.Keys && Inv(n.m, n.a, NoFrame)
    requires Updates(j.m, n.m, j.a.dirs, j.dirs[e], v / NPTENTRIES, v % NPTENTRIES, word)
    ensures Models(n)
  {
    forall x, w: nat | x in j.dirs && w < UTOPPAGE ensures Mirrors(n.s, n.m, j.dirs[x], x, w) {
      InUserHalf(w);
      SamePage(v, w);
      assert Mirrors(j.s, j.m, j.dirs[x], x, w);
      assert j.dirs[x] in j.dirs.Values;
    }
  }

  lemma AllocKeeps(j: Joint, n: Joint, e: nat, v: nat, w: bool, cow: bool)
    requires Models(j) && e in j.dirs && v < UTOPPAGE && j.m.free != []
    requires AllocAt(j.m, j.dirs[e], v, w, cow) == (n.m, 0)
    requires C.OneSet(j.s, n.s, e, v, C.Pte(j.m.free[0], w, cow))
    requires n.a == j.a && n.dirs == j.dirs && n.s.envs.Keys == j.s.envs.Keys
    ensures Models(n)
  {
    InUserHalf(v);
    EntryOfWord(j.m.free[0], w, cow);
    assert j.dirs[e] in j.dirs.Values;
    EnvPageAllocExact(j.m, j.a, j.dirs[e], v / NPTENTRIES, v % NPTENTRIES, Bits(w, cow));
    SetMirrors(j, n, e, v, PteWord(j.m.free[0], Bits(w, cow)));
  }

  lemma MapKeeps(j: Joint, n: Joint, e: nat, v: nat, e2: nat, v2: nat, w: bool, cow: bool)
    requires Models(j) && C.Maps(j.s, e, v) && e2 in j.dirs && v2 < UTOPPAGE
    requires MapAt(j.m, Dir(j, e), v, j.dirs[e2], v2, w, cow) == (n.m, 0)
    requires C.OneSet(j.s, n.s, e2, v2, C.Pte(C.At(j.s, e, v).frame, w, cow))
    requires n.a == j.a && n.dirs == j.dirs && n.s.envs.Keys == j.s.envs.Keys
    ensures Models(n)
  {
    InUserHalf(v);
    InUserHalf(v2);
    assert Mirrors(j.s, j.m, j.dirs[e], e, v);
    var f := FrameOf(WordOf(j.m, j.dirs[e], v));
    EntryOfWord(f, w, cow);
    assert j.dirs[e] in j.dirs.Values && j.dirs[e2] in j.dirs.Values;
    EnvPageMapExact(j.m, j.a, j.dirs[e], v / NPTENTRIES, v % NPTENTRIES,
                    j.dirs[e2], v2 / NPTENTRIES, v2 % NPTENTRIES, Bits(w, cow));
    SetMirrors(j, n, e2, v2, PteWord(f, Bits(w, cow)));
  }

  lemma UnmapKeeps(j: Joint, n: Joint, e: nat, v: nat)
    requires Models(j) && e in j.dirs && v < UTOPPAGE
    requires UnmapAt(j.m, j.dirs[e], v).0 == n.m && C.SameMaps(j.s, n.s, {(e, v)})
    requires n.a == j.a && n.dirs == j.dirs && n.s.envs.Keys == j.s.envs.Keys
    ensures Models(n)
  {
    InUserHalf(v);
    assert j.dirs[e] in j.dirs.Values;
    RemoveInv(j.m, j.a, NoFrame, j.dirs[e], v / NPTENTRIES, v % NPTENTRIES);
    RemoveMaps(j.m, j.a, NoFrame, j.dirs[e], v / NPTENTRIES, v % NPTENTRIES);
    forall x, w: nat | x in j.dirs && w < UTOPPAGE ensures Mirrors(n.s, n.m, j.dirs[x], x, w) {
      InUserHalf(w);
      SamePage(v, w);
      assert Mirrors(j.s, j.m, j.dirs[x], x, w);
      assert j.dirs[x] in j.dirs.Values;
    }
  }

  lemma SetupKeeps(j: Joint, n: Joint, template: seq<nat>, c: nat)
    requires Models(j) && c !in j.dirs && j.m.free != [] && EnvVm.Template(template)
    requires n.m == EnvVm.Setup(j.m, template) && C.SameMaps(j.s, n.s, {}) && n.s.envs.Keys == j.s.envs.Keys + {c}
    requires n.a == j.a.(dirs := j.a.dirs + {j.m.free[0]}) && n.dirs == j.dirs[c := j.m.free[0]]
    ensures Models(n)
  {
    EnvVm.SetupInv(j.m, j.a, template);
    assert Owned(n) by {
      SetupOwned(j, n, c);
    }
    forall x, w: nat | x in n.dirs && w < UTOPPAGE ensures Mirrors(n.s, n.m, n.dirs[x], x, w) {
      InUserHalf(w);
      if x != c {
        assert Mirrors(j.s, j.m, j.dirs[x], x, w);
        assert j.dirs[x] in j.dirs.Values;
      } else {
        assert !C.Maps(j.s, c, w);
      }
    }
  }

  lemma SetupOwned(j: Joint, n: Joint, c: nat)
    requires Owned(j) && c !in j.dirs && j.m.free != [] && j.m.free[0] !in j.a.dirs
    requires n.s.envs.Keys == j.s.envs.Keys + {c}
    requires n.a.dirs == j.a.dirs + {j.m.free[0]} && n.dirs == j.dirs[c := j.m.free[0]]
    ensures Owned(n)
  {
    forall e | e in j.dirs ensures j.dirs[e] in j.a.dirs {
      assert j.dirs[e] in j.dirs.Values;
    }
    forall d | d in n.a.dirs ensures d in n.dirs.Values {
      if d in j.dirs.Values {
        var e :| e in j.dirs && j.dirs[e] == d;
        assert n.dirs[e] == d;
      } else {
        assert n.dirs[c] == d;
      }
    }
  }

  lemma ExitKeeps(j: Joint, n: Joint, e: nat)
    requires Models(j) && e in j.dirs
    requires n.m == EnvVm.FreeEnv(j.m, j.dirs[e]) && C.LeftOnly(j.s, n.s, e) && n.s.envs.Keys == j.s.envs.Keys - {e}
    requires n.a == j.a.(dirs := j.a.dirs - {j.dirs[e]}) && n.dirs == j.dirs - {e}
    ensures Models(n)
  {
    assert j.dirs[e] in j.dirs.Values;
    EnvVm.FreeEnvFrees(j.m, j.a, j.dirs[e]);
    assert Owned(n) by {
      ExitOwned(j, n, e);
    }
    forall x, w: nat | x in n.dirs && w < UTOPPAGE ensures Mirrors(n.s, n.m, n.dirs[x], x, w) {
      InUserHalf(w);
      assert Mirrors(j.s, j.m, j.dirs[x], x, w);
      assert n.dirs[x] in n.dirs.Values;
    }
  }

  lemma ExitOwned(j: Joint, n: Joint, e: nat)
    requires Owned(j) && e in j.dirs && n.s.envs.Keys == j.s.envs.Keys - {e}
    requires n.a.dirs == j.a.dirs - {j.dirs[e]} && n.dirs == j.dirs - {e}
    ensures Owned(n)
  {
    forall d | d in n.a.dirs ensures d in n.dirs.Values {
      var x :| x in j.dirs && j.dirs[x] == d;
      assert n.dirs[x] == d;
    }
    forall d | d in n.dirs.Values ensures d in n.a.dirs {
      var x :| x in n.dirs && n.dirs[x] == d;
      assert j.dirs[x] in j.dirs.Values;
    }
  }

  lemma SameKeeps(j: Joint, n: Joint)
    requires Models(j) && C.SameMaps(j.s, n.s, {}) && n.m == j.m && n.a == j.a && n.dirs == j.dirs
    requires n.s.envs.Keys == j.s.envs.Keys
    ensures Models(n)
  {
    forall x, w: nat | x in n.dirs && w < UTOPPAGE ensures Mirrors(n.s, n.m, n.dirs[x], x, w) {
      assert Mirrors(j.s, j.m, j.dirs[x], x, w);
    }
  }

  // ---------- every step ----------

  /** The frame that the allocator gives is one that the machine calls fresh. */
  lemma FreeIsFresh(j: Joint)
    requires Models(j) && j.m.free != []
    ensures C.FreshFrame(j.s, j.m.free[0])
  {
    FreeHasNoRefs(j.m, j.a, NoFrame, j.m.free[0]);
    forall e: nat, v: nat | C.Maps(j.s, e, v) ensures C.At(j.s, e, v).frame != j.m.free[0] {
      InUserHalf(v);
      assert Mirrors(j.s, j.m, j.dirs[e], e, v);
      assert j.dirs[e] in j.dirs.Values;
      MappedIsData(j.m, j.a, NoFrame, j.dirs[e], v / NPTENTRIES, v % NPTENTRIES);
    }
  }

  ghost predicate Ready(j: Joint, template: seq<nat>, ev: C.Event) {
    && C.Inv(j.s) && C.Enabled(j.s, ev) && EnvVm.Template(template) && Succeeds(j, template, ev) && Models(j)
  }

  lemma FaultAllocCarries(j: Joint, template: seq<nat>, e: nat, v: nat, f: nat)
    requires Ready(j, template, C.FaultAlloc(e, v, f))
    ensures Models(Step(j, template, C.FaultAlloc(e, v, f)))
  {
    var n := Step(j, template, C.FaultAlloc(e, v, f));
    C.FaultAllocFrame(j.s, e, v, f);
    AllocKeeps(j, n, e, C.PFTEMP, true, false);
  }

  lemma FaultMapCarries(j: Joint, template: seq<nat>, e: nat)
    requires Ready(j, template, C.FaultMap(e))
    ensures Models(Step(j, template, C.FaultMap(e)))
  {
    var n := Step(j, template, C.FaultMap(e));
    assert C.EnvOk(j.s, e);
    C.FaultMapFrame(j.s, e);
    MapKeeps(j, n, e, C.PFTEMP, e, j.s.envs[e].handler.v, true, false);
  }

  lemma FaultUnmapCarries(j: Joint, template: seq<nat>, e: nat)
    requires Ready(j, template, C.FaultUnmap(e))
    ensures Models(Step(j, template, C.FaultUnmap(e)))
  {
    var n := Step(j, template, C.FaultUnmap(e));
    assert C.EnvOk(j.s, e);
    C.FaultUnmapFrame(j.s, e);
    UnmapKeeps(j, n, e, C.PFTEMP);
  }

  lemma ForkStartCarries(j: Joint, template: seq<nat>, e: nat, c: nat)
    requires Ready(j, template, C.ForkStart(e, c))
    ensures Models(Step(j, template, C.ForkStart(e, c)))
  {
    var n := Step(j, template, C.ForkStart(e, c));
    C.ForkStartFrame(j.s, e, c);
    SetupKeeps(j, n, template, c);
  }

  lemma DupChildCarries(j: Joint, template: seq<nat>, e: nat, v: nat)
    requires Ready(j, template, C.DupChild(e, v))
    ensures Models(Step(j, template, C.DupChild(e, v)))
  {
    var n := Step(j, template, C.DupChild(e, v));
    assert C.EnvOk(j.s, e);
    C.DupChildFrame(j.s, e, v);
    MapKeeps(j, n, e, v, j.s.envs[e].fork.child, v, false, C.Remarked(C.At(j.s, e, v)));
  }

  lemma RemarkCarries(j: Joint, template: seq<nat>, e: nat)
    requires Ready(j, template, C.Remark(e))
    ensures Models(Step(j, template, C.Remark(e)))
  {
    var n := Step(j, template, C.Remark(e));
    assert C.EnvOk(j.s, e);
    C.RemarkFrame(j.s, e);
    MapKeeps(j, n, e, C.ChildWindow(j.s, e).v, e, C.ChildWindow(j.s, e).v, false, true);
  }

  lemma ForkEndCarries(j: Joint, template: seq<nat>, e: nat, f: nat)
    requires Ready(j, template, C.ForkEnd(e, f))
    ensures Models(Step(j, template, C.ForkEnd(e, f)))
  {
    var n := Step(j, template, C.ForkEnd(e, f));
    assert C.EnvOk(j.s, e);
    C.ForkEndFrame(j.s, e, f);
    AllocKeeps(j, n, j.s.envs[e].fork.child, C.XSTACK, true, false);
  }

  lemma PageAllocCarries(j: Joint, template: seq<nat>, e: nat, v: nat, f: nat, w: bool, cow: bool)
    requires Ready(j, template, C.PageAlloc(e, v, f, w, cow))
    ensures Models(Step(j, template, C.PageAlloc(e, v, f, w, cow)))
  {
    var n := Step(j, template, C.PageAlloc(e, v, f, w, cow));
    C.PageAllocFrame(j.s, e, v, C.Pte(f, w, cow));
    AllocKeeps(j, n, e, v, w, cow);
  }

  lemma PageUnmapCarries(j: Joint, template: seq<nat>, e: nat, v: nat)
    requires Ready(j, template, C.PageUnmap(e, v))
    ensures Models(Step(j, template, C.PageUnmap(e, v)))
  {
    var n := Step(j, template, C.PageUnmap(e, v));
    C.PageUnmapFrame(j.s, e, v);
    UnmapKeeps(j, n, e, v);
  }

  lemma ExitCarries(j: Joint, template: seq<nat>, e: nat)
    requires Ready(j, template, C.Exit(e))
    ensures Models(Step(j, template, C.Exit(e)))
  {
    var n := Step(j, template, C.Exit(e));
    C.ExitFrame(j.s, e);
    ExitKeeps(j, n, e);
  }

  /** A store to memory changes no entry. */
  lemma StoreCarries(j: Joint, template: seq<nat>, ev: C.Event)
    requires Ready(j, template, ev) && (ev.Write? || ev.FaultCopy?)
    ensures Models(Step(j, template, ev))
  {
    match ev {
      case Write(e, v, off, b) => C.WriteFrame(j.s, e, v, off, b);
      case FaultCopy(e) => C.FaultCopyFrame(j.s, e);
    }
    SameKeeps(j, Step(j, template, ev));
  }

  /** Every step of the machine is what the page calls do to the page tables. */
  lemma StepCarries(j: Joint, template: seq<nat>, ev: C.Event)
    requires Ready(j, template, ev)
    ensures Models(Step(j, template, ev)) && C.Inv(Step(j, template, ev).s)
  {
    C.NextInv(j.s, ev);
    match ev
    case FaultAlloc(e, v, f) => FaultAllocCarries(j, template, e, v, f);
    case FaultMap(e) => FaultMapCarries(j, template, e);
    case FaultUnmap(e) => FaultUnmapCarries(j, template, e);
    case ForkStart(e, c) => ForkStartCarries(j, template, e, c);
    case DupChild(e, v) => DupChildCarries(j, template, e, v);
    case Remark(e) => RemarkCarries(j, template, e);
    case ForkEnd(e, f) => ForkEndCarries(j, template, e, f);
    case PageAlloc(e, v, f, w, cow) => PageAllocCarries(j, template, e, v, f, w, cow);
    case PageUnmap(e, v) => PageUnmapCarries(j, template, e, v);
    case Exit(e) => ExitCarries(j, template, e);
    case Write(_, _, _, _) => StoreCarries(j, template, ev);
    case FaultCopy(_) => StoreCarries(j, template, ev);
  }

  // ---------- only memory can fail ----------

  function AllocNeeds(m: Mem, d: nat, v: nat): nat {
    1 + MapNeeds(m, d, v)
  }

  function MapNeeds(m: Mem, d: nat, v: nat): nat {
    if PdeAt(m, d, v / NPTENTRIES) == 0 then 1 else 0
  }

  /** The frames that a step needs: its page, and a page table where there is none. */
  ghost function Needs(j: Joint, ev: C.Event): nat
    requires C.Inv(j.s) && C.Enabled(j.s, ev)
  {
    match ev
    case FaultAlloc(e, v, f) => AllocNeeds(j.m, Dir(j, e), C.PFTEMP)
    case FaultMap(e) => MapNeeds(j.m, Dir(j, e), j.s.envs[e].handler.v)
    case ForkStart(e, c) => 1
    case DupChild(e, v) => MapNeeds(j.m, Dir(j, j.s.envs[e].fork.child), v)
    case Remark(e) => MapNeeds(j.m, Dir(j, e), C.ChildWindow(j.s, e).v)
    case ForkEnd(e, f) => AllocNeeds(j.m, Dir(j, j.s.envs[e].fork.child), C.XSTACK)
    case PageAlloc(e, v, f, w, cow) => AllocNeeds(j.m, Dir(j, e), v)
    case _ => 0
  }

  lemma AllocSucceedsIff(j: Joint, e: nat, v: nat, w: bool, cow: bool)
    requires Models(j) && e in j.dirs && v < UTOPPAGE
    ensures AllocAt(j.m, j.dirs[e], v, w, cow).1 == 0 <==> |j.m.free| >= AllocNeeds(j.m, j.dirs[e], v)
  {
    InUserHalf(v);
    EntryOfWord(0, w, cow);
    assert j.dirs[e] in j.dirs.Values;
    EnvPageAllocExact(j.m, j.a, j.dirs[e], v / NPTENTRIES, v % NPTENTRIES, Bits(w, cow));
  }

  /** Write access is only asked for where the source has it. */
  lemma MapSucceedsIff(j: Joint, e: nat, v: nat, e2: nat, v2: nat, w: bool, cow: bool)
    requires Models(j) && C.Maps(j.s, e, v) && e2 in j.dirs && v2 < UTOPPAGE && (w ==> C.At(j.s, e, v).w)
    ensures MapAt(j.m, Dir(j, e), v, j.dirs[e2], v2, w, cow).1 == 0 <==> |j.m.free| >= MapNeeds(j.m, j.dirs[e2], v2)
  {
    InUserHalf(v);
    InUserHalf(v2);
    EntryOfWord(0, w, cow);
    assert Mirrors(j.s, j.m, j.dirs[e], e, v);
    assert j.dirs[e] in j.dirs.Values && j.dirs[e2] in j.dirs.Values;
    EnvPageMapExact(j.m, j.a, j.dirs[e], v / NPTENTRIES, v % NPTENTRIES,
                    j.dirs[e2], v2 / NPTENTRIES, v2 % NPTENTRIES, Bits(w, cow));
  }

  /** The checks of the system calls pass at every step; only frames can be missing. */
  lemma OnlyMemoryFails(j: Joint, template: seq<nat>, ev: C.Event)
    requires C.Inv(j.s) && C.Enabled(j.s, ev) && EnvVm.Template(template) && Models(j)
    requires ev.PageAlloc? ==> ev.v < UTOPPAGE
    ensures Call(j, template, ev).1 == 0 <==> |j.m.free| >= Needs(j, ev)
  {
    assert C.EnvOk(j.s, ev.e);
    match ev
    case FaultAlloc(e, v, f) => AllocSucceedsIff(j, e, C.PFTEMP, true, false);
    case FaultMap(e) => MapSucceedsIff(j, e, C.PFTEMP, e, j.s.envs[e].handler.v, true, false);
    case DupChild(e, v) =>
      MapSucceedsIff(j, e, v, j.s.envs[e].fork.child, v, false, C.Remarked(C.At(j.s, e, v)));
    case Remark(e) =>
      MapSucceedsIff(j, e, C.ChildWindow(j.s, e).v, e, C.ChildWindow(j.s, e).v, false, true);
    case ForkEnd(e, f) => AllocSucceedsIff(j, j.s.envs[e].fork.child, C.XSTACK, true, false);
    case PageAlloc(e, v, f, w, cow) => AllocSucceedsIff(j, e, v, w, cow);
    case _ =>
  }

  // ---------- whole runs ----------

  ghost predicate Run(j: Joint, template: seq<nat>, trace: seq<C.Event>, n: Joint)
    requires EnvVm.Template(template)
    decreases |trace|
  {
    if trace == [] then n == j
    else
      && C.Inv(j.s) && C.Enabled(j.s, trace[0]) && Succeeds(j, template, trace[0])
      && Run(Step(j, template, trace[0]), template, trace[1..], n)
  }

  lemma {:induction false} RunCarries(j: Joint, template: seq<nat>, trace: seq<C.Event>, n: Joint)
    requires EnvVm.Template(template) && Models(j) && C.Inv(j.s) && Run(j, template, trace, n)
    ensures Models(n) && C.Inv(n.s)
    decreases |trace|
  {
    if trace != [] {
      StepCarries(j, template, trace[0]);
      RunCarries(Step(j, template, trace[0]), template, trace[1..], n);
    }
  }

  /** Such a run is one of the machine, which CowFork compares with private pages. */
  lemma {:induction false} RunProjects(j: Joint, template: seq<nat>, trace: seq<C.Event>, n: Joint, p: C.Instant,
                                       t: C.Private) returns (r: C.Private)
    requires EnvVm.Template(template) && Run(j, template, trace, n)
    ensures C.Run(p, j.s, t, trace, n.s, r)
    decreases |trace|
  {
    if trace == [] {
      r := t;
    } else {
      var k := Step(j, template, trace[0]);
      r := RunProjects(k, template, trace[1..], n, p, C.Reference(p, j.s, t, trace[0]));
    }
  }

  /** One program with an empty address space, in frame 1; the other frames are free. */
  ghost predicate Boot(j: Joint) {
    && j.s == C.Boot() && j.dirs == map[0 := 1] && j.a.dirs == {1} && j.a.hand == {}
    && |j.m.words| == |j.m.refs| && (forall f :: 0 <= f < |j.m.words| ==> j.m.words[f] == Zeros())
    && 1 in j.a.managed && NoDup(j.m.free) && (forall f :: f in j.m.free <==> f in j.a.managed && f != 1)
    && (forall f :: f in j.a.managed ==> f < |j.m.refs| && j.m.refs[f] == if f == 1 then 1 else 0)
  }

  lemma BootModels(j: Joint)
    requires Boot(j)
    ensures Models(j) && C.Inv(j.s)
  {
    C.BootOk(C.ByWritable);
    EmptyDirectoryInv(j.m, j.a.managed);
    assert j.a == Acct(j.a.managed, {1}, {});
    assert j.dirs.Values == {j.dirs[0]};
  }

  /** The only reference to a frame that no other mapping of the machine names. */
  lemma OnlyReference(j: Joint, e: nat, v: nat)
    requires Models(j) && C.Maps(j.s, e, v)
    requires forall x: nat, w: nat ::
               C.Maps(j.s, x, w) && C.At(j.s, x, w).frame == C.At(j.s, e, v).frame ==> x == e && w == v
    ensures v < UTOPPAGE && e in j.dirs
    ensures RefsTo(j.m, j.a.dirs, C.At(j.s, e, v).frame) == {InTable(j.dirs[e], v / NPTENTRIES, v % NPTENTRIES)}
  {
    InUserHalf(v);
    assert Mirrors(j.s, j.m, j.dirs[e], e, v);
    assert j.dirs[e] in j.dirs.Values;
    MappedIsData(j.m, j.a, NoFrame, j.dirs[e], v / NPTENTRIES, v % NPTENTRIES);
    var f := C.At(j.s, e, v).frame;
    forall r | r in RefsTo(j.m, j.a.dirs, f) ensures r == InTable(j.dirs[e], v / NPTENTRIES, v % NPTENTRIES) {
      assert r.d in j.dirs.Values;
      var x :| x in j.dirs && j.dirs[x] == r.d;
      var w := r.i * NPTENTRIES + r.j;
      assert w / NPTENTRIES == r.i && w % NPTENTRIES == r.j;
      assert Mirrors(j.s, j.m, j.dirs[x], x, w);
    }
  }

  /** Copy-on-write over the reference counts: in every reachable state a page-table
      word with PTE_W, of a program that is neither in its fault handler nor forking,
      names a frame whose count is exactly one. */
  lemma WritableCountsOne(j: Joint, template: seq<nat>, trace: seq<C.Event>, n: Joint, e: nat, v: nat)
    requires EnvVm.Template(template) && Boot(j) && Run(j, template, trace, n)
    requires C.Active(n.s, e) && n.s.envs[e].fork == C.NoFork && v < UTOPPAGE
    ensures e in n.dirs
    ensures var word := WordOf(n.m, n.dirs[e], v);
      word != 0 && Writable(PermOf(word)) ==> FrameOf(word) < |n.m.refs| && n.m.refs[FrameOf(word)] == 1
  {
    BootModels(j);
    RunCarries(j, template, trace, n);
    assert Mirrors(n.s, n.m, n.dirs[e], e, v);
    var word := WordOf(n.m, n.dirs[e], v);
    if word != 0 && Writable(PermOf(word)) {
      forall x: nat, w: nat | C.Maps(n.s, x, w) && C.At(n.s, x, w).frame == C.At(n.s, e, v).frame
        ensures x == e && w == v
      {
        assert C.Excused(n.s, e, v, x, w);
      }
      OnlyReference(n, e, v);
      InUserHalf(v);
      assert n.dirs[e] in n.dirs.Values;
      MappedIsData(n.m, n.a, NoFrame, n.dirs[e], v / NPTENTRIES, v % NPTENTRIES);
    }
  }
}
