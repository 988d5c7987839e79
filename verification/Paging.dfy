/** Physical memory with reference-counted frames, a free list and two-level page
    tables kept in those same frames: the mathematical content of the operations
    of kern/pmap.c, and the accounting invariant they keep. */
module Paging {
  import opened Mmu

  /** words[f] is the content of frame f, refs[f] its pp_ref, free the frames on
      page_free_list from its head on. */
  datatype Mem = Mem(words: seq<seq<nat>>, refs: seq<int>, free: seq<nat>)

  /** Who owns the frames handed out by the allocator: dirs are the directories of
      the live environments, hand the frames obtained from page_alloc that nothing
      refers to yet.  Frames outside managed belong to the kernel image. */
  datatype Acct = Acct(managed: set<nat>, dirs: set<nat>, hand: set<nat>)

  // ---------- page directories and tables as words of memory ----------

  function Word(m: Mem, f: nat, j: nat): nat {
    if f < |m.words| && j < |m.words[f]| then m.words[f][j] else 0
  }

  function PdeAt(m: Mem, d: nat, i: nat): nat {
    Word(m, d, i)
  }

  function TableOf(m: Mem, d: nat, i: nat): nat {
    FrameOf(PdeAt(m, d, i))
  }

  function PteAt(m: Mem, d: nat, i: nat, j: nat): nat {
    if PdeAt(m, d, i) == 0 then 0 else Word(m, TableOf(m, d, i), j)
  }

  /** The flat address space of directory d: the page-table word of a user address. */
  function Translate(m: Mem, d: nat, va: nat): nat {
    PteAt(m, d, PDX(va), PTX(va))
  }

  /** The same by page number. */
  function WordOf(m: Mem, d: nat, page: nat): nat {
    PteAt(m, d, page / NPTENTRIES, page % NPTENTRIES)
  }

  lemma WordOfPage(m: Mem, d: nat, page: nat)
    requires page < NPTENTRIES * NPTENTRIES
    ensures WordOf(m, d, page) == Translate(m, d, page * PGSIZE)
  {
    assert page * PGSIZE / PTSIZE == page / NPTENTRIES && page * PGSIZE / PGSIZE == page;
  }

  function Store(m: Mem, f: nat, j: nat, w: nat): Mem {
    if f < |m.words| && j < |m.words[f]| then
      var frame: seq<nat> := m.words[f][j := w];
      m.(words := m.words[f := frame])
    else m
  }

  // ---------- references ----------

  /** The places a reference to a frame can come from. */
  datatype Slot = InTable(d: nat, i: nat, j: nat) | InDir(d: nat, i: nat) | Root(d: nat)

  ghost predicate Names(m: Mem, s: Slot, f: nat) {
    match s
    case InTable(d, i, j) => PteAt(m, d, i, j) != 0 && FrameOf(PteAt(m, d, i, j)) == f
    case InDir(d, i) => PdeAt(m, d, i) != 0 && TableOf(m, d, i) == f
    case Root(d) => d == f
  }

  ghost function Slots(dirs: set<nat>): set<Slot> {
    (set d, i, j | d in dirs && 0 <= i < USERPDES && 0 <= j < NPTENTRIES :: InTable(d, i, j))
    + (set d, i | d in dirs && 0 <= i < USERPDES :: InDir(d, i))
    + (set d | d in dirs :: Root(d))
  }

  ghost predicate IsSlot(dirs: set<nat>, s: Slot) {
    match s
    case InTable(d, i, j) => d in dirs && i < USERPDES && j < NPTENTRIES
    case InDir(d, i) => d in dirs && i < USERPDES
    case Root(d) => d in dirs
  }

  ghost function RefsTo(m: Mem, dirs: set<nat>, f: nat): (r: set<Slot>)
    ensures forall s :: s in r <==> IsSlot(dirs, s) && Names(m, s, f)
  {
    set s | s in Slots(dirs) && Names(m, s, f)
  }

  // ---------- the invariant ----------

  ghost predicate Shape(m: Mem, a: Acct) {
    && |m.words| == |m.refs|
    && (forall f :: 0 <= f < |m.words| ==> |m.words[f]| == NPTENTRIES)
    && (forall f :: f in a.managed ==> f < |m.refs|)
  }

  /** pp_ref counts the references; frame x has one more, taken by an operation
      that is still under way (NoFrame when there is none). */
  ghost predicate Counted(m: Mem, a: Acct, x: int)
    requires Shape(m, a)
  {
    forall f :: f in a.managed ==> m.refs[f] == |RefsTo(m, a.dirs, f)| + (if f == x then 1 else 0)
  }

  ghost predicate NoDup(s: seq<nat>) {
    forall i, j :: 0 <= i < j < |s| ==> s[i] != s[j]
  }

  /** The free list is duplicate-free and, with the frames in hand, holds exactly
      the frames of count zero. */
  ghost predicate FreeExact(m: Mem, a: Acct)
    requires Shape(m, a)
  {
    && NoDup(m.free)
    && (forall f :: f in m.free ==> f in a.managed && f !in a.hand)
    && a.hand <= a.managed
    && (forall f :: f in a.managed ==> (m.refs[f] == 0 <==> f in m.free || f in a.hand))
  }

  /** Directories and page tables have exactly one reference each, so they are
      never shared and never mapped as data. */
  ghost predicate Exclusive(m: Mem, a: Acct) {
    && a.dirs <= a.managed
    && (forall d :: d in a.dirs ==> RefsTo(m, a.dirs, d) == {Root(d)})
    && (forall d, i :: d in a.dirs && 0 <= i < USERPDES && PdeAt(m, d, i) != 0 ==>
         && TableOf(m, d, i) in a.managed
         && RefsTo(m, a.dirs, TableOf(m, d, i)) == {InDir(d, i)})
    && (forall d, i, j :: d in a.dirs && 0 <= i < USERPDES && 0 <= j < NPTENTRIES && PteAt(m, d, i, j) != 0 ==>
         FrameOf(PteAt(m, d, i, j)) in a.managed)
  }

  /** Testing an entry for zero, as the kernel does, tests its present bit. */
  ghost predicate AllPresent(m: Mem, a: Acct) {
    && (forall d, i :: d in a.dirs && 0 <= i < USERPDES && PdeAt(m, d, i) != 0 ==> Present(PdeAt(m, d, i)))
    && (forall d, i, j :: d in a.dirs && 0 <= i < USERPDES && 0 <= j < NPTENTRIES && PteAt(m, d, i, j) != 0 ==>
         Present(PteAt(m, d, i, j)))
  }

  ghost predicate Inv(m: Mem, a: Acct, x: int) {
    Shape(m, a) && Counted(m, a, x) && FreeExact(m, a) && Exclusive(m, a) && AllPresent(m, a)
  }

  const NoFrame := -1

  /** A frame that may be mapped: allocated, and neither a table nor a directory. */
  ghost predicate DataFrame(m: Mem, a: Acct, f: nat) {
    f in a.managed && f !in m.free && forall s :: s in RefsTo(m, a.dirs, f) ==> s.InTable?
  }

  // ---------- the operations ----------

  function Zeros(): (r: seq<nat>)
    ensures |r| == NPTENTRIES && forall j :: 0 <= j < NPTENTRIES ==> r[j] == 0
  {
    seq(NPTENTRIES, _ => 0)
  }

  /** page_alloc(ALLOC_ZERO) when the free list is not empty. */
  function Alloc(m: Mem): Mem {
    if m.free != [] && m.free[0] < |m.words| then
      m.(words := m.words[m.free[0] := Zeros()], free := m.free[1..])
    else m
  }

  function Incref(m: Mem, f: nat): Mem {
    if f < |m.refs| then m.(refs := m.refs[f := m.refs[f] + 1]) else m
  }

  function Decref(m: Mem, f: nat): Mem {
    if f < |m.refs| then
      m.(refs := m.refs[f := m.refs[f] - 1], free := if m.refs[f] == 1 then [f] + m.free else m.free)
    else m
  }

  /** pgdir_walk with create set finds a table or takes a frame for one. */
  predicate CanWalk(m: Mem, d: nat, i: nat) {
    PdeAt(m, d, i) != 0 || m.free != []
  }

  function Walk(m: Mem, d: nat, i: nat): Mem {
    if PdeAt(m, d, i) != 0 || m.free == [] then m
    else Store(Incref(Alloc(m), m.free[0]), d, i, PteWord(m.free[0], PTE_P + PTE_W + PTE_U))
  }

  function Remove(m: Mem, d: nat, i: nat, j: nat): Mem {
    if PteAt(m, d, i, j) == 0 then m
    else Store(Decref(m, FrameOf(PteAt(m, d, i, j))), TableOf(m, d, i), j, 0)
  }

  /** page_insert; it fails, and changes nothing, exactly when CanWalk is false. */
  function Insert(m: Mem, d: nat, i: nat, j: nat, f: nat, perm: nat): Mem {
    if !CanWalk(m, d, i) then m
    else
      var cleared := Remove(Incref(Walk(m, d, i), f), d, i, j);
      Store(cleared, TableOf(cleared, d, i), j, PteWord(f, perm))
  }

  // ---------- one entry of one table changes ----------

  /** Storing into the table below entry (d, i) touches that one entry and no
      other of any live address space. */
  lemma StoreEntryFrame(m: Mem, a: Acct, x: int, d: nat, i: nat, j: nat, w: nat)
    requires Inv(m, a, x) && d in a.dirs && i < USERPDES && j < NPTENTRIES && PdeAt(m, d, i) != 0
    ensures var m' := Store(m, TableOf(m, d, i), j, w);
            && (forall e, k :: e in a.dirs && 0 <= k < USERPDES ==> PdeAt(m', e, k) == PdeAt(m, e, k))
            && (forall e, k, l :: e in a.dirs && 0 <= k < USERPDES && 0 <= l < NPTENTRIES ==>
                 PteAt(m', e, k, l) == if e == d && k == i && l == j then w else PteAt(m, e, k, l))
  {
    var t := TableOf(m, d, i);
    var m' := Store(m, t, j, w);
    forall e, k | e in a.dirs && 0 <= k < USERPDES
      ensures PdeAt(m', e, k) == PdeAt(m, e, k)
    {
      assert Root(e) in RefsTo(m, a.dirs, e);
      assert e != t;
    }
    forall e, k, l | e in a.dirs && 0 <= k < USERPDES && 0 <= l < NPTENTRIES
      ensures PteAt(m', e, k, l) == if e == d && k == i && l == j then w else PteAt(m, e, k, l)
    {
      if PdeAt(m, e, k) != 0 && TableOf(m, e, k) == t {
        assert InDir(e, k) in RefsTo(m, a.dirs, t);
        assert InDir(d, i) in RefsTo(m, a.dirs, t);
      }
    }
  }

  lemma StoreEntryRefs(m: Mem, a: Acct, x: int, d: nat, i: nat, j: nat, w: nat, g: nat)
    requires Inv(m, a, x) && d in a.dirs && i < USERPDES && j < NPTENTRIES && PdeAt(m, d, i) != 0
    ensures var s := InTable(d, i, j);
            RefsTo(Store(m, TableOf(m, d, i), j, w), a.dirs, g)
              == RefsTo(m, a.dirs, g) - {s} + (if w != 0 && FrameOf(w) == g then {s} else {})
  {
    var m' := Store(m, TableOf(m, d, i), j, w);
    forall s | IsSlot(a.dirs, s)
      ensures Names(m', s, g) <==> if s == InTable(d, i, j) then w != 0 && FrameOf(w) == g else Names(m, s, g)
    {
      StoreEntryNames(m, a, x, d, i, j, w, g, s);
    }
  }

  lemma StoreEntryNames(m: Mem, a: Acct, x: int, d: nat, i: nat, j: nat, w: nat, g: nat, s: Slot)
    requires Inv(m, a, x) && d in a.dirs && i < USERPDES && j < NPTENTRIES && PdeAt(m, d, i) != 0 && IsSlot(a.dirs, s)
    ensures Names(Store(m, TableOf(m, d, i), j, w), s, g)
       <==> if s == InTable(d, i, j) then w != 0 && FrameOf(w) == g else Names(m, s, g)
  {
    StoreEntryFrame(m, a, x, d, i, j, w);
  }

  // ---------- page_remove ----------

  lemma RefsOfWords(m: Mem, n: Mem, dirs: set<nat>, g: nat)
    requires m.words == n.words
    ensures RefsTo(m, dirs, g) == RefsTo(n, dirs, g)
  {
    forall s | IsSlot(dirs, s) ensures Names(m, s, g) == Names(n, s, g) {
    }
  }

  /** Clearing an entry takes its slot out of every frame's references. */
  lemma RemoveRefs(m: Mem, a: Acct, x: int, d: nat, i: nat, j: nat, g: nat)
    requires Inv(m, a, x) && d in a.dirs && i < USERPDES && j < NPTENTRIES
    ensures RefsTo(Remove(m, d, i, j), a.dirs, g) == RefsTo(m, a.dirs, g) - {InTable(d, i, j)}
  {
    var p := PteAt(m, d, i, j);
    if p != 0 {
      StoreEntryFrame(m, a, x, d, i, j, 0);
      StoreEntryRefs(m, a, x, d, i, j, 0, g);
      RefsOfWords(Store(m, TableOf(m, d, i), j, 0), Remove(m, d, i, j), a.dirs, g);
    }
  }

  /** page_remove deletes one entry of the flat map and frames all others. */
  lemma RemoveMaps(m: Mem, a: Acct, x: int, d: nat, i: nat, j: nat)
    requires Inv(m, a, x) && d in a.dirs && i < USERPDES && j < NPTENTRIES
    ensures var m' := Remove(m, d, i, j);
            && (forall e, k :: e in a.dirs && 0 <= k < USERPDES ==> PdeAt(m', e, k) == PdeAt(m, e, k))
            && (forall e, k, l :: e in a.dirs && 0 <= k < USERPDES && 0 <= l < NPTENTRIES ==>
                 PteAt(m', e, k, l) == if e == d && k == i && l == j then 0 else PteAt(m, e, k, l))
  {
    if PteAt(m, d, i, j) != 0 {
      StoreEntryFrame(m, a, x, d, i, j, 0);
      var m' := Remove(m, d, i, j);
      var w := Store(m, TableOf(m, d, i), j, 0);
      assert m'.words == w.words;
      forall e, k ensures PdeAt(m', e, k) == PdeAt(w, e, k) {
      }
      forall e, k, l ensures PteAt(m', e, k, l) == PteAt(w, e, k, l) {
      }
    }
  }

  lemma RemoveExclusive(m: Mem, a: Acct, x: int, d: nat, i: nat, j: nat)
    requires Inv(m, a, x) && d in a.dirs && i < USERPDES && j < NPTENTRIES
    ensures Exclusive(Remove(m, d, i, j), a)
  {
    RemoveMaps(m, a, x, d, i, j);
    var m' := Remove(m, d, i, j);
    forall e | e in a.dirs ensures RefsTo(m', a.dirs, e) == {Root(e)} {
      RemoveRefs(m, a, x, d, i, j, e);
    }
    forall e, k | e in a.dirs && 0 <= k < USERPDES && PdeAt(m', e, k) != 0
      ensures RefsTo(m', a.dirs, TableOf(m', e, k)) == {InDir(e, k)}
    {
      RemoveRefs(m, a, x, d, i, j, TableOf(m, e, k));
    }
  }

  /** page_decref puts the frame on the free list exactly when its count drops to 0. */
  lemma DecrefFree(m: Mem, a: Acct, f: nat)
    requires Shape(m, a) && FreeExact(m, a) && f in a.managed && m.refs[f] >= 1
    ensures Shape(Decref(m, f), a) && FreeExact(Decref(m, f), a)
  {
    var m' := Decref(m, f);
    assert f !in m.free && f !in a.hand;
    forall g | g in a.managed ensures m'.refs[g] == 0 <==> g in m'.free || g in a.hand {
      if g != f {
        assert m'.refs[g] == m.refs[g];
        assert g in m'.free <==> g in m.free;
      }
    }
  }

  lemma RemoveCounted(m: Mem, a: Acct, x: int, d: nat, i: nat, j: nat)
    requires Inv(m, a, x) && d in a.dirs && i < USERPDES && j < NPTENTRIES && PteAt(m, d, i, j) != 0
    ensures FrameOf(PteAt(m, d, i, j)) in a.managed && m.refs[FrameOf(PteAt(m, d, i, j))] >= 1
    ensures Shape(Remove(m, d, i, j), a) && Counted(Remove(m, d, i, j), a, x)
  {
    var m', f, s := Remove(m, d, i, j), FrameOf(PteAt(m, d, i, j)), InTable(d, i, j);
    assert s in RefsTo(m, a.dirs, f);
    forall g | g in a.managed
      ensures m'.refs[g] == |RefsTo(m', a.dirs, g)| + (if g == x then 1 else 0)
    {
      RemoveRefs(m, a, x, d, i, j, g);
      assert s in RefsTo(m, a.dirs, g) <==> g == f;
    }
  }

  lemma RemoveInv(m: Mem, a: Acct, x: int, d: nat, i: nat, j: nat)
    requires Inv(m, a, x) && d in a.dirs && i < USERPDES && j < NPTENTRIES
    ensures Inv(Remove(m, d, i, j), a, x)
  {
    if PteAt(m, d, i, j) != 0 {
      RemoveCounted(m, a, x, d, i, j);
      DecrefFree(m, a, FrameOf(PteAt(m, d, i, j)));
      RemoveExclusive(m, a, x, d, i, j);
      assert AllPresent(Remove(m, d, i, j), a) by {
        RemoveMaps(m, a, x, d, i, j);
      }
    }
  }

  /** Counts, the free list and the frames in hand do not bear on the entries. */
  lemma SameWords(m: Mem, n: Mem, a: Acct, b: Acct)
    requires m.words == n.words && a.dirs == b.dirs && a.managed == b.managed && Exclusive(m, a) && AllPresent(m, a)
    ensures Exclusive(n, b) && AllPresent(n, b) && SameMap(m, n, a.dirs)
    ensures forall g :: RefsTo(n, a.dirs, g) == RefsTo(m, a.dirs, g)
    ensures forall e, k :: PdeAt(n, e, k) == PdeAt(m, e, k)
  {
    forall g ensures RefsTo(n, a.dirs, g) == RefsTo(m, a.dirs, g) {
      RefsOfWords(n, m, a.dirs, g);
    }
    forall e, k ensures PdeAt(n, e, k) == PdeAt(m, e, k) {
    }
    forall e, k, l ensures PteAt(n, e, k, l) == PteAt(m, e, k, l) {
    }
  }

  // ---------- pgdir_walk ----------

  lemma FreeHasNoRefs(m: Mem, a: Acct, x: int, t: nat)
    requires Inv(m, a, x) && t in m.free
    ensures t in a.managed && t !in a.hand && t != x && t !in a.dirs
    ensures RefsTo(m, a.dirs, t) == {}
  {
    assert m.refs[t] == 0;
    assert t in a.dirs ==> Root(t) in RefsTo(m, a.dirs, t);
  }

  /** pgdir_walk never changes the flat map: a new table is empty. */
  lemma WalkMaps(m: Mem, a: Acct, x: int, d: nat, i: nat)
    requires Inv(m, a, x) && d in a.dirs && i < USERPDES && PdeAt(m, d, i) == 0 && m.free != []
    ensures var m' := Walk(m, d, i);
            && PdeAt(m', d, i) != 0 && TableOf(m', d, i) == m.free[0]
            && (forall e, k :: e in a.dirs && 0 <= k < USERPDES && (e != d || k != i) ==>
                 PdeAt(m', e, k) == PdeAt(m, e, k))
            && (forall e, k, l :: e in a.dirs && 0 <= k < USERPDES && 0 <= l < NPTENTRIES ==>
                 PteAt(m', e, k, l) == PteAt(m, e, k, l))
  {
    var m', t := Walk(m, d, i), m.free[0];
    FreeHasNoRefs(m, a, x, t);
    PteWordFields(t, PTE_P + PTE_W + PTE_U);
    forall e, k | e in a.dirs && 0 <= k < USERPDES && PdeAt(m, e, k) != 0
      ensures TableOf(m, e, k) != t && TableOf(m, e, k) != d
    {
      assert InDir(e, k) in RefsTo(m, a.dirs, TableOf(m, e, k));
    }
  }

  /** The new directory entry names the frame taken, and allows what any page below it may
      allow; the table has one reference and is empty. */
  lemma WalkEntry(m: Mem, a: Acct, x: int, d: nat, i: nat)
    requires Inv(m, a, x) && d in a.dirs && i < USERPDES && PdeAt(m, d, i) == 0 && m.free != []
    ensures var t, n := m.free[0], Walk(m, d, i); var pde := PdeAt(n, d, i);
      && Present(pde) && FrameOf(pde) == t && Writable(PermOf(pde)) && UserBit(PermOf(pde))
      && t < |n.refs| && n.refs[t] == 1 && n.free == m.free[1..] && t < |n.words| && n.words[t] == Zeros()
  {
    FreeHasNoRefs(m, a, x, m.free[0]);
    PteWordFields(m.free[0], PTE_P + PTE_W + PTE_U);
    SmallKeepsFrame(m.free[0], PTE_P + PTE_W + PTE_U);
    assert Root(d) in RefsTo(m, a.dirs, d);
  }

  lemma WalkRefs(m: Mem, a: Acct, x: int, d: nat, i: nat, g: nat)
    requires Inv(m, a, x) && d in a.dirs && i < USERPDES && PdeAt(m, d, i) == 0 && m.free != []
    ensures RefsTo(Walk(m, d, i), a.dirs, g)
         == RefsTo(m, a.dirs, g) + (if g == m.free[0] then {InDir(d, i)} else {})
  {
    WalkMaps(m, a, x, d, i);
    var m' := Walk(m, d, i);
    forall s | IsSlot(a.dirs, s) && s != InDir(d, i) ensures Names(m', s, g) == Names(m, s, g) {
    }
  }

  lemma WalkFree(m: Mem, a: Acct, x: int, d: nat, i: nat)
    requires Inv(m, a, x) && d in a.dirs && i < USERPDES && PdeAt(m, d, i) == 0 && m.free != []
    ensures Shape(Walk(m, d, i), a) && FreeExact(Walk(m, d, i), a)
    ensures Walk(m, d, i).free == m.free[1..]
    ensures Walk(m, d, i).refs == m.refs[m.free[0] := 1]
  {
    var m', t := Walk(m, d, i), m.free[0];
    FreeHasNoRefs(m, a, x, t);
    assert m'.free == m.free[1..];
    assert m.free == [t] + m.free[1..];
    assert t !in m.free[1..];
    forall g | g in a.managed ensures m'.refs[g] == 0 <==> g in m'.free || g in a.hand {
      assert g in m.free <==> g == t || g in m.free[1..];
    }
  }

  lemma WalkExclusive(m: Mem, a: Acct, x: int, d: nat, i: nat)
    requires Inv(m, a, x) && d in a.dirs && i < USERPDES && PdeAt(m, d, i) == 0 && m.free != []
    ensures Exclusive(Walk(m, d, i), a)
  {
    var m', t := Walk(m, d, i), m.free[0];
    FreeHasNoRefs(m, a, x, t);
    WalkMaps(m, a, x, d, i);
    forall e | e in a.dirs ensures RefsTo(m', a.dirs, e) == {Root(e)} {
      WalkRefs(m, a, x, d, i, e);
    }
    forall e, k | e in a.dirs && 0 <= k < USERPDES && PdeAt(m', e, k) != 0
      ensures TableOf(m', e, k) in a.managed && RefsTo(m', a.dirs, TableOf(m', e, k)) == {InDir(e, k)}
    {
      WalkRefs(m, a, x, d, i, TableOf(m', e, k));
      assert PdeAt(m, e, k) != 0 ==> InDir(e, k) in RefsTo(m, a.dirs, TableOf(m, e, k));
    }
  }

  lemma WalkInv(m: Mem, a: Acct, x: int, d: nat, i: nat)
    requires Inv(m, a, x) && d in a.dirs && i < USERPDES && CanWalk(m, d, i)
    ensures Inv(Walk(m, d, i), a, x) && PdeAt(Walk(m, d, i), d, i) != 0
  {
    if PdeAt(m, d, i) == 0 {
      var m' := Walk(m, d, i);
      FreeHasNoRefs(m, a, x, m.free[0]);
      WalkMaps(m, a, x, d, i);
      WalkFree(m, a, x, d, i);
      WalkExclusive(m, a, x, d, i);
      PteWordFields(m.free[0], PTE_P + PTE_W + PTE_U);
      forall g | g in a.managed
        ensures m'.refs[g] == |RefsTo(m', a.dirs, g)| + (if g == x then 1 else 0)
      {
        WalkRefs(m, a, x, d, i, g);
      }
    }
  }

  // ---------- page_insert ----------

  /** Taking a reference in advance: the frame leaves the in-hand set and owes one
      reference until it is mapped. */
  lemma IncrefInv(m: Mem, a: Acct, f: nat)
    requires Inv(m, a, NoFrame) && DataFrame(m, a, f)
    ensures Inv(Incref(m, f), a.(hand := a.hand - {f}), f)
  {
    var m', a' := Incref(m, f), a.(hand := a.hand - {f});
    SameWords(m, m', a, a');
    forall g | g in a.managed ensures m'.refs[g] == 0 <==> g in m'.free || g in a'.hand {
    }
  }

  lemma FillRefs(m: Mem, a: Acct, d: nat, i: nat, j: nat, f: nat, perm: nat, g: nat)
    requires Inv(m, a, f) && KeepsFrame(f, perm)
    requires d in a.dirs && i < USERPDES && j < NPTENTRIES && PdeAt(m, d, i) != 0 && PteAt(m, d, i, j) == 0
    ensures var m' := Store(m, TableOf(m, d, i), j, PteWord(f, perm));
            RefsTo(m', a.dirs, g) == RefsTo(m, a.dirs, g) + (if g == f then {InTable(d, i, j)} else {})
    ensures InTable(d, i, j) !in RefsTo(m, a.dirs, g)
  {
    var w, s := PteWord(f, perm), InTable(d, i, j);
    assert w != 0 && FrameOf(w) == f by {
      PteWordFields(f, perm);
    }
    StoreEntryRefs(m, a, f, d, i, j, w, g);
    assert !Names(m, s, g);
    assert RefsTo(m, a.dirs, g) - {s} == RefsTo(m, a.dirs, g);
  }

  lemma FillExclusive(m: Mem, a: Acct, d: nat, i: nat, j: nat, f: nat, perm: nat)
    requires Inv(m, a, f) && DataFrame(m, a, f) && KeepsFrame(f, perm)
    requires d in a.dirs && i < USERPDES && j < NPTENTRIES && PdeAt(m, d, i) != 0 && PteAt(m, d, i, j) == 0
    ensures Exclusive(Store(m, TableOf(m, d, i), j, PteWord(f, perm)), a)
  {
    var m' := Store(m, TableOf(m, d, i), j, PteWord(f, perm));
    FillMaps(m, a, d, i, j, f, perm);
    forall e | e in a.dirs ensures RefsTo(m', a.dirs, e) == {Root(e)} {
      FillOther(m, a, d, i, j, f, perm, e, Root(e));
    }
    forall e, k | e in a.dirs && 0 <= k < USERPDES && PdeAt(m', e, k) != 0
      ensures RefsTo(m', a.dirs, TableOf(m', e, k)) == {InDir(e, k)}
    {
      FillOther(m, a, d, i, j, f, perm, TableOf(m, e, k), InDir(e, k));
    }
  }

  lemma FillOther(m: Mem, a: Acct, d: nat, i: nat, j: nat, f: nat, perm: nat, g: nat, s: Slot)
    requires Inv(m, a, f) && DataFrame(m, a, f) && KeepsFrame(f, perm) && RefsTo(m, a.dirs, g) == {s} && !s.InTable?
    requires d in a.dirs && i < USERPDES && j < NPTENTRIES && PdeAt(m, d, i) != 0 && PteAt(m, d, i, j) == 0
    ensures RefsTo(Store(m, TableOf(m, d, i), j, PteWord(f, perm)), a.dirs, g) == {s}
  {
    assert s in RefsTo(m, a.dirs, g);
    FillRefs(m, a, d, i, j, f, perm, g);
  }

  lemma FillMaps(m: Mem, a: Acct, d: nat, i: nat, j: nat, f: nat, perm: nat)
    requires Inv(m, a, f) && KeepsFrame(f, perm)
    requires d in a.dirs && i < USERPDES && j < NPTENTRIES && PdeAt(m, d, i) != 0
    ensures var m' := Store(m, TableOf(m, d, i), j, PteWord(f, perm));
            && (forall e, k :: e in a.dirs && 0 <= k < USERPDES ==> PdeAt(m', e, k) == PdeAt(m, e, k))
            && (forall e, k, l :: e in a.dirs && 0 <= k < USERPDES && 0 <= l < NPTENTRIES ==>
                 if e == d && k == i && l == j then
                   Present(PteAt(m', e, k, l)) && FrameOf(PteAt(m', e, k, l)) == f
                 else PteAt(m', e, k, l) == PteAt(m, e, k, l))
  {
    PteWordFields(f, perm);
    StoreEntryFrame(m, a, f, d, i, j, PteWord(f, perm));
  }

  lemma FillCount(m: Mem, a: Acct, d: nat, i: nat, j: nat, f: nat, perm: nat, g: nat)
    requires Inv(m, a, f) && KeepsFrame(f, perm) && g in a.managed
    requires d in a.dirs && i < USERPDES && j < NPTENTRIES && PdeAt(m, d, i) != 0 && PteAt(m, d, i, j) == 0
    ensures m.refs[g] == |RefsTo(Store(m, TableOf(m, d, i), j, PteWord(f, perm)), a.dirs, g)|
  {
    FillRefs(m, a, d, i, j, f, perm, g);
  }

  /** Paying the owed reference of f by writing it into an empty entry. */
  lemma FillInv(m: Mem, a: Acct, d: nat, i: nat, j: nat, f: nat, perm: nat)
    requires Inv(m, a, f) && DataFrame(m, a, f) && KeepsFrame(f, perm)
    requires d in a.dirs && i < USERPDES && j < NPTENTRIES && PdeAt(m, d, i) != 0 && PteAt(m, d, i, j) == 0
    ensures Inv(Store(m, TableOf(m, d, i), j, PteWord(f, perm)), a, NoFrame)
  {
    var m' := Store(m, TableOf(m, d, i), j, PteWord(f, perm));
    forall g | g in a.managed ensures m'.refs[g] == |RefsTo(m', a.dirs, g)| {
      FillCount(m, a, d, i, j, f, perm, g);
    }
    FillExclusive(m, a, d, i, j, f, perm);
    assert AllPresent(m', a) by {
      FillMaps(m, a, d, i, j, f, perm);
    }
  }

  ghost predicate SameMap(m: Mem, n: Mem, dirs: set<nat>) {
    forall e, k, l :: e in dirs && 0 <= k < USERPDES && 0 <= l < NPTENTRIES ==> PteAt(n, e, k, l) == PteAt(m, e, k, l)
  }

  lemma WalkData(m: Mem, a: Acct, d: nat, i: nat, f: nat)
    requires Inv(m, a, NoFrame) && DataFrame(m, a, f) && CanWalk(m, d, i) && d in a.dirs && i < USERPDES
    ensures var w := Walk(m, d, i);
            Inv(w, a, NoFrame) && DataFrame(w, a, f) && PdeAt(w, d, i) != 0 && SameMap(m, w, a.dirs)
  {
    WalkInv(m, a, NoFrame, d, i);
    if PdeAt(m, d, i) == 0 {
      WalkMaps(m, a, NoFrame, d, i);
      WalkRefs(m, a, NoFrame, d, i, f);
      WalkFree(m, a, NoFrame, d, i);
    }
  }

  lemma IncrefData(m: Mem, a: Acct, d: nat, i: nat, f: nat)
    requires Inv(m, a, NoFrame) && DataFrame(m, a, f) && d in a.dirs && i < USERPDES && PdeAt(m, d, i) != 0
    ensures var w, a' := Incref(m, f), a.(hand := a.hand - {f});
            Inv(w, a', f) && DataFrame(w, a', f) && PdeAt(w, d, i) != 0 && SameMap(m, w, a.dirs)
  {
    IncrefInv(m, a, f);
    RefsOfWords(Incref(m, f), m, a.dirs, f);
  }

  lemma RemoveData(m: Mem, a: Acct, d: nat, i: nat, j: nat, f: nat)
    requires Inv(m, a, f) && DataFrame(m, a, f) && d in a.dirs && i < USERPDES && j < NPTENTRIES
    ensures DataFrame(Remove(m, d, i, j), a, f)
  {
    RemoveInv(m, a, f, d, i, j);
    RemoveRefs(m, a, f, d, i, j, f);
    assert Remove(m, d, i, j).refs[f] >= 1;
  }

  /** The state of page_insert just before the new entry is written. */
  lemma InsertCleared(m: Mem, a: Acct, d: nat, i: nat, j: nat, f: nat)
    requires Inv(m, a, NoFrame) && DataFrame(m, a, f) && CanWalk(m, d, i)
    requires d in a.dirs && i < USERPDES && j < NPTENTRIES
    ensures var c := Remove(Incref(Walk(m, d, i), f), d, i, j);
            var a' := a.(hand := a.hand - {f});
            && Inv(c, a', f) && DataFrame(c, a', f) && PdeAt(c, d, i) != 0
            && (forall e, k, l :: e in a.dirs && 0 <= k < USERPDES && 0 <= l < NPTENTRIES ==>
                 PteAt(c, e, k, l) == if e == d && k == i && l == j then 0 else PteAt(m, e, k, l))
  {
    var w := Walk(m, d, i);
    WalkData(m, a, d, i, f);
    IncrefData(w, a, d, i, f);
    var w', a' := Incref(w, f), a.(hand := a.hand - {f});
    RemoveInv(w', a', f, d, i, j);
    RemoveData(w', a', d, i, j, f);
    RemoveMaps(w', a', f, d, i, j);
  }

  /** An entry that names another frame than the one whose count was raised leaves that
      count one too high. */
  lemma MisfillBreaks(m: Mem, a: Acct, d: nat, i: nat, j: nat, f: nat, perm: nat)
    requires Inv(m, a, f) && f in a.managed && !KeepsFrame(f, perm)
    requires d in a.dirs && i < USERPDES && j < NPTENTRIES && PdeAt(m, d, i) != 0 && PteAt(m, d, i, j) == 0
    ensures !Inv(Store(m, TableOf(m, d, i), j, PteWord(f, perm)), a, NoFrame)
  {
    var m' := Store(m, TableOf(m, d, i), j, PteWord(f, perm));
    PteWordFields(f, perm);
    StoreEntryRefs(m, a, f, d, i, j, PteWord(f, perm), f);
    assert RefsTo(m', a.dirs, f) == RefsTo(m, a.dirs, f);
    assert m'.refs[f] == |RefsTo(m', a.dirs, f)| + 1;
  }

  /** page_insert updates one entry of the flat map, whatever perm is; it keeps the
      accounting, with the frame out of the in-hand set, exactly when perm keeps the
      frame, which any perm below 4096 does.  When it fails nothing has changed. */
  lemma InsertRefines(m: Mem, a: Acct, d: nat, i: nat, j: nat, f: nat, perm: nat)
    requires Inv(m, a, NoFrame) && DataFrame(m, a, f)
    requires d in a.dirs && i < USERPDES && j < NPTENTRIES
    ensures var m' := Insert(m, d, i, j, f, perm);
            if CanWalk(m, d, i) then
              && (Inv(m', a.(hand := a.hand - {f}), NoFrame) <==> KeepsFrame(f, perm))
              && forall e, k, l :: e in a.dirs && 0 <= k < USERPDES && 0 <= l < NPTENTRIES ==>
                   PteAt(m', e, k, l) == if e == d && k == i && l == j then PteWord(f, perm) else PteAt(m, e, k, l)
            else m' == m
  {
    if CanWalk(m, d, i) {
      InsertCleared(m, a, d, i, j, f);
      var c, a' := Remove(Incref(Walk(m, d, i), f), d, i, j), a.(hand := a.hand - {f});
      if KeepsFrame(f, perm) {
        FillInv(c, a', d, i, j, f, perm);
      } else {
        MisfillBreaks(c, a', d, i, j, f, perm);
      }
      StoreEntryFrame(c, a', f, d, i, j, PteWord(f, perm));
    }
  }

  // ---------- consequences for whole operations ----------

  /** The change of every reference count made by a successful page_insert: the
      frame gains one, the frame mapped there before loses one, and a new table
      has exactly one. */
  lemma InsertCounts(m: Mem, a: Acct, d: nat, i: nat, j: nat, f: nat, perm: nat, g: nat)
    requires Inv(m, a, NoFrame) && DataFrame(m, a, f) && CanWalk(m, d, i)
    requires d in a.dirs && i < USERPDES && j < NPTENTRIES && g in a.managed
    ensures g < |Insert(m, d, i, j, f, perm).refs|
    ensures var p := PteAt(m, d, i, j);
            Insert(m, d, i, j, f, perm).refs[g] == m.refs[g]
              + (if g == f then 1 else 0)
              - (if p != 0 && g == FrameOf(p) then 1 else 0)
              + (if PdeAt(m, d, i) == 0 && g == m.free[0] then 1 else 0)
  {
    var w := Walk(m, d, i);
    WalkCounts(m, a, NoFrame, d, i, g);
    assert Inv(w, a, NoFrame) && DataFrame(w, a, f) && PdeAt(w, d, i) != 0
        && PteAt(w, d, i, j) == PteAt(m, d, i, j) by
    {
      WalkData(m, a, d, i, f);
    }
    IncrefRemoveCounts(w, a, d, i, j, f, g);
    InsertRefsAre(m, d, i, j, f, perm);
  }

  lemma InsertRefsAre(m: Mem, d: nat, i: nat, j: nat, f: nat, perm: nat)
    requires CanWalk(m, d, i)
    ensures Insert(m, d, i, j, f, perm).refs == Remove(Incref(Walk(m, d, i), f), d, i, j).refs
  {
  }

  lemma IncrefRemoveCounts(m: Mem, a: Acct, d: nat, i: nat, j: nat, f: nat, g: nat)
    requires Inv(m, a, NoFrame) && DataFrame(m, a, f) && PdeAt(m, d, i) != 0
    requires d in a.dirs && i < USERPDES && j < NPTENTRIES && g in a.managed
    ensures var p, n := PteAt(m, d, i, j), Remove(Incref(m, f), d, i, j).refs;
            && |n| == |m.refs|
            && n[g] == m.refs[g] + (if g == f then 1 else 0) - (if p != 0 && g == FrameOf(p) then 1 else 0)
  {
    IncrefData(m, a, d, i, f);
    assert PteAt(Incref(m, f), d, i, j) == PteAt(m, d, i, j);
    RemoveCounts(Incref(m, f), a.(hand := a.hand - {f}), f, d, i, j, g);
  }

  lemma WalkCounts(m: Mem, a: Acct, x: int, d: nat, i: nat, g: nat)
    requires Inv(m, a, x) && d in a.dirs && i < USERPDES && CanWalk(m, d, i) && g in a.managed
    ensures var n := Walk(m, d, i).refs;
            |n| == |m.refs| && n[g] == m.refs[g] + (if PdeAt(m, d, i) == 0 && g == m.free[0] then 1 else 0)
  {
    if PdeAt(m, d, i) == 0 {
      WalkFree(m, a, x, d, i);
      assert m.refs[m.free[0]] == 0;
    }
  }

  lemma RemoveCounts(m: Mem, a: Acct, x: int, d: nat, i: nat, j: nat, g: nat)
    requires Inv(m, a, x) && d in a.dirs && i < USERPDES && j < NPTENTRIES && g in a.managed
    ensures var p, n := PteAt(m, d, i, j), Remove(m, d, i, j).refs;
            |n| == |m.refs| && n[g] == m.refs[g] - (if p != 0 && g == FrameOf(p) then 1 else 0)
  {
    assert PteAt(m, d, i, j) != 0 ==> FrameOf(PteAt(m, d, i, j)) in a.managed;
  }

  /** Inserting the page that is already mapped there changes the one entry and
      neither a count nor the free list. */
  lemma ReinsertOnlyPermissions(m: Mem, a: Acct, d: nat, i: nat, j: nat, perm: nat)
    requires Inv(m, a, NoFrame)
    requires d in a.dirs && i < USERPDES && j < NPTENTRIES && PteAt(m, d, i, j) != 0
    ensures var f := FrameOf(PteAt(m, d, i, j));
            && DataFrame(m, a, f)
            && Insert(m, d, i, j, f, perm) == Store(m, TableOf(m, d, i), j, PteWord(f, perm))
  {
    var f, t := FrameOf(PteAt(m, d, i, j)), TableOf(m, d, i);
    MappedIsData(m, a, NoFrame, d, i, j);
    ReinsertClears(m, d, i, j, f);
    assert TableOf(Store(m, t, j, 0), d, i) == t by {
      StoreEntryFrame(m, a, NoFrame, d, i, j, 0);
    }
    assert t < |m.words|;
    assert m.words[t][j := 0][j := PteWord(f, perm)] == m.words[t][j := PteWord(f, perm)];
  }

  /** Taking and dropping the reference cancel, and the entry is cleared. */
  lemma ReinsertClears(m: Mem, d: nat, i: nat, j: nat, f: nat)
    requires PteAt(m, d, i, j) != 0 && f == FrameOf(PteAt(m, d, i, j)) < |m.refs| && m.refs[f] >= 1
    ensures Remove(Incref(m, f), d, i, j) == Store(m, TableOf(m, d, i), j, 0)
  {
    var m1 := Incref(m, f);
    assert PteAt(m1, d, i, j) == PteAt(m, d, i, j) && PdeAt(m1, d, i) == PdeAt(m, d, i);
    assert Decref(m1, f).refs == m.refs;
    assert Decref(m1, f) == m;
  }

  /** Whatever a user entry names is an ordinary data frame. */
  lemma MappedIsData(m: Mem, a: Acct, x: int, d: nat, i: nat, j: nat)
    requires Inv(m, a, x) && d in a.dirs && i < USERPDES && j < NPTENTRIES && PteAt(m, d, i, j) != 0
    ensures DataFrame(m, a, FrameOf(PteAt(m, d, i, j)))
    ensures m.refs[FrameOf(PteAt(m, d, i, j))] >= 1
  {
    var f, s := FrameOf(PteAt(m, d, i, j)), InTable(d, i, j);
    assert s in RefsTo(m, a.dirs, f);
    forall r | r in RefsTo(m, a.dirs, f) ensures r.InTable? {
      assert r.InDir? || r.Root? ==> RefsTo(m, a.dirs, f) == {r};
    }
  }

  ghost function Used(m: Mem, a: Acct): set<nat> {
    set f | f in a.managed && f < |m.refs| && m.refs[f] > 0
  }

  /** Frames are conserved: every managed frame is free, in hand or referenced,
      and no frame is two of these. */
  lemma Conservation(m: Mem, a: Acct, x: int)
    requires Inv(m, a, x)
    ensures |m.free| + |a.hand| + |Used(m, a)| == |a.managed|
  {
    var free, used := Elements(m.free), Used(m, a);
    NoDupCard(m.free);
    forall f | f in a.managed ensures f in used <==> f !in m.free && f !in a.hand {
      assert m.refs[f] >= 0;
    }
    assert free * a.hand == {};
    assert (free + a.hand) * used == {};
    assert |free + a.hand + used| == |free| + |a.hand| + |used|;
    assert a.managed == free + a.hand + used;
  }

  ghost function Elements(s: seq<nat>): set<nat> {
    set f | f in s
  }

  lemma {:induction false} NoDupCard(s: seq<nat>)
    requires NoDup(s)
    ensures |Elements(s)| == |s|
  {
    if s == [] {
    } else {
      var rest := s[1..];
      assert forall i :: 0 <= i < |rest| ==> rest[i] == s[i + 1];
      assert s[0] !in rest;
      NoDupCard(rest);
      assert s == [s[0]] + rest;
      assert Elements(s) == Elements(rest) + {s[0]};
    }
  }

  /** A user store into a data frame moves no translation and no count. */
  lemma UserStoreHarmless(m: Mem, a: Acct, f: nat, j: nat, w: nat)
    requires Inv(m, a, NoFrame) && DataFrame(m, a, f)
    ensures Inv(Store(m, f, j, w), a, NoFrame) && SameMap(m, Store(m, f, j, w), a.dirs)
  {
    DataStoreEntries(m, a, f, j, w);
    SameEntries(m, Store(m, f, j, w), a, NoFrame);
  }

  lemma DataStoreEntries(m: Mem, a: Acct, f: nat, j: nat, w: nat)
    requires DataFrame(m, a, f)
    ensures var m' := Store(m, f, j, w);
            && (forall e, k :: e in a.dirs && 0 <= k < USERPDES ==> PdeAt(m', e, k) == PdeAt(m, e, k))
            && SameMap(m, m', a.dirs)
  {
    forall e, k | e in a.dirs && 0 <= k < USERPDES
      ensures PdeAt(Store(m, f, j, w), e, k) == PdeAt(m, e, k) && (PdeAt(m, e, k) != 0 ==> TableOf(m, e, k) != f)
    {
      NotData(m, a, f, e, k);
    }
  }

  lemma NotData(m: Mem, a: Acct, f: nat, e: nat, k: nat)
    requires DataFrame(m, a, f) && e in a.dirs && k < USERPDES
    ensures e != f && (PdeAt(m, e, k) != 0 ==> TableOf(m, e, k) != f)
  {
    assert Root(e) in RefsTo(m, a.dirs, e);
    assert PdeAt(m, e, k) != 0 ==> InDir(e, k) in RefsTo(m, a.dirs, TableOf(m, e, k));
  }

  /** Two memories with the same counts, free list and user entries satisfy the
      invariant together. */
  lemma SameEntries(m: Mem, n: Mem, a: Acct, x: int)
    requires Inv(m, a, x) && Shape(n, a) && n.refs == m.refs && n.free == m.free
    requires forall e, k :: e in a.dirs && 0 <= k < USERPDES ==> PdeAt(n, e, k) == PdeAt(m, e, k)
    requires SameMap(m, n, a.dirs)
    ensures Inv(n, a, x)
  {
    forall g ensures RefsTo(n, a.dirs, g) == RefsTo(m, a.dirs, g) {
      forall s | IsSlot(a.dirs, s) ensures Names(n, s, g) == Names(m, s, g) {
      }
    }
  }

  /** Zeroing a free frame changes no entry. */
  lemma ZeroFreeInv(m: Mem, a: Acct, n: Mem)
    requires Inv(m, a, NoFrame) && m.free != [] && m.free[0] < |m.words|
    requires n == m.(words := m.words[m.free[0] := Zeros()])
    ensures Inv(n, a, NoFrame) && SameMap(m, n, a.dirs)
    ensures forall e, k :: e in a.dirs && 0 <= k < USERPDES ==> PdeAt(n, e, k) == PdeAt(m, e, k)
  {
    var z := m.free[0];
    FreeHasNoRefs(m, a, NoFrame, z);
    forall e, k | e in a.dirs && 0 <= k < USERPDES
      ensures PdeAt(n, e, k) == PdeAt(m, e, k) && (PdeAt(m, e, k) != 0 ==> TableOf(m, e, k) != z)
    {
      assert PdeAt(m, e, k) != 0 ==> InDir(e, k) in RefsTo(m, a.dirs, TableOf(m, e, k));
    }
    SameEntries(m, n, a, NoFrame);
  }

  /** The head of the free list changes into the caller's hand. */
  lemma PopFree(m: Mem, a: Acct)
    requires Shape(m, a) && FreeExact(m, a) && m.free != []
    ensures FreeExact(m.(free := m.free[1..]), a.(hand := a.hand + {m.free[0]}))
  {
    var z := m.free[0];
    assert m.free == [z] + m.free[1..];
    forall g | g in a.managed ensures m.refs[g] == 0 <==> g in m.free[1..] || g in a.hand + {z} {
      assert g in m.free <==> g == z || g in m.free[1..];
    }
  }

  lemma AllocInv(m: Mem, a: Acct)
    requires Inv(m, a, NoFrame) && m.free != []
    ensures var z, a' := m.free[0], a.(hand := a.hand + {m.free[0]});
            && Inv(Alloc(m), a', NoFrame) && DataFrame(Alloc(m), a', z)
            && SameMap(m, Alloc(m), a.dirs)
            && Alloc(m).refs == m.refs && Alloc(m).free == m.free[1..]
            && forall e, k :: e in a.dirs && 0 <= k < USERPDES ==> PdeAt(Alloc(m), e, k) == PdeAt(m, e, k)
  {
    var z, a' := m.free[0], a.(hand := a.hand + {m.free[0]});
    FreeHasNoRefs(m, a, NoFrame, z);
    var n := m.(words := m.words[z := Zeros()]);
    ZeroFreeInv(m, a, n);
    FreeHasNoRefs(n, a, NoFrame, z);
    SameWords(n, Alloc(m), a, a');
    PopFree(n, a);
  }

  /** Page-table work never touches the content of a data frame. */
  lemma RemoveKeepsContents(m: Mem, a: Acct, x: int, d: nat, i: nat, j: nat, g: nat)
    requires Inv(m, a, x) && d in a.dirs && i < USERPDES && j < NPTENTRIES && DataFrame(m, a, g)
    ensures g < |Remove(m, d, i, j).words| == |m.words| && Remove(m, d, i, j).words[g] == m.words[g]
  {
    assert PdeAt(m, d, i) != 0 ==> InDir(d, i) in RefsTo(m, a.dirs, TableOf(m, d, i));
  }

  lemma WalkKeepsContents(m: Mem, a: Acct, x: int, d: nat, i: nat, g: nat)
    requires Inv(m, a, x) && d in a.dirs && i < USERPDES && DataFrame(m, a, g)
    ensures g < |Walk(m, d, i).words| == |m.words| && Walk(m, d, i).words[g] == m.words[g]
  {
    assert Root(d) in RefsTo(m, a.dirs, d);
  }

  lemma InsertKeepsContents(m: Mem, a: Acct, d: nat, i: nat, j: nat, f: nat, perm: nat, g: nat)
    requires Inv(m, a, NoFrame) && DataFrame(m, a, f) && DataFrame(m, a, g)
    requires d in a.dirs && i < USERPDES && j < NPTENTRIES
    ensures g < |Insert(m, d, i, j, f, perm).words| == |m.words|
    ensures Insert(m, d, i, j, f, perm).words[g] == m.words[g]
  {
    if CanWalk(m, d, i) {
      var w := Walk(m, d, i);
      WalkKeepsContents(m, a, NoFrame, d, i, g);
      assert Inv(w, a, NoFrame) && DataFrame(w, a, f) && DataFrame(w, a, g) && PdeAt(w, d, i) != 0 by {
        WalkData(m, a, d, i, f);
        WalkData(m, a, d, i, g);
      }
      InsertTail(w, a, d, i, j, f, g);
      InsertLastStore(m, d, i, j, f, perm, g);
    }
  }

  lemma InsertLastStore(m: Mem, d: nat, i: nat, j: nat, f: nat, perm: nat, g: nat)
    requires CanWalk(m, d, i)
    requires g < |Remove(Incref(Walk(m, d, i), f), d, i, j).words|
    requires TableOf(Remove(Incref(Walk(m, d, i), f), d, i, j), d, i) != g
    ensures var c := Remove(Incref(Walk(m, d, i), f), d, i, j);
            |Insert(m, d, i, j, f, perm).words| == |c.words| && Insert(m, d, i, j, f, perm).words[g] == c.words[g]
  {
  }

  lemma InsertTail(m: Mem, a: Acct, d: nat, i: nat, j: nat, f: nat, g: nat)
    requires Inv(m, a, NoFrame) && DataFrame(m, a, f) && DataFrame(m, a, g) && PdeAt(m, d, i) != 0
    requires d in a.dirs && i < USERPDES && j < NPTENTRIES
    ensures var c := Remove(Incref(m, f), d, i, j);
            g < |c.words| == |m.words| && c.words[g] == m.words[g] && TableOf(c, d, i) != g
  {
    var n, owing := Incref(m, f), a.(hand := a.hand - {f});
    IncrefData(m, a, d, i, f);
    RefsOfWords(n, m, a.dirs, g);
    assert DataFrame(n, owing, g);
    RemoveKeepsContents(n, owing, f, d, i, j, g);
    RemoveMaps(n, owing, f, d, i, j);
    assert InDir(d, i) in RefsTo(n, a.dirs, TableOf(n, d, i));
  }
}
