/** Copy-on-write fork (lib/fork.c) as a machine whose steps are system calls and
    single memory accesses, so that any number of environments interleave; and the
    reference machine in which every page is private and fork copies deeply. */
module CowFork {
  const PFTEMP := 0x7ff      // page number of PFTEMP
  const XSTACK := 0xeebff    // page number of the user exception stack
  const PGSIZE := 4096

  type Page = p: seq<int> | |p| == PGSIZE witness seq(PGSIZE, _ => 0)

  function ZeroPage(): Page {
    seq(PGSIZE, _ => 0)
  }

  /** A page that has just been allocated reads as zeros, also one that had other contents. */
  lemma NewPageIsZero(s: State, e: nat, v: nat, p: Pte, i: nat)
    requires e in s.envs && i < PGSIZE
    ensures Maps(DoPageAlloc(s, e, v, p), e, v) && Content(DoPageAlloc(s, e, v, p), e, v)[i] == 0
  {
  }

  function Put(p: Page, off: nat, b: int): Page {
    if off < |p| then p[off := b] else p
  }

  /** A user page-table entry: PTE_W and PTE_COW besides the frame. */
  datatype Pte = Pte(frame: nat, w: bool, cow: bool)

  /** Where pgfault is, for the page v it serves. */
  datatype Handler = Idle | Allocated(v: nat) | Copied(v: nat) | Moved(v: nat)

  /** Between the two sys_page_map calls of duppage a window on page v of the child
      is open; w is the PTE_W that duppage found set or clear in the parent's entry. */
  datatype Window = Closed | Open(v: nat, w: bool)

  datatype Fork = NoFork | Duplicating(child: nat)

  /** born is false for a child that its parent has not made runnable yet; window
      is the one its parent has open on it. */
  datatype Env = Env(pages: map<nat, Pte>, handler: Handler, fork: Fork, window: Window, born: bool)

  datatype State = State(envs: map<nat, Env>, data: map<nat, Page>)

  datatype Event =
    | Write(e: nat, v: nat, off: nat, b: int)
    | FaultAlloc(e: nat, v: nat, f: nat)
    | FaultCopy(e: nat)
    | FaultMap(e: nat)
    | FaultUnmap(e: nat)
    | ForkStart(e: nat, c: nat)
    | DupChild(e: nat, v: nat)
    | Remark(e: nat)
    | ForkEnd(e: nat, f: nat)
    | PageAlloc(e: nat, v: nat, f: nat, w: bool, cow: bool)
    | PageUnmap(e: nat, v: nat)
    | Exit(e: nat)

  // ---------- state access ----------

  predicate Maps(s: State, e: nat, v: nat) {
    e in s.envs && v in s.envs[e].pages
  }

  function At(s: State, e: nat, v: nat): Pte
    requires Maps(s, e, v)
  {
    s.envs[e].pages[v]
  }

  function Content(s: State, e: nat, v: nat): Page
    requires Maps(s, e, v) && At(s, e, v).frame in s.data
  {
    s.data[At(s, e, v).frame]
  }

  function SetEnv(s: State, e: nat, n: Env): State {
    s.(envs := s.envs[e := n])
  }

  function SetPage(n: Env, v: nat, p: Pte): Env {
    n.(pages := n.pages[v := p])
  }

  ghost predicate FreshFrame(s: State, f: nat) {
    forall e: nat, v: nat :: Maps(s, e, v) ==> At(s, e, v).frame != f
  }

  /** A running program outside its fault handler. */
  predicate Active(s: State, e: nat) {
    Born(s, e) && s.envs[e].handler == Idle
  }

  predicate Born(s: State, e: nat) {
    e in s.envs && s.envs[e].born
  }

  function ChildWindow(s: State, e: nat): Window
    requires e in s.envs
  {
    if s.envs[e].fork.Duplicating? && s.envs[e].fork.child in s.envs then s.envs[s.envs[e].fork.child].window
    else Closed
  }

  // ---------- the steps ----------

  /** One store by the program or by its handler. */
  predicate CanWrite(s: State, e: nat, v: nat) {
    Born(s, e) && v != PFTEMP && Maps(s, e, v) && At(s, e, v).w
  }

  function DoWrite(s: State, e: nat, v: nat, off: nat, b: int): State
    requires CanWrite(s, e, v) && At(s, e, v).frame in s.data
  {
    s.(data := s.data[At(s, e, v).frame := Put(Content(s, e, v), off, b)])
  }

  /** A write fault on a page that is mapped without PTE_W: pgfault starts, and its
      sys_page_alloc maps the free frame f at PFTEMP.  The check for PTE_COW at the
      head of pgfault never fires, so any such page is served. */
  ghost predicate CanFaultAlloc(s: State, e: nat, v: nat, f: nat) {
    Active(s, e) && v != PFTEMP && Maps(s, e, v) && !At(s, e, v).w && FreshFrame(s, f)
  }

  function DoFaultAlloc(s: State, e: nat, v: nat, f: nat): State
    requires e in s.envs
  {
    var n := SetPage(s.envs[e], PFTEMP, Pte(f, true, false)).(handler := Allocated(v));
    SetEnv(s, e, n).(data := s.data[f := ZeroPage()])
  }

  /** memmove(PFTEMP, addr, PGSIZE) */
  predicate CanFaultCopy(s: State, e: nat) {
    Born(s, e) && s.envs[e].handler.Allocated?
  }

  function DoFaultCopy(s: State, e: nat): State
    requires CanFaultCopy(s, e) && Maps(s, e, PFTEMP) && Maps(s, e, s.envs[e].handler.v)
    requires At(s, e, s.envs[e].handler.v).frame in s.data
  {
    var n, v := s.envs[e], s.envs[e].handler.v;
    SetEnv(s, e, n.(handler := Copied(v))).(data := s.data[At(s, e, PFTEMP).frame := Content(s, e, v)])
  }

  /** sys_page_map(0, PFTEMP, 0, addr, PTE_W) */
  predicate CanFaultMap(s: State, e: nat) {
    Born(s, e) && s.envs[e].handler.Copied?
  }

  function DoFaultMap(s: State, e: nat): State
    requires CanFaultMap(s, e) && Maps(s, e, PFTEMP)
  {
    var n, v := s.envs[e], s.envs[e].handler.v;
    SetEnv(s, e, SetPage(n, v, Pte(At(s, e, PFTEMP).frame, true, false)).(handler := Moved(v)))
  }

  /** sys_page_unmap(0, PFTEMP); pgfault returns. */
  predicate CanFaultUnmap(s: State, e: nat) {
    Born(s, e) && s.envs[e].handler.Moved?
  }

  function DoFaultUnmap(s: State, e: nat): State
    requires e in s.envs
  {
    var n := s.envs[e];
    SetEnv(s, e, n.(pages := n.pages - {PFTEMP}, handler := Idle))
  }

  /** sys_exofork */
  predicate CanForkStart(s: State, e: nat, c: nat) {
    Active(s, e) && s.envs[e].fork == NoFork && c !in s.envs
  }

  function DoForkStart(s: State, e: nat, c: nat): State
    requires e in s.envs
  {
    SetEnv(SetEnv(s, e, s.envs[e].(fork := Duplicating(c))), c, Env(map[], Idle, NoFork, Closed, false))
  }

  /** The first sys_page_map of duppage, into the child. */
  predicate CanDupChild(s: State, e: nat, v: nat) {
    && Active(s, e) && s.envs[e].fork.Duplicating? && ChildWindow(s, e) == Closed
    && v != PFTEMP && v != XSTACK && Maps(s, e, v) && !Maps(s, s.envs[e].fork.child, v)
  }

  /** Only a page that is writable or copy-on-write is re-marked afterwards. */
  predicate Remarked(p: Pte) {
    p.w || p.cow
  }

  function DoDupChild(s: State, e: nat, v: nat): State
    requires CanDupChild(s, e, v) && s.envs[e].fork.child in s.envs
  {
    var p, c := At(s, e, v), s.envs[e].fork.child;
    var child := SetPage(s.envs[c], v, Pte(p.frame, false, Remarked(p)));
    SetEnv(s, c, if Remarked(p) then child.(window := Open(v, p.w)) else child)
  }

  /** The second sys_page_map of duppage, over the parent's own mapping. */
  predicate CanRemark(s: State, e: nat) {
    Active(s, e) && s.envs[e].fork.Duplicating? && ChildWindow(s, e).Open?
  }

  function DoRemark(s: State, e: nat): State
    requires CanRemark(s, e) && Maps(s, e, ChildWindow(s, e).v)
  {
    var c, v := s.envs[e].fork.child, ChildWindow(s, e).v;
    SetEnv(SetEnv(s, e, SetPage(s.envs[e], v, Pte(At(s, e, v).frame, false, true))), c, s.envs[c].(window := Closed))
  }

  /** The end of fork: a fresh exception stack f for the child, which may then run. */
  ghost predicate CanForkEnd(s: State, e: nat, f: nat) {
    Active(s, e) && s.envs[e].fork.Duplicating? && ChildWindow(s, e) == Closed && FreshFrame(s, f)
  }

  function DoForkEnd(s: State, e: nat, f: nat): State
    requires e in s.envs && s.envs[e].fork.Duplicating? && s.envs[e].fork.child in s.envs
  {
    var c := s.envs[e].fork.child;
    var child := SetPage(s.envs[c], XSTACK, Pte(f, true, false)).(born := true);
    SetEnv(SetEnv(s, e, s.envs[e].(fork := NoFork)), c, child).(data := s.data[f := ZeroPage()])
  }

  /** sys_page_alloc of a page, with or without PTE_W and PTE_COW, over whatever was
      mapped there. */
  ghost predicate CanPageAlloc(s: State, e: nat, v: nat, f: nat) {
    Active(s, e) && s.envs[e].fork == NoFork && v != PFTEMP && FreshFrame(s, f)
  }

  function DoPageAlloc(s: State, e: nat, v: nat, p: Pte): State
    requires e in s.envs
  {
    SetEnv(s, e, SetPage(s.envs[e], v, p)).(data := s.data[p.frame := ZeroPage()])
  }

  predicate CanPageUnmap(s: State, e: nat, v: nat) {
    Active(s, e) && s.envs[e].fork == NoFork && v != PFTEMP
  }

  function DoPageUnmap(s: State, e: nat, v: nat): State
    requires e in s.envs
  {
    SetEnv(s, e, s.envs[e].(pages := s.envs[e].pages - {v}))
  }

  /** A program may end anywhere, in its fault handler or inside fork too; a child it
      was making is then never run. */
  predicate CanExit(s: State, e: nat) {
    Born(s, e)
  }

  function DoExit(s: State, e: nat): State {
    s.(envs := s.envs - {e})
  }

  ghost predicate Enabled(s: State, ev: Event) {
    match ev
    case Write(e, v, off, b) => CanWrite(s, e, v)
    case FaultAlloc(e, v, f) => CanFaultAlloc(s, e, v, f)
    case FaultCopy(e) => CanFaultCopy(s, e)
    case FaultMap(e) => CanFaultMap(s, e)
    case FaultUnmap(e) => CanFaultUnmap(s, e)
    case ForkStart(e, c) => CanForkStart(s, e, c)
    case DupChild(e, v) => CanDupChild(s, e, v)
    case Remark(e) => CanRemark(s, e)
    case ForkEnd(e, f) => CanForkEnd(s, e, f)
    case PageAlloc(e, v, f, w, cow) => CanPageAlloc(s, e, v, f)
    case PageUnmap(e, v) => CanPageUnmap(s, e, v)
    case Exit(e) => CanExit(s, e)
  }

  ghost function Next(s: State, ev: Event): State
    requires Inv(s) && Enabled(s, ev)
  {
    match ev
    case Write(e, v, off, b) => DoWrite(s, e, v, off, b)
    case FaultAlloc(e, v, f) => DoFaultAlloc(s, e, v, f)
    case FaultCopy(e) => DoFaultCopy(s, e)
    case FaultMap(e) => DoFaultMap(s, e)
    case FaultUnmap(e) => DoFaultUnmap(s, e)
    case ForkStart(e, c) => DoForkStart(s, e, c)
    case DupChild(e, v) => DoDupChild(s, e, v)
    case Remark(e) => DoRemark(s, e)
    case ForkEnd(e, f) => DoForkEnd(s, e, f)
    case PageAlloc(e, v, f, w, cow) => DoPageAlloc(s, e, v, Pte(f, w, cow))
    case PageUnmap(e, v) => DoPageUnmap(s, e, v)
    case Exit(e) => DoExit(s, e)
  }

  // ---------- the invariant ----------

  /** The two extra mappings a writable frame may have for a moment: PFTEMP while
      pgfault moves it, and the unborn child's while duppage is between its calls on a
      page that it found writable. */
  predicate Twin(s: State, e: nat, v: nat, e2: nat, v2: nat)
    requires e in s.envs
  {
    || (e2 == e && s.envs[e].handler.Moved? && (v == PFTEMP || v2 == PFTEMP)
        && (v == s.envs[e].handler.v || v2 == s.envs[e].handler.v))
    || (s.envs[e].fork.Duplicating? && e2 == s.envs[e].fork.child && v2 == v
        && ChildWindow(s, e).Open? && ChildWindow(s, e).v == v && ChildWindow(s, e).w)
  }

  /** Two different mappings of one frame, the first with PTE_W. */
  predicate SharesWritable(s: State, e: nat, v: nat, e2: nat, v2: nat) {
    && Maps(s, e, v) && At(s, e, v).w && Maps(s, e2, v2) && At(s, e2, v2).frame == At(s, e, v).frame
    && (e != e2 || v != v2)
  }

  ghost predicate WritableUnique(s: State) {
    forall e: nat, v: nat, e2: nat, v2: nat :: Excused(s, e, v, e2, v2)
  }

  predicate Excused(s: State, e: nat, v: nat, e2: nat, v2: nat) {
    SharesWritable(s, e, v, e2, v2) ==> Twin(s, e, v, e2, v2)
  }

  ghost predicate HandlerOk(s: State, e: nat)
    requires e in s.envs
  {
    var h := s.envs[e].handler;
    && (Maps(s, e, PFTEMP) <==> h != Idle)
    && (h != Idle ==> h.v != PFTEMP && Maps(s, e, h.v) && At(s, e, PFTEMP).w && s.envs[e].born)
    && (h.Allocated? || h.Copied? ==> !At(s, e, h.v).w)
    && (h.Copied? && At(s, e, PFTEMP).frame in s.data && At(s, e, h.v).frame in s.data ==>
         Content(s, e, PFTEMP) == Content(s, e, h.v))
    && (h.Moved? ==> At(s, e, h.v).frame == At(s, e, PFTEMP).frame && At(s, e, h.v).w)
  }

  ghost predicate ForkOk(s: State, e: nat)
    requires e in s.envs
  {
    var k, w := s.envs[e].fork, ChildWindow(s, e);
    && (s.envs[e].born ==> s.envs[e].window == Closed)
    && (k.Duplicating? ==>
         && s.envs[e].born && k.child in s.envs && !s.envs[k.child].born && k.child != e
         && (forall e2 :: e2 in s.envs && e2 != e && s.envs[e2].fork.Duplicating? ==> s.envs[e2].fork.child != k.child)
         && (w.Open? ==>
              && w.v != PFTEMP && Maps(s, e, w.v) && Maps(s, k.child, w.v)
              && (w.w ==> At(s, e, w.v).w && At(s, k.child, w.v).frame == At(s, e, w.v).frame)))
  }

  ghost predicate UnbornOk(s: State, e: nat)
    requires e in s.envs
  {
    !s.envs[e].born ==>
      s.envs[e].handler == Idle && s.envs[e].fork == NoFork && forall v :: Maps(s, e, v) ==> !At(s, e, v).w
  }

  ghost predicate Backed(s: State, e: nat) {
    forall v: nat :: Maps(s, e, v) ==> At(s, e, v).frame in s.data
  }

  ghost predicate EnvOk(s: State, e: nat)
    requires e in s.envs
  {
    HandlerOk(s, e) && ForkOk(s, e) && UnbornOk(s, e)
  }

  ghost predicate Inv(s: State) {
    WritableUnique(s) && forall e :: e in s.envs ==> Backed(s, e) && EnvOk(s, e)
  }

  /** Two states with the same mappings except that page v of e is now t. */
  ghost predicate OneSet(s: State, n: State, e: nat, v: nat, t: Pte) {
    && (forall x: nat, w: nat :: Maps(n, x, w) <==> (x == e && w == v) || Maps(s, x, w))
    && (forall x: nat, w: nat :: Maps(n, x, w) ==> At(n, x, w) == if x == e && w == v then t else At(s, x, w))
  }

  /** ... except that e has left. */
  ghost predicate LeftOnly(s: State, n: State, e: nat) {
    && (forall x: nat, w: nat :: Maps(n, x, w) <==> Maps(s, x, w) && x != e)
    && (forall x: nat, w: nat :: Maps(n, x, w) ==> At(n, x, w) == At(s, x, w))
  }

  /** ... except that the mappings in gone are no more. */
  ghost predicate SameMaps(s: State, n: State, gone: set<(nat, nat)>) {
    && (forall x: nat, w: nat :: Maps(n, x, w) <==> Maps(s, x, w) && (x, w) !in gone)
    && (forall x: nat, w: nat :: Maps(n, x, w) ==> At(n, x, w) == At(s, x, w))
  }

  lemma WriteFrame(s: State, e: nat, v: nat, off: nat, b: int)
    requires Inv(s) && CanWrite(s, e, v)
    ensures SameMaps(s, DoWrite(s, e, v, off, b), {})
  {
  }

  lemma WritePair(s: State, e: nat, v: nat, off: nat, b: int, x: nat, w: nat, y: nat, z: nat)
    requires Inv(s) && CanWrite(s, e, v)
    requires var n := DoWrite(s, e, v, off, b); SharesWritable(n, x, w, y, z)
    ensures Twin(DoWrite(s, e, v, off, b), x, w, y, z)
  {
    assert Excused(s, x, w, y, z) && Excused(s, y, z, x, w);
    WriteFrame(s, e, v, off, b);
  }

  lemma WriteEnv(s: State, e: nat, v: nat, off: nat, b: int, x: nat)
    requires Inv(s) && CanWrite(s, e, v) && x in DoWrite(s, e, v, off, b).envs
    ensures Backed(DoWrite(s, e, v, off, b), x) && EnvOk(DoWrite(s, e, v, off, b), x)
  {
    WriteFrame(s, e, v, off, b);
    assert Excused(s, e, v, x, PFTEMP) && (s.envs[x].handler.Copied? ==> Excused(s, e, v, x, s.envs[x].handler.v));
  }

  lemma FaultAllocFrame(s: State, e: nat, v: nat, f: nat)
    requires Inv(s) && CanFaultAlloc(s, e, v, f)
    ensures OneSet(s, DoFaultAlloc(s, e, v, f), e, PFTEMP, Pte(f, true, false))
  {
  }

  lemma FaultAllocPair(s: State, e: nat, v: nat, f: nat, x: nat, w: nat, y: nat, z: nat)
    requires Inv(s) && CanFaultAlloc(s, e, v, f)
    requires var n := DoFaultAlloc(s, e, v, f); SharesWritable(n, x, w, y, z)
    ensures Twin(DoFaultAlloc(s, e, v, f), x, w, y, z)
  {
    assert Excused(s, x, w, y, z) && Excused(s, y, z, x, w);
    FaultAllocFrame(s, e, v, f);
  }

  lemma FaultAllocForks(s: State, e: nat, v: nat, f: nat, x: nat)
    requires Inv(s) && CanFaultAlloc(s, e, v, f) && x in DoFaultAlloc(s, e, v, f).envs
    ensures ForkOk(DoFaultAlloc(s, e, v, f), x)
  {
    FaultAllocFrame(s, e, v, f);
  }

  lemma FaultAllocEnv(s: State, e: nat, v: nat, f: nat, x: nat)
    requires Inv(s) && CanFaultAlloc(s, e, v, f) && x in DoFaultAlloc(s, e, v, f).envs
    ensures Backed(DoFaultAlloc(s, e, v, f), x) && EnvOk(DoFaultAlloc(s, e, v, f), x)
  {
    FaultAllocForks(s, e, v, f, x);
    FaultAllocFrame(s, e, v, f);
  }

  lemma FaultCopyFrame(s: State, e: nat)
    requires Inv(s) && CanFaultCopy(s, e)
    ensures SameMaps(s, DoFaultCopy(s, e), {})
  {
  }

  lemma FaultCopyPair(s: State, e: nat, x: nat, w: nat, y: nat, z: nat)
    requires Inv(s) && CanFaultCopy(s, e)
    requires var n := DoFaultCopy(s, e); SharesWritable(n, x, w, y, z)
    ensures Twin(DoFaultCopy(s, e), x, w, y, z)
  {
    assert Excused(s, x, w, y, z) && Excused(s, y, z, x, w);
    FaultCopyFrame(s, e);
  }

  lemma FaultCopyEnv(s: State, e: nat, x: nat)
    requires Inv(s) && CanFaultCopy(s, e) && x in DoFaultCopy(s, e).envs
    ensures Backed(DoFaultCopy(s, e), x) && EnvOk(DoFaultCopy(s, e), x)
  {
    FaultCopyFrame(s, e);
    assert Excused(s, e, PFTEMP, x, PFTEMP);
    assert s.envs[x].handler != Idle ==> Excused(s, e, PFTEMP, x, s.envs[x].handler.v);
  }

  lemma FaultMapFrame(s: State, e: nat)
    requires Inv(s) && CanFaultMap(s, e)
    ensures OneSet(s, DoFaultMap(s, e), e, s.envs[e].handler.v, Pte(At(s, e, PFTEMP).frame, true, false))
  {
  }

  lemma FaultMapPair(s: State, e: nat, x: nat, w: nat, y: nat, z: nat)
    requires Inv(s) && CanFaultMap(s, e)
    requires var n := DoFaultMap(s, e); SharesWritable(n, x, w, y, z)
    ensures Twin(DoFaultMap(s, e), x, w, y, z)
  {
    assert Excused(s, x, w, y, z);
    assert Excused(s, e, PFTEMP, x, w) && Excused(s, e, PFTEMP, y, z);
    FaultMapFrame(s, e);
  }

  lemma FaultMapEnv(s: State, e: nat, x: nat)
    requires Inv(s) && CanFaultMap(s, e) && x in DoFaultMap(s, e).envs
    ensures Backed(DoFaultMap(s, e), x) && EnvOk(DoFaultMap(s, e), x)
  {
    FaultMapFrame(s, e);
  }

  lemma FaultUnmapFrame(s: State, e: nat)
    requires Inv(s) && CanFaultUnmap(s, e)
    ensures SameMaps(s, DoFaultUnmap(s, e), {(e, PFTEMP)})
  {
  }

  lemma FaultUnmapPair(s: State, e: nat, x: nat, w: nat, y: nat, z: nat)
    requires Inv(s) && CanFaultUnmap(s, e)
    requires var n := DoFaultUnmap(s, e); SharesWritable(n, x, w, y, z)
    ensures Twin(DoFaultUnmap(s, e), x, w, y, z)
  {
    assert Excused(s, x, w, y, z) && Excused(s, y, z, x, w);
    FaultUnmapFrame(s, e);
  }

  lemma FaultUnmapEnv(s: State, e: nat, x: nat)
    requires Inv(s) && CanFaultUnmap(s, e) && x in DoFaultUnmap(s, e).envs
    ensures Backed(DoFaultUnmap(s, e), x) && EnvOk(DoFaultUnmap(s, e), x)
  {
    FaultUnmapFrame(s, e);
  }

  lemma ForkStartFrame(s: State, e: nat, c: nat)
    requires Inv(s) && CanForkStart(s, e, c)
    ensures SameMaps(s, DoForkStart(s, e, c), {})
  {
  }

  lemma ForkStartPair(s: State, e: nat, c: nat, x: nat, w: nat, y: nat, z: nat)
    requires Inv(s) && CanForkStart(s, e, c)
    requires var n := DoForkStart(s, e, c); SharesWritable(n, x, w, y, z)
    ensures Twin(DoForkStart(s, e, c), x, w, y, z)
  {
    assert Excused(s, x, w, y, z) && Excused(s, y, z, x, w);
    ForkStartFrame(s, e, c);
  }

  lemma ForkStartForks(s: State, e: nat, c: nat, x: nat)
    requires Inv(s) && CanForkStart(s, e, c) && x in DoForkStart(s, e, c).envs
    ensures ForkOk(DoForkStart(s, e, c), x)
  {
    ForkStartFrame(s, e, c);
  }

  lemma ForkStartEnv(s: State, e: nat, c: nat, x: nat)
    requires Inv(s) && CanForkStart(s, e, c) && x in DoForkStart(s, e, c).envs
    ensures Backed(DoForkStart(s, e, c), x) && EnvOk(DoForkStart(s, e, c), x)
  {
    ForkStartForks(s, e, c, x);
    ForkStartFrame(s, e, c);
  }

  lemma DupChildFrame(s: State, e: nat, v: nat)
    requires Inv(s) && CanDupChild(s, e, v)
    ensures var q := At(s, e, v);
            OneSet(s, DoDupChild(s, e, v), s.envs[e].fork.child, v, Pte(q.frame, false, Remarked(q)))
  {
  }

  lemma DupChildPair(s: State, e: nat, v: nat, x: nat, w: nat, y: nat, z: nat)
    requires Inv(s) && CanDupChild(s, e, v)
    requires var n := DoDupChild(s, e, v); SharesWritable(n, x, w, y, z)
    ensures Twin(DoDupChild(s, e, v), x, w, y, z)
  {
    assert Excused(s, x, w, y, z) && Excused(s, x, w, e, v);
    DupChildFrame(s, e, v);
  }

  lemma DupChildEnv(s: State, e: nat, v: nat, x: nat)
    requires Inv(s) && CanDupChild(s, e, v) && x in DoDupChild(s, e, v).envs
    ensures Backed(DoDupChild(s, e, v), x) && EnvOk(DoDupChild(s, e, v), x)
  {
    DupChildFrame(s, e, v);
  }

  lemma RemarkFrame(s: State, e: nat)
    requires Inv(s) && CanRemark(s, e)
    ensures var v := ChildWindow(s, e).v;
            OneSet(s, DoRemark(s, e), e, v, Pte(At(s, e, v).frame, false, true))
  {
  }

  lemma RemarkPair(s: State, e: nat, x: nat, w: nat, y: nat, z: nat)
    requires Inv(s) && CanRemark(s, e)
    requires var n := DoRemark(s, e); SharesWritable(n, x, w, y, z)
    ensures Twin(DoRemark(s, e), x, w, y, z)
  {
    assert Excused(s, x, w, y, z) && Excused(s, y, z, x, w);
    RemarkFrame(s, e);
  }

  lemma RemarkForks(s: State, e: nat, x: nat)
    requires Inv(s) && CanRemark(s, e) && x in DoRemark(s, e).envs
    ensures ForkOk(DoRemark(s, e), x)
  {
    RemarkFrame(s, e);
  }

  lemma RemarkEnv(s: State, e: nat, x: nat)
    requires Inv(s) && CanRemark(s, e) && x in DoRemark(s, e).envs
    ensures Backed(DoRemark(s, e), x) && EnvOk(DoRemark(s, e), x)
  {
    RemarkForks(s, e, x);
    RemarkFrame(s, e);
  }

  lemma ForkEndFrame(s: State, e: nat, f: nat)
    requires Inv(s) && CanForkEnd(s, e, f)
    ensures OneSet(s, DoForkEnd(s, e, f), s.envs[e].fork.child, XSTACK, Pte(f, true, false))
  {
  }

  lemma ForkEndPair(s: State, e: nat, f: nat, x: nat, w: nat, y: nat, z: nat)
    requires Inv(s) && CanForkEnd(s, e, f)
    requires var n := DoForkEnd(s, e, f); SharesWritable(n, x, w, y, z)
    ensures Twin(DoForkEnd(s, e, f), x, w, y, z)
  {
    assert Excused(s, x, w, y, z) && Excused(s, y, z, x, w);
    ForkEndFrame(s, e, f);
  }

  lemma ForkEndForks(s: State, e: nat, f: nat, x: nat)
    requires Inv(s) && CanForkEnd(s, e, f) && x in DoForkEnd(s, e, f).envs
    ensures ForkOk(DoForkEnd(s, e, f), x)
  {
    ForkEndFrame(s, e, f);
  }

  lemma ForkEndEnv(s: State, e: nat, f: nat, x: nat)
    requires Inv(s) && CanForkEnd(s, e, f) && x in DoForkEnd(s, e, f).envs
    ensures Backed(DoForkEnd(s, e, f), x) && EnvOk(DoForkEnd(s, e, f), x)
  {
    ForkEndForks(s, e, f, x);
    ForkEndFrame(s, e, f);
  }

  lemma PageAllocFrame(s: State, e: nat, v: nat, p: Pte)
    requires Inv(s) && CanPageAlloc(s, e, v, p.frame)
    ensures OneSet(s, DoPageAlloc(s, e, v, p), e, v, p)
  {
  }

  lemma PageAllocPair(s: State, e: nat, v: nat, p: Pte, x: nat, w: nat, y: nat, z: nat)
    requires Inv(s) && CanPageAlloc(s, e, v, p.frame)
    requires var n := DoPageAlloc(s, e, v, p); SharesWritable(n, x, w, y, z)
    ensures Twin(DoPageAlloc(s, e, v, p), x, w, y, z)
  {
    assert Excused(s, x, w, y, z) && Excused(s, y, z, x, w);
    PageAllocFrame(s, e, v, p);
  }

  lemma PageAllocForks(s: State, e: nat, v: nat, p: Pte, x: nat)
    requires Inv(s) && CanPageAlloc(s, e, v, p.frame) && x in DoPageAlloc(s, e, v, p).envs
    ensures ForkOk(DoPageAlloc(s, e, v, p), x)
  {
    PageAllocFrame(s, e, v, p);
  }

  lemma PageAllocEnv(s: State, e: nat, v: nat, p: Pte, x: nat)
    requires Inv(s) && CanPageAlloc(s, e, v, p.frame) && x in DoPageAlloc(s, e, v, p).envs
    ensures Backed(DoPageAlloc(s, e, v, p), x) && EnvOk(DoPageAlloc(s, e, v, p), x)
  {
    PageAllocForks(s, e, v, p, x);
    PageAllocFrame(s, e, v, p);
  }

  lemma PageUnmapFrame(s: State, e: nat, v: nat)
    requires Inv(s) && CanPageUnmap(s, e, v)
    ensures SameMaps(s, DoPageUnmap(s, e, v), {(e, v)})
  {
  }

  lemma PageUnmapPair(s: State, e: nat, v: nat, x: nat, w: nat, y: nat, z: nat)
    requires Inv(s) && CanPageUnmap(s, e, v)
    requires var n := DoPageUnmap(s, e, v); SharesWritable(n, x, w, y, z)
    ensures Twin(DoPageUnmap(s, e, v), x, w, y, z)
  {
    assert Excused(s, x, w, y, z) && Excused(s, y, z, x, w);
    PageUnmapFrame(s, e, v);
  }

  lemma PageUnmapEnv(s: State, e: nat, v: nat, x: nat)
    requires Inv(s) && CanPageUnmap(s, e, v) && x in DoPageUnmap(s, e, v).envs
    ensures Backed(DoPageUnmap(s, e, v), x) && EnvOk(DoPageUnmap(s, e, v), x)
  {
    PageUnmapFrame(s, e, v);
  }

  lemma ExitFrame(s: State, e: nat)
    requires Inv(s) && CanExit(s, e)
    ensures LeftOnly(s, DoExit(s, e), e)
  {
  }

  lemma ExitPair(s: State, e: nat, x: nat, w: nat, y: nat, z: nat)
    requires Inv(s) && CanExit(s, e)
    requires var n := DoExit(s, e); SharesWritable(n, x, w, y, z)
    ensures Twin(DoExit(s, e), x, w, y, z)
  {
    assert Excused(s, x, w, y, z) && Excused(s, y, z, x, w);
    ExitFrame(s, e);
  }

  lemma ExitEnv(s: State, e: nat, x: nat)
    requires Inv(s) && CanExit(s, e) && x in DoExit(s, e).envs
    ensures Backed(DoExit(s, e), x) && EnvOk(DoExit(s, e), x)
  {
    ExitFrame(s, e);
  }

  lemma NextPair(s: State, ev: Event, x: nat, w: nat, y: nat, z: nat)
    requires Inv(s) && Enabled(s, ev) && SharesWritable(Next(s, ev), x, w, y, z)
    ensures Twin(Next(s, ev), x, w, y, z)
  {
    match ev
    case Write(e, v, off, b) => WritePair(s, e, v, off, b, x, w, y, z);
    case FaultAlloc(e, v, f) => FaultAllocPair(s, e, v, f, x, w, y, z);
    case FaultCopy(e) => FaultCopyPair(s, e, x, w, y, z);
    case FaultMap(e) => FaultMapPair(s, e, x, w, y, z);
    case FaultUnmap(e) => FaultUnmapPair(s, e, x, w, y, z);
    case ForkStart(e, c) => ForkStartPair(s, e, c, x, w, y, z);
    case DupChild(e, v) => DupChildPair(s, e, v, x, w, y, z);
    case Remark(e) => RemarkPair(s, e, x, w, y, z);
    case ForkEnd(e, f) => ForkEndPair(s, e, f, x, w, y, z);
    case PageAlloc(e, v, f, b, k) => PageAllocPair(s, e, v, Pte(f, b, k), x, w, y, z);
    case PageUnmap(e, v) => PageUnmapPair(s, e, v, x, w, y, z);
    case Exit(e) => ExitPair(s, e, x, w, y, z);
  }

  lemma NextEnv(s: State, ev: Event, x: nat)
    requires Inv(s) && Enabled(s, ev) && x in Next(s, ev).envs
    ensures Backed(Next(s, ev), x) && EnvOk(Next(s, ev), x)
  {
    match ev
    case Write(e, v, off, b) => WriteEnv(s, e, v, off, b, x);
    case FaultAlloc(e, v, f) => FaultAllocEnv(s, e, v, f, x);
    case FaultCopy(e) => FaultCopyEnv(s, e, x);
    case FaultMap(e) => FaultMapEnv(s, e, x);
    case FaultUnmap(e) => FaultUnmapEnv(s, e, x);
    case ForkStart(e, c) => ForkStartEnv(s, e, c, x);
    case DupChild(e, v) => DupChildEnv(s, e, v, x);
    case Remark(e) => RemarkEnv(s, e, x);
    case ForkEnd(e, f) => ForkEndEnv(s, e, f, x);
    case PageAlloc(e, v, f, b, k) => PageAllocEnv(s, e, v, Pte(f, b, k), x);
    case PageUnmap(e, v) => PageUnmapEnv(s, e, v, x);
    case Exit(e) => ExitEnv(s, e, x);
  }

  lemma NextInv(s: State, ev: Event)
    requires Inv(s) && Enabled(s, ev)
    ensures Inv(Next(s, ev))
  {
    var n := Next(s, ev);
    forall x, w, y, z | SharesWritable(n, x, w, y, z) ensures Twin(n, x, w, y, z) {
      NextPair(s, ev, x, w, y, z);
    }
    forall x | x in n.envs ensures Backed(n, x) && EnvOk(n, x) {
      NextEnv(s, ev, x);
    }
  }


  // ---------- the reference machine ----------

  /** Every environment owns the content of its pages outright. */
  type Private = map<nat, map<nat, Page>>

  /** When the deep copy of a page is taken: always at the re-marking that ends its
      duppage; or there only if duppage found the page writable, and at its first call
      otherwise. */
  datatype Instant = AtRemark | ByWritable

  predicate Deferred(p: Instant, w: bool) {
    p == AtRemark || w
  }

  predicate Has(t: Private, e: nat, v: nat) {
    e in t && v in t[e]
  }

  function SetPrivate(t: Private, e: nat, v: nat, p: Page): Private {
    if e in t then
      var pages: map<nat, Page> := t[e][v := p];
      t[e := pages]
    else t
  }

  /** A deep copy of one page. */
  function CopyPage(t: Private, from: nat, to: nat, v: nat): Private {
    if Has(t, from, v) then SetPrivate(t, to, v, t[from][v]) else t
  }

  /** The same events with deep copies.  Nothing happens in a fault handler; a page that
      needs no re-marking is copied at once. */
  ghost function Reference(p: Instant, s: State, t: Private, ev: Event): Private
    requires Inv(s) && Enabled(s, ev)
  {
    match ev
    case Write(e, v, off, b) => if Has(t, e, v) then SetPrivate(t, e, v, Put(t[e][v], off, b)) else t
    case ForkStart(e, c) => t[c := map[]]
    case DupChild(e, v) =>
      if Remarked(At(s, e, v)) && Deferred(p, At(s, e, v).w) then t else CopyPage(t, e, s.envs[e].fork.child, v)
    case Remark(e) =>
      if Deferred(p, ChildWindow(s, e).w) then CopyPage(t, e, s.envs[e].fork.child, ChildWindow(s, e).v) else t
    case ForkEnd(e, f) => SetPrivate(t, s.envs[e].fork.child, XSTACK, ZeroPage())
    case PageAlloc(e, v, f, w, cow) => SetPrivate(t, e, v, ZeroPage())
    case PageUnmap(e, v) => if e in t then t[e := t[e] - {v}] else t
    case Exit(e) => t - {e}
    case _ => t
  }

  /** The child's copy of the page in an open window is still to be taken. */
  predicate Unsettled(p: Instant, s: State, e: nat, v: nat) {
    e in s.envs && s.envs[e].window.Open? && s.envs[e].window.v == v && Deferred(p, s.envs[e].window.w)
  }

  /** Every settled user page is there in both machines and reads the same. */
  ghost predicate AgreesAt(p: Instant, s: State, t: Private, e: nat, v: nat) {
    && (Has(t, e, v) <==> v != PFTEMP && Maps(s, e, v) && !Unsettled(p, s, e, v))
    && (Has(t, e, v) ==> At(s, e, v).frame in s.data && Content(s, e, v) == t[e][v])
  }

  ghost predicate Agrees(p: Instant, s: State, t: Private) {
    && s.envs.Keys == t.Keys
    && forall e: nat, v: nat :: AgreesAt(p, s, t, e, v)
  }

  lemma WriteAgrees(p: Instant, s: State, t: Private, e: nat, v: nat, off: nat, b: int, x: nat, w: nat)
    requires Inv(s) && Agrees(p, s, t) && CanWrite(s, e, v)
    ensures AgreesAt(p, DoWrite(s, e, v, off, b), Reference(p, s, t, Write(e, v, off, b)), x, w)
  {
    assert AgreesAt(p, s, t, x, w) && AgreesAt(p, s, t, e, v) && Excused(s, e, v, x, w);
    assert Born(s, e) ==> EnvOk(s, e);
    WriteFrame(s, e, v, off, b);
  }

  lemma FaultAllocAgrees(p: Instant, s: State, t: Private, e: nat, v: nat, f: nat, x: nat, w: nat)
    requires Inv(s) && Agrees(p, s, t) && CanFaultAlloc(s, e, v, f)
    ensures AgreesAt(p, DoFaultAlloc(s, e, v, f), t, x, w)
  {
    assert AgreesAt(p, s, t, x, w);
    FaultAllocFrame(s, e, v, f);
  }

  lemma FaultCopyAgrees(p: Instant, s: State, t: Private, e: nat, x: nat, w: nat)
    requires Inv(s) && Agrees(p, s, t) && CanFaultCopy(s, e)
    ensures AgreesAt(p, DoFaultCopy(s, e), t, x, w)
  {
    assert AgreesAt(p, s, t, x, w) && Excused(s, e, PFTEMP, x, w);
    FaultCopyFrame(s, e);
  }

  lemma FaultMapAgrees(p: Instant, s: State, t: Private, e: nat, x: nat, w: nat)
    requires Inv(s) && Agrees(p, s, t) && CanFaultMap(s, e)
    ensures AgreesAt(p, DoFaultMap(s, e), t, x, w)
  {
    assert AgreesAt(p, s, t, x, w);
    FaultMapFrame(s, e);
  }

  lemma FaultUnmapAgrees(p: Instant, s: State, t: Private, e: nat, x: nat, w: nat)
    requires Inv(s) && Agrees(p, s, t) && CanFaultUnmap(s, e)
    ensures AgreesAt(p, DoFaultUnmap(s, e), t, x, w)
  {
    assert AgreesAt(p, s, t, x, w);
    FaultUnmapFrame(s, e);
  }

  lemma ForkStartAgrees(p: Instant, s: State, t: Private, e: nat, c: nat, x: nat, w: nat)
    requires Inv(s) && Agrees(p, s, t) && CanForkStart(s, e, c)
    ensures AgreesAt(p, DoForkStart(s, e, c), t[c := map[]], x, w)
  {
    assert AgreesAt(p, s, t, x, w);
    ForkStartFrame(s, e, c);
  }

  lemma DupChildAgrees(p: Instant, s: State, t: Private, e: nat, v: nat, x: nat, w: nat)
    requires Inv(s) && Agrees(p, s, t) && CanDupChild(s, e, v)
    ensures AgreesAt(p, DoDupChild(s, e, v), Reference(p, s, t, DupChild(e, v)), x, w)
  {
    assert AgreesAt(p, s, t, x, w) && AgreesAt(p, s, t, e, v);
    DupChildFrame(s, e, v);
  }

  /** The content of the page an open window is on, in the parent and in the child. */
  ghost predicate WindowAgrees(s: State, e: nat)
    requires Inv(s) && CanRemark(s, e)
  {
    var v, c := ChildWindow(s, e).v, s.envs[e].fork.child;
    Content(s, e, v) == Content(s, c, v)
  }

  /** Closing the window keeps the machines in step exactly when the child's page
      still equals the parent's, or has been copied before. */
  lemma RemarkAgreesIff(p: Instant, s: State, t: Private, e: nat)
    requires Inv(s) && Agrees(p, s, t) && CanRemark(s, e)
    ensures Agrees(p, DoRemark(s, e), Reference(p, s, t, Remark(e))) <==>
              WindowAgrees(s, e) || !Deferred(p, ChildWindow(s, e).w)
  {
    var v, c, n, r := ChildWindow(s, e).v, s.envs[e].fork.child, DoRemark(s, e), Reference(p, s, t, Remark(e));
    assert AgreesAt(p, s, t, e, v);
    RemarkFrame(s, e);
    RemarkSettles(p, s, e);
    if WindowAgrees(s, e) || !Deferred(p, ChildWindow(s, e).w) {
      forall x: nat, w: nat ensures AgreesAt(p, n, r, x, w) {
        assert AgreesAt(p, s, t, x, w);
      }
    } else {
      assert !AgreesAt(p, n, r, c, v);
    }
  }

  lemma RemarkSettles(p: Instant, s: State, e: nat)
    requires Inv(s) && CanRemark(s, e)
    ensures DoRemark(s, e).envs.Keys == s.envs.Keys
    ensures forall x, w ::
              Unsettled(p, DoRemark(s, e), x, w) <==> Unsettled(p, s, x, w) && x != s.envs[e].fork.child
  {
  }

  /** In particular it does when duppage found the page writable: such a page cannot be
      moved inside its window. */
  lemma WritableWindowAgrees(s: State, e: nat)
    requires Inv(s) && CanRemark(s, e) && ChildWindow(s, e).w
    ensures WindowAgrees(s, e)
  {
    assert EnvOk(s, e);
  }

  /** A fresh zeroed page, in both machines. */
  lemma FreshPageAgrees(p: Instant, s: State, t: Private, n: State, e: nat, v: nat, q: Pte, x: nat, w: nat)
    requires AgreesAt(p, s, t, x, w) && FreshFrame(s, q.frame) && e in t && v != PFTEMP
    requires OneSet(s, n, e, v, q) && n.data == s.data[q.frame := ZeroPage()] && !Unsettled(p, n, e, v)
    requires Unsettled(p, n, x, w) == Unsettled(p, s, x, w)
    ensures AgreesAt(p, n, SetPrivate(t, e, v, ZeroPage()), x, w)
  {
    assert Maps(s, x, w) ==> At(s, x, w).frame != q.frame;
  }

  lemma ForkEndSettles(p: Instant, s: State, e: nat, f: nat, x: nat, w: nat)
    requires Inv(s) && CanForkEnd(s, e, f)
    ensures var n, c := DoForkEnd(s, e, f), s.envs[e].fork.child;
            c in s.envs && !Unsettled(p, n, c, XSTACK) && Unsettled(p, n, x, w) == Unsettled(p, s, x, w)
  {
    assert EnvOk(s, e);
  }

  lemma ForkEndAgrees(p: Instant, s: State, t: Private, e: nat, f: nat, x: nat, w: nat)
    requires Inv(s) && Agrees(p, s, t) && CanForkEnd(s, e, f)
    ensures AgreesAt(p, DoForkEnd(s, e, f), Reference(p, s, t, ForkEnd(e, f)), x, w)
  {
    ForkEndFrame(s, e, f);
    ForkEndSettles(p, s, e, f, x, w);
    assert AgreesAt(p, s, t, x, w);
    FreshPageAgrees(p, s, t, DoForkEnd(s, e, f), s.envs[e].fork.child, XSTACK, Pte(f, true, false), x, w);
  }

  lemma PageAllocAgrees(p: Instant, s: State, t: Private, e: nat, v: nat, q: Pte, x: nat, w: nat)
    requires Inv(s) && Agrees(p, s, t) && CanPageAlloc(s, e, v, q.frame)
    ensures AgreesAt(p, DoPageAlloc(s, e, v, q), SetPrivate(t, e, v, ZeroPage()), x, w)
  {
    PageAllocFrame(s, e, v, q);
    assert EnvOk(s, e) && AgreesAt(p, s, t, x, w);
    FreshPageAgrees(p, s, t, DoPageAlloc(s, e, v, q), e, v, q, x, w);
  }

  lemma PageUnmapAgrees(p: Instant, s: State, t: Private, e: nat, v: nat, x: nat, w: nat)
    requires Inv(s) && Agrees(p, s, t) && CanPageUnmap(s, e, v)
    ensures AgreesAt(p, DoPageUnmap(s, e, v), Reference(p, s, t, PageUnmap(e, v)), x, w)
  {
    assert AgreesAt(p, s, t, x, w);
    PageUnmapFrame(s, e, v);
  }

  lemma ExitAgrees(p: Instant, s: State, t: Private, e: nat, x: nat, w: nat)
    requires Inv(s) && Agrees(p, s, t) && CanExit(s, e)
    ensures AgreesAt(p, DoExit(s, e), t - {e}, x, w)
  {
    assert AgreesAt(p, s, t, x, w);
    ExitFrame(s, e);
  }

  /** One step keeps the two machines in step, whatever the event; only a re-marking
      that is to copy a page needs that page to be the child's still. */
  lemma NextAgrees(p: Instant, s: State, t: Private, ev: Event)
    requires Inv(s) && Enabled(s, ev) && Agrees(p, s, t)
    requires ev.Remark? && Deferred(p, ChildWindow(s, ev.e).w) ==> WindowAgrees(s, ev.e)
    ensures Agrees(p, Next(s, ev), Reference(p, s, t, ev))
  {
    var n, r := Next(s, ev), Reference(p, s, t, ev);
    if ev.Remark? {
      RemarkAgreesIff(p, s, t, ev.e);
    } else {
      KeysAgree(p, s, t, ev);
      forall x: nat, w: nat ensures AgreesAt(p, n, r, x, w) {
        match ev
        case Write(e, v, off, b) => WriteAgrees(p, s, t, e, v, off, b, x, w);
        case FaultAlloc(e, v, f) => FaultAllocAgrees(p, s, t, e, v, f, x, w);
        case FaultCopy(e) => FaultCopyAgrees(p, s, t, e, x, w);
        case FaultMap(e) => FaultMapAgrees(p, s, t, e, x, w);
        case FaultUnmap(e) => FaultUnmapAgrees(p, s, t, e, x, w);
        case ForkStart(e, c) => ForkStartAgrees(p, s, t, e, c, x, w);
        case DupChild(e, v) => DupChildAgrees(p, s, t, e, v, x, w);
        case ForkEnd(e, f) => ForkEndAgrees(p, s, t, e, f, x, w);
        case PageAlloc(e, v, f, b, k) => PageAllocAgrees(p, s, t, e, v, Pte(f, b, k), x, w);
        case PageUnmap(e, v) => PageUnmapAgrees(p, s, t, e, v, x, w);
        case Exit(e) => ExitAgrees(p, s, t, e, x, w);
        case Remark(e) =>
      }
    }
  }

  lemma KeysAgree(p: Instant, s: State, t: Private, ev: Event)
    requires Inv(s) && Enabled(s, ev) && Agrees(p, s, t)
    ensures Next(s, ev).envs.Keys == Reference(p, s, t, ev).Keys
  {
  }

  // ---------- whole runs ----------

  /** The first program, before its pages are allocated. */
  function Boot(): State {
    State(map[0 := Env(map[], Idle, NoFork, Closed, true)], map[])
  }

  const EMPTY: Private := map[0 := map[]]

  /** The events of trace, one after the other, take both machines from (s, t) to
      (n, r). */
  ghost predicate Run(p: Instant, s: State, t: Private, trace: seq<Event>, n: State, r: Private)
    decreases |trace|
  {
    if trace == [] then n == s && r == t
    else
      && Inv(s) && Enabled(s, trace[0])
      && Run(p, Next(s, trace[0]), Reference(p, s, t, trace[0]), trace[1..], n, r)
  }

  lemma BootOk(p: Instant)
    ensures Inv(Boot()) && Agrees(p, Boot(), EMPTY)
  {
    forall e, v ensures !Maps(Boot(), e, v) {
    }
  }

  lemma {:induction false} RunInv(p: Instant, s: State, t: Private, trace: seq<Event>, n: State, r: Private)
    requires Inv(s) && Run(p, s, t, trace, n, r)
    ensures Inv(n)
    decreases |trace|
  {
    if trace == [] {
    } else {
      NextInv(s, trace[0]);
      RunInv(p, Next(s, trace[0]), Reference(p, s, t, trace[0]), trace[1..], n, r);
    }
  }

  lemma {:induction false} RunAgrees(s: State, t: Private, trace: seq<Event>, n: State, r: Private)
    requires Inv(s) && Agrees(ByWritable, s, t) && Run(ByWritable, s, t, trace, n, r)
    ensures Agrees(ByWritable, n, r)
    decreases |trace|
  {
    if trace == [] {
    } else {
      NextInv(s, trace[0]);
      if trace[0].Remark? && ChildWindow(s, trace[0].e).w {
        WritableWindowAgrees(s, trace[0].e);
      }
      NextAgrees(ByWritable, s, t, trace[0]);
      RunAgrees(Next(s, trace[0]), Reference(ByWritable, s, t, trace[0]), trace[1..], n, r);
    }
  }

  /** Copy-on-write fork refines deep copying: after any interleaving of writes,
      faults, forks at any depth, allocations and exits, a running program finds in
      each of its pages what deep copies would have put there.  Each page is copied
      between the two system calls of its duppage, or at the one it takes. */
  lemma CowRefinesDeepCopy(trace: seq<Event>, n: State, r: Private, e: nat, v: nat)
    requires Run(ByWritable, Boot(), EMPTY, trace, n, r) && Born(n, e) && v != PFTEMP
    ensures Maps(n, e, v) <==> Has(r, e, v)
    ensures Maps(n, e, v) ==> At(n, e, v).frame in n.data && Content(n, e, v) == r[e][v]
  {
    BootOk(ByWritable);
    RunInv(ByWritable, Boot(), EMPTY, trace, n, r);
    RunAgrees(Boot(), EMPTY, trace, n, r);
    assert AgreesAt(ByWritable, n, r, e, v) && EnvOk(n, e);
  }

  /** In every reachable state, a frame mapped writable by a program that is neither
      in its fault handler nor forking has no other mapping at all. */
  lemma WritableMeansPrivate(p: Instant, trace: seq<Event>, n: State, r: Private, e: nat, v: nat, e2: nat, v2: nat)
    requires Run(p, Boot(), EMPTY, trace, n, r)
    requires Active(n, e) && n.envs[e].fork == NoFork && Maps(n, e, v) && At(n, e, v).w
    requires Maps(n, e2, v2) && At(n, e2, v2).frame == At(n, e, v).frame
    ensures e2 == e && v2 == v
  {
    BootOk(p);
    RunInv(p, Boot(), EMPTY, trace, n, r);
    assert Excused(n, e, v, e2, v2);
  }

  // ---------- copying at the re-marking only ----------

  /** e takes no fault on page v before it re-marks it. */
  predicate NoFaultBeforeRemark(trace: seq<Event>, e: nat, v: nat)
    decreases |trace|
  {
    || trace == [] || trace[0] == Remark(e) || trace[0] == Exit(e)
    || (!(trace[0].FaultAlloc? && trace[0].e == e && trace[0].v == v) && NoFaultBeforeRemark(trace[1..], e, v))
  }

  /** Copy-on-write and not writable. */
  predicate Unsafe(p: Pte) {
    p.cow && !p.w
  }

  /** No page that is copy-on-write and not writable when duppage reaches it takes a
      fault of its owner until duppage is done with it. */
  ghost predicate QuietForks(s: State, trace: seq<Event>)
    decreases |trace|
  {
    trace == []
    || (&& Inv(s) && Enabled(s, trace[0])
        && (trace[0].DupChild? && Unsafe(At(s, trace[0].e, trace[0].v)) ==>
             NoFaultBeforeRemark(trace[1..], trace[0].e, trace[0].v))
        && QuietForks(Next(s, trace[0]), trace[1..]))
  }

  /** The page in e's window is where it was, and will be. */
  ghost predicate StaysAt(s: State, trace: seq<Event>, e: nat) {
    e in s.envs && ChildWindow(s, e).Open? && !ChildWindow(s, e).w ==>
      var v, c := ChildWindow(s, e).v, s.envs[e].fork.child;
      && Maps(s, e, v) && Maps(s, c, v) && At(s, c, v).frame == At(s, e, v).frame
      && (s.envs[e].handler != Idle ==> s.envs[e].handler.v != v)
      && NoFaultBeforeRemark(trace, e, v)
  }

  lemma StaysStep(s: State, trace: seq<Event>, e: nat)
    requires trace != [] && Inv(s) && Enabled(s, trace[0]) && StaysAt(s, trace, e)
    requires trace[0].DupChild? && Unsafe(At(s, trace[0].e, trace[0].v)) ==>
               NoFaultBeforeRemark(trace[1..], trace[0].e, trace[0].v)
    ensures StaysAt(Next(s, trace[0]), trace[1..], e)
  {
    var ev, n := trace[0], Next(s, trace[0]);
    if e in n.envs && ChildWindow(n, e).Open? && !ChildWindow(n, e).w {
      if e != ev.e {
        OthersWindow(s, ev, e);
      } else if ev.DupChild? {
        assert EnvOk(s, e);
        DupChildFrame(s, e, ev.v);
      } else {
        OwnWindow(s, ev);
      }
    }
  }

  /** While its window stays open a program changes its page there through its own fault
      handler only. */
  lemma OwnWindow(s: State, ev: Event)
    requires Inv(s) && Enabled(s, ev) && !ev.DupChild?
    requires ev.e in Next(s, ev).envs && ChildWindow(Next(s, ev), ev.e).Open?
    ensures var e, n := ev.e, Next(s, ev); var c, w := s.envs[e].fork.child, ChildWindow(n, e);
            && e in s.envs && n.envs[e].fork == s.envs[e].fork && ChildWindow(s, e) == w
            && c in n.envs && n.envs[c] == s.envs[c]
            && (Maps(s, e, w.v) && w.v != PFTEMP && (s.envs[e].handler != Idle ==> s.envs[e].handler.v != w.v) ==>
                 Maps(n, e, w.v) && At(n, e, w.v) == At(s, e, w.v))
            && (n.envs[e].handler != Idle ==>
                 || (ev.FaultAlloc? && n.envs[e].handler.v == ev.v)
                 || (s.envs[e].handler != Idle && n.envs[e].handler.v == s.envs[e].handler.v))
  {
    assert EnvOk(s, ev.e);
  }

  /** A step of one program changes neither the handler, the fork, the window nor the
      pages of another that is forking. */
  lemma OthersWindow(s: State, ev: Event, e: nat)
    requires Inv(s) && Enabled(s, ev) && e != ev.e && e in Next(s, ev).envs && ChildWindow(Next(s, ev), e).Open?
    ensures e in s.envs && Next(s, ev).envs[e] == s.envs[e] && s.envs[e].fork.Duplicating?
    ensures s.envs[e].fork.child in s.envs
    ensures Next(s, ev).envs[s.envs[e].fork.child] == s.envs[s.envs[e].fork.child]
  {
    assert e in s.envs ==> EnvOk(s, e);
    assert EnvOk(s, ev.e);
  }

  lemma {:induction false} QuietRunAgrees(s: State, t: Private, trace: seq<Event>, n: State, r: Private)
    requires Inv(s) && Agrees(AtRemark, s, t) && Run(AtRemark, s, t, trace, n, r)
    requires QuietForks(s, trace) && forall e :: e in s.envs ==> StaysAt(s, trace, e)
    ensures Agrees(AtRemark, n, r)
    decreases |trace|
  {
    if trace == [] {
    } else {
      var s' := Next(s, trace[0]);
      NextInv(s, trace[0]);
      if trace[0].Remark? {
        assert StaysAt(s, trace, trace[0].e) && EnvOk(s, trace[0].e);
      }
      NextAgrees(AtRemark, s, t, trace[0]);
      forall e | e in s'.envs ensures StaysAt(s', trace[1..], e) {
        StaysStep(s, trace, e);
      }
      QuietRunAgrees(s', Reference(AtRemark, s, t, trace[0]), trace[1..], n, r);
    }
  }

  /** If forks are quiet, all pages may be thought of as copied at the re-marking. */
  lemma CowRefinesCopyAtRemark(trace: seq<Event>, n: State, r: Private, e: nat, v: nat)
    requires Run(AtRemark, Boot(), EMPTY, trace, n, r) && QuietForks(Boot(), trace) && Born(n, e) && v != PFTEMP
    ensures Maps(n, e, v) <==> Has(r, e, v)
    ensures Maps(n, e, v) ==> At(n, e, v).frame in n.data && Content(n, e, v) == r[e][v]
  {
    BootOk(AtRemark);
    RunInv(AtRemark, Boot(), EMPTY, trace, n, r);
    QuietRunAgrees(Boot(), EMPTY, trace, n, r);
    assert AgreesAt(AtRemark, n, r, e, v) && EnvOk(n, e);
  }

  // ---------- the window ----------

  /** Runs grow at the end. */
  lemma {:induction false} RunSnoc(p: Instant, s: State, t: Private, trace: seq<Event>, m: State, q: Private, ev: Event)
    requires Run(p, s, t, trace, m, q) && Inv(m) && Enabled(m, ev)
    ensures Run(p, s, t, trace + [ev], Next(m, ev), Reference(p, m, q, ev))
    decreases |trace|
  {
    if trace == [] {
      var n, r := Next(m, ev), Reference(p, m, q, ev);
      assert Run(p, n, r, [], n, r);
      assert ([] + [ev])[1..] == [];
    } else {
      RunSnoc(p, Next(s, trace[0]), Reference(p, s, t, trace[0]), trace[1..], m, q, ev);
      assert (trace + [ev])[1..] == trace[1..] + [ev];
    }
  }

  /** trace leads from (s, t) to (n, r), where the machines are still in step. */
  ghost predicate Leads(s: State, t: Private, trace: seq<Event>, n: State, r: Private) {
    Run(AtRemark, s, t, trace, n, r) && Inv(n) && Agrees(AtRemark, n, r)
  }

  lemma LeadsOn(s: State, t: Private, trace: seq<Event>, m: State, q: Private, ev: Event)
    requires Leads(s, t, trace, m, q) && Enabled(m, ev) && (ev.Remark? ==> WindowAgrees(m, ev.e))
    ensures Leads(s, t, trace + [ev], Next(m, ev), Reference(AtRemark, m, q, ev))
  {
    NextInv(m, ev);
    NextAgrees(AtRemark, m, q, ev);
    RunSnoc(AtRemark, s, t, trace, m, q, ev);
  }

  /** e is forking c with a window open on v, a page that duppage did not find writable;
      its own page v is own, the child's the frame kept. */
  ghost predicate InWindow(s: State, e: nat, c: nat, v: nat, own: Pte, kept: nat, h: Handler) {
    && Born(s, e) && s.envs[e].handler == h && s.envs[e].fork == Duplicating(c) && ChildWindow(s, e) == Open(v, false)
    && v != PFTEMP && Maps(s, e, v) && At(s, e, v) == own && Maps(s, c, v) && At(s, c, v).frame == kept && e != c
  }

  /** duppage maps the page into the child. */
  lemma WindowOpens(s0: State, t0: Private, trace: seq<Event>, s: State, t: Private, e: nat, v: nat, f: nat)
      returns (n: State)
    requires Leads(s0, t0, trace, s, t) && CanDupChild(s, e, v) && FreshFrame(s, f) && Unsafe(At(s, e, v))
    ensures Leads(s0, t0, trace + [DupChild(e, v)], n, t) && FreshFrame(n, f) && n.data == s.data
    ensures InWindow(n, e, s.envs[e].fork.child, v, At(s, e, v), At(s, e, v).frame, Idle)
  {
    n := DoDupChild(s, e, v);
    LeadsOn(s0, t0, trace, s, t, DupChild(e, v));
    DupChildFrame(s, e, v);
    assert EnvOk(s, e);
  }

  /** The parent faults on it. */
  lemma WindowFaultAlloc(s0: State, t0: Private, trace: seq<Event>, s: State, t: Private, e: nat, c: nat,
                         v: nat, own: Pte, f: nat)
      returns (n: State)
    requires Leads(s0, t0, trace, s, t) && FreshFrame(s, f)
    requires InWindow(s, e, c, v, own, own.frame, Idle) && !own.w
    ensures Leads(s0, t0, trace + [FaultAlloc(e, v, f)], n, t) && n.data == s.data[f := ZeroPage()] && f != own.frame
    ensures InWindow(n, e, c, v, own, own.frame, Allocated(v)) && Maps(n, e, PFTEMP) && At(n, e, PFTEMP).frame == f
  {
    n := DoFaultAlloc(s, e, v, f);
    LeadsOn(s0, t0, trace, s, t, FaultAlloc(e, v, f));
    FaultAllocFrame(s, e, v, f);
  }

  /** Its handler copies the page to f ... */
  lemma WindowFaultCopy(s0: State, t0: Private, trace: seq<Event>, s: State, t: Private, e: nat, c: nat,
                        v: nat, own: Pte, f: nat)
      returns (n: State)
    requires Leads(s0, t0, trace, s, t) && own.frame in s.data
    requires InWindow(s, e, c, v, own, own.frame, Allocated(v)) && Maps(s, e, PFTEMP) && At(s, e, PFTEMP).frame == f
    ensures Leads(s0, t0, trace + [FaultCopy(e)], n, t) && n.data == s.data[f := s.data[own.frame]]
    ensures InWindow(n, e, c, v, own, own.frame, Copied(v)) && Maps(n, e, PFTEMP) && At(n, e, PFTEMP).frame == f
  {
    n := DoFaultCopy(s, e);
    LeadsOn(s0, t0, trace, s, t, FaultCopy(e));
    FaultCopyFrame(s, e);
  }

  /** ... maps f in its place ... */
  lemma WindowFaultMap(s0: State, t0: Private, trace: seq<Event>, s: State, t: Private, e: nat, c: nat,
                       v: nat, own: Pte, f: nat)
      returns (n: State)
    requires Leads(s0, t0, trace, s, t)
    requires InWindow(s, e, c, v, own, own.frame, Copied(v)) && Maps(s, e, PFTEMP) && At(s, e, PFTEMP).frame == f
    ensures Leads(s0, t0, trace + [FaultMap(e)], n, t) && n.data == s.data
    ensures InWindow(n, e, c, v, Pte(f, true, false), own.frame, Moved(v))
  {
    n := DoFaultMap(s, e);
    LeadsOn(s0, t0, trace, s, t, FaultMap(e));
    FaultMapFrame(s, e);
  }

  /** ... and returns. */
  lemma WindowFaultUnmap(s0: State, t0: Private, trace: seq<Event>, s: State, t: Private, e: nat, c: nat,
                         v: nat, own: Pte, kept: nat)
      returns (n: State)
    requires Leads(s0, t0, trace, s, t) && InWindow(s, e, c, v, own, kept, Moved(v))
    ensures Leads(s0, t0, trace + [FaultUnmap(e)], n, t) && n.data == s.data
    ensures InWindow(n, e, c, v, own, kept, Idle)
  {
    n := DoFaultUnmap(s, e);
    LeadsOn(s0, t0, trace, s, t, FaultUnmap(e));
    FaultUnmapFrame(s, e);
  }

  /** The parent writes to its own frame only. */
  lemma WindowWrite(s0: State, t0: Private, trace: seq<Event>, s: State, t: Private, e: nat, c: nat,
                    v: nat, f: nat, kept: nat, off: nat, b: int)
      returns (n: State, r: Private)
    requires Leads(s0, t0, trace, s, t) && InWindow(s, e, c, v, Pte(f, true, false), kept, Idle) && f != kept
    requires kept in s.data && off < PGSIZE && s.data[kept][off] != b
    ensures Leads(s0, t0, trace + [Write(e, v, off, b)], n, r) && CanRemark(n, e)
    ensures ChildWindow(n, e) == Open(v, false) && !WindowAgrees(n, e)
  {
    n, r := DoWrite(s, e, v, off, b), Reference(AtRemark, s, t, Write(e, v, off, b));
    LeadsOn(s0, t0, trace, s, t, Write(e, v, off, b));
    assert Backed(s, e);
    WriteFrame(s, e, v, off, b);
    assert Content(n, e, v)[off] == b && Content(n, c, v)[off] == s.data[kept][off];
  }

  /** The events of a parent that writes byte off of page v between its two calls. */
  function FaultInWindow(e: nat, v: nat, f: nat, off: nat, b: int): seq<Event> {
    [FaultAlloc(e, v, f), FaultCopy(e), FaultMap(e), FaultUnmap(e), Write(e, v, off, b)]
  }

  lemma FaultInWindowCopies(s0: State, t0: Private, trace: seq<Event>, s: State, t: Private, e: nat, v: nat, f: nat)
      returns (n: State)
    requires Leads(s0, t0, trace, s, t) && CanDupChild(s, e, v) && FreshFrame(s, f)
    requires Unsafe(At(s, e, v)) && At(s, e, v).frame in s.data
    ensures Leads(s0, t0, trace + [DupChild(e, v)] + [FaultAlloc(e, v, f)] + [FaultCopy(e)], n, t)
    ensures var c, own := s.envs[e].fork.child, At(s, e, v);
            && InWindow(n, e, c, v, own, own.frame, Copied(v)) && Maps(n, e, PFTEMP) && At(n, e, PFTEMP).frame == f
            && f != own.frame && own.frame in n.data && n.data[own.frame] == s.data[own.frame]
  {
    var c, own := s.envs[e].fork.child, At(s, e, v);
    var n1 := WindowOpens(s0, t0, trace, s, t, e, v, f);
    var n2 := WindowFaultAlloc(s0, t0, trace + [DupChild(e, v)], n1, t, e, c, v, own, f);
    n := WindowFaultCopy(s0, t0, trace + [DupChild(e, v)] + [FaultAlloc(e, v, f)], n2, t, e, c, v, own, f);
  }

  /** From there on. */
  lemma FaultInWindowWrites(s0: State, t0: Private, trace: seq<Event>, m: State, t: Private, e: nat, c: nat, v: nat,
                            own: Pte, f: nat, off: nat, b: int)
      returns (n: State, r: Private)
    requires Leads(s0, t0, trace, m, t)
    requires InWindow(m, e, c, v, own, own.frame, Copied(v)) && Maps(m, e, PFTEMP) && At(m, e, PFTEMP).frame == f
    requires f != own.frame && own.frame in m.data && off < PGSIZE && m.data[own.frame][off] != b
    ensures Leads(s0, t0, trace + [FaultMap(e)] + [FaultUnmap(e)] + [Write(e, v, off, b)], n, r) && CanRemark(n, e)
    ensures ChildWindow(n, e) == Open(v, false) && !WindowAgrees(n, e)
  {
    var m1 := WindowFaultMap(s0, t0, trace, m, t, e, c, v, own, f);
    var m2 := WindowFaultUnmap(s0, t0, trace + [FaultMap(e)], m1, t, e, c, v, Pte(f, true, false), own.frame);
    n, r := WindowWrite(s0, t0, trace + [FaultMap(e)] + [FaultUnmap(e)], m2, t, e, c, v, f, own.frame, off, b);
  }

  lemma FaultInWindowIs(trace: seq<Event>, e: nat, v: nat, f: nat, off: nat, b: int)
    ensures trace + [DupChild(e, v)] + [FaultAlloc(e, v, f)] + [FaultCopy(e)] + [FaultMap(e)] + [FaultUnmap(e)]
              + [Write(e, v, off, b)] == trace + [DupChild(e, v)] + FaultInWindow(e, v, f, off, b)
  {
  }

  /** A page that is already copy-on-write when duppage reaches it and that the parent
      writes, through a fault, before the re-marking: the child keeps the old content. */
  lemma FaultInWindowDiverges(s0: State, t0: Private, trace: seq<Event>, s: State, t: Private, e: nat, v: nat, f: nat,
                              off: nat, b: int)
      returns (n: State, r: Private)
    requires Leads(s0, t0, trace, s, t) && CanDupChild(s, e, v) && FreshFrame(s, f)
    requires At(s, e, v).cow && !At(s, e, v).w && off < PGSIZE && Content(s, e, v)[off] != b
    ensures Leads(s0, t0, trace + [DupChild(e, v)] + FaultInWindow(e, v, f, off, b), n, r) && CanRemark(n, e)
    ensures !Agrees(AtRemark, Next(n, Remark(e)), Reference(AtRemark, n, r, Remark(e)))
  {
    var m := FaultInWindowCopies(s0, t0, trace, s, t, e, v, f);
    n, r := FaultInWindowWrites(s0, t0, trace + [DupChild(e, v)] + [FaultAlloc(e, v, f)] + [FaultCopy(e)], m, t, e,
                                s.envs[e].fork.child, v, At(s, e, v), f, off, b);
    FaultInWindowIs(trace, e, v, f, off, b);
    RemarkAgreesIff(AtRemark, n, r, e);
  }

  // ---------- which pages can part ----------

  predicate LeavesWindow(ev: Event, e: nat) {
    ev.e == e && (ev.DupChild? || ev.Remark? || ev.ForkEnd? || ev.Exit?)
  }

  /** e stays between the two calls of its duppage. */
  predicate InsideWindow(tail: seq<Event>, e: nat) {
    forall k :: 0 <= k < |tail| ==> !LeavesWindow(tail[k], e)
  }

  /** tail leads from the first call of duppage to a re-marking that parts the machines. */
  ghost predicate Parts(s: State, t: Private, e: nat, v: nat, tail: seq<Event>, n: State, r: Private) {
    && InsideWindow(tail, e) && Leads(s, t, [DupChild(e, v)] + tail, n, r) && CanRemark(n, e)
    && !Agrees(AtRemark, Next(n, Remark(e)), Reference(AtRemark, n, r, Remark(e)))
  }

  lemma {:induction false} WindowKept(p: Instant, s: State, t: Private, tail: seq<Event>, n: State, r: Private, e: nat)
    requires Inv(s) && Run(p, s, t, tail, n, r) && InsideWindow(tail, e)
    requires e in s.envs && s.envs[e].fork.Duplicating?
    ensures e in n.envs && n.envs[e].fork == s.envs[e].fork && ChildWindow(n, e) == ChildWindow(s, e)
    decreases |tail|
  {
    if tail == [] {
    } else {
      NextInv(s, tail[0]);
      WindowKeptStep(s, tail[0], e);
      WindowKept(p, Next(s, tail[0]), Reference(p, s, t, tail[0]), tail[1..], n, r, e);
    }
  }

  lemma WindowKeptStep(s: State, ev: Event, e: nat)
    requires Inv(s) && Enabled(s, ev) && e in s.envs && s.envs[e].fork.Duplicating?
    requires !LeavesWindow(ev, e)
    ensures e in Next(s, ev).envs && Next(s, ev).envs[e].fork == s.envs[e].fork
    ensures ChildWindow(Next(s, ev), e) == ChildWindow(s, e)
  {
    assert EnvOk(s, e);
  }

  lemma {:induction false} Above(xs: set<nat>) returns (f: nat)
    ensures forall x :: x in xs ==> x < f
    decreases |xs|
  {
    if xs == {} {
      f := 0;
    } else {
      var x :| x in xs;
      f := Above(xs - {x});
      f := if f <= x then x + 1 else f;
      assert forall y :: y in xs ==> y == x || y in xs - {x};
    }
  }

  /** There is always a frame that nothing maps. */
  lemma SomeFreshFrame(s: State) returns (f: nat)
    requires Inv(s)
    ensures FreshFrame(s, f)
  {
    f := Above(s.data.Keys);
    forall e, v | Maps(s, e, v) ensures At(s, e, v).frame != f {
      assert Backed(s, e);
    }
  }

  /** Taking every copy at the re-marking is wrong for some continuation of a duppage
      exactly when duppage found the page copy-on-write and not writable. */
  lemma CopyAtRemarkFailsIff(s: State, t: Private, e: nat, v: nat)
    requires Inv(s) && Agrees(AtRemark, s, t) && CanDupChild(s, e, v)
    ensures (exists tail, n, r :: Parts(s, t, e, v, tail, n, r)) <==> At(s, e, v).cow && !At(s, e, v).w
  {
    if At(s, e, v).cow && !At(s, e, v).w {
      var tail, n, r := PartsThere(s, t, e, v);
    }
    forall tail, n, r | Parts(s, t, e, v, tail, n, r) ensures At(s, e, v).cow && !At(s, e, v).w {
      PartsOnlyThere(s, t, e, v, tail, n, r);
    }
  }

  lemma PartsThere(s: State, t: Private, e: nat, v: nat) returns (tail: seq<Event>, n: State, r: Private)
    requires Inv(s) && Agrees(AtRemark, s, t) && CanDupChild(s, e, v) && At(s, e, v).cow && !At(s, e, v).w
    ensures Parts(s, t, e, v, tail, n, r)
  {
    var f := SomeFreshFrame(s);
    assert Backed(s, e);
    var b := Content(s, e, v)[0] + 1;
    tail := FaultInWindow(e, v, f, 0, b);
    FaultStaysInside(e, v, f, 0, b);
    assert Leads(s, t, [], s, t);
    n, r := FaultInWindowDiverges(s, t, [], s, t, e, v, f, 0, b);
    assert [] + [DupChild(e, v)] == [DupChild(e, v)];
  }

  lemma FaultStaysInside(e: nat, v: nat, f: nat, off: nat, b: int)
    ensures InsideWindow(FaultInWindow(e, v, f, off, b), e)
  {
  }

  lemma PartsOnlyThere(s: State, t: Private, e: nat, v: nat, tail: seq<Event>, n: State, r: Private)
    requires Inv(s) && Agrees(AtRemark, s, t) && CanDupChild(s, e, v) && Parts(s, t, e, v, tail, n, r)
    ensures At(s, e, v).cow && !At(s, e, v).w
  {
    var ev := DupChild(e, v);
    var s1, t1 := Next(s, ev), Reference(AtRemark, s, t, ev);
    NextInv(s, ev);
    assert ([ev] + tail)[0] == ev && ([ev] + tail)[1..] == tail;
    assert Run(AtRemark, s1, t1, tail, n, r);
    WindowKept(AtRemark, s1, t1, tail, n, r, e);
    RemarkAgreesIff(AtRemark, n, r, e);
    if At(s, e, v).w {
      WritableWindowAgrees(n, e);
    }
  }

  // ---------- and that they are reached ----------

  /** The run so far, and where it has got to. */
  ghost predicate Reached(trace: seq<Event>, s: State, t: Private) {
    Leads(Boot(), EMPTY, trace, s, t)
  }

  lemma BootReached()
    ensures Reached([], Boot(), EMPTY)
  {
    BootOk(AtRemark);
  }

  /** Two programs, of which the first is forking the second. */
  function Forking(parent: map<nat, Pte>, child: map<nat, Pte>, window: Window): map<nat, Env> {
    map[0 := Env(parent, Idle, Duplicating(1), Closed, true), 1 := Env(child, Idle, NoFork, window, false)]
  }

  /** The first program allocates a page ... */
  lemma Allocates(v: nat) returns (s: State, t: Private, trace: seq<Event>)
    requires v != PFTEMP
    ensures Reached(trace, s, t) && s.envs == map[0 := Env(map[v := Pte(0, true, false)], Idle, NoFork, Closed, true)]
  {
    BootReached();
    var ev := PageAlloc(0, v, 0, true, false);
    LeadsOn(Boot(), EMPTY, [], Boot(), EMPTY, ev);
    s, t, trace := Next(Boot(), ev), Reference(AtRemark, Boot(), EMPTY, ev), [] + [ev];
    assert s.envs[0].pages == map[v := Pte(0, true, false)];
  }

  /** ... starts a fork ... */
  lemma StartsFork(v: nat) returns (s: State, t: Private, trace: seq<Event>)
    requires v != PFTEMP
    ensures Reached(trace, s, t) && s.envs == Forking(map[v := Pte(0, true, false)], map[], Closed)
  {
    s, t, trace := Allocates(v);
    var ev := ForkStart(0, 1);
    LeadsOn(Boot(), EMPTY, trace, s, t, ev);
    s, t, trace := Next(s, ev), Reference(AtRemark, s, t, ev), trace + [ev];
  }

  /** ... maps the page into its child ... */
  lemma MapsIntoChild(v: nat) returns (s: State, t: Private, trace: seq<Event>)
    requires v != PFTEMP && v != XSTACK
    ensures Reached(trace, s, t)
    ensures s.envs == Forking(map[v := Pte(0, true, false)], map[v := Pte(0, false, true)], Open(v, true))
  {
    s, t, trace := StartsFork(v);
    var ev := DupChild(0, v);
    LeadsOn(Boot(), EMPTY, trace, s, t, ev);
    s, t, trace := Next(s, ev), Reference(AtRemark, s, t, ev), trace + [ev];
    assert s.envs[1].pages == map[v := Pte(0, false, true)];
  }

  /** ... marks it again ... */
  lemma Remarks(v: nat) returns (s: State, t: Private, trace: seq<Event>)
    requires v != PFTEMP && v != XSTACK
    ensures Reached(trace, s, t)
    ensures s.envs == Forking(map[v := Pte(0, false, true)], map[v := Pte(0, false, true)], Closed)
  {
    s, t, trace := MapsIntoChild(v);
    var ev := Remark(0);
    assert CanRemark(s, 0) && ChildWindow(s, 0) == Open(v, true);
    WritableWindowAgrees(s, 0);
    LeadsOn(Boot(), EMPTY, trace, s, t, ev);
    RemarkedEnvs(s, v);
    s, t, trace := Next(s, ev), Reference(AtRemark, s, t, ev), trace + [ev];
  }

  lemma RemarkedEnvs(s: State, v: nat)
    requires s.envs == Forking(map[v := Pte(0, true, false)], map[v := Pte(0, false, true)], Open(v, true))
    ensures CanRemark(s, 0) && Maps(s, 0, v)
    ensures DoRemark(s, 0).envs == Forking(map[v := Pte(0, false, true)], map[v := Pte(0, false, true)], Closed)
  {
    assert DoRemark(s, 0).envs[0].pages == map[v := Pte(0, false, true)];
  }

  /** ... ends the fork ... */
  lemma EndsFork(v: nat) returns (s: State, t: Private, trace: seq<Event>)
    requires v != PFTEMP && v != XSTACK
    ensures Reached(trace, s, t) && s.envs.Keys == {0, 1}
    ensures s.envs[0] == Env(map[v := Pte(0, false, true)], Idle, NoFork, Closed, true)
  {
    s, t, trace := Remarks(v);
    var ev := ForkEnd(0, 1);
    assert FreshFrame(s, 1) by {
      forall e, w | Maps(s, e, w) ensures At(s, e, w).frame == 0 {
      }
    }
    LeadsOn(Boot(), EMPTY, trace, s, t, ev);
    s, t, trace := Next(s, ev), Reference(AtRemark, s, t, ev), trace + [ev];
  }

  /** ... and forks again without having written to the page, which is copy-on-write now. */
  lemma ForksAgain(v: nat) returns (s: State, t: Private, trace: seq<Event>)
    requires v != PFTEMP && v != XSTACK
    ensures Reached(trace, s, t) && CanDupChild(s, 0, v) && At(s, 0, v).cow && !At(s, 0, v).w
  {
    s, t, trace := EndsFork(v);
    var ev := ForkStart(0, 2);
    LeadsOn(Boot(), EMPTY, trace, s, t, ev);
    s, t, trace := Next(s, ev), Reference(AtRemark, s, t, ev), trace + [ev];
  }

  /** From the start to a state in which copies taken at the re-marking have gone wrong. */
  lemma DivergenceFromBoot() returns (trace: seq<Event>, n: State, r: Private)
    ensures Run(AtRemark, Boot(), EMPTY, trace, n, r) && !Agrees(AtRemark, n, r)
  {
    var s, t, head := ForksAgain(1);
    var f := SomeFreshFrame(s);
    assert Backed(s, 0);
    var b := Content(s, 0, 1)[0] + 1;
    var m, q := FaultInWindowDiverges(Boot(), EMPTY, head, s, t, 0, 1, f, 0, b);
    trace := head + [DupChild(0, 1)] + FaultInWindow(0, 1, f, 0, b);
    RunSnoc(AtRemark, Boot(), EMPTY, trace, m, q, Remark(0));
    trace, n, r := trace + [Remark(0)], Next(m, Remark(0)), Reference(AtRemark, m, q, Remark(0));
  }
}
