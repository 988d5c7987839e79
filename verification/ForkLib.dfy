/** pgfault, duppage and fork of lib/fork.c as the programs they are, issuing the
    steps of CowFork one system call at a time. */
module ForkLib {
  import opened CowFork

  // UTOP >> PGSHIFT
  const UTOPPAGE := 977920

  /** The mappings after a finished duppage run over the pages below k. */
  ghost predicate DuplicatedMaps(s0: State, s: State, e: nat, c: nat, k: nat) {
    && (forall v: nat :: Maps(s, e, v) <==> Maps(s0, e, v))
    && (forall v: nat :: Maps(s, e, v) ==> At(s, e, v).frame == At(s0, e, v).frame)
    && (forall v: nat :: Maps(s, c, v) <==> v < k && v != XSTACK && Maps(s0, e, v))
    && (forall v: nat :: Maps(s, c, v) ==> At(s, c, v).frame == At(s0, e, v).frame && !At(s, e, v).w)
  }

  /** What a finished duppage run over the pages below k has done: the child maps
      the parent's frames there, and no page that both map is writable. */
  ghost predicate DuplicatedTo(s0: State, s: State, e: nat, c: nat, k: nat) {
    && Inv(s) && s.data == s0.data && Active(s, e) && s.envs[e].fork == Duplicating(c)
    && c in s.envs && ChildWindow(s, e) == Closed
    && s.envs.Keys == s0.envs.Keys + {c}
    && (forall x :: x in s0.envs && x != e && x != c ==> s.envs[x] == s0.envs[x])
    && DuplicatedMaps(s0, s, e, c, k)
  }

  lemma DuplicateOne(s0: State, s: State, e: nat, c: nat, v: nat)
    requires DuplicatedTo(s0, s, e, c, v) && Maps(s, e, v) && v != XSTACK && e in s0.envs && c !in s0.envs
    ensures CanDupChild(s, e, v)
    ensures !Remarked(At(s, e, v)) ==> DuplicatedTo(s0, DoDupChild(s, e, v), e, c, v + 1)
    ensures Remarked(At(s, e, v)) ==>
              && CanRemark(DoDupChild(s, e, v), e) && Inv(DoDupChild(s, e, v)) && Maps(DoDupChild(s, e, v), e, v)
              && ChildWindow(DoDupChild(s, e, v), e).v == v
              && DuplicatedTo(s0, DoRemark(DoDupChild(s, e, v), e), e, c, v + 1)
  {
    assert EnvOk(s, e);
    NextInv(s, DupChild(e, v));
    var n := DoDupChild(s, e, v);
    DupChildFrame(s, e, v);
    if Remarked(At(s, e, v)) {
      RemarkOne(s0, s, e, c, v);
    }
  }

  lemma RemarkMaps(s0: State, s: State, n: State, r: State, e: nat, c: nat, v: nat)
    requires DuplicatedMaps(s0, s, e, c, v) && Maps(s, e, v) && v != XSTACK && e != c
    requires OneSet(s, n, c, v, Pte(At(s, e, v).frame, false, true))
    requires OneSet(n, r, e, v, Pte(At(s, e, v).frame, false, true))
    ensures DuplicatedMaps(s0, r, e, c, v + 1)
  {
  }

  lemma RemarkOne(s0: State, s: State, e: nat, c: nat, v: nat)
    requires DuplicatedTo(s0, s, e, c, v) && v != XSTACK && e in s0.envs && c !in s0.envs
    requires CanDupChild(s, e, v) && Remarked(At(s, e, v)) && CanRemark(DoDupChild(s, e, v), e)
    requires Inv(DoDupChild(s, e, v)) && Maps(DoDupChild(s, e, v), e, v) && ChildWindow(DoDupChild(s, e, v), e).v == v
    ensures DuplicatedTo(s0, DoRemark(DoDupChild(s, e, v), e), e, c, v + 1)
  {
    var n := DoDupChild(s, e, v);
    assert Inv(DoRemark(n, e)) by {
      NextInv(n, Remark(e));
    }
    assert DuplicatedMaps(s0, DoRemark(n, e), e, c, v + 1) by {
      DupChildFrame(s, e, v);
      RemarkFrame(n, e);
      RemarkMaps(s0, s, n, DoRemark(n, e), e, c, v);
    }
  }

  lemma DuplicateNone(s0: State, s: State, e: nat, c: nat, v: nat)
    requires DuplicatedTo(s0, s, e, c, v) && (!Maps(s, e, v) || v == XSTACK)
    ensures DuplicatedTo(s0, s, e, c, v + 1)
  {
  }

  /** pgfault is under way: so far only PFTEMP has been mapped. */
  ghost predicate Serving(s0: State, s: State, e: nat, v: nat, f: nat) {
    && Inv(s) && Born(s, e) && Maps(s0, e, v) && v != PFTEMP && Maps(s, e, v)
    && OneSet(s0, s, e, PFTEMP, Pte(f, true, false))
  }

  lemma ServeAlloc(s: State, e: nat, v: nat, f: nat)
    requires Inv(s) && CanFaultAlloc(s, e, v, f)
    ensures var n := DoFaultAlloc(s, e, v, f);
            Serving(s, n, e, v, f) && n.envs[e].handler == Allocated(v) && n.data == s.data[f := ZeroPage()]
            && At(s, e, v).frame in s.data && At(s, e, v).frame != f
  {
    NextInv(s, FaultAlloc(e, v, f));
    FaultAllocFrame(s, e, v, f);
  }

  lemma ServeCopy(s0: State, s: State, e: nat, v: nat, f: nat)
    requires Serving(s0, s, e, v, f) && s.envs[e].handler == Allocated(v)
    ensures At(s, e, v).frame in s.data
    ensures var n := DoFaultCopy(s, e);
            Serving(s0, n, e, v, f) && n.envs[e].handler == Copied(v) && n.data == s.data[f := Content(s, e, v)]
  {
    NextInv(s, FaultCopy(e));
    FaultCopyFrame(s, e);
  }

  lemma ServeMap(s0: State, s: State, e: nat, v: nat, f: nat)
    requires Serving(s0, s, e, v, f) && s.envs[e].handler == Copied(v)
    ensures var n := DoFaultMap(s, e);
            && Inv(n) && CanFaultUnmap(n, e) && n.data == s.data && OneSet(s, n, e, v, Pte(f, true, false))
  {
    NextInv(s, FaultMap(e));
    FaultMapFrame(s, e);
  }

  lemma ServeUnmap(s: State, e: nat)
    requires Inv(s) && CanFaultUnmap(s, e)
    ensures var n := DoFaultUnmap(s, e);
            Inv(n) && Active(n, e) && n.data == s.data && SameMaps(s, n, {(e, PFTEMP)})
  {
    NextInv(s, FaultUnmap(e));
    FaultUnmapFrame(s, e);
  }

  /** Mapping PFTEMP, the page, and unmapping PFTEMP again leaves the page changed. */
  lemma ServedFrame(s0: State, s1: State, s2: State, s3: State, e: nat, v: nat, f: nat)
    requires OneSet(s0, s1, e, PFTEMP, Pte(f, true, false)) && OneSet(s1, s2, e, v, Pte(f, true, false))
    requires SameMaps(s2, s3, {(e, PFTEMP)}) && !Maps(s0, e, PFTEMP) && v != PFTEMP
    ensures OneSet(s0, s3, e, v, Pte(f, true, false))
  {
  }

  class Library {
    var s: State

    /** pgfault: afterwards the page is a private writable copy at frame f, the
        frame sys_page_alloc found free; nothing else has changed. */
    method PgFault(e: nat, v: nat, f: nat)
      requires Inv(s) && CanFaultAlloc(s, e, v, f)
      modifies this
      ensures Inv(s) && Active(s, e) && s.data == old(s).data[f := old(Content(s, e, v))]
      ensures OneSet(old(s), s, e, v, Pte(f, true, false))
    {
      ghost var s0 := s;
      assert !Maps(s, e, PFTEMP) by {
        assert EnvOk(s, e);
      }
      ServeAlloc(s, e, v, f);
      s := DoFaultAlloc(s, e, v, f);
      ServeCopy(s0, s, e, v, f);
      s := DoFaultCopy(s, e);
      ghost var s1 := s;
      ServeMap(s0, s, e, v, f);
      s := DoFaultMap(s, e);
      ghost var s2 := s;
      ServeUnmap(s, e);
      s := DoFaultUnmap(s, e);
      ServedFrame(s0, s1, s2, s, e, v, f);
    }

    /** duppage: one sys_page_map for a read-only page, two for any other. */
    method DupPage(e: nat, v: nat, ghost s0: State, ghost c: nat)
      requires DuplicatedTo(s0, s, e, c, v) && Maps(s, e, v) && v != XSTACK && e in s0.envs && c !in s0.envs
      modifies this
      ensures DuplicatedTo(s0, s, e, c, v + 1)
    {
      DuplicateOne(s0, s, e, c, v);
      var pte := At(s, e, v);
      if pte.w || pte.cow {
        s := DoDupChild(s, e, v);
        s := DoRemark(s, e);
      } else {
        s := DoDupChild(s, e, v);
      }
    }

    /** The loop of fork over all pages below UTOP. */
    method DupPages(e: nat, c: nat, ghost s0: State)
      requires e in s0.envs && c !in s0.envs && DuplicatedTo(s0, s, e, c, 0)
      modifies this
      ensures DuplicatedTo(s0, s, e, c, UTOPPAGE)
    {
      var pnum := 0;
      while pnum < UTOPPAGE
        invariant pnum <= UTOPPAGE && DuplicatedTo(s0, s, e, c, pnum)
      {
        if pnum == XSTACK || !Maps(s, e, pnum) {
          DuplicateNone(s0, s, e, c, pnum);
        } else {
          DupPage(e, pnum, s0, c);
        }
        pnum := pnum + 1;
      }
    }

    /** fork: the child gets every page of the parent except the exception stack,
        with the same content, and an empty exception stack of its own; no page of
        the parent changes its content. */
    method Fork(e: nat, c: nat, f: nat)
      requires Inv(s) && CanForkStart(s, e, c) && FreshFrame(s, f)
      requires forall v: nat :: Maps(s, e, v) ==> v < UTOPPAGE
      modifies this
      ensures Forked(old(s), s, e, c, f)
    {
      ghost var s0 := s;
      BeginFork(s, e, c);
      s := DoForkStart(s, e, c);
      DupPages(e, c, s0);
      EndFork(s0, s, e, c, f);
      s := DoForkEnd(s, e, f);
    }
  }

  /** The outcome of fork: the child c shares every page of e but the exception
      stack, none of them writable on either side, so both read what e had. */
  ghost predicate Forked(s0: State, s: State, e: nat, c: nat, f: nat) {
    && Inv(s) && Born(s, c) && Active(s, e) && s.envs[e].fork == NoFork
    && s.envs.Keys == s0.envs.Keys + {c} && s.data == s0.data[f := ZeroPage()]
    && (forall x :: x in s0.envs && x != e && x != c ==> s.envs[x] == s0.envs[x])
    && (forall v: nat :: Maps(s, e, v) <==> Maps(s0, e, v))
    && (forall v: nat :: Maps(s, e, v) ==> At(s, e, v).frame == At(s0, e, v).frame)
    && (forall v: nat :: Maps(s, c, v) <==> v == XSTACK || Maps(s0, e, v))
    && (forall v: nat :: Maps(s, c, v) && v != XSTACK ==>
         At(s, c, v).frame == At(s0, e, v).frame && !At(s, c, v).w && !At(s, e, v).w)
    && At(s, c, XSTACK) == Pte(f, true, false)
  }

  lemma BeginFork(s: State, e: nat, c: nat)
    requires Inv(s) && CanForkStart(s, e, c)
    ensures DuplicatedTo(s, DoForkStart(s, e, c), e, c, 0)
  {
    NextInv(s, ForkStart(e, c));
    ForkStartFrame(s, e, c);
  }

  lemma EndFork(s0: State, s: State, e: nat, c: nat, f: nat)
    requires Inv(s0) && e in s0.envs && c !in s0.envs && DuplicatedTo(s0, s, e, c, UTOPPAGE) && FreshFrame(s0, f)
    requires forall v: nat :: Maps(s0, e, v) ==> v < UTOPPAGE
    ensures CanForkEnd(s, e, f) && Forked(s0, DoForkEnd(s, e, f), e, c, f)
  {
    forall x: nat, v: nat | Maps(s, x, v) ensures At(s, x, v).frame != f {
      assert x != c && x != e ==> Maps(s0, x, v);
    }
    assert EnvOk(s, e) && EnvOk(s, c);
    NextInv(s, ForkEnd(e, f));
    ForkEndFrame(s, e, f);
  }
}
