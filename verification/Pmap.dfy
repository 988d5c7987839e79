/** The physical page allocator and the page-table operations of kern/pmap.c, step
    by step, on arrays: struct PageInfo is split into the arrays ref and link, and
    mem holds the 1024 words of each frame. */
module Pmap {
  import opened Mmu
  import opened Paging
  import opened EnvVm
  import opened PageCalls

  const NULL := -1

  /** Following link from head visits exactly s and then stops: the linked free
      list is acyclic. */
  ghost predicate Chain(link: seq<int>, head: int, s: seq<nat>) {
    && head == (if s == [] then NULL else s[0])
    && forall k :: 0 <= k < |s| ==> Linked(link, s, k)
  }

  ghost predicate Linked(link: seq<int>, s: seq<nat>, k: nat)
    requires k < |s|
  {
    s[k] < |link| && link[s[k]] == if k + 1 < |s| then s[k + 1] else NULL
  }

  /** Taking the first frame off the list. */
  lemma ChainPop(link: seq<int>, head: int, s: seq<nat>)
    requires Chain(link, head, s) && NoDup(s) && s != []
    ensures s[0] < |link| && Chain(link[s[0] := NULL], link[s[0]], s[1..])
    ensures NoDup(s[1..]) && s[0] !in s[1..]
    ensures forall f :: f in s <==> f == s[0] || f in s[1..]
  {
    var t := s[1..];
    assert s == [s[0]] + t;
    assert Linked(link, s, 0);
    forall k | 0 <= k < |t| ensures t[k] == s[k + 1] && Linked(link[s[0] := NULL], t, k) {
      assert Linked(link, s, k + 1);
    }
  }

  /** Putting a frame in front of the list. */
  lemma ChainPush(link: seq<int>, head: int, s: seq<nat>, f: nat)
    requires Chain(link, head, s) && NoDup(s) && f < |link| && f !in s
    ensures Chain(link[f := head], f, [f] + s) && NoDup([f] + s)
  {
    var t, after := [f] + s, link[f := head];
    forall k | 0 <= k < |t| ensures Linked(after, t, k) {
      if k > 0 {
        assert Linked(link, s, k - 1);
      }
    }
  }

  /** What pgdir_walk relies on: the directory and the frames it may touch exist,
      and the directory is not itself a free frame. */
  ghost predicate Walkable(m: Mem, d: nat, i: nat) {
    && |m.words| == |m.refs| && d < |m.words| && |m.words[d]| == NPTENTRIES
    && (m.free != [] ==> m.free[0] < |m.words| && m.free[0] != d)
    && (forall f :: f in m.free ==> f < |m.words|)
    && (PdeAt(m, d, i) != 0 ==> TableOf(m, d, i) < |m.words| && |m.words[TableOf(m, d, i)]| == NPTENTRIES)
  }

  /** What page_remove relies on besides: a mapped frame is counted and not free. */
  ghost predicate Removable(m: Mem, d: nat, i: nat, j: nat) {
    && Walkable(m, d, i)
    && (PteAt(m, d, i, j) != 0 ==>
         var f := FrameOf(PteAt(m, d, i, j)); f < |m.refs| && m.refs[f] >= 1 && f !in m.free)
  }

  lemma InvWalkable(m: Mem, a: Acct, x: int, d: nat, i: nat)
    requires Inv(m, a, x) && d in a.dirs && i < USERPDES
    ensures Walkable(m, d, i)
  {
    assert Root(d) in RefsTo(m, a.dirs, d);
    assert m.refs[d] >= 1;
    assert m.free != [] ==> m.free[0] in m.free;
  }

  lemma InvRemovable(m: Mem, a: Acct, x: int, d: nat, i: nat, j: nat)
    requires Inv(m, a, x) && d in a.dirs && i < USERPDES && j < NPTENTRIES
    ensures Removable(m, d, i, j)
  {
    InvWalkable(m, a, x, d, i);
    if PteAt(m, d, i, j) != 0 {
      MappedIsData(m, a, x, d, i, j);
    }
  }

  class Memory {
    const mem: array<seq<nat>>
    const ref: array<int>
    const link: array<int>
    var head: int
    ghost var free: seq<nat>

    ghost predicate Valid()
      reads this, mem, ref, link
    {
      && mem.Length == ref.Length == link.Length && ref != link
      && Chain(link[..], head, free) && NoDup(free)
      && (forall f: nat :: f < link.Length && f !in free ==> link[f] == NULL)
    }

    ghost function Value(): Mem
      reads this, mem, ref
    {
      Mem(mem[..], ref[..], free)
    }

    /** The memory before page_init runs, with pages zeroed as mem_init leaves it. */
    constructor (npages: nat)
      ensures Valid() && free == [] && mem.Length == npages && fresh(mem) && fresh(ref) && fresh(link)
      ensures forall f :: 0 <= f < npages ==> ref[f] == 0 && mem[f] == Zeros()
    {
      mem := new seq<nat>[npages](_ => Zeros());
      ref := new int[npages](_ => 0);
      link := new int[npages](_ => NULL);
      head := NULL;
      free := [];
    }

    /** page_init: every frame is put on the free list except frame 0, the one
        holding the boot code of the other processors (mpentry), the I/O hole and the
        frames from the end of the hole to the end of the kernel image (kernelEnd). */
    method PageInit(mpentry: nat, ioHole: nat, extMem: nat, kernelEnd: nat)
      requires Valid() && free == [] && forall f :: 0 <= f < mem.Length ==> ref[f] == 0 && |mem[f]| == NPTENTRIES
      modifies this, ref, link
      ensures Valid() && mem[..] == old(mem[..])
      ensures forall f: nat :: f in free <==>
                f < mem.Length && f != 0 && f != mpentry && !(ioHole <= f < extMem) && !(extMem <= f < kernelEnd)
      ensures var a := Acct(Elements(free), {}, {}); Inv(Value(), a, NoFrame)
    {
      var i := 0;
      while i < ref.Length
        modifies this, ref, link
        invariant 0 <= i <= ref.Length && Valid()
        invariant forall f :: 0 <= f < ref.Length ==> ref[f] == 0
        invariant forall f: nat :: f in free <==>
                f < i && f != 0 && f != mpentry && !(ioHole <= f < extMem) && !(extMem <= f < kernelEnd)
      {
        ghost var before := link[..];
        assert before[i] == NULL;
        link[i] := NULL;
        assert link[..] == before;
        if i == 0 || i == mpentry || (ioHole <= i < extMem) || (extMem <= i < kernelEnd) {
          i := i + 1;
          continue;
        }
        ChainPush(link[..], head, free, i);
        link[i] := head;
        ref[i] := 0;
        head := i;
        free := [i] + free;
        i := i + 1;
      }
      ghost var a := Acct(Elements(free), {}, {});
      forall g | g in a.managed ensures |RefsTo(Value(), {}, g)| == 0 {
        assert RefsTo(Value(), {}, g) == {};
      }
    }

    method PageAlloc(zero: bool) returns (pp: int)
      requires Valid() && forall f :: f in free ==> f < mem.Length
      modifies this, mem, link
      ensures Valid()
      ensures old(free) == [] ==> pp == NULL && Value() == old(Value())
      ensures old(free) != [] ==> pp == old(free)[0]
      ensures old(free) != [] ==>
                Value() == if zero then Alloc(old(Value())) else old(Value()).(free := old(free)[1..])
    {
      if head == NULL {
        return NULL;
      }
      ChainPop(link[..], head, free);
      pp := head;
      head := link[pp];
      link[pp] := NULL;
      free := free[1..];
      if zero {
        mem[pp] := Zeros();
      }
    }

    /** The two panics of page_free are its preconditions; a frame already on the
        list is the double free they are meant to catch. */
    method PageFree(pp: nat)
      requires Valid() && pp < ref.Length && ref[pp] == 0 && link[pp] == NULL && pp !in free
      modifies this, link
      ensures Valid() && Value() == old(Value()).(free := [pp] + old(free))
    {
      ChainPush(link[..], head, free, pp);
      link[pp] := head;
      head := pp;
      free := [pp] + free;
    }

    method PageDecref(pp: nat)
      requires Valid() && pp < ref.Length && ref[pp] >= 1 && pp !in free
      modifies this, ref, link
      ensures Valid() && Value() == Decref(old(Value()), pp)
    {
      ref[pp] := ref[pp] - 1;
      if ref[pp] == 0 {
        PageFree(pp);
      }
    }

    /** pp->pp_ref++ */
    method PageIncref(pp: nat)
      requires Valid() && pp < ref.Length
      modifies ref
      ensures Valid() && Value() == Incref(old(Value()), pp)
    {
      ref[pp] := ref[pp] + 1;
    }

    /** Storing one word of a frame: a directory or table entry, or user data. */
    method WriteWord(frame: nat, index: nat, w: nat)
      requires Valid() && frame < mem.Length && index < |mem[frame]|
      modifies mem
      ensures Valid() && Value() == Store(old(Value()), frame, index, w)
    {
      mem[frame] := mem[frame][index := w];
    }

    /** pgdir_walk: the frame of the page table holding va's entry, or NULL. */
    method PgdirWalk(pgdir: nat, va: nat, create: bool) returns (table: int)
      requires Valid() && Walkable(Value(), pgdir, PDX(va)) && va < UTOP
      modifies this, mem, ref, link
      ensures Valid()
      ensures Value() == if create then Walk(old(Value()), pgdir, PDX(va)) else old(Value())
      ensures table == NULL <==> PdeAt(Value(), pgdir, PDX(va)) == 0
      ensures table != NULL ==> table == TableOf(Value(), pgdir, PDX(va))
    {
      PgaddrInverse(va);
      var pdx := PDX(va);
      if mem[pgdir][pdx] == 0 && create {
        var page := PageAlloc(true);
        if page != NULL {
          PageIncref(page);
          WriteWord(pgdir, pdx, PteWord(page, PTE_P + PTE_W + PTE_U));
          PteWordFields(page, PTE_P + PTE_W + PTE_U);
        }
      }
      if mem[pgdir][pdx] != 0 {
        return FrameOf(mem[pgdir][pdx]);
      }
      return NULL;
    }

    /** page_lookup: the frame mapped at va and the table holding its entry. */
    method PageLookup(pgdir: nat, va: nat) returns (pp: int, table: int)
      requires Valid() && Removable(Value(), pgdir, PDX(va), PTX(va)) && va < UTOP
      modifies this, mem, ref, link
      ensures Valid() && Value() == old(Value())
      ensures pp == if Translate(Value(), pgdir, va) == 0 then NULL else FrameOf(Translate(Value(), pgdir, va))
      ensures pp != NULL ==> table == TableOf(Value(), pgdir, PDX(va))
    {
      PgaddrInverse(va);
      table := PgdirWalk(pgdir, va, false);
      if table == NULL || mem[table][PTX(va)] == 0 {
        return NULL, table;
      }
      pp := FrameOf(mem[table][PTX(va)]);
    }

    method PageRemove(pgdir: nat, va: nat)
      requires Valid() && Removable(Value(), pgdir, PDX(va), PTX(va)) && va < UTOP
      modifies this, mem, ref, link
      ensures Valid() && Value() == Remove(old(Value()), pgdir, PDX(va), PTX(va))
    {
      PgaddrInverse(va);
      var pp, table := PageLookup(pgdir, va);
      if pp == NULL {
        return;
      }
      PageDecref(pp);
      WriteWord(table, PTX(va), 0);
    }

    /** page_insert; false stands for -E_NO_MEM. */
    method PageInsert(pgdir: nat, pp: nat, va: nat, perm: nat, ghost a: Acct) returns (ok: bool)
      requires Valid() && Inv(Value(), a, NoFrame) && pgdir in a.dirs && va < UTOP
      requires DataFrame(Value(), a, pp)
      modifies this, mem, ref, link
      ensures Valid() && Value() == Insert(old(Value()), pgdir, PDX(va), PTX(va), pp, perm)
      ensures ok <==> CanWalk(old(Value()), pgdir, PDX(va))
    {
      ghost var m := Value();
      var table := TableFor(pgdir, va, pp, a);
      if table == NULL {
        return false;
      }
      InsertIs(m, pgdir, PDX(va), PTX(va), pp, perm);
      FillEntry(pgdir, pp, va, perm, table);
      return true;
    }

    /** The walk at the head of page_insert. */
    method TableFor(pgdir: nat, va: nat, ghost pp: nat, ghost a: Acct) returns (table: int)
      requires Valid() && Inv(Value(), a, NoFrame) && pgdir in a.dirs && va < UTOP && DataFrame(Value(), a, pp)
      modifies this, mem, ref, link
      ensures Valid() && Value() == Walk(old(Value()), pgdir, PDX(va))
      ensures table != NULL <==> CanWalk(old(Value()), pgdir, PDX(va))
      ensures table != NULL ==>
                table == TableOf(Value(), pgdir, PDX(va)) && InsertReady(Value(), pgdir, PDX(va), PTX(va), pp)
    {
      ghost var m := Value();
      assert PDX(va) < USERPDES && PTX(va) < NPTENTRIES && Walkable(m, pgdir, PDX(va)) by {
        PgaddrInverse(va);
        InvWalkable(m, a, NoFrame, pgdir, PDX(va));
      }
      table := PgdirWalk(pgdir, va, true);
      if table != NULL {
        InsertSteps(m, a, pgdir, PDX(va), PTX(va), pp);
      }
    }

    /** The rest of page_insert, once there is a table. */
    method FillEntry(pgdir: nat, pp: nat, va: nat, perm: nat, table: nat)
      requires Valid() && va < UTOP && InsertReady(Value(), pgdir, PDX(va), PTX(va), pp)
      requires table == TableOf(Value(), pgdir, PDX(va))
      modifies this, mem, ref, link
      ensures Valid()
      ensures Value() == Filled(old(Value()), pgdir, PDX(va), PTX(va), pp, perm)
    {
      PgaddrInverse(va);
      PageIncref(pp);
      PageRemove(pgdir, va);
      WriteWord(table, PTX(va), PteWord(pp, perm));
    }

    /** env_setup_vm, given the kernel directory as template; NULL is -E_NO_MEM. */
    method EnvSetupVm(kernPgdir: seq<nat>, ghost a: Acct) returns (pgdir: int)
      requires Valid() && Inv(Value(), a, NoFrame) && |kernPgdir| == NPTENTRIES
      modifies this, mem, ref, link
      ensures Valid()
      ensures old(free) == [] ==> pgdir == NULL && Value() == old(Value())
      ensures old(free) != [] ==> pgdir == old(free)[0] && Value() == Setup(old(Value()), kernPgdir)
    {
      pgdir := PageAlloc(true);
      if pgdir == NULL {
        return;
      }
      assert old(free)[0] in old(free);
      mem[pgdir] := kernPgdir;
      PageIncref(pgdir);
      WriteWord(pgdir, UVPTPDE, PteWord(pgdir, PTE_P + PTE_U));
    }

    /** One turn of that loop: page_remove of entry j if it is present. */
    method ClearEntry(pgdir: nat, table: nat, i: nat, j: nat, ghost a: Acct)
      requires Valid() && Inv(Value(), a, NoFrame) && pgdir in a.dirs && i < USERPDES && j < NPTENTRIES
      requires PdeAt(Value(), pgdir, i) != 0 && table == TableOf(Value(), pgdir, i)
      modifies this, mem, ref, link
      ensures Valid() && Value() == Remove(old(Value()), pgdir, i, j)
    {
      InvRemovable(Value(), a, NoFrame, pgdir, i, j);
      assert mem[table][j] == PteAt(Value(), pgdir, i, j);
      assert mem[table][j] != 0 ==> Present(mem[table][j]);
      if Present(mem[table][j]) {
        PgaddrSplits(i, j, 0);
        PgaddrInverse(PGADDR(i, j, 0));
        PageRemove(pgdir, PGADDR(i, j, 0));
      }
    }

    /** The inner loop of env_free: page_remove of every present entry of table i. */
    method ClearTable(pgdir: nat, i: nat, ghost m0: Mem, ghost a: Acct)
      requires Valid() && TornDownTo(m0, Value(), a, pgdir, i, 0) && i < USERPDES && PdeAt(Value(), pgdir, i) != 0
      modifies this, mem, ref, link
      ensures Valid() && TornDownTo(m0, Value(), a, pgdir, i, NPTENTRIES)
      ensures Value() == ClearFrom(old(Value()), pgdir, i, 0)
    {
      InvWalkable(Value(), a, NoFrame, pgdir, i);
      var table := FrameOf(mem[pgdir][i]);
      var j := 0;
      while j < NPTENTRIES
        invariant 0 <= j <= NPTENTRIES && Valid() && TornDownTo(m0, Value(), a, pgdir, i, j)
        invariant table == TableOf(Value(), pgdir, i) && PdeAt(Value(), pgdir, i) != 0
        invariant ClearFrom(Value(), pgdir, i, j) == ClearFrom(old(Value()), pgdir, i, 0)
      {
        TearEntry(m0, Value(), a, pgdir, i, j);
        ClearEntry(pgdir, table, i, j, a);
        j := j + 1;
      }
    }

    /** One turn of the outer loop: if the page table is present its entries, its
        directory entry, and the table itself. */
    method DropTableAt(pgdir: nat, i: nat, ghost m0: Mem, ghost a: Acct)
      requires Valid() && TornDownTo(m0, Value(), a, pgdir, i, 0) && i < USERPDES
      modifies this, mem, ref, link
      ensures Valid() && TornDownTo(m0, Value(), a, pgdir, i + 1, 0)
      ensures Value() == DropAt(old(Value()), pgdir, i)
    {
      InvWalkable(Value(), a, NoFrame, pgdir, i);
      if !Present(mem[pgdir][i]) {
        TearAbsent(m0, Value(), a, pgdir, i);
        return;
      }
      var table := FrameOf(mem[pgdir][i]);
      ClearTable(pgdir, i, m0, a);
      ghost var m := Value();
      TearTable(m0, m, a, pgdir, i);
      InvWalkable(m, a, NoFrame, pgdir, i);
      WriteWord(pgdir, i, 0);
      assert InDir(pgdir, i) in RefsTo(m, a.dirs, table);
      assert m.refs[table] == |{InDir(pgdir, i)}|;
      PageDecref(table);
      assert Value() == DropTable(m, pgdir, i);
    }

    /** env_free, memory part: unmap every user page, free every page table and then
        the directory. */
    method EnvFree(pgdir: nat, ghost a: Acct)
      requires Valid() && Inv(Value(), a, NoFrame) && pgdir in a.dirs
      modifies this, mem, ref, link
      ensures Valid() && Value() == FreeEnv(old(Value()), pgdir) && Freed(old(Value()), Value(), a, pgdir)
    {
      var i := 0;
      while i < USERPDES
        invariant 0 <= i <= USERPDES && Valid() && TornDownTo(old(Value()), Value(), a, pgdir, i, 0)
        invariant DropFrom(Value(), pgdir, i) == DropFrom(old(Value()), pgdir, 0)
      {
        DropTableAt(pgdir, i, old(Value()), a);
        i := i + 1;
      }
      TearRoot(old(Value()), Value(), a, pgdir);
      assert Value().refs[pgdir] == |{Root(pgdir)}|;
      PageDecref(pgdir);
    }

    /** env_page_alloc */
    method EnvPageAlloc(pgdir: nat, va: nat, perm: nat, ghost a: Acct) returns (r: int)
      requires Valid() && Inv(Value(), a, NoFrame) && pgdir in a.dirs && va < UTOP
      modifies this, mem, ref, link
      ensures Valid()
      ensures (Value(), r) == PageCalls.EnvPageAlloc(old(Value()), pgdir, PDX(va), PTX(va), perm)
    {
      if !GoodPerm(perm) {
        return -E_INVAL;
      }
      ghost var m := Value();
      assert m.free != [] ==> m.free[0] in m.free;
      var p := PageAlloc(true);
      if p == NULL {
        return -E_NO_MEM;
      }
      ghost var held := a.(hand := a.hand + {p});
      AllocInv(m, a);
      var ok := PageInsert(pgdir, p, va, perm, held);
      r := if ok then 0 else -E_NO_MEM;
    }

    /** env_page_map */
    method EnvPageMap(src: nat, srcva: nat, dst: nat, dstva: nat, perm: nat, ghost a: Acct) returns (r: int)
      requires Valid() && Inv(Value(), a, NoFrame) && src in a.dirs && dst in a.dirs
      requires srcva < UTOP && dstva < UTOP
      modifies this, mem, ref, link
      ensures Valid()
      ensures (Value(), r) ==
                PageCalls.EnvPageMap(old(Value()), src, PDX(srcva), PTX(srcva), dst, PDX(dstva), PTX(dstva), perm)
    {
      PgaddrInverse(srcva);
      InvRemovable(Value(), a, NoFrame, src, PDX(srcva), PTX(srcva));
      var page, table := PageLookup(src, srcva);
      if page == NULL {
        return -E_INVAL;
      }
      assert mem[table][PTX(srcva)] == Translate(Value(), src, srcva);
      if Writable(perm) && !Writable(PermOf(mem[table][PTX(srcva)])) {
        return -E_INVAL;
      }
      MappedIsData(Value(), a, NoFrame, src, PDX(srcva), PTX(srcva));
      var ok := PageInsert(dst, page, dstva, perm, a);
      r := if ok then 0 else -E_NO_MEM;
    }

    /** *srcpte after the page_lookup of sys_ipc_try_send. */
    method SourceWord(src: nat, srcva: nat, stale: nat, ghost a: Acct) returns (pte: nat)
      requires Valid() && Inv(Value(), a, NoFrame) && srcva < UTOP && src in a.dirs
      modifies this, mem, ref, link
      ensures Valid() && Value() == old(Value())
      ensures var word := Translate(Value(), src, srcva);
        if word != 0 then pte == word && Present(pte) else pte == stale
    {
      PgaddrInverse(srcva);
      InvRemovable(Value(), a, NoFrame, src, PDX(srcva), PTX(srcva));
      var page, table := PageLookup(src, srcva);
      pte := stale;
      if page != NULL {
        assert mem[table][PTX(srcva)] == Translate(Value(), src, srcva);
        pte := mem[table][PTX(srcva)];
        MappedPresent(Value(), a, src, PDX(srcva), PTX(srcva));
      }
    }

    /** The page transfer inside sys_ipc_try_send.  If the source page is not mapped, the
        kernel reads stale through a pointer that page_lookup has not set. */
    method SendPage(src: nat, srcva: nat, dst: nat, dstva: nat, perm: nat, stale: nat, ghost a: Acct) returns (r: int)
      requires Valid() && Inv(Value(), a, NoFrame) && srcva < UTOP && dstva < UTOP
      requires src in a.dirs && dst in a.dirs
      modifies this, mem, ref, link
      ensures Valid()
      ensures var word := Translate(old(Value()), src, srcva);
        (Value(), r) == SendReading(old(Value()), src, PDX(srcva), PTX(srcva), dst, PDX(dstva), PTX(dstva), perm,
                                    if word != 0 then word else stale)
    {
      var pte := SourceWord(src, srcva, stale, a);
      if pte != 0 && !Present(pte) {
        return -E_INVAL;
      }
      if Writable(perm) && !Writable(PermOf(pte)) {
        return -E_INVAL;
      }
      r := TransferPage(src, srcva, dst, dstva, perm, a);
    }

    method TransferPage(src: nat, srcva: nat, dst: nat, dstva: nat, perm: nat, ghost a: Acct) returns (r: int)
      requires Valid() && Inv(Value(), a, NoFrame) && srcva < UTOP && dstva < UTOP
      requires src in a.dirs && dst in a.dirs
      modifies this, mem, ref, link
      ensures Valid()
      ensures (Value(), r) ==
                Transfer(old(Value()), src, PDX(srcva), PTX(srcva), dst, PDX(dstva), PTX(dstva), perm)
    {
      var userPerm := WithUserPresent(perm);
      AllocKeepsInv(Value(), a, dst, PDX(dstva), PTX(dstva), userPerm);
      r := EnvPageAlloc(dst, dstva, userPerm, a);
      if r < 0 {
        return r;
      }
      r := EnvPageMap(src, srcva, dst, dstva, userPerm, a);
    }

    /** user_mem_check over the pages from the one of va to the one before page hi,
        where hi is va + len rounded up in 32 bits: 0 exactly when every one may be used
        with perm; otherwise bad is va or the start of the first page that may not. */
    method UserMemCheck(pgdir: nat, va: nat, len: nat, perm: nat, ghost a: Acct) returns (ok: bool, bad: nat, page: nat)
      requires Valid() && Inv(Value(), a, NoFrame) && pgdir in a.dirs && va < ADDRESSES && len < ADDRESSES
      modifies this, mem, ref, link
      ensures Valid() && Value() == old(Value())
      ensures ok <==> EndPage(va, len) <= UTOPPAGE && PagesAllow(Value(), pgdir, va / PGSIZE, EndPage(va, len), perm)
      ensures !ok && EndPage(va, len) > UTOPPAGE ==> bad == va
      ensures !ok && EndPage(va, len) <= UTOPPAGE ==>
                && PagesAllow(Value(), pgdir, va / PGSIZE, page, perm) && !PageAllows(Value(), pgdir, page, perm)
                && bad == (if page * PGSIZE > va then page * PGSIZE else va)
    {
      var hi := EndPage(va, len);
      page := va / PGSIZE;
      if hi > UTOPPAGE {
        return false, va, page;
      }
      ghost var pages := set p | 0 <= p < UTOPPAGE && PageAllows(Value(), pgdir, p, perm);
      ok, bad, page := CheckPages(pgdir, va, hi, perm, pages, a);
    }

    /** The loop of user_mem_check, where pages are those that may be used. */
    method CheckPages(pgdir: nat, va: nat, hi: nat, perm: nat, ghost pages: set<nat>, ghost a: Acct)
        returns (ok: bool, bad: nat, page: nat)
      requires Valid() && Inv(Value(), a, NoFrame) && pgdir in a.dirs && hi <= UTOPPAGE
      requires Tells(pages, Value(), pgdir, perm)
      modifies this, mem, ref, link
      ensures Valid() && Value() == old(Value())
      ensures ok <==> forall p :: va / PGSIZE <= p < hi ==> p in pages
      ensures !ok ==>
                && va / PGSIZE <= page < hi && page !in pages
                && (forall p :: va / PGSIZE <= p < page ==> p in pages)
                && bad == (if page * PGSIZE > va then page * PGSIZE else va)
    {
      page := va / PGSIZE;
      while page < hi
        invariant va / PGSIZE <= page && Valid() && Value() == old(Value())
        invariant forall p :: va / PGSIZE <= p < page ==> p in pages
        decreases hi - page
      {
        ok := PageCheck(pgdir, page, perm, pages, a);
        if !ok {
          bad := if page * PGSIZE > va then page * PGSIZE else va;
          return false, bad, page;
        }
        page := page + 1;
      }
      return true, va, page;
    }

    method PageCheck(pgdir: nat, page: nat, perm: nat, ghost pages: set<nat>, ghost a: Acct) returns (ok: bool)
      requires Valid() && Inv(Value(), a, NoFrame) && pgdir in a.dirs && page < UTOPPAGE
      requires Tells(pages, Value(), pgdir, perm)
      modifies this, mem, ref, link
      ensures Valid() && Value() == old(Value())
      ensures ok <==> page in pages
    {
      var at := page * PGSIZE;
      assert page in pages <==> PageAllows(Value(), pgdir, page, perm);
      WordOfPage(Value(), pgdir, page);
      AllowsBits(Translate(Value(), pgdir, at), perm);
      PgaddrInverse(at);
      InvWalkable(Value(), a, NoFrame, pgdir, PDX(at));
      var table := PgdirWalk(pgdir, at, false);
      ok := table != NULL && Allows(mem[table][PTX(at)], perm);
    }
  }

  lemma MappedPresent(m: Mem, a: Acct, d: nat, i: nat, j: nat)
    requires Inv(m, a, NoFrame) && d in a.dirs && i < USERPDES && j < NPTENTRIES && PteAt(m, d, i, j) != 0
    ensures Present(PteAt(m, d, i, j))
  {
  }

  const UTOPPAGE := 977920

  /** ROUNDUP(va + len, PGSIZE) as a page number, in 32-bit arithmetic. */
  function EndPage(va: nat, len: nat): nat {
    (va + len + PGSIZE - 1) % ADDRESSES / PGSIZE
  }

  /** The pages below hi from that of va on are those of the range: every page with a
      byte of it, exactly when rounding up its end does not wrap around. */
  lemma EndPageCoversIff(va: nat, len: nat)
    requires va < ADDRESSES && 0 < len < ADDRESSES
    ensures (forall b: nat :: va <= b < va + len ==> b / PGSIZE < EndPage(va, len)) <==>
              va + len + PGSIZE - 1 < ADDRESSES
  {
    var last := va + len - 1;
    if va + len + PGSIZE - 1 < ADDRESSES {
      assert EndPage(va, len) == (last + PGSIZE) / PGSIZE == last / PGSIZE + 1;
      forall b: nat | va <= b < va + len ensures b / PGSIZE <= last / PGSIZE {
        PagesInOrder(b, last);
      }
    } else {
      PagesInOrder(ADDRESSES - PGSIZE, last);
      assert EndPage(va, len) < ADDRESSES / PGSIZE;
      assert va <= last < va + len;
    }
  }

  lemma PagesInOrder(x: nat, y: nat)
    requires x <= y
    ensures x / PGSIZE <= y / PGSIZE
  {
  }

  ghost predicate PageAllows(m: Mem, d: nat, page: nat, perm: nat) {
    Grants(WordOf(m, d, page), perm)
  }

  ghost predicate Tells(pages: set<nat>, m: Mem, d: nat, perm: nat) {
    forall page {:trigger PageAllows(m, d, page, perm)} ::
      0 <= page < UTOPPAGE ==> (page in pages <==> PageAllows(m, d, page, perm))
  }

  ghost predicate PagesAllow(m: Mem, d: nat, lo: nat, hi: nat, perm: nat) {
    forall page :: lo <= page < hi ==> PageAllows(m, d, page, perm)
  }

  /** After the walk, the table it found is where the new entry goes: taking the
      reference and page_remove in between do not move it. */
  ghost predicate InsertReady(w: Mem, d: nat, i: nat, j: nat, f: nat) {
    var c := Remove(Incref(w, f), d, i, j);
    && f < |w.refs| && Removable(Incref(w, f), d, i, j)
    && TableOf(c, d, i) == TableOf(w, d, i) && TableOf(w, d, i) < |c.words|
    && |c.words[TableOf(w, d, i)]| == NPTENTRIES
  }

  /** What is left to do once there is a table. */
  function Filled(w: Mem, d: nat, i: nat, j: nat, f: nat, perm: nat): Mem {
    Store(Remove(Incref(w, f), d, i, j), TableOf(w, d, i), j, PteWord(f, perm))
  }

  lemma InsertIs(m: Mem, d: nat, i: nat, j: nat, f: nat, perm: nat)
    requires CanWalk(m, d, i) && InsertReady(Walk(m, d, i), d, i, j, f)
    ensures Insert(m, d, i, j, f, perm) == Filled(Walk(m, d, i), d, i, j, f, perm)
  {
  }

  lemma InsertSteps(m: Mem, a: Acct, d: nat, i: nat, j: nat, f: nat)
    requires Inv(m, a, NoFrame) && DataFrame(m, a, f) && CanWalk(m, d, i)
    requires d in a.dirs && i < USERPDES && j < NPTENTRIES
    ensures InsertReady(Walk(m, d, i), d, i, j, f)
  {
    var w, owing := Walk(m, d, i), a.(hand := a.hand - {f});
    WalkData(m, a, d, i, f);
    IncrefData(w, a, d, i, f);
    InvRemovable(Incref(w, f), owing, f, d, i, j);
    RemoveMaps(Incref(w, f), owing, f, d, i, j);
    RemoveInv(Incref(w, f), owing, f, d, i, j);
  }
}
