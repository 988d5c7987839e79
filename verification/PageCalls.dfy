/** The page system calls of kern/syscall.c over the memory model: env_page_alloc,
    env_page_map and the page-carrying half of sys_ipc_try_send. */
module PageCalls {
  import opened Mmu
  import opened Paging

  const E_INVAL := 3
  const E_NO_MEM := 4

  /** perm & ~PTE_SYSCALL == 0: only P, W, U and the three available bits. */
  predicate SyscallBits(perm: nat) {
    perm < PGSIZE && perm % 512 < 8
  }

  /** check_perm(perm, NULL) == 0 */
  predicate GoodPerm(perm: nat) {
    SyscallBits(perm) && perm % 2 == 1 && UserBit(perm)
  }

  /** check_perm in bits: PTE_P and PTE_U are there, and nothing but PTE_W and the three
      available bits besides. */
  lemma GoodPermIff(perm: nat)
    ensures GoodPerm(perm) <==>
              Bit(perm, 0) && Bit(perm, 2) && forall k: nat :: Bit(perm, k) ==> MayAsk(k)
  {
    FlagBits(perm);
    SyscallBitsIff(perm);
  }

  /** PTE_P, PTE_W, PTE_U and the three available bits. */
  predicate MayAsk(k: nat) {
    k <= 2 || 9 <= k <= 11
  }

  lemma SyscallBitsIff(perm: nat)
    ensures SyscallBits(perm) <==> forall k: nat :: Bit(perm, k) ==> MayAsk(k)
  {
    MiddleBits(perm);
    assert Power(12) == PGSIZE;
    if SyscallBits(perm) {
      forall k: nat | Bit(perm, k) ensures MayAsk(k) {
        if k >= 12 {
          NoHighBit(perm, 12, k);
        }
      }
    } else if perm >= PGSIZE {
      var k := HighBit(perm, 12);
      assert Bit(perm, k) && !MayAsk(k);
    } else {
      assert !MayAsk(3) && !MayAsk(4) && !MayAsk(5) && !MayAsk(6) && !MayAsk(7) && !MayAsk(8);
    }
  }

  lemma FlagBits(perm: nat)
    ensures Bit(perm, 0) <==> perm % 2 == 1
    ensures Bit(perm, 1) <==> Writable(perm)
    ensures Bit(perm, 2) <==> UserBit(perm)
  {
    assert perm / 2 / 2 == perm / 4;
    assert Bit(perm, 1) == Bit(perm / 2, 0) && Bit(perm, 2) == Bit(perm / 2, 1) == Bit(perm / 2 / 2, 0);
  }

  lemma MiddleBits(perm: nat)
    ensures perm % 512 < 8 <==>
              && !Bit(perm, 3) && !Bit(perm, 4) && !Bit(perm, 5) && !Bit(perm, 6) && !Bit(perm, 7) && !Bit(perm, 8)
  {
    SixBits(perm);
    ThreeBits(perm / 8);
    ThreeBits(perm / 8 / 8);
    OctalDigits(perm);
  }

  lemma OctalDigits(x: nat)
    ensures x % 512 < 8 <==> x / 8 % 8 == 0 && x / 8 / 8 % 8 == 0
  {
    var q, r := x / 512, x % 512;
    assert x / 8 == 64 * q + r / 8;
    assert x / 8 / 8 == 8 * q + r / 64;
  }

  lemma SixBits(x: nat)
    ensures Bit(x, 3) == Bit(x / 8, 0) && Bit(x, 4) == Bit(x / 8, 1) && Bit(x, 5) == Bit(x / 8, 2)
    ensures Bit(x, 6) == Bit(x / 8 / 8, 0) && Bit(x, 7) == Bit(x / 8 / 8, 1) && Bit(x, 8) == Bit(x / 8 / 8, 2)
  {
    ThreeHalves(x, 0);
    ThreeHalves(x, 1);
    ThreeHalves(x, 2);
    ThreeHalves(x, 3);
    ThreeHalves(x, 4);
    ThreeHalves(x, 5);
    ThreeHalves(x / 8, 0);
    ThreeHalves(x / 8, 1);
    ThreeHalves(x / 8, 2);
  }

  lemma ThreeHalves(x: nat, k: nat)
    ensures Bit(x, k + 3) == Bit(x / 8, k)
  {
    assert x / 2 / 2 / 2 == x / 8;
    assert Bit(x, k + 3) == Bit(x / 2, k + 2) == Bit(x / 2 / 2, k + 1) == Bit(x / 2 / 2 / 2, k);
  }

  lemma ThreeBits(x: nat)
    ensures x % 8 == 0 <==> !Bit(x, 0) && !Bit(x, 1) && !Bit(x, 2)
  {
    assert x / 2 / 2 == x / 4;
    assert Bit(x, 1) == Bit(x / 2, 0) && Bit(x, 2) == Bit(x / 2, 1) == Bit(x / 4, 0);
  }

  lemma {:induction false} NoHighBit(x: nat, n: nat, k: nat)
    requires x < Power(n) && k >= n
    ensures !Bit(x, k)
    decreases n
  {
    if n == 0 {
      ZeroHasNoBit(k);
    } else {
      NoHighBit(x / 2, n - 1, k - 1);
    }
  }

  lemma {:induction false} HighBit(x: nat, n: nat) returns (k: nat)
    requires x >= Power(n)
    ensures k >= n && Bit(x, k)
    decreases n
  {
    if n == 0 {
      k := SomeBit(x);
    } else {
      k := HighBit(x / 2, n - 1);
      k := k + 1;
    }
  }

  function Power(n: nat): nat {
    if n == 0 then 1 else 2 * Power(n - 1)
  }

  /** env_page_alloc: the new memory and the error, 0 for none. */
  function EnvPageAlloc(m: Mem, d: nat, i: nat, j: nat, perm: nat): (r: (Mem, int)) {
    if !GoodPerm(perm) then (m, -E_INVAL)
    else if m.free == [] then (m, -E_NO_MEM)
    else (Insert(Alloc(m), d, i, j, m.free[0], perm),
          if CanWalk(Alloc(m), d, i) then 0 else -E_NO_MEM)
  }

  /** env_page_map; the caller has put PTE_U and PTE_P into perm, and sys_page_map
      lets every other bit of the user's argument through. */
  function EnvPageMap(m: Mem, src: nat, si: nat, sj: nat, dst: nat, i: nat, j: nat, perm: nat): (r: (Mem, int)) {
    var pte := PteAt(m, src, si, sj);
    if pte == 0 then (m, -E_INVAL)
    else if Writable(perm) && !Writable(PermOf(pte)) then (m, -E_INVAL)
    else (Insert(m, dst, i, j, FrameOf(pte), perm),
          if CanWalk(m, dst, i) then 0 else -E_NO_MEM)
  }

  /** The one case in which env_page_alloc loses a frame: it takes the last free
      frame, and the page table it then needs cannot be allocated. */
  predicate Leaks(m: Mem, d: nat, i: nat, j: nat, perm: nat) {
    GoodPerm(perm) && |m.free| == 1 && PdeAt(m, d, i) == 0
  }

  /** The flat map of r is that of m with one entry set to w. */
  ghost predicate Updates(m: Mem, r: Mem, dirs: set<nat>, d: nat, i: nat, j: nat, w: nat) {
    forall e, k, l :: e in dirs && 0 <= k < USERPDES && 0 <= l < NPTENTRIES ==>
      PteAt(r, e, k, l) == if e == d && k == i && l == j then w else PteAt(m, e, k, l)
  }

  /** env_page_alloc maps a zeroed frame or changes no mapping; it keeps the
      accounting with no frame left in hand exactly when Leaks is false. */
  lemma EnvPageAllocExact(m: Mem, a: Acct, d: nat, i: nat, j: nat, perm: nat)
    requires Inv(m, a, NoFrame) && d in a.dirs && i < USERPDES && j < NPTENTRIES
    ensures var (m', r) := EnvPageAlloc(m, d, i, j, perm);
            && Inv(m', if Leaks(m, d, i, j, perm) then a.(hand := a.hand + {m.free[0]}) else a, NoFrame)
            && (Leaks(m, d, i, j, perm) ==> r == -E_NO_MEM && m.free[0] !in a.hand)
            && (r == 0 <==> GoodPerm(perm) && |m.free| >= (if PdeAt(m, d, i) == 0 then 2 else 1))
            && (r != 0 ==> SameMap(m, m', a.dirs))
            && (r == 0 ==> Updates(m, m', a.dirs, d, i, j, PteWord(m.free[0], perm)))
            && (r == -E_INVAL <==> !GoodPerm(perm)) && (r == 0 || r == -3 || r == -4)
  {
    if GoodPerm(perm) && m.free != [] {
      var z, held := m.free[0], a.(hand := a.hand + {m.free[0]});
      AllocInv(m, a);
      FreeHasNoRefs(m, a, NoFrame, z);
      SmallKeepsFrame(z, perm);
      InsertRefines(Alloc(m), held, d, i, j, z, perm);
      assert held.(hand := held.hand - {z}) == a;
    }
  }

  lemma AllocKeepsInv(m: Mem, a: Acct, d: nat, i: nat, j: nat, perm: nat)
    requires Inv(m, a, NoFrame) && d in a.dirs && i < USERPDES && j < NPTENTRIES
    ensures EnvPageAlloc(m, d, i, j, perm).1 >= 0 ==> Inv(EnvPageAlloc(m, d, i, j, perm).0, a, NoFrame)
  {
    EnvPageAllocExact(m, a, d, i, j, perm);
  }

  /** Frames are lost only there: the number of frames that are neither free nor
      referenced grows exactly in the Leaks case. */
  lemma LeakExactly(m: Mem, a: Acct, d: nat, i: nat, j: nat, perm: nat)
    requires Inv(m, a, NoFrame) && d in a.dirs && i < USERPDES && j < NPTENTRIES
    ensures var m' := EnvPageAlloc(m, d, i, j, perm).0;
            |m'.free| + |Used(m', a)| < |m.free| + |Used(m, a)| <==> Leaks(m, d, i, j, perm)
    ensures var m' := EnvPageAlloc(m, d, i, j, perm).0;
            |m'.free| + |Used(m', a)| >= |m.free| + |Used(m, a)| - 1
  {
    EnvPageAllocExact(m, a, d, i, j, perm);
    var m' := EnvPageAlloc(m, d, i, j, perm).0;
    Conservation(m, a, NoFrame);
    var a' := if Leaks(m, d, i, j, perm) then a.(hand := a.hand + {m.free[0]}) else a;
    Conservation(m', a', NoFrame);
    assert Used(m', a') == Used(m', a);
  }

  /** Every frame is zero, frame 1 is the only directory, the other ones are free. */
  lemma EmptyDirectoryInv(m: Mem, managed: set<nat>)
    requires |m.words| == |m.refs| && (forall f :: 0 <= f < |m.words| ==> m.words[f] == Zeros())
    requires 1 in managed && forall f :: f in managed ==> f < |m.refs| && m.refs[f] == if f == 1 then 1 else 0
    requires NoDup(m.free) && forall f :: f in m.free <==> f in managed && f != 1
    ensures Inv(m, Acct(managed, {1}, {}), NoFrame)
  {
    forall s, g | IsSlot({1}, s) && s != Root(1) ensures !Names(m, s, g) {
    }
    forall g ensures RefsTo(m, {1}, g) == if g == 1 then {Root(1)} else {} {
    }
  }

  /** A memory of three frames: frame 1 is an empty directory, frame 2 is free. */
  function LastFrame(): Mem {
    Mem([Zeros(), Zeros(), Zeros()], [0, 1, 0], [2])
  }

  lemma LastFrameInv()
    ensures Inv(LastFrame(), Acct({1, 2}, {1}, {}), NoFrame)
  {
    EmptyDirectoryInv(LastFrame(), {1, 2});
  }

  /** The leak happens, in a memory that the accounting allows: the call fails, yet the
      free frame is gone and unreferenced, and the accounting is broken. */
  lemma LeakHappens()
    ensures Inv(LastFrame(), Acct({1, 2}, {1}, {}), NoFrame)
    ensures var (m', r) := EnvPageAlloc(LastFrame(), 1, 0, 0, PTE_P + PTE_U);
            && r == -E_NO_MEM && m'.free == [] && m'.refs == LastFrame().refs
            && !Inv(m', Acct({1, 2}, {1}, {}), NoFrame)
  {
    LastFrameInv();
    assert GoodPerm(PTE_P + PTE_U);
    assert PdeAt(Alloc(LastFrame()), 1, 0) == 0;
  }

  /** env_page_map succeeds exactly when the source is mapped, write access is not
      widened and a page table can be had; otherwise it changes nothing.  A success
      shares the frame, and keeps the accounting, exactly when perm keeps the frame:
      no check stops a perm that does not, as any perm of 4096 or more may. */
  lemma EnvPageMapExact(m: Mem, a: Acct, src: nat, si: nat, sj: nat, dst: nat, i: nat, j: nat, perm: nat)
    requires Inv(m, a, NoFrame) && src in a.dirs && dst in a.dirs
    requires si < USERPDES && sj < NPTENTRIES && i < USERPDES && j < NPTENTRIES
    ensures var (m', r) := EnvPageMap(m, src, si, sj, dst, i, j, perm);
            var pte := PteAt(m, src, si, sj);
            && (r == 0 <==> pte != 0 && (Writable(perm) ==> Writable(PermOf(pte))) && CanWalk(m, dst, i))
            && (r == 0 ==> Updates(m, m', a.dirs, dst, i, j, PteWord(FrameOf(pte), perm)))
            && (r == 0 ==> (Inv(m', a, NoFrame) <==> KeepsFrame(FrameOf(pte), perm)))
            && (r == 0 ==> (FrameOf(PteAt(m', dst, i, j)) == FrameOf(pte) <==> KeepsFrame(FrameOf(pte), perm)))
            && (r != 0 ==> m' == m) && (r == 0 || r == -3 || r == -4)
            && (r == -E_INVAL <==> pte == 0 || (Writable(perm) && !Writable(PermOf(pte))))
  {
    if PteAt(m, src, si, sj) != 0 && CanWalk(m, dst, i) {
      MapsShared(m, a, src, si, sj, dst, i, j, perm);
    }
  }

  lemma MapsShared(m: Mem, a: Acct, src: nat, si: nat, sj: nat, dst: nat, i: nat, j: nat, perm: nat)
    requires Inv(m, a, NoFrame) && src in a.dirs && dst in a.dirs
    requires si < USERPDES && sj < NPTENTRIES && i < USERPDES && j < NPTENTRIES
    requires PteAt(m, src, si, sj) != 0 && CanWalk(m, dst, i)
    ensures var f := FrameOf(PteAt(m, src, si, sj));
            var m' := Insert(m, dst, i, j, f, perm);
            && Updates(m, m', a.dirs, dst, i, j, PteWord(f, perm))
            && (Inv(m', a, NoFrame) <==> KeepsFrame(f, perm))
            && (FrameOf(PteAt(m', dst, i, j)) == f <==> KeepsFrame(f, perm))
  {
    var f := FrameOf(PteAt(m, src, si, sj));
    assert DataFrame(m, a, f) && f !in a.hand by {
      MappedIsData(m, a, NoFrame, src, si, sj);
    }
    assert a.(hand := a.hand - {f}) == a;
    InsertRefines(m, a, dst, i, j, f, perm);
    assert FrameOf(PteWord(f, perm)) == f <==> KeepsFrame(f, perm) by {
      PteWordFields(f, perm);
    }
  }

  /** Frame 1 is an empty directory, frames 2 and 3 are free. */
  function TwoFrames(): Mem {
    Mem([Zeros(), Zeros(), Zeros(), Zeros()], [0, 1, 0, 0], [2, 3])
  }

  lemma TwoFramesInv()
    ensures Inv(TwoFrames(), Acct({1, 2, 3}, {1}, {}), NoFrame)
  {
    EmptyDirectoryInv(TwoFrames(), {1, 2, 3});
  }

  lemma FirstPage(m: Mem)
    requires m == EnvPageAlloc(TwoFrames(), 1, 0, 0, PTE_P + PTE_U).0
    ensures EnvPageAlloc(TwoFrames(), 1, 0, 0, PTE_P + PTE_U).1 == 0
    ensures Inv(m, Acct({1, 2, 3}, {1}, {}), NoFrame) && PdeAt(m, 1, 0) != 0
    ensures PteAt(m, 1, 0, 0) != 0 && FrameOf(PteAt(m, 1, 0, 0)) == 2
  {
    TwoFramesInv();
    assert GoodPerm(PTE_P + PTE_U);
    EnvPageAllocExact(TwoFrames(), Acct({1, 2, 3}, {1}, {}), 1, 0, 0, PTE_P + PTE_U);
    PteWordFields(2, PTE_P + PTE_U);
    assert PteAt(m, 1, 0, 0) == PteWord(2, PTE_P + PTE_U);
  }

  lemma WidePerm()
    ensures !Writable(PGSIZE + PTE_P + PTE_U) && !KeepsFrame(2, PGSIZE + PTE_P + PTE_U)
  {
    assert Or(2, 1) == 2 * Or(1, 0) + 1;
  }

  lemma SecondPage(m: Mem)
    requires Inv(m, Acct({1, 2, 3}, {1}, {}), NoFrame) && PdeAt(m, 1, 0) != 0
    requires PteAt(m, 1, 0, 0) != 0 && FrameOf(PteAt(m, 1, 0, 0)) == 2
    ensures var (n, q) := EnvPageMap(m, 1, 0, 0, 1, 0, 1, PGSIZE + PTE_P + PTE_U);
            q == 0 && FrameOf(PteAt(n, 1, 0, 1)) != 2 && !Inv(n, Acct({1, 2, 3}, {1}, {}), NoFrame)
  {
    WidePerm();
    EnvPageMapExact(m, Acct({1, 2, 3}, {1}, {}), 1, 0, 0, 1, 0, 1, PGSIZE + PTE_P + PTE_U);
  }

  /** Such a perm gets through: a page is allocated at one address and mapped again at
      the next with the bit of frame number 1 in perm.  The call succeeds, and the count
      it raised is not that of the frame it mapped. */
  lemma WidePermBreaks() returns (m: Mem)
    ensures EnvPageAlloc(TwoFrames(), 1, 0, 0, PTE_P + PTE_U) == (m, 0)
    ensures Inv(m, Acct({1, 2, 3}, {1}, {}), NoFrame) && FrameOf(PteAt(m, 1, 0, 0)) == 2
    ensures var (n, q) := EnvPageMap(m, 1, 0, 0, 1, 0, 1, PGSIZE + PTE_P + PTE_U);
            q == 0 && FrameOf(PteAt(n, 1, 0, 1)) != 2 && !Inv(n, Acct({1, 2, 3}, {1}, {}), NoFrame)
  {
    m := EnvPageAlloc(TwoFrames(), 1, 0, 0, PTE_P + PTE_U).0;
    FirstPage(m);
    SecondPage(m);
  }

  // ---------- sending a page ----------

  /** perm | PTE_U | PTE_P */
  function WithUserPresent(perm: nat): (r: nat)
    ensures UserBit(r) && r % 2 == 1 && Writable(r) == Writable(perm) && r / PGSIZE == perm / PGSIZE
  {
    BitsOf(perm);
    perm + (1 - perm % 2) + (if UserBit(perm) then 0 else PTE_U)
  }

  lemma WithUserPresentIsOr(perm: nat)
    ensures WithUserPresent(perm) == Or(perm, PTE_U + PTE_P)
  {
    var x1, x2, x3 := perm / 2, perm / 2 / 2, perm / 2 / 2 / 2;
    assert perm / 4 == x2;
    assert Or(x2, 1) == 2 * x3 + 1 by {
      assert Or(x3, 0) == x3;
    }
    assert Or(x1, 2) == 2 * Or(x2, 1) + x1 % 2;
    assert Or(perm, 5) == 2 * Or(x1, 2) + 1;
  }

  lemma BitsOf(perm: nat)
    ensures var r := perm + (1 - perm % 2) + (if UserBit(perm) then 0 else PTE_U);
            UserBit(r) && r % 2 == 1 && Writable(r) == Writable(perm) && r / PGSIZE == perm / PGSIZE
  {
    var q, x := perm / 8, perm % 8;
    var y := x + (1 - x % 2) + (if x / 4 == 1 then 0 else 4);
    LowBitsOf(q, x);
    assert y < 8 && y % 2 == 1 && y / 4 == 1 && y / 2 % 2 == x / 2 % 2;
    LowBitsOf(q, y);
    SamePage(q, x);
    SamePage(q, y);
  }

  /** The low three bits do not reach the frame number. */
  lemma SamePage(q: nat, x: nat)
    requires x < 8
    ensures (8 * q + x) / PGSIZE == q / 512
  {
    InPage(8 * q + x, q / 512, 8 * (q % 512) + x);
  }

  lemma LowBitsOf(q: nat, x: nat)
    requires x < 8
    ensures (8 * q + x) % 2 == x % 2 && (8 * q + x) / 2 % 2 == x / 2 % 2 && (8 * q + x) / 4 % 2 == x / 4
  {
    var h, t := x / 2, x / 4;
    Half(8 * q + x, 4 * q + h, x % 2);
    Half(4 * q + h, 2 * q + t, h % 2);
    Half(2 * q + t, q, t);
    Quarter(8 * q + x, 2 * q + t, x % 4);
  }

  /** An intermediate zeroed page is mapped at the receiver's entry (i, j) and then
      replaced. */
  function Transfer(m: Mem, src: nat, si: nat, sj: nat, dst: nat, i: nat, j: nat, perm: nat): (r: (Mem, int)) {
    var alloc := EnvPageAlloc(m, dst, i, j, WithUserPresent(perm));
    if alloc.1 < 0 then alloc
    else EnvPageMap(alloc.0, src, si, sj, dst, i, j, WithUserPresent(perm))
  }

  /** The page transfer of sys_ipc_try_send, which has read pte for the sender's entry. */
  function SendReading(m: Mem, src: nat, si: nat, sj: nat, dst: nat, i: nat, j: nat, perm: nat, pte: nat): (Mem, int) {
    if pte != 0 && !Present(pte) then (m, -E_INVAL)
    else if Writable(perm) && !Writable(PermOf(pte)) then (m, -E_INVAL)
    else Transfer(m, src, si, sj, dst, i, j, perm)
  }

  /** The page transfer of a mapped page. */
  function SendPage(m: Mem, src: nat, si: nat, sj: nat, dst: nat, i: nat, j: nat, perm: nat): (r: (Mem, int)) {
    SendReading(m, src, si, sj, dst, i, j, perm, PteAt(m, src, si, sj))
  }

  /** What a page transfer should do: one page_insert of the sender's frame. */
  function DirectSend(m: Mem, src: nat, si: nat, sj: nat, dst: nat, i: nat, j: nat, perm: nat): Mem {
    Insert(m, dst, i, j, FrameOf(PteAt(m, src, si, sj)), WithUserPresent(perm))
  }

  /** When the sender's page may be sent at all: the requested bits pass check_perm
      and write access is not granted over a read-only mapping. */
  predicate MaySend(m: Mem, src: nat, si: nat, sj: nat, perm: nat) {
    GoodPerm(WithUserPresent(perm)) && (Writable(perm) ==> Writable(PermOf(PteAt(m, src, si, sj))))
  }

  /** The transfer succeeds exactly when it is allowed and the free list can serve
      the intermediate page and, if needed, a table: one frame more than the direct
      insertion needs. */
  lemma SendSucceeds(m: Mem, a: Acct, src: nat, si: nat, sj: nat, dst: nat, i: nat, j: nat, perm: nat)
    requires Sending(m, a, src, si, sj, dst, i, j, perm)
    ensures SendPage(m, src, si, sj, dst, i, j, perm).1 == 0 <==>
              MaySend(m, src, si, sj, perm) && |m.free| >= (if PdeAt(m, dst, i) == 0 then 2 else 1)
  {
    if !(Writable(perm) && !Writable(PermOf(PteAt(m, src, si, sj)))) {
      EnvPageAllocExact(m, a, dst, i, j, WithUserPresent(perm));
      if EnvPageAlloc(m, dst, i, j, WithUserPresent(perm)).1 == 0 {
        SendMiddle(m, a, src, si, sj, dst, i, j, perm);
      }
    }
  }

  /** Two distinct environments, a mapped source and a user destination. */
  ghost predicate Sending(m: Mem, a: Acct, src: nat, si: nat, sj: nat, dst: nat, i: nat, j: nat, perm: nat) {
    && Inv(m, a, NoFrame) && src in a.dirs && dst in a.dirs && src != dst
    && si < USERPDES && sj < NPTENTRIES && i < USERPDES && j < NPTENTRIES && PteAt(m, src, si, sj) != 0
  }

  /** If the sender's page is not mapped, what the kernel reads through its uninitialised
      pointer is stale, which may be anything.  The call never succeeds, but it need not
      leave the receiver alone: if stale gets past the checks, and the intermediate page
      can be had, that page stays mapped. */
  lemma SendUnmappedFails(m: Mem, a: Acct, src: nat, si: nat, sj: nat, dst: nat, i: nat, j: nat, perm: nat, stale: nat)
    requires Inv(m, a, NoFrame) && src in a.dirs && dst in a.dirs && src != dst
    requires si < USERPDES && sj < NPTENTRIES && i < USERPDES && j < NPTENTRIES && PteAt(m, src, si, sj) == 0
    ensures var (m', r) := SendReading(m, src, si, sj, dst, i, j, perm, stale);
            var p := WithUserPresent(perm);
            var past := (stale == 0 || Present(stale)) && (Writable(perm) ==> Writable(PermOf(stale)));
            && r != 0
            && (if past && GoodPerm(p) && |m.free| >= (if PdeAt(m, dst, i) == 0 then 2 else 1) then
                  r == -E_INVAL && Inv(m', a, NoFrame) && Updates(m, m', a.dirs, dst, i, j, PteWord(m.free[0], p))
                else SameMap(m, m', a.dirs))
            && Inv(m', if past && Leaks(m, dst, i, j, p) then a.(hand := a.hand + {m.free[0]}) else a, NoFrame)
  {
    EnvPageAllocExact(m, a, dst, i, j, WithUserPresent(perm));
    var n := EnvPageAlloc(m, dst, i, j, WithUserPresent(perm));
    assert n.1 == 0 ==> PteAt(n.0, src, si, sj) == 0;
  }

  /** Between the two steps: the receiver's table exists and the sender's mapping
      is untouched, even if the receiver had that very frame mapped there. */
  lemma SendMiddle(m: Mem, a: Acct, src: nat, si: nat, sj: nat, dst: nat, i: nat, j: nat, perm: nat)
    requires Sending(m, a, src, si, sj, dst, i, j, perm)
    requires EnvPageAlloc(m, dst, i, j, WithUserPresent(perm)).1 == 0
    ensures var n := EnvPageAlloc(m, dst, i, j, WithUserPresent(perm)).0;
            var f := FrameOf(PteAt(m, src, si, sj));
            && Inv(n, a, NoFrame) && DataFrame(n, a, f) && PdeAt(n, dst, i) != 0
            && PteAt(n, src, si, sj) == PteAt(m, src, si, sj)
            && PteAt(n, dst, i, j) == PteWord(m.free[0], WithUserPresent(perm))
  {
    var p := WithUserPresent(perm);
    var w, n := PteWord(m.free[0], p), EnvPageAlloc(m, dst, i, j, p).0;
    assert w != 0 by {
      PteWordFields(m.free[0], p);
    }
    assert Inv(n, a, NoFrame) && Updates(m, n, a.dirs, dst, i, j, w) by {
      EnvPageAllocExact(m, a, dst, i, j, p);
    }
    SendMiddleOf(m, n, a, src, si, sj, dst, i, j, w);
  }

  lemma SendMiddleOf(m: Mem, n: Mem, a: Acct, src: nat, si: nat, sj: nat, dst: nat, i: nat, j: nat, w: nat)
    requires src in a.dirs && dst in a.dirs && src != dst && PteAt(m, src, si, sj) != 0 && w != 0
    requires si < USERPDES && sj < NPTENTRIES && i < USERPDES && j < NPTENTRIES
    requires Inv(n, a, NoFrame) && Updates(m, n, a.dirs, dst, i, j, w)
    ensures DataFrame(n, a, FrameOf(PteAt(m, src, si, sj))) && PdeAt(n, dst, i) != 0
    ensures PteAt(n, src, si, sj) == PteAt(m, src, si, sj) && PteAt(n, dst, i, j) == w
  {
    assert PteAt(n, src, si, sj) == PteAt(m, src, si, sj);
    assert PteAt(n, dst, i, j) == w;
    MappedIsData(n, a, NoFrame, src, si, sj);
  }

  lemma DirectSendMaps(m: Mem, a: Acct, src: nat, si: nat, sj: nat, dst: nat, i: nat, j: nat, perm: nat)
    requires Sending(m, a, src, si, sj, dst, i, j, perm) && CanWalk(m, dst, i) && WithUserPresent(perm) < PGSIZE
    ensures var one, f := DirectSend(m, src, si, sj, dst, i, j, perm), FrameOf(PteAt(m, src, si, sj));
            Inv(one, a, NoFrame) && Updates(m, one, a.dirs, dst, i, j, PteWord(f, WithUserPresent(perm)))
  {
    var f := FrameOf(PteAt(m, src, si, sj));
    MappedIsData(m, a, NoFrame, src, si, sj);
    assert f !in a.hand;
    assert a.(hand := a.hand - {f}) == a;
    SmallKeepsFrame(f, WithUserPresent(perm));
    InsertRefines(m, a, dst, i, j, f, WithUserPresent(perm));
  }

  lemma SendPageMaps(m: Mem, a: Acct, src: nat, si: nat, sj: nat, dst: nat, i: nat, j: nat, perm: nat)
    requires Sending(m, a, src, si, sj, dst, i, j, perm) && SendPage(m, src, si, sj, dst, i, j, perm).1 == 0
    ensures var two, f := SendPage(m, src, si, sj, dst, i, j, perm).0, FrameOf(PteAt(m, src, si, sj));
            Inv(two, a, NoFrame) && Updates(m, two, a.dirs, dst, i, j, PteWord(f, WithUserPresent(perm)))
  {
    var p := WithUserPresent(perm);
    var n := EnvPageAlloc(m, dst, i, j, p).0;
    assert Inv(n, a, NoFrame) && Sending(n, a, src, si, sj, dst, i, j, perm) && CanWalk(n, dst, i)
        && PteAt(n, src, si, sj) == PteAt(m, src, si, sj) by
    {
      SendMiddle(m, a, src, si, sj, dst, i, j, perm);
    }
    DirectSendMaps(n, a, src, si, sj, dst, i, j, perm);
    assert Updates(m, n, a.dirs, dst, i, j, PteWord(m.free[0], p)) by {
      EnvPageAllocExact(m, a, dst, i, j, p);
    }
  }

  /** A successful transfer has the same mappings as the direct insertion. */
  lemma SendSameMap(m: Mem, a: Acct, src: nat, si: nat, sj: nat, dst: nat, i: nat, j: nat, perm: nat)
    requires Sending(m, a, src, si, sj, dst, i, j, perm)
    requires SendPage(m, src, si, sj, dst, i, j, perm).1 == 0
    ensures var two, one := SendPage(m, src, si, sj, dst, i, j, perm).0, DirectSend(m, src, si, sj, dst, i, j, perm);
            Inv(two, a, NoFrame) && Inv(one, a, NoFrame) && SameMap(one, two, a.dirs)
  {
    SendSucceeds(m, a, src, si, sj, dst, i, j, perm);
    SendPageMaps(m, a, src, si, sj, dst, i, j, perm);
    DirectSendMaps(m, a, src, si, sj, dst, i, j, perm);
  }

  /** The counts after the first step: the intermediate frame has one. */
  lemma AllocCounts(m: Mem, a: Acct, d: nat, i: nat, j: nat, perm: nat, g: nat)
    requires Inv(m, a, NoFrame) && d in a.dirs && i < USERPDES && j < NPTENTRIES && g in a.managed
    requires m.free != [] && CanWalk(Alloc(m), d, i)
    ensures var n, p, newTable := Insert(Alloc(m), d, i, j, m.free[0], perm), PteAt(m, d, i, j), PdeAt(m, d, i) == 0;
            && g < |n.refs| && g < |m.refs| && |m.free| >= (if newTable then 2 else 1)
            && n.refs[g] == m.refs[g] + (if g == m.free[0] then 1 else 0)
                 - (if p != 0 && g == FrameOf(p) then 1 else 0) + (if newTable && g == m.free[1] then 1 else 0)
  {
    var z, m1 := m.free[0], Alloc(m);
    assert Inv(m1, a.(hand := a.hand + {z}), NoFrame) && DataFrame(m1, a.(hand := a.hand + {z}), z)
        && m1.refs == m.refs && m1.free == m.free[1..]
        && PdeAt(m1, d, i) == PdeAt(m, d, i) && PteAt(m1, d, i, j) == PteAt(m, d, i, j) by
    {
      AllocInv(m, a);
    }
    InsertCounts(m1, a.(hand := a.hand + {z}), d, i, j, z, perm, g);
  }

  /** And the same reference counts: the intermediate frame is back on the free
      list, and the two runs differ at most in which of the first two free frames
      became the receiver's new page table. */
  lemma SendSameCounts(m: Mem, a: Acct, src: nat, si: nat, sj: nat, dst: nat, i: nat, j: nat, perm: nat, g: nat)
    requires Sending(m, a, src, si, sj, dst, i, j, perm) && g in a.managed
    requires SendPage(m, src, si, sj, dst, i, j, perm).1 == 0
    ensures var two, one := SendPage(m, src, si, sj, dst, i, j, perm).0, DirectSend(m, src, si, sj, dst, i, j, perm);
            var newTable := PdeAt(m, dst, i) == 0;
            && g < |two.refs| && g < |one.refs| && |m.free| >= (if newTable then 2 else 1)
            && two.refs[g] - (if newTable && g == m.free[1] then 1 else 0)
               == one.refs[g] - (if newTable && g == m.free[0] then 1 else 0)
  {
    var p, f := WithUserPresent(perm), FrameOf(PteAt(m, src, si, sj));
    var n := EnvPageAlloc(m, dst, i, j, p).0;
    assert n == Insert(Alloc(m), dst, i, j, m.free[0], p);
    AllocCounts(m, a, dst, i, j, p, g);
    assert PteWord(m.free[0], p) != 0 && FrameOf(PteWord(m.free[0], p)) == m.free[0] by {
      PteWordFields(m.free[0], p);
    }
    assert Inv(n, a, NoFrame) && Updates(m, n, a.dirs, dst, i, j, PteWord(m.free[0], p)) by {
      EnvPageAllocExact(m, a, dst, i, j, p);
    }
    SendMiddleOf(m, n, a, src, si, sj, dst, i, j, PteWord(m.free[0], p));
    assert SendPage(m, src, si, sj, dst, i, j, perm).0 == Insert(n, dst, i, j, f, p);
    InsertCounts(n, a, dst, i, j, f, p, g);
    assert DataFrame(m, a, f) by {
      MappedIsData(m, a, NoFrame, src, si, sj);
    }
    InsertCounts(m, a, dst, i, j, f, p, g);
  }
}
