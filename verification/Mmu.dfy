/** The 32-bit two-level address format of the kernel (inc/mmu.h) and the frame
    number conversions of kern/pmap.h.  A right shift by 12 or 22 is written as a
    division by the matching power of two. */
module Mmu {
  const PGSIZE := 4096
  const NPTENTRIES := 1024
  const PTSIZE := 4194304
  const ADDRESSES := 0x1_0000_0000
  const UTOP := 0xeec0_0000
  const UXSTACKTOP := UTOP
  // PDX(UTOP): the directory entries below this index form the user half
  const USERPDES := 955

  const PTE_P := 1
  const PTE_W := 2
  const PTE_U := 4

  function PDX(la: nat): nat {
    la / PTSIZE % NPTENTRIES
  }

  function PTX(la: nat): nat {
    la / PGSIZE % NPTENTRIES
  }

  function PGOFF(la: nat): nat {
    la % PGSIZE
  }

  function PGADDR(pdx: nat, ptx: nat, off: nat): nat {
    pdx * PTSIZE + ptx * PGSIZE + off
  }

  /** Splitting and rebuilding an address are inverse to each other, and the
      directory index is below PDX(UTOP) exactly for user addresses. */
  lemma PgaddrInverse(la: nat)
    requires la < ADDRESSES
    ensures PDX(la) < NPTENTRIES && PTX(la) < NPTENTRIES && PGOFF(la) < PGSIZE
    ensures PGADDR(PDX(la), PTX(la), PGOFF(la)) == la
    ensures la < UTOP <==> PDX(la) < USERPDES
  {
    var page := la / PGSIZE;
    assert la == page * PGSIZE + la % PGSIZE;
    assert page == page / NPTENTRIES * NPTENTRIES + page % NPTENTRIES;
    assert la / PTSIZE == page / NPTENTRIES;
  }

  lemma PgaddrSplits(pdx: nat, ptx: nat, off: nat)
    requires pdx < NPTENTRIES && ptx < NPTENTRIES && off < PGSIZE
    ensures PGADDR(pdx, ptx, off) < ADDRESSES
    ensures PDX(PGADDR(pdx, ptx, off)) == pdx
    ensures PTX(PGADDR(pdx, ptx, off)) == ptx
    ensures PGOFF(PGADDR(pdx, ptx, off)) == off
  {
    var la := PGADDR(pdx, ptx, off);
    assert la == (pdx * NPTENTRIES + ptx) * PGSIZE + off;
    assert la / PGSIZE == pdx * NPTENTRIES + ptx;
    assert la / PTSIZE == pdx;
  }

  /** The bitwise or, bit by bit. */
  function Or(x: nat, y: nat): nat
    decreases x
  {
    if y == 0 then x
    else if x == 0 then y
    else 2 * Or(x / 2, y / 2) + (if x % 2 == 1 || y % 2 == 1 then 1 else 0)
  }

  predicate Bit(x: nat, k: nat) {
    if k == 0 then x % 2 == 1 else Bit(x / 2, k - 1)
  }

  lemma {:induction false} ZeroHasNoBit(k: nat)
    ensures !Bit(0, k)
  {
    if k > 0 {
      ZeroHasNoBit(k - 1);
    }
  }

  /** Or has exactly the bits of its two operands. */
  lemma {:induction false} OrBits(x: nat, y: nat, k: nat)
    ensures Bit(Or(x, y), k) <==> Bit(x, k) || Bit(y, k)
    decreases k
  {
    if x == 0 || y == 0 {
      ZeroHasNoBit(k);
    } else if k > 0 {
      OrBits(x / 2, y / 2, k - 1);
    }
  }

  /** page2pa(pp) | perm | PTE_P, for any perm: bits of perm from 12 on end up in the
      frame number. */
  function PteWord(frame: nat, perm: nat): nat {
    Or(frame, perm / PGSIZE) * PGSIZE + perm % PGSIZE + (1 - perm % 2)
  }

  /** The bits of perm above the low 12, if any, are all bits of the frame number. */
  predicate KeepsFrame(frame: nat, perm: nat) {
    Or(frame, perm / PGSIZE) == frame
  }

  lemma SmallKeepsFrame(frame: nat, perm: nat)
    requires perm < PGSIZE
    ensures KeepsFrame(frame, perm)
  {
  }

  function FrameOf(w: nat): nat {
    w / PGSIZE
  }

  function PermOf(w: nat): nat {
    w % PGSIZE
  }

  /** The PTE_P bit. */
  predicate Present(w: nat) {
    w % 2 == 1
  }

  predicate Writable(perm: nat) {
    perm / PTE_W % 2 == 1
  }

  predicate UserBit(perm: nat) {
    perm / PTE_U % 2 == 1
  }

  /** (pte & (perm | PTE_P)) == (perm | PTE_P): pte has every bit of perm, and PTE_P. */
  predicate Allows(pte: nat, perm: nat) {
    Present(pte) && Or(pte, perm) == pte
  }

  /** x has every bit of y. */
  ghost predicate HasBits(x: nat, y: nat) {
    forall k: nat :: Bit(y, k) ==> Bit(x, k)
  }

  /** Or adds nothing exactly when every bit is there already. */
  lemma {:induction false} OrKeepsIff(x: nat, y: nat)
    ensures Or(x, y) == x <==> HasBits(x, y)
    decreases x + y
  {
    if y == 0 {
      forall k: nat ensures !Bit(y, k) {
        ZeroHasNoBit(k);
      }
    } else if x == 0 {
      var k := SomeBit(y);
      ZeroHasNoBit(k);
    } else {
      OrKeepsIff(x / 2, y / 2);
      OrHalves(x, y);
      if HasBits(x, y) {
        assert Bit(y, 0) ==> Bit(x, 0);
        forall k: nat | Bit(y / 2, k) ensures Bit(x / 2, k) {
          assert Bit(y, k + 1);
          assert Bit(x, k + 1);
        }
      } else {
        var k: nat :| Bit(y, k) && !Bit(x, k);
        if k == 0 {
          assert y % 2 == 1 && x % 2 == 0;
        } else {
          assert Bit(y / 2, k - 1) && !Bit(x / 2, k - 1);
        }
      }
    }
  }

  lemma OrHalves(x: nat, y: nat)
    requires x > 0 && y > 0
    ensures Or(x, y) == x <==> Or(x / 2, y / 2) == x / 2 && (y % 2 == 1 ==> x % 2 == 1)
  {
    assert x == 2 * (x / 2) + x % 2;
  }

  lemma {:induction false} SomeBit(y: nat) returns (k: nat)
    requires y > 0
    ensures Bit(y, k)
    decreases y
  {
    if y % 2 == 1 {
      k := 0;
    } else {
      k := SomeBit(y / 2);
      k := k + 1;
    }
  }

  /** The entry is present and has every bit of perm. */
  ghost predicate Grants(pte: nat, perm: nat) {
    Present(pte) && HasBits(pte, perm)
  }

  lemma AllowsBits(pte: nat, perm: nat)
    ensures Allows(pte, perm) <==> Grants(pte, perm)
  {
    OrKeepsIff(pte, perm);
  }

  /** A page-table word is present and has the permissions it was built from; it names
      the frame it was built from exactly when perm keeps that frame. */
  lemma PteWordFields(frame: nat, perm: nat)
    ensures Present(PteWord(frame, perm))
    ensures FrameOf(PteWord(frame, perm)) == Or(frame, perm / PGSIZE)
    ensures FrameOf(PteWord(frame, perm)) == frame <==> KeepsFrame(frame, perm)
    ensures PermOf(PteWord(frame, perm)) / 2 == perm % PGSIZE / 2
    ensures Writable(PermOf(PteWord(frame, perm))) == Writable(perm)
    ensures UserBit(PermOf(PteWord(frame, perm))) == UserBit(perm)
  {
    var p := perm % PGSIZE;
    var low, w, named := p + (1 - p % 2), PteWord(frame, perm), Or(frame, perm / PGSIZE);
    LowBits(p);
    LowAlone(perm);
    InPage(w, named, low);
    Half(w, 2048 * named + low / 2, 1);
  }

  /** The low bits of a word are those of its low 12 bits. */
  lemma LowAlone(perm: nat)
    ensures perm % 2 == perm % PGSIZE % 2
    ensures Writable(perm) == Writable(perm % PGSIZE) && UserBit(perm) == UserBit(perm % PGSIZE)
  {
    var q, p := perm / PGSIZE, perm % PGSIZE;
    Half(perm, 2048 * q + p / 2, p % 2);
    Half(2048 * q + p / 2, 1024 * q + p / 4, p / 2 % 2);
    Quarter(perm, 1024 * q + p / 4, p % 4);
  }

  lemma InPage(w: nat, frame: nat, low: nat)
    requires w == PGSIZE * frame + low && low < PGSIZE
    ensures w / PGSIZE == frame && w % PGSIZE == low
  {
  }

  lemma Half(w: nat, h: nat, r: nat)
    requires w == 2 * h + r && r < 2
    ensures w / 2 == h && w % 2 == r
  {
  }

  lemma Quarter(w: nat, h: nat, r: nat)
    requires w == 4 * h + r && r < 4
    ensures w / 4 == h && w % 4 == r
  {
  }

  lemma LowBits(perm: nat)
    requires perm < PGSIZE
    ensures var low := perm + (1 - perm % 2);
            low < PGSIZE && low % 2 == 1 && low / 2 == perm / 2 && low / 4 == perm / 4
  {
    var q, x := perm / 4, perm % 4;
    var h := if x < 2 then 0 else 1;
    Half(perm, 2 * q + h, x - 2 * h);
    Half(4 * q + 2 * h + 1, 2 * q + h, 1);
    Quarter(4 * q + 2 * h + 1, q, 2 * h + 1);
  }
}
