/** The user exception stack: page_fault_handler pushes a frame (kern/trap.c) and the
    assembly of _pgfault_upcall unwinds it (lib/pfentry.S), for page faults that nest to
    any depth.  Memory is bytes, as frames lie at unaligned addresses. */
module ExcStack {
  const SIZE := 0x1_0000_0000
  const UXSTACKTOP := 0xeec0_0000
  const EXSTK := UXSTACKTOP - 4096
  const EXSTK_TOP := UXSTACKTOP - 1
  const FRAME := 52

  type Word = w: nat | w < 0x1_0000_0000
  type Byte = b: nat | b < 256

  /** 32-bit address space; addresses wrap. */
  type Mem = Word -> Byte

  function Plus(a: Word, k: nat): (r: Word)
    requires k < SIZE
    ensures a + k < SIZE ==> r == a + k
  {
    if a + k < SIZE then a + k else a + k - SIZE
  }

  function Minus(a: Word, k: nat): (r: Word)
    requires k < SIZE
    ensures Plus(r, k) == a
  {
    if a >= k then a - k else a + SIZE - k
  }

  // ---------- words in memory, little-endian ----------

  function ByteOf(w: Word, i: nat): Byte
    requires i < 4
  {
    if i == 0 then w % 0x100
    else if i == 1 then w / 0x100 % 0x100
    else if i == 2 then w / 0x1_0000 % 0x100
    else w / 0x100_0000
  }

  function Join(b0: Byte, b1: Byte, b2: Byte, b3: Byte): Word {
    b0 + 0x100 * b1 + 0x1_0000 * b2 + 0x100_0000 * b3
  }

  lemma SplitJoin(w: Word)
    ensures Join(ByteOf(w, 0), ByteOf(w, 1), ByteOf(w, 2), ByteOf(w, 3)) == w
  {
    var w1, w2 := w / 0x100, w / 0x1_0000;
    assert w1 / 0x100 == w2;
    assert w2 / 0x100 == w / 0x100_0000;
  }

  function Load(m: Mem, a: Word): Word {
    Join(m(a), m(Plus(a, 1)), m(Plus(a, 2)), m(Plus(a, 3)))
  }

  function Store(m: Mem, a: Word, w: Word): Mem {
    (x: Word) => if x == a then ByteOf(w, 0)
                 else if x == Plus(a, 1) then ByteOf(w, 1)
                 else if x == Plus(a, 2) then ByteOf(w, 2)
                 else if x == Plus(a, 3) then ByteOf(w, 3)
                 else m(x)
  }

  /** x is one of the four bytes of the word at a. */
  predicate InWord(x: Word, a: Word) {
    x == a || x == Plus(a, 1) || x == Plus(a, 2) || x == Plus(a, 3)
  }

  lemma LoadStored(m: Mem, a: Word, w: Word)
    ensures Load(Store(m, a, w), a) == w
  {
    SplitJoin(w);
  }

  lemma LoadSame(m: Mem, n: Mem, a: Word)
    requires forall x: Word :: InWord(x, a) ==> n(x) == m(x)
    ensures Load(n, a) == Load(m, a)
  {
    assert InWord(a, a) && InWord(Plus(a, 1), a) && InWord(Plus(a, 2), a) && InWord(Plus(a, 3), a);
  }

  function StoreAll(m: Mem, a: Word, ws: seq<Word>): Mem
    decreases |ws|
  {
    if ws == [] then m else StoreAll(Store(m, a, ws[0]), Plus(a, 4), ws[1..])
  }

  lemma {:induction false} StoreAllElsewhere(m: Mem, a: Word, ws: seq<Word>, x: Word)
    requires a + 4 * |ws| < SIZE && (x < a || a + 4 * |ws| <= x)
    ensures StoreAll(m, a, ws)(x) == m(x)
    decreases |ws|
  {
    if ws != [] {
      StoreAllElsewhere(Store(m, a, ws[0]), Plus(a, 4), ws[1..], x);
    }
  }

  lemma {:induction false} StoreAllLoads(m: Mem, a: Word, ws: seq<Word>, i: nat)
    requires a + 4 * |ws| < SIZE && i < |ws|
    ensures Load(StoreAll(m, a, ws), a + 4 * i) == ws[i]
    decreases |ws|
  {
    var m1 := Store(m, a, ws[0]);
    if i == 0 {
      forall x: Word | InWord(x, a) ensures StoreAll(m, a, ws)(x) == m1(x) {
        StoreAllElsewhere(m1, a + 4, ws[1..], x);
      }
      LoadSame(m1, StoreAll(m, a, ws), a);
      LoadStored(m, a, ws[0]);
    } else {
      StoreAllLoads(m1, a + 4, ws[1..], i - 1);
    }
  }

  // ---------- the processor and the unwinding code ----------

  datatype Cpu = Cpu(edi: Word, esi: Word, ebp: Word, ebx: Word, edx: Word, ecx: Word, eax: Word,
                     esp: Word, eip: Word, eflags: Word)

  datatype Machine = Machine(cpu: Cpu, mem: Mem)

  datatype Reg = Eax | Ebx | Esp

  datatype Instr =
    | Movl(disp: Word, base: Reg, dst: Reg)     // movl disp(base), dst
    | MovlTo(src: Reg, disp: Word, base: Reg)   // movl src, disp(base)
    | Subl(k: Word, dst: Reg)
    | Addl(k: Word, dst: Reg)
    | Popl(dst: Reg)
    | Popal
    | Popfl
    | Ret

  /** _pgfault_upcall after the C handler has returned. */
  const UNWIND: seq<Instr> := [
    Movl(40, Esp, Eax), Movl(48, Esp, Ebx), Subl(4, Ebx), MovlTo(Eax, 0, Ebx), MovlTo(Ebx, 48, Esp),
    Popl(Eax), Popl(Eax), Popal, Addl(4, Esp), Popfl, Popl(Esp), Ret]

  function Get(c: Cpu, r: Reg): Word {
    match r case Eax => c.eax case Ebx => c.ebx case Esp => c.esp
  }

  function Set(c: Cpu, r: Reg, w: Word): Cpu {
    match r case Eax => c.(eax := w) case Ebx => c.(ebx := w) case Esp => c.(esp := w)
  }

  /** popal skips the saved esp. */
  function PopRegs(c: Cpu, m: Mem): Cpu {
    var a := c.esp;
    c.(edi := Load(m, a), esi := Load(m, Plus(a, 4)), ebp := Load(m, Plus(a, 8)), ebx := Load(m, Plus(a, 16)),
       edx := Load(m, Plus(a, 20)), ecx := Load(m, Plus(a, 24)), eax := Load(m, Plus(a, 28)), esp := Plus(a, 32))
  }

  /** One instruction; arithmetic leaves arbitrary flags. */
  function Exec(s: Machine, i: Instr, flags: Word): Machine
  {
    var c, m := s.cpu, s.mem;
    match i
    case Movl(d, b, r) => s.(cpu := Set(c, r, Load(m, Plus(Get(c, b), d))))
    case MovlTo(r, d, b) => s.(mem := Store(m, Plus(Get(c, b), d), Get(c, r)))
    case Subl(k, r) => s.(cpu := Set(c, r, Minus(Get(c, r), k)).(eflags := flags))
    case Addl(k, r) => s.(cpu := Set(c, r, Plus(Get(c, r), k)).(eflags := flags))
    case Popl(r) => s.(cpu := Set(c.(esp := Plus(c.esp, 4)), r, Load(m, c.esp)))
    case Popal => s.(cpu := PopRegs(c, m))
    case Popfl => s.(cpu := c.(eflags := Load(m, c.esp), esp := Plus(c.esp, 4)))
    case Ret => s.(cpu := c.(eip := Load(m, c.esp), esp := Plus(c.esp, 4)))
  }

  /** The code from instruction k on. */
  function Run(s: Machine, k: nat, flags: Word): Machine
    requires k <= |UNWIND|
    decreases |UNWIND| - k, flags
  {
    if k == |UNWIND| then s else Run(Exec(s, UNWIND[k], flags), k + 1, flags)
  }

  function Unwind(s: Machine, flags: Word): Machine {
    Run(s, 0, flags)
  }

  // ---------- the frame ----------

  /** struct UTrapframe; oesp is whatever pushal left there. */
  function Frame(c: Cpu, va: Word, err: Word, oesp: Word): (ws: seq<Word>)
    ensures 4 * |ws| == FRAME
  {
    [va, err, c.edi, c.esi, c.ebp, oesp, c.ebx, c.edx, c.ecx, c.eax, c.eip, c.eflags, c.esp]
  }

  function Field(a: Word, i: nat): Word
    requires a + FRAME < SIZE && i < 13
  {
    a + 4 * i
  }

  /** The frame at a holds the state c: every field but the fault address, the error
      code and oesp. */
  ghost predicate Holds(m: Mem, a: Word, c: Cpu)
    requires a + FRAME < SIZE
  {
    forall i :: 2 <= i < 13 && i != 5 ==> Load(m, Field(a, i)) == Frame(c, 0, 0, 0)[i]
  }

  lemma FrameHolds(m: Mem, a: Word, c: Cpu, va: Word, err: Word, oesp: Word)
    requires a + FRAME < SIZE
    ensures Holds(StoreAll(m, a, Frame(c, va, err, oesp)), a, c)
  {
    var ws := Frame(c, va, err, oesp);
    forall i | 2 <= i < 13 && i != 5 ensures Load(StoreAll(m, a, ws), Field(a, i)) == Frame(c, 0, 0, 0)[i] {
      StoreAllLoads(m, a, ws, i);
    }
  }

  /** The frame only depends on its own bytes. */
  lemma HoldsSame(m: Mem, n: Mem, a: Word, c: Cpu)
    requires a + FRAME < SIZE && Holds(m, a, c)
    requires forall x: Word :: a <= x < a + FRAME ==> n(x) == m(x)
    ensures Holds(n, a, c)
  {
    forall i | 2 <= i < 13 && i != 5 ensures Load(n, Field(a, i)) == Frame(c, 0, 0, 0)[i] {
      LoadSame(m, n, Field(a, i));
    }
  }

  /** The scratch word below the trap-time stack pointer misses the frame. */
  predicate Clear(a: Word, esp: Word) {
    forall x: Word :: InWord(x, Minus(esp, 4)) ==> x < a || a + FRAME <= x
  }

  /** The memory after unwinding: the trap-time eip in the scratch word, and the
      adjusted esp in the frame. */
  function Unwound(m: Mem, a: Word, c: Cpu): Mem
    requires a + FRAME < SIZE
  {
    Store(Store(m, Minus(c.esp, 4), c.eip), a + 48, Minus(c.esp, 4))
  }

  lemma RunStep(s: Machine, k: nat, flags: Word)
    requires k < |UNWIND|
    ensures Run(s, k, flags) == Run(Exec(s, UNWIND[k], flags), k + 1, flags)
  {
  }

  /** Holds, field by field. */
  lemma HoldsFields(m: Mem, a: Word, c: Cpu)
    requires a + FRAME < SIZE && Holds(m, a, c)
    ensures Load(m, Field(a, 2)) == c.edi && Load(m, Field(a, 3)) == c.esi && Load(m, Field(a, 4)) == c.ebp
    ensures Load(m, Field(a, 6)) == c.ebx && Load(m, Field(a, 7)) == c.edx && Load(m, Field(a, 8)) == c.ecx
    ensures Load(m, Field(a, 9)) == c.eax && Load(m, Field(a, 10)) == c.eip && Load(m, Field(a, 11)) == c.eflags
    ensures Load(m, Field(a, 12)) == c.esp
  {
  }

  lemma ReadsEip(s: Machine, a: Word, c: Cpu, flags: Word)
    requires a + FRAME < SIZE && s.cpu.esp == a && Holds(s.mem, a, c)
    ensures Exec(s, UNWIND[0], flags) == Machine(s.cpu.(eax := c.eip), s.mem)
  {
    assert Plus(a, 40) == Field(a, 10);
    HoldsFields(s.mem, a, c);
  }

  lemma ReadsEsp(s: Machine, a: Word, c: Cpu, flags: Word)
    requires a + FRAME < SIZE && s.cpu.esp == a && Holds(s.mem, a, c)
    ensures Exec(s, UNWIND[1], flags) == Machine(s.cpu.(ebx := c.esp), s.mem)
  {
    assert Plus(a, 48) == Field(a, 12);
    HoldsFields(s.mem, a, c);
  }

  lemma LowersEsp(s: Machine, flags: Word)
    ensures Exec(s, UNWIND[2], flags) == Machine(s.cpu.(ebx := Minus(s.cpu.ebx, 4), eflags := flags), s.mem)
  {
  }

  /** The first three instructions read eip and the adjusted esp out of the frame. */
  lemma UnwindReads(s: Machine, a: Word, c: Cpu, flags: Word)
    requires a + FRAME < SIZE && s.cpu.esp == a && Holds(s.mem, a, c)
    ensures Unwind(s, flags) ==
              Run(Machine(s.cpu.(eax := c.eip, ebx := Minus(c.esp, 4), eflags := flags), s.mem), 3, flags)
  {
    var s1, s2 := Machine(s.cpu.(eax := c.eip), s.mem), Machine(s.cpu.(eax := c.eip, ebx := c.esp), s.mem);
    ReadsEip(s, a, c, flags);
    RunStep(s, 0, flags);
    ReadsEsp(s1, a, c, flags);
    RunStep(s1, 1, flags);
    LowersEsp(s2, flags);
    RunStep(s2, 2, flags);
  }

  /** The next two store them. */
  lemma UnwindStores(s: Machine, a: Word, c: Cpu, flags: Word)
    requires a + FRAME < SIZE && s.cpu.esp == a && s.cpu.eax == c.eip && s.cpu.ebx == Minus(c.esp, 4)
    ensures Run(s, 3, flags) == Run(Machine(s.cpu, Unwound(s.mem, a, c)), 5, flags)
  {
    var s1 := Exec(s, UNWIND[3], flags);
    assert s1 == Machine(s.cpu, Store(s.mem, Minus(c.esp, 4), c.eip));
    var s2 := Exec(s1, UNWIND[4], flags);
    assert s2 == Machine(s.cpu, Unwound(s.mem, a, c));
    assert Run(s, 3, flags) == Run(s1, 4, flags) == Run(s2, 5, flags);
  }

  /** popal, eight bytes into the frame. */
  lemma PopalLoads(t: Machine, a: Word, flags: Word)
    requires a + FRAME < SIZE && t.cpu.esp == a + 8
    ensures var n := Exec(t, Popal, flags);
            && n.mem == t.mem && n.cpu.esp == a + 40
            && n.cpu.edi == Load(t.mem, Field(a, 2)) && n.cpu.esi == Load(t.mem, Field(a, 3))
            && n.cpu.ebp == Load(t.mem, Field(a, 4)) && n.cpu.ebx == Load(t.mem, Field(a, 6))
            && n.cpu.edx == Load(t.mem, Field(a, 7)) && n.cpu.ecx == Load(t.mem, Field(a, 8))
            && n.cpu.eax == Load(t.mem, Field(a, 9))
  {
    var e := t.cpu.esp;
    assert e == Field(a, 2) && Plus(e, 4) == Field(a, 3) && Plus(e, 8) == Field(a, 4);
    assert Plus(e, 16) == Field(a, 6) && Plus(e, 20) == Field(a, 7) && Plus(e, 24) == Field(a, 8);
    assert Plus(e, 28) == Field(a, 9);
  }

  lemma PopsRegisters(t: Machine, a: Word, flags: Word) returns (n: Machine)
    requires a + FRAME < SIZE && t.cpu.esp == a
    ensures Run(t, 5, flags) == Run(n, 8, flags) && n.mem == t.mem && n.cpu.esp == a + 40
    ensures n.cpu.edi == Load(t.mem, Field(a, 2)) && n.cpu.esi == Load(t.mem, Field(a, 3))
    ensures n.cpu.ebp == Load(t.mem, Field(a, 4)) && n.cpu.ebx == Load(t.mem, Field(a, 6))
    ensures n.cpu.edx == Load(t.mem, Field(a, 7)) && n.cpu.ecx == Load(t.mem, Field(a, 8))
    ensures n.cpu.eax == Load(t.mem, Field(a, 9))
  {
    var s1 := Exec(t, Popl(Eax), flags);
    var s2 := Exec(s1, Popl(Eax), flags);
    n := Exec(s2, Popal, flags);
    assert UNWIND[5] == UNWIND[6] == Popl(Eax) && UNWIND[7] == Popal;
    RunStep(t, 5, flags);
    RunStep(s1, 6, flags);
    RunStep(s2, 7, flags);
    PopalLoads(s2, a, flags);
  }

  lemma PopsFlags(t: Machine, a: Word, flags: Word) returns (n: Machine)
    requires a + FRAME < SIZE && t.cpu.esp == a + 40
    ensures Run(t, 8, flags) == Run(n, 10, flags)
    ensures n == t.(cpu := t.cpu.(esp := a + 48, eflags := Load(t.mem, Field(a, 11))))
  {
    var s1 := Exec(t, UNWIND[8], flags);
    assert s1 == t.(cpu := t.cpu.(esp := a + 44, eflags := flags));
    n := Exec(s1, UNWIND[9], flags);
    assert Run(t, 8, flags) == Run(s1, 9, flags) == Run(n, 10, flags);
  }

  lemma PopsReturn(t: Machine, a: Word, flags: Word)
    requires a + FRAME < SIZE && t.cpu.esp == a + 48
    ensures var e := Load(t.mem, Field(a, 12));
      Run(t, 10, flags) == t.(cpu := t.cpu.(esp := Plus(e, 4), eip := Load(t.mem, e)))
  {
    var e := Load(t.mem, Field(a, 12));
    var s1 := Exec(t, UNWIND[10], flags);
    assert s1 == t.(cpu := t.cpu.(esp := e));
    assert Run(t, 10, flags) == Run(s1, 11, flags) == Run(Exec(s1, UNWIND[11], flags), 12, flags);
  }

  /** The other seven pop the whole state. */
  lemma UnwindPops(t: Machine, a: Word, flags: Word)
    requires a + FRAME < SIZE && t.cpu.esp == a
    ensures var n, m := Run(t, 5, flags), t.mem;
      && n.mem == m
      && n.cpu.edi == Load(m, Field(a, 2)) && n.cpu.esi == Load(m, Field(a, 3)) && n.cpu.ebp == Load(m, Field(a, 4))
      && n.cpu.ebx == Load(m, Field(a, 6)) && n.cpu.edx == Load(m, Field(a, 7)) && n.cpu.ecx == Load(m, Field(a, 8))
      && n.cpu.eax == Load(m, Field(a, 9)) && n.cpu.eflags == Load(m, Field(a, 11))
      && n.cpu.eip == Load(m, Load(m, Field(a, 12))) && n.cpu.esp == Plus(Load(m, Field(a, 12)), 4)
  {
    var s3 := PopsRegisters(t, a, flags);
    var s5 := PopsFlags(s3, a, flags);
    PopsReturn(s5, a, flags);
  }

  /** They leave the state that the frame holds, but return through its esp. */
  lemma PopsState(t: Machine, a: Word, c: Cpu, flags: Word)
    requires a + FRAME < SIZE && t.cpu.esp == a && Holds(t.mem, a, c)
    ensures Run(t, 5, flags) == Machine(c.(eip := Load(t.mem, c.esp), esp := Plus(c.esp, 4)), t.mem)
  {
    UnwindPops(t, a, flags);
    HoldsFields(t.mem, a, c);
  }

  lemma UnwindToPops(s: Machine, a: Word, c: Cpu, flags: Word) returns (t: Machine)
    requires a + FRAME < SIZE && s.cpu.esp == a && Holds(s.mem, a, c)
    ensures t.mem == Unwound(s.mem, a, c) && t.cpu.esp == a && Unwind(s, flags) == Run(t, 5, flags)
  {
    var r := Machine(s.cpu.(eax := c.eip, ebx := Minus(c.esp, 4), eflags := flags), s.mem);
    UnwindReads(s, a, c, flags);
    UnwindStores(r, a, c, flags);
    t := Machine(r.cpu, Unwound(s.mem, a, c));
  }

  /** A store outside the frame keeps it. */
  lemma HoldsAfterScratch(m: Mem, a: Word, c: Cpu, e: Word, w: Word)
    requires a + FRAME < SIZE && Holds(m, a, c) && forall x: Word :: InWord(x, e) ==> x < a || a + FRAME <= x
    ensures Holds(Store(m, e, w), a, c)
  {
    forall x: Word | a <= x < a + FRAME ensures Store(m, e, w)(x) == m(x) {
      assert !InWord(x, e);
    }
    HoldsSame(m, Store(m, e, w), a, c);
  }

  lemma LoadElsewhere(m: Mem, a: Word, w: Word, b: Word)
    requires forall x: Word :: InWord(x, b) ==> !InWord(x, a)
    ensures Load(Store(m, a, w), b) == Load(m, b)
  {
    forall x: Word | InWord(x, b) ensures Store(m, a, w)(x) == m(x) {
      assert !InWord(x, a);
    }
    LoadSame(m, Store(m, a, w), b);
  }

  lemma HoldsAfterEsp(m: Mem, a: Word, c: Cpu, e: Word)
    requires a + FRAME < SIZE && Holds(m, a, c)
    ensures Holds(Store(m, a + 48, e), a, c.(esp := e))
  {
    forall i | 2 <= i < 13 && i != 5 ensures Load(Store(m, a + 48, e), Field(a, i)) == Frame(c.(esp := e), 0, 0, 0)[i] {
      if i < 12 {
        LoadElsewhere(m, a + 48, e, Field(a, i));
      } else {
        LoadStored(m, a + 48, e);
      }
    }
  }

  lemma UnwoundLoads(m: Mem, a: Word, c: Cpu)
    requires a + FRAME < SIZE && Holds(m, a, c) && Clear(a, c.esp)
    ensures Holds(Unwound(m, a, c), a, c.(esp := Minus(c.esp, 4)))
    ensures Load(Unwound(m, a, c), Minus(c.esp, 4)) == c.eip
  {
    var e := Minus(c.esp, 4);
    HoldsAfterScratch(m, a, c, e, c.eip);
    HoldsAfterEsp(Store(m, e, c.eip), a, c, e);
    LoadStored(m, e, c.eip);
    LoadElsewhere(Store(m, e, c.eip), a + 48, e, e);
  }

  /** The unwinding code restores every general register, the flags, the stack
      pointer and the instruction pointer that the frame holds, whatever flags its
      arithmetic leaves, and writes only the scratch word and the frame's esp. */
  lemma UnwindRestores(s: Machine, a: Word, c: Cpu, flags: Word)
    requires a + FRAME < SIZE && s.cpu.esp == a && Holds(s.mem, a, c) && Clear(a, c.esp)
    ensures Unwind(s, flags).cpu == c
    ensures forall x: Word :: !InWord(x, Minus(c.esp, 4)) && !InWord(x, a + 48) ==> Unwind(s, flags).mem(x) == s.mem(x)
  {
    var t := UnwindToPops(s, a, c, flags);
    UnwoundLoads(s.mem, a, c);
    PopsState(t, a, c.(esp := Minus(c.esp, 4)), flags);
  }

  // ---------- page_fault_handler ----------

  datatype Outcome = Destroyed | Panicked | Resumed(machine: Machine)

  predicate OnExceptionStack(esp: Word) {
    EXSTK <= esp <= EXSTK_TOP
  }

  /** Where the frame goes: at the top of the exception stack, or one scratch word
      below the trap-time stack pointer. */
  function FrameAddress(esp: Word): Word {
    if OnExceptionStack(esp) then esp - 4 - FRAME else EXSTK_TOP - FRAME
  }

  /** mapped tells whether the exception stack page is present and user-writable. */
  function PageFault(s: Machine, va: Word, err: Word, oesp: Word, upcall: Word, mapped: bool): Outcome {
    if upcall == 0 || !mapped then Destroyed
    else
      var esp := s.cpu.esp;
      var t := FrameAddress(esp);
      var m := if OnExceptionStack(esp) then Store(s.mem, esp - 4, 0) else s.mem;
      if t < EXSTK || t > EXSTK_TOP then Panicked
      else Resumed(Machine(s.cpu.(esp := t, eip := upcall), StoreAll(m, t, Frame(s.cpu, va, err, oesp))))
  }

  /** The kernel panics exactly when a recursive fault leaves less than a frame of 52 bytes
      and a scratch word on the page. */
  lemma PanicsIff(s: Machine, va: Word, err: Word, oesp: Word, upcall: Word)
    requires upcall != 0
    ensures PageFault(s, va, err, oesp, upcall, true) == Panicked <==>
              0xeebf_f000 <= s.cpu.esp < 0xeebf_f000 + 52 + 4
  {
  }

  /** What the kernel wrote: the frame and, in the recursive case, the scratch word. */
  predicate Written(esp: Word, x: Word) {
    FrameAddress(esp) <= x < FrameAddress(esp) + FRAME || (OnExceptionStack(esp) && esp - 4 <= x < esp)
  }

  lemma PageFaultFrame(s: Machine, va: Word, err: Word, oesp: Word, upcall: Word)
    requires PageFault(s, va, err, oesp, upcall, true).Resumed?
    ensures var n := PageFault(s, va, err, oesp, upcall, true).machine;
      && n.cpu.esp == FrameAddress(s.cpu.esp) && EXSTK <= n.cpu.esp <= EXSTK_TOP - FRAME
      && Holds(n.mem, n.cpu.esp, s.cpu)
      && forall x: Word :: !Written(s.cpu.esp, x) ==> n.mem(x) == s.mem(x)
  {
    var esp, t := s.cpu.esp, FrameAddress(s.cpu.esp);
    var m := if OnExceptionStack(esp) then Store(s.mem, esp - 4, 0) else s.mem;
    FrameHolds(m, t, s.cpu, va, err, oesp);
    forall x: Word | !Written(esp, x) ensures StoreAll(m, t, Frame(s.cpu, va, err, oesp))(x) == s.mem(x) {
      StoreAllElsewhere(m, t, Frame(s.cpu, va, err, oesp), x);
    }
  }

  /** A fault is fatal exactly without an upcall or without a writable exception stack. */
  lemma DestroyedIff(s: Machine, va: Word, err: Word, oesp: Word, upcall: Word, mapped: bool)
    ensures PageFault(s, va, err, oesp, upcall, mapped) == Destroyed <==> upcall == 0 || !mapped
  {
  }

  /** Any other one branches to the upcall, with the fault address and the error code on
      top of the exception stack, and the registers as they were.  In the recursive case
      the word above the frame is cleared. */
  lemma EntersUpcall(s: Machine, va: Word, err: Word, oesp: Word, upcall: Word)
    requires PageFault(s, va, err, oesp, upcall, true).Resumed?
    ensures var n := PageFault(s, va, err, oesp, upcall, true).machine;
      && n.cpu.eip == upcall && n.cpu == s.cpu.(eip := upcall, esp := n.cpu.esp)
      && EXSTK <= n.cpu.esp <= EXSTK_TOP - FRAME
      && Load(n.mem, Field(n.cpu.esp, 0)) == va && Load(n.mem, Field(n.cpu.esp, 1)) == err
      && (OnExceptionStack(s.cpu.esp) ==> n.cpu.esp + FRAME == s.cpu.esp - 4 && Load(n.mem, s.cpu.esp - 4) == 0)
      && (!OnExceptionStack(s.cpu.esp) ==> n.cpu.esp + FRAME == EXSTK_TOP)
  {
    var esp, t := s.cpu.esp, FrameAddress(s.cpu.esp);
    var m := if OnExceptionStack(esp) then Store(s.mem, esp - 4, 0) else s.mem;
    var ws := Frame(s.cpu, va, err, oesp);
    StoreAllLoads(m, t, ws, 0);
    StoreAllLoads(m, t, ws, 1);
    if OnExceptionStack(esp) {
      ScratchIsZero(s.mem, esp, ws);
    }
  }

  lemma ScratchIsZero(m: Mem, esp: Word, ws: seq<Word>)
    requires EXSTK + FRAME + 4 <= esp <= EXSTK_TOP && 4 * |ws| == FRAME
    ensures Load(StoreAll(Store(m, esp - 4, 0), esp - 4 - FRAME, ws), esp - 4) == 0
  {
    var n := Store(m, esp - 4, 0);
    LoadStored(m, esp - 4, 0);
    forall x: Word | InWord(x, esp - 4) ensures StoreAll(n, esp - 4 - FRAME, ws)(x) == n(x) {
      StoreAllElsewhere(n, esp - 4 - FRAME, ws, x);
    }
    LoadSame(n, StoreAll(n, esp - 4 - FRAME, ws), esp - 4);
  }

  // ---------- nesting ----------

  /** The handler runs, or the unwinding code has done its first k instructions. */
  datatype Phase = Handling | Unwinding(k: nat)

  /** A fault being handled: where its frame is, the state it interrupted, and how far
      its handling has got. */
  datatype Saved = Saved(addr: Word, cpu: Cpu, phase: Phase)

  /** live lists the faults being handled, innermost first. */
  datatype State = State(machine: Machine, live: seq<Saved>)

  datatype Event =
    | Fault(va: Word, err: Word, oesp: Word, upcall: Word)
    | Work(machine: Machine)            // user code, handlers included
    | Return                            // the handler has returned
    | Step(flags: Word)                 // one of the first five unwinding instructions
    | Finish(flags: Word)               // the pops, which leave the frame

  /** The unwinding code has stored the trap-time eip already. */
  predicate Filled(f: Saved) {
    f.phase.Unwinding? && f.phase.k >= 4
  }

  /** n has every byte of a filled scratch word that m has. */
  ghost predicate KeepsFilled(m: Mem, n: Mem, live: seq<Saved>) {
    forall i, x: Word :: 0 <= i < |live| && Filled(live[i]) && InWord(x, Minus(live[i].cpu.esp, 4)) ==> n(x) == m(x)
  }

  /** Handlers obey the stack discipline of compiled code: above their own frame they
      write nothing on the exception stack, and they fault, and return, with the stack
      pointer where that discipline puts it.  The unwinding code may be interrupted by
      a fault for as long as its stack pointer is at the frame. */
  ghost predicate Enabled(s: State, ev: Event) {
    match ev
    case Fault(va, err, oesp, upcall) =>
      && PageFault(s.machine, va, err, oesp, upcall, true).Resumed?
      && (s.live == [] ==> !(UXSTACKTOP <= s.machine.cpu.esp < UXSTACKTOP + 3))
      && (s.live != [] ==> OnExceptionStack(s.machine.cpu.esp) && s.machine.cpu.esp <= s.live[0].addr)
    case Work(m) =>
      s.live != [] ==>
        && s.live[0].phase == Handling && KeepsFilled(s.machine.mem, m.mem, s.live)
        && forall x: Word :: s.live[0].addr <= x < UXSTACKTOP ==> m.mem(x) == s.machine.mem(x)
    case Return => s.live != [] && s.live[0].phase == Handling && s.machine.cpu.esp == s.live[0].addr
    case Step(_) => s.live != [] && s.live[0].phase.Unwinding? && s.live[0].phase.k < 5
    case Finish(_) => s.live != [] && s.live[0].phase == Unwinding(5)
  }

  function InPhase(live: seq<Saved>, phase: Phase): seq<Saved>
    requires live != []
  {
    [live[0].(phase := phase)] + live[1..]
  }

  ghost function Next(s: State, ev: Event): State
    requires Enabled(s, ev)
  {
    match ev
    case Fault(va, err, oesp, upcall) =>
      var m := PageFault(s.machine, va, err, oesp, upcall, true).machine;
      State(m, [Saved(m.cpu.esp, s.machine.cpu, Handling)] + s.live)
    case Work(m) => s.(machine := m)
    case Return => s.(live := InPhase(s.live, Unwinding(0)))
    case Step(flags) =>
      var k := s.live[0].phase.k;
      State(Exec(s.machine, UNWIND[k], flags), InPhase(s.live, Unwinding(k + 1)))
    case Finish(flags) => State(Run(s.machine, 5, flags), s.live[1..])
  }

  /** The frame lies on the exception page where the kernel puts it, and clear of its
      scratch word. */
  predicate Placed(f: Saved) {
    && EXSTK <= f.addr <= EXSTK_TOP - FRAME && f.addr == FrameAddress(f.cpu.esp)
    && !(UXSTACKTOP <= f.cpu.esp < UXSTACKTOP + 3)
  }

  /** What the memory and the registers c of the code that handles f hold. */
  ghost predicate Progress(m: Mem, c: Cpu, f: Saved)
    requires Placed(f)
  {
    match f.phase
    case Handling => Holds(m, f.addr, f.cpu)
    case Unwinding(k) =>
      && k <= 5 && c.esp == f.addr
      && Holds(m, f.addr, if k == 5 then f.cpu.(esp := Minus(f.cpu.esp, 4)) else f.cpu)
      && (k >= 1 ==> c.eax == f.cpu.eip)
      && (k == 2 ==> c.ebx == f.cpu.esp) && (k >= 3 ==> c.ebx == Minus(f.cpu.esp, 4))
      && (k >= 4 ==> Load(m, Minus(f.cpu.esp, 4)) == f.cpu.eip)
  }

  /** Every frame holds the state it saved, with its unwinding as far as its phase says,
      and lies with its scratch word below the frame of the next outer fault.  The code
      handling an outer fault has the registers that the next inner one saved. */
  ghost predicate Stacked(m: Mem, c: Cpu, live: seq<Saved>)
    decreases |live|
  {
    live == [] ||
    var f := live[0];
    && Placed(f) && Progress(m, c, f)
    && (|live| > 1 ==> OnExceptionStack(f.cpu.esp) && f.cpu.esp <= live[1].addr)
    && Stacked(m, f.cpu, live[1..])
  }

  ghost predicate Good(s: State) {
    Stacked(s.machine.mem, s.machine.cpu, s.live)
  }

  lemma ProgressSame(m: Mem, n: Mem, c: Cpu, f: Saved)
    requires Placed(f) && Progress(m, c, f)
    requires forall x: Word :: f.addr <= x < EXSTK_TOP ==> n(x) == m(x)
    requires Filled(f) ==> forall x: Word :: InWord(x, Minus(f.cpu.esp, 4)) ==> n(x) == m(x)
    ensures Progress(n, c, f)
  {
    HoldsSame(m, n, f.addr, if f.phase == Unwinding(5) then f.cpu.(esp := Minus(f.cpu.esp, 4)) else f.cpu);
    if Filled(f) {
      LoadSame(m, n, Minus(f.cpu.esp, 4));
    }
  }

  /** Only the bytes from the innermost frame up, and the filled scratch words, matter. */
  lemma {:induction false} StackedSame(m: Mem, n: Mem, c: Cpu, live: seq<Saved>)
    requires Stacked(m, c, live) && KeepsFilled(m, n, live)
    requires live != [] ==> forall x: Word :: live[0].addr <= x < EXSTK_TOP ==> n(x) == m(x)
    ensures Stacked(n, c, live)
    decreases |live|
  {
    if live != [] {
      assert Filled(live[0]) ==> forall x: Word :: InWord(x, Minus(live[0].cpu.esp, 4)) ==> n(x) == m(x);
      ProgressSame(m, n, c, live[0]);
      forall i, x: Word | 0 <= i < |live[1..]| && Filled(live[1..][i]) && InWord(x, Minus(live[1..][i].cpu.esp, 4))
        ensures n(x) == m(x)
      {
        assert live[1..][i] == live[i + 1];
      }
      StackedSame(m, n, live[0].cpu, live[1..]);
    }
  }

  /** A scratch word lies above its frame or off the exception stack. */
  lemma ScratchAbove(f: Saved, x: Word)
    requires Placed(f) && InWord(x, Minus(f.cpu.esp, 4))
    ensures !(EXSTK <= x < f.addr + FRAME)
  {
  }

  lemma {:induction false} PlacedAbove(m: Mem, c: Cpu, live: seq<Saved>, i: nat)
    requires Stacked(m, c, live) && i < |live|
    ensures Placed(live[i]) && live[0].addr <= live[i].addr
    decreases |live|
  {
    if i > 0 {
      PlacedAbove(m, live[0].cpu, live[1..], i - 1);
    }
  }

  /** What is written on the exception page below the innermost frame disturbs nothing. */
  lemma BelowKeeps(m: Mem, n: Mem, c: Cpu, live: seq<Saved>)
    requires Stacked(m, c, live)
    requires live != [] ==> forall x: Word :: n(x) != m(x) ==> EXSTK <= x < live[0].addr
    ensures Stacked(n, c, live)
  {
    forall i, x: Word | 0 <= i < |live| && Filled(live[i]) && InWord(x, Minus(live[i].cpu.esp, 4))
      ensures n(x) == m(x)
    {
      PlacedAbove(m, c, live, i);
      ScratchAbove(live[i], x);
    }
    StackedSame(m, n, c, live);
  }

  lemma FaultKeeps(s: State, ev: Event)
    requires Good(s) && ev.Fault? && Enabled(s, ev)
    ensures Good(Next(s, ev))
  {
    var n := Next(s, ev);
    PageFaultFrame(s.machine, ev.va, ev.err, ev.oesp, ev.upcall);
    assert n.live[1..] == s.live;
    BelowKeeps(s.machine.mem, n.machine.mem, s.machine.cpu, s.live);
  }

  lemma WorkKeeps(s: State, ev: Event)
    requires Good(s) && ev.Work? && Enabled(s, ev)
    ensures Good(Next(s, ev))
  {
    if s.live != [] {
      var f := s.live[0];
      assert Stacked(s.machine.mem, ev.machine.cpu, s.live);
      StackedSame(s.machine.mem, ev.machine.mem, ev.machine.cpu, s.live);
    }
  }

  /** The first three instructions read the frame into registers. */
  lemma ReadsFrame(s: Machine, f: Saved, flags: Word)
    requires Placed(f) && f.phase.Unwinding? && f.phase.k < 3 && Progress(s.mem, s.cpu, f)
    ensures var n := Exec(s, UNWIND[f.phase.k], flags);
            n.mem == s.mem && Progress(n.mem, n.cpu, f.(phase := Unwinding(f.phase.k + 1)))
  {
    assert Load(s.mem, Field(f.addr, 10)) == f.cpu.eip && Load(s.mem, Field(f.addr, 12)) == f.cpu.esp;
  }

  /** The fourth stores the trap-time eip below the trap-time stack pointer. */
  lemma FillsScratch(s: Machine, f: Saved, flags: Word)
    requires Placed(f) && f.phase == Unwinding(3) && Progress(s.mem, s.cpu, f)
    ensures var n := Exec(s, UNWIND[3], flags);
            && n.mem == Store(s.mem, Minus(f.cpu.esp, 4), f.cpu.eip)
            && Progress(n.mem, n.cpu, f.(phase := Unwinding(4)))
  {
    var e := Minus(f.cpu.esp, 4);
    forall x: Word | InWord(x, e) ensures x < f.addr || f.addr + FRAME <= x {
      ScratchAbove(f, x);
    }
    HoldsAfterScratch(s.mem, f.addr, f.cpu, e, f.cpu.eip);
    LoadStored(s.mem, e, f.cpu.eip);
  }

  /** The fifth puts the adjusted stack pointer into the frame. */
  lemma AdjustsFrame(s: Machine, f: Saved, flags: Word)
    requires Placed(f) && f.phase == Unwinding(4) && Progress(s.mem, s.cpu, f)
    ensures var n := Exec(s, UNWIND[4], flags);
            && n.mem == Store(s.mem, f.addr + 48, Minus(f.cpu.esp, 4))
            && Progress(n.mem, n.cpu, f.(phase := Unwinding(5)))
  {
    var e := Minus(f.cpu.esp, 4);
    HoldsAfterEsp(s.mem, f.addr, f.cpu, e);
    forall x: Word | InWord(x, e) ensures !InWord(x, f.addr + 48) {
      ScratchAbove(f, x);
    }
    LoadElsewhere(s.mem, f.addr + 48, e, e);
  }

  /** Whatever these five instructions write lies below the next outer frame. */
  lemma StepKeeps(s: State, flags: Word)
    requires Good(s) && Enabled(s, Step(flags))
    ensures Good(Next(s, Step(flags)))
  {
    var f, n := s.live[0], Next(s, Step(flags));
    if f.phase.k < 3 {
      ReadsFrame(s.machine, f, flags);
    } else if f.phase.k == 3 {
      FillsScratch(s.machine, f, flags);
    } else {
      AdjustsFrame(s.machine, f, flags);
    }
    assert n.live[1..] == s.live[1..];
    if |s.live| > 1 {
      forall x: Word | n.machine.mem(x) != s.machine.mem(x) ensures EXSTK <= x < s.live[1].addr {
        assert InWord(x, f.addr + 48) || InWord(x, f.cpu.esp - 4);
      }
      BelowKeeps(s.machine.mem, n.machine.mem, f.cpu, s.live[1..]);
    }
  }

  /** The end of a handling restores exactly the state at which its fault was taken, and
      keeps the outer faults. */
  lemma ReturnRestores(s: State, flags: Word)
    requires Good(s) && Enabled(s, Finish(flags))
    ensures Next(s, Finish(flags)).machine.cpu == s.live[0].cpu
    ensures Next(s, Finish(flags)).machine.mem == s.machine.mem
    ensures Good(Next(s, Finish(flags)))
  {
    FinishRestores(s.machine, s.live[0], flags);
  }

  lemma FinishRestores(s: Machine, f: Saved, flags: Word)
    requires Placed(f) && f.phase == Unwinding(5) && Progress(s.mem, s.cpu, f)
    ensures Run(s, 5, flags) == Machine(f.cpu, s.mem)
  {
    PopsState(s, f.addr, f.cpu.(esp := Minus(f.cpu.esp, 4)), flags);
  }

  lemma NextGood(s: State, ev: Event)
    requires Good(s) && Enabled(s, ev)
    ensures Good(Next(s, ev))
  {
    match ev
    case Fault(_, _, _, _) => FaultKeeps(s, ev);
    case Work(m) => WorkKeeps(s, ev);
    case Return => assert InPhase(s.live, Unwinding(0))[1..] == s.live[1..];
    case Step(flags) => StepKeeps(s, flags);
    case Finish(flags) => ReturnRestores(s, flags);
  }

  /** All frames and scratch words on the exception page are disjoint. */
  lemma {:induction false} FramesDisjoint(m: Mem, c: Cpu, live: seq<Saved>, i: nat, j: nat)
    requires Stacked(m, c, live) && i < j < |live|
    ensures live[i].addr + FRAME + 4 == live[i].cpu.esp <= live[j].addr
    decreases |live|
  {
    if i > 0 {
      FramesDisjoint(m, live[0].cpu, live[1..], i - 1, j - 1);
    } else if j > 1 {
      FramesDisjoint(m, live[0].cpu, live[1..], 0, j - 1);
    }
  }

  // ---------- whole runs ----------

  /** A run during which at least depth faults stay in handling. */
  ghost predicate Runs(s: State, trace: seq<Event>, n: State, depth: nat)
    decreases |trace|
  {
    && |s.live| >= depth
    && if trace == [] then n == s
       else Enabled(s, trace[0]) && Runs(Next(s, trace[0]), trace[1..], n, depth)
  }

  /** The outermost depth faults are the same, up to how far the innermost of them is. */
  ghost predicate SameOuter(s: State, n: State, depth: nat)
    requires 0 < depth <= |s.live| && depth <= |n.live|
  {
    var i, j := |s.live| - depth, |n.live| - depth;
    && n.live[j].addr == s.live[i].addr && n.live[j].cpu == s.live[i].cpu
    && n.live[j + 1..] == s.live[i + 1..]
  }

  lemma PhaseKeepsOuter(s: State, n: State, phase: Phase, depth: nat)
    requires 0 < depth <= |s.live| && n.live == InPhase(s.live, phase)
    ensures SameOuter(s, n, depth)
  {
    var i := |s.live| - depth;
    assert n.live[i].addr == s.live[i].addr && n.live[i].cpu == s.live[i].cpu;
    assert n.live[i + 1..] == s.live[i + 1..];
  }

  lemma PushKeepsOuter(s: State, n: State, f: Saved, depth: nat)
    requires 0 < depth <= |s.live| && n.live == [f] + s.live
    ensures SameOuter(s, n, depth) && SameOuter(n, s, depth)
  {
    var i := |s.live| - depth;
    assert n.live[i + 1] == s.live[i];
    assert n.live[i + 2..] == s.live[i + 1..];
  }

  lemma NextKeepsOuter(s: State, ev: Event, depth: nat)
    requires Enabled(s, ev) && 0 < depth <= |s.live| && depth <= |Next(s, ev).live|
    ensures SameOuter(s, Next(s, ev), depth)
  {
    var n := Next(s, ev);
    match ev
    case Fault(_, _, _, _) => PushKeepsOuter(s, n, n.live[0], depth);
    case Work(_) =>
    case Return => PhaseKeepsOuter(s, n, Unwinding(0), depth);
    case Step(_) => PhaseKeepsOuter(s, n, Unwinding(s.live[0].phase.k + 1), depth);
    case Finish(_) => PushKeepsOuter(n, s, s.live[0], depth);
  }

  lemma {:induction false} RunKeepsOuter(s: State, trace: seq<Event>, n: State, depth: nat)
    requires Good(s) && Runs(s, trace, n, depth) && depth > 0
    ensures Good(n) && |n.live| >= depth && SameOuter(s, n, depth)
    decreases |trace|
  {
    if trace != [] {
      var t := Next(s, trace[0]);
      NextGood(s, trace[0]);
      RunKeepsOuter(t, trace[1..], n, depth);
      NextKeepsOuter(s, trace[0], depth);
    }
  }

  /** A fault is transparent: whatever happens while it is handled, further faults to
      any depth included, in handlers as well as in the unwinding code, the end of its
      handling restores the registers, flags, stack pointer and instruction pointer at
      which it was taken, and leaves the faults around it as they were. */
  lemma FaultIsTransparent(s: State, fault: Event, trace: seq<Event>, h: State, flags: Word)
    requires Good(s) && fault.Fault? && Enabled(s, fault)
    requires Runs(Next(s, fault), trace, h, |s.live| + 1) && |h.live| == |s.live| + 1 && Enabled(h, Finish(flags))
    ensures Next(h, Finish(flags)).machine.cpu == s.machine.cpu
    ensures Next(h, Finish(flags)).live == s.live && Good(Next(h, Finish(flags)))
  {
    var f := Next(s, fault);
    FaultKeeps(s, fault);
    RunKeepsOuter(f, trace, h, |s.live| + 1);
    assert f.live[1..] == s.live;
    ReturnRestores(h, flags);
  }

  // ---------- where the discipline is needed ----------

  /** The kernel keeps clear of the live part of the exception stack exactly when the
      faulting stack pointer is on the exception stack and not above the innermost
      frame: a handler that switches stacks and faults overwrites the outermost frame. */
  lemma KernelKeepsClearIff(esp: Word, low: Word)
    requires EXSTK <= low <= EXSTK_TOP - FRAME
    ensures (forall x: Word :: low <= x < EXSTK_TOP ==> !Written(esp, x)) <==> OnExceptionStack(esp) && esp <= low
  {
    if !OnExceptionStack(esp) {
      assert Written(esp, EXSTK_TOP - 1);
    } else if esp > low {
      assert Written(esp, esp - 1);
    }
  }

  /** eip with its low 3 - d bytes replaced by high bytes of the exception stack's top. */
  function Overlapped(eip: Word, d: nat): Word
    requires d < 3
  {
    if d == 0 then eip / 0x100_0000 * 0x100_0000 + 0xeebfff
    else if d == 1 then eip / 0x1_0000 * 0x1_0000 + 0xeebf
    else eip / 0x100 * 0x100 + 0xee
  }

  lemma MisplacedWord(m: Mem, eip: Word, d: nat)
    requires d < 3
    ensures var e := UXSTACKTOP - 4 + d;
            var n := Store(Store(m, e, eip), UXSTACKTOP - 5, e);
            Load(n, UXSTACKTOP - 5) == e && Load(n, e) == Overlapped(eip, d)
  {
    var e := UXSTACKTOP - 4 + d;
    var m1 := Store(m, e, eip);
    var n := Store(m1, UXSTACKTOP - 5, e);
    LoadStored(m1, UXSTACKTOP - 5, e);
    LoadStored(m, e, eip);
    assert n(UXSTACKTOP - 4) == 0xff && n(UXSTACKTOP - 3) == 0xbf && n(UXSTACKTOP - 2) == 0xee;
    assert n(UXSTACKTOP - 1) == m1(UXSTACKTOP - 1) && n(UXSTACKTOP) == m1(UXSTACKTOP);
    assert n(UXSTACKTOP + 1) == m1(UXSTACKTOP + 1);
    HighBytes(eip);
  }

  lemma HighBytes(w: Word)
    ensures ByteOf(w, 3) * 0x100_0000 == w / 0x100_0000 * 0x100_0000
    ensures ByteOf(w, 2) * 0x1_0000 + ByteOf(w, 3) * 0x100_0000 == w / 0x1_0000 * 0x1_0000
    ensures ByteOf(w, 1) * 0x100 + ByteOf(w, 2) * 0x1_0000 + ByteOf(w, 3) * 0x100_0000 == w / 0x100 * 0x100
  {
    var w1, w2 := w / 0x100, w / 0x1_0000;
    assert w1 / 0x100 == w2;
    assert w2 / 0x100 == w / 0x100_0000;
  }

  /** The other fields of the frame are below both stores. */
  lemma TopFieldsKept(m: Mem, eip: Word, d: nat, i: nat)
    requires d < 3 && i < 12
    ensures var a, e := EXSTK_TOP - FRAME, UXSTACKTOP - 4 + d;
            Load(Store(Store(m, e, eip), a + 48, e), Field(a, i)) == Load(m, Field(a, i))
  {
    var a, e := EXSTK_TOP - FRAME, UXSTACKTOP - 4 + d;
    LoadElsewhere(m, e, eip, Field(a, i));
    LoadElsewhere(Store(m, e, eip), a + 48, e, Field(a, i));
  }

  /** The loads of the pops, field by field. */
  lemma TopLoads(m: Mem, c: Cpu, d: nat)
    requires d < 3 && c.esp == UXSTACKTOP + d && Holds(m, EXSTK_TOP - FRAME, c)
    ensures var a, n := EXSTK_TOP - FRAME, Unwound(m, EXSTK_TOP - FRAME, c);
            Holds(n, a, c.(esp := UXSTACKTOP - 4 + d)) && Load(n, UXSTACKTOP - 4 + d) == Overlapped(c.eip, d)
  {
    MisplacedWord(m, c.eip, d);
    var a, n := EXSTK_TOP - FRAME, Unwound(m, EXSTK_TOP - FRAME, c);
    forall i | 2 <= i < 13 && i != 5
      ensures Load(n, Field(a, i)) == Frame(c.(esp := UXSTACKTOP - 4 + d), 0, 0, 0)[i]
    {
      if i < 12 {
        TopFieldsKept(m, c.eip, d, i);
      }
    }
  }

  lemma TopUnwinds(p: Machine, c: Cpu, flags: Word, d: nat)
    requires d < 3 && c.esp == UXSTACKTOP + d && p.cpu.esp == EXSTK_TOP - FRAME && Holds(p.mem, EXSTK_TOP - FRAME, c)
    ensures Unwind(p, flags).cpu == c.(eip := Overlapped(c.eip, d))
  {
    var t := UnwindToPops(p, EXSTK_TOP - FRAME, c, flags);
    TopLoads(p.mem, c, d);
    PopsState(t, EXSTK_TOP - FRAME, c.(esp := UXSTACKTOP - 4 + d), flags);
  }

  /** With the stack pointer at the very top of the exception stack, or one or two bytes
      above it, the scratch word overlaps the frame: all is restored but the instruction
      pointer, and that exactly when it has the overlapped bytes already. */
  lemma TopOfStackGoesAstray(s: Machine, va: Word, err: Word, oesp: Word, upcall: Word, flags: Word, d: nat)
    requires d < 3 && s.cpu.esp == UXSTACKTOP + d && PageFault(s, va, err, oesp, upcall, true).Resumed?
    ensures var n := Unwind(PageFault(s, va, err, oesp, upcall, true).machine, flags);
            && n.cpu == s.cpu.(eip := Overlapped(s.cpu.eip, d))
            && (n.cpu == s.cpu <==>
                 if d == 0 then s.cpu.eip % 0x100_0000 == 0xeebfff
                 else if d == 1 then s.cpu.eip % 0x1_0000 == 0xeebf
                 else s.cpu.eip % 0x100 == 0xee)
  {
    PageFaultFrame(s, va, err, oesp, upcall);
    TopUnwinds(PageFault(s, va, err, oesp, upcall, true).machine, s.cpu, flags, d);
  }

  // ---------- the handler and the unwinding code as they run ----------

  datatype Verdict = Destroy | Panic | Resume

  class Processor {
    var cpu: Cpu
    var mem: Mem

    constructor (c: Cpu, m: Mem)
      ensures Value() == Machine(c, m)
    {
      cpu := c;
      mem := m;
    }

    ghost function Value(): Machine
      reads this
    {
      Machine(cpu, mem)
    }

    method PageFaultHandler(va: Word, err: Word, oesp: Word, upcall: Word, mapped: bool) returns (v: Verdict)
      modifies this
      ensures match PageFault(old(Value()), va, err, oesp, upcall, mapped)
              case Destroyed => v == Destroy && Value() == old(Value())
              case Panicked => v == Panic
              case Resumed(m) => v == Resume && Value() == m
    {
      if upcall == 0 || !mapped {
        return Destroy;
      }
      var utf := Frame(cpu, va, err, oesp);
      var tmp := cpu.esp;
      if cpu.esp < EXSTK || cpu.esp > EXSTK_TOP {
        tmp := EXSTK_TOP - FRAME;
      } else {
        tmp := tmp - 4;
        mem := Store(mem, tmp, 0);
        tmp := tmp - FRAME;
      }
      mem := StoreAll(mem, tmp, utf);
      if tmp < EXSTK || tmp > EXSTK_TOP {
        return Panic;
      }
      cpu := cpu.(esp := tmp, eip := upcall);
      v := Resume;
    }

    method Execute(i: Instr, flags: Word)
      modifies this
      ensures Value() == Exec(old(Value()), i, flags)
    {
      match i
      case Movl(d, b, r) => cpu := Set(cpu, r, Load(mem, Plus(Get(cpu, b), d)));
      case MovlTo(r, d, b) => mem := Store(mem, Plus(Get(cpu, b), d), Get(cpu, r));
      case Subl(k, r) => cpu := Set(cpu, r, Minus(Get(cpu, r), k)).(eflags := flags);
      case Addl(k, r) => cpu := Set(cpu, r, Plus(Get(cpu, r), k)).(eflags := flags);
      case Popl(r) => cpu := Set(cpu.(esp := Plus(cpu.esp, 4)), r, Load(mem, cpu.esp));
      case Popal => cpu := PopRegs(cpu, mem);
      case Popfl => cpu := cpu.(eflags := Load(mem, cpu.esp), esp := Plus(cpu.esp, 4));
      case Ret => cpu := cpu.(eip := Load(mem, cpu.esp), esp := Plus(cpu.esp, 4));
    }

    method ReturnFromUpcall(flags: Word)
      modifies this
      ensures Value() == Unwind(old(Value()), flags)
    {
      var k := 0;
      while k < |UNWIND|
        invariant 0 <= k <= |UNWIND|
        invariant Run(Value(), k, flags) == Unwind(old(Value()), flags)
      {
        Execute(UNWIND[k], flags);
        k := k + 1;
      }
    }
  }
}
