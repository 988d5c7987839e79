/** The prime sieve of 1-fork/primes.c: a generator and a growing chain of filter
    processes connected by bounded pipes, interleaved in any order. */
module Sieve {

  // ---------- what the sieve should print ----------

  /** The remainder by repeated subtraction, which keeps proofs linear. */
  function Rem(x: nat, p: nat): nat
    requires p > 0
  {
    if x < p then x else Rem(x - p, p)
  }

  function Abs(x: int): nat {
    if x < 0 then -x else x
  }

  predicate Divides(p: int, x: int) {
    p != 0 && Rem(Abs(x), Abs(p)) == 0
  }

  ghost predicate IsPrime(p: int) {
    p >= 2 && forall d :: 2 <= d < p ==> !Divides(d, p)
  }

  ghost function PrimesUpTo(n: int): seq<int>
    decreases n
  {
    if n < 2 then [] else PrimesUpTo(n - 1) + if IsPrime(n) then [n] else []
  }

  // ---------- what each process computes from its whole input ----------

  /** Numbers to come, the next one first. */
  datatype Numbers = None | More(head: int, tail: Numbers)

  /** a..b. */
  function From(a: int, b: int): Numbers
    decreases b - a
  {
    if a > b then None else More(a, From(a + 1, b))
  }

  /** What p does not divide. */
  function Sift(p: int, l: Numbers): Numbers {
    match l
    case None => None
    case More(x, r) => if Divides(p, x) then Sift(p, r) else More(x, Sift(p, r))
  }

  /** The numbers of s, then r. */
  function Queue(s: seq<int>, r: Numbers): Numbers {
    if s == [] then r else More(s[0], Queue(s[1..], r))
  }

  lemma {:induction false} QueueSnoc(s: seq<int>, x: int, r: Numbers)
    ensures Queue(s + [x], r) == Queue(s, More(x, r))
    decreases |s|
  {
    var t := s + [x];
    if s == [] {
      assert t[0] == x && t[1..] == [];
    } else {
      assert t[0] == s[0] && t[1..] == s[1..] + [x];
      QueueSnoc(s[1..], x, r);
    }
  }

  method GenerarNumeros(limit: int) returns (out: seq<int>)
    ensures Queue(out, None) == From(2, limit)
    ensures |out| == (if limit < 2 then 0 else limit - 1) && forall k :: 0 <= k < |out| ==> out[k] == k + 2
  {
    out := [];
    var n := 2;
    while n <= limit
      invariant n == |out| + 2 && (n == 2 || n <= limit + 1) && forall k :: 0 <= k < |out| ==> out[k] == k + 2
      invariant Queue(out, From(n, limit)) == From(2, limit)
      decreases limit - n
    {
      QueueSnoc(out, n, From(n + 1, limit));
      out := out + [n];
      n := n + 1;
    }
  }

  method FiltrarNumerosPrimos(input: seq<int>, p: int) returns (out: seq<int>)
    requires p != 0
    ensures Queue(out, None) == Sift(p, Queue(input, None))
  {
    out := [];
    var i := 0;
    while i < |input|
      invariant 0 <= i <= |input|
      invariant Queue(out, Sift(p, Queue(input[i..], None))) == Sift(p, Queue(input, None))
    {
      ghost var after := Queue(input[i + 1..], None);
      assert Queue(input[i..], None) == More(input[i], after) by {
        assert input[i..][1..] == input[i + 1..];
      }
      DividesIsRemainder(p, input[i]);
      if input[i] % p != 0 {
        QueueSnoc(out, input[i], Sift(p, after));
        out := out + [input[i]];
      }
      i := i + 1;
    }
  }

  // ---------- the network ----------

  datatype Stage =
    | Start                     // about to read its prime
    | Got(p: int)               // about to print it
    | Announced(p: int)         // about to fork the next stage
    | Filter(p: int)
    | Holding(p: int, x: int)   // about to write x
    | Waiting                   // has closed its pipes
    | Done

  /** Pipe i feeds stage i; the generator feeds pipe 0 and holds cap numbers at most. */
  datatype Net = Net(limit: int, cap: nat, next: int, open: bool, stages: seq<Stage>, pipes: seq<seq<int>>,
                     printed: seq<int>)

  datatype Event = Generate | CloseInput | Step(i: nat)

  predicate Shape(s: Net) {
    |s.stages| == |s.pipes| >= 1 && s.cap >= 1
  }

  /** Whether the writing end of pipe i is still open. */
  predicate WriterOpen(s: Net, i: nat)
    requires i < |s.stages|
  {
    if i == 0 then s.open else !s.stages[i - 1].Waiting? && !s.stages[i - 1].Done?
  }

  /** A read returns: with a number, or with end of file. */
  predicate Readable(s: Net, i: nat)
    requires Shape(s) && i < |s.stages|
  {
    s.pipes[i] != [] || !WriterOpen(s, i)
  }

  /** wait returns when a child has exited; stage 0 is also the parent of the generator. */
  predicate ChildExited(s: Net, i: nat)
    requires Shape(s) && i < |s.stages|
  {
    (i + 1 < |s.stages| && s.stages[i + 1].Done?) || (i == 0 && !s.open)
  }

  predicate Enabled(s: Net, ev: Event)
    requires Shape(s)
  {
    match ev
    case Generate => s.open && s.next <= s.limit && |s.pipes[0]| < s.cap
    case CloseInput => s.open && s.next > s.limit
    case Step(i) =>
      && i < |s.stages|
      && match s.stages[i]
         case Start => Readable(s, i)
         case Got(_) => true
         case Announced(_) => i + 1 == |s.stages|
         case Filter(_) => Readable(s, i)
         case Holding(_, _) => i + 1 < |s.stages| && |s.pipes[i + 1]| < s.cap
         case Waiting => ChildExited(s, i)
         case Done => false
  }

  function SetStage(s: Net, i: nat, g: Stage): Net
    requires i < |s.stages|
  {
    s.(stages := s.stages[i := g])
  }

  function DoStep(s: Net, i: nat): Net
    requires Shape(s) && Enabled(s, Step(i))
  {
    match s.stages[i]
    case Start =>
      if s.pipes[i] == [] then SetStage(s, i, Done)
      else SetStage(s, i, Got(s.pipes[i][0])).(pipes := s.pipes[i := s.pipes[i][1..]])
    case Got(p) => SetStage(s, i, Announced(p)).(printed := s.printed + [p])
    case Announced(p) => s.(stages := s.stages[i := Filter(p)] + [Start], pipes := s.pipes + [[]])
    case Filter(p) =>
      if s.pipes[i] == [] then SetStage(s, i, Waiting)
      else
        var x := s.pipes[i][0];
        SetStage(s, i, if Divides(p, x) then Filter(p) else Holding(p, x)).(pipes := s.pipes[i := s.pipes[i][1..]])
    case Holding(p, x) => SetStage(s, i, Filter(p)).(pipes := s.pipes[i + 1 := s.pipes[i + 1] + [x]])
    case Waiting => SetStage(s, i, Done)
    case Done => s
  }

  function Next(s: Net, ev: Event): Net
    requires Shape(s) && Enabled(s, ev)
  {
    match ev
    case Generate => s.(next := s.next + 1, pipes := s.pipes[0 := s.pipes[0] + [s.next]])
    case CloseInput => s.(open := false)
    case Step(i) => DoStep(s, i)
  }

  function Initial(limit: int, cap: nat): Net {
    Net(limit, cap, 2, true, [Start], [[]], [])
  }

  // ---------- what a stage has yet to read ----------

  function Held(g: Stage): seq<int> {
    if g.Holding? then [g.x] else []
  }

  /** What a stage still has to pass on: the number it holds, then r. */
  function WithHeld(g: Stage, r: Numbers): Numbers {
    if g.Holding? then More(g.x, r) else r
  }

  function Rest(s: Net, i: nat): Numbers
    requires Shape(s) && i < |s.stages| && i <= |s.printed|
    decreases i, 1
  {
    Queue(s.pipes[i], Behind(s, i))
  }

  /** What will still be written to pipe i. */
  function Behind(s: Net, i: nat): Numbers
    requires Shape(s) && i < |s.stages| && i <= |s.printed|
    decreases i, 0
  {
    if i == 0 then From(s.next, s.limit) else Sift(s.printed[i - 1], WithHeld(s.stages[i - 1], Rest(s, i - 1)))
  }

  predicate HasDivisor(ps: seq<int>, x: int) {
    exists q :: q in ps && Divides(q, x)
  }

  /** The numbers from a to n that no member of ps divides. */
  ghost function LeftFrom(a: int, n: int, ps: seq<int>): Numbers
    decreases n - a
  {
    if a > n then None
    else if HasDivisor(ps, a) then LeftFrom(a + 1, n, ps)
    else More(a, LeftFrom(a + 1, n, ps))
  }

  ghost function Sieved(n: int, ps: seq<int>): Numbers {
    LeftFrom(2, n, ps)
  }

  // ---------- the invariant ----------

  /** ps is a full initial segment of the primes. */
  ghost predicate PrimeList(ps: seq<int>) {
    ps == PrimesUpTo(LastOf(ps))
  }

  predicate Finished(s: Net, i: nat)
    requires Shape(s) && i < |s.stages|
  {
    s.pipes[i] == [] && !WriterOpen(s, i)
  }

  /** Every stage but the last has printed its prime and forked. */
  predicate InnerOk(s: Net, i: nat)
    requires Shape(s) && i < |s.stages|
  {
    && i < |s.printed|
    && match s.stages[i]
       case Filter(p) => p == s.printed[i]
       case Holding(p, x) => p == s.printed[i] && !Divides(p, x)
       case Waiting => Finished(s, i)
       case Done => Finished(s, i)
       case _ => false
  }

  /** The primes of the stages before the last. */
  function Base(s: Net): seq<int>
    requires Shape(s)
  {
    if s.stages[|s.stages| - 1].Announced? && s.printed != [] then s.printed[..|s.printed| - 1] else s.printed
  }

  predicate HasPrime(g: Stage) {
    g.Got? || g.Announced?
  }

  /** The primes found: those of the stages before the last, and the one it has read. */
  function Found(s: Net): seq<int>
    requires Shape(s) && |s.printed| >= |s.stages| - 1
  {
    var g := s.stages[|s.stages| - 1];
    if g.Got? then s.printed + [g.p] else s.printed
  }

  /** What the stages before the last have let through and will let through. */
  function Through(s: Net): Numbers
    requires Shape(s) && |s.printed| >= |s.stages| - 1
  {
    var g := s.stages[|s.stages| - 1];
    if HasPrime(g) then More(g.p, Rest(s, |s.stages| - 1)) else Rest(s, |s.stages| - 1)
  }

  ghost predicate LastOk(s: Net)
    requires Shape(s) && |s.printed| >= |s.stages| - 1
  {
    var last := |s.stages| - 1;
    var g := s.stages[last];
    && (g.Start? || g.Got? || g.Announced? || (g.Done? && Finished(s, last)))
    && |s.printed| == (if g.Announced? then last + 1 else last)
    && (g.Announced? ==> s.printed[last] == g.p)
    && PrimeList(Base(s)) && PrimeList(Found(s))
    && (Found(s) == [] || LastOf(Found(s)) <= s.limit)
    && Through(s) == Sieved(s.limit, Base(s))
  }

  predicate Chain(s: Net) {
    && Shape(s) && |s.printed| >= |s.stages| - 1
    && (forall i :: 0 <= i < |s.stages| - 1 ==> InnerOk(s, i))
    && 2 <= s.next && (!s.open ==> s.next > s.limit) && (s.next <= s.limit + 1 || s.next == 2)
  }

  ghost predicate Inv(s: Net) {
    Chain(s) && LastOk(s)
  }

  // ---------- primes ----------

  lemma {:induction false} MultipleRem(q: nat, k: nat)
    requires q >= 1
    ensures Rem(q * k, q) == 0
    decreases k
  {
    if k > 0 {
      assert q * k == q * (k - 1) + q;
      assert q * (k - 1) >= 0;
      MultipleRem(q, k - 1);
    }
  }

  lemma {:induction false} Quotient(x: nat, q: nat) returns (k: nat)
    requires q >= 1
    ensures x == q * k + Rem(x, q) && Rem(x, q) < q
    decreases x
  {
    if x < q {
      k := 0;
    } else {
      k := Quotient(x - q, q);
      k := k + 1;
    }
  }

  lemma MultipleHasNoRemainder(p: int, c: int)
    requires p != 0
    ensures (p * c) % p == 0
  {
    var x := p * c;
    var t := x / p;
    assert x == p * t + x % p && 0 <= x % p < Abs(p);
    assert p * (c - t) == x % p;
    SmallMultiple(p, c - t);
  }

  lemma SmallMultiple(p: int, d: int)
    requires 0 <= p * d < Abs(p)
    ensures p * d == 0
  {
    assert p > 0 && d >= 1 ==> p * d >= p;
    assert p < 0 && d <= -1 ==> p * d >= 0 - p;
  }

  lemma AbsTimes(p: int, t: int)
    ensures Abs(p * t) == Abs(p) * Abs(t)
  {
    if p >= 0 {
      assert t >= 0 ==> p * t >= 0;
      assert t <= 0 ==> p * t <= 0 && p * Abs(t) == 0 - p * t;
    } else {
      assert t >= 0 ==> p * t <= 0 && Abs(p) * t == 0 - p * t;
      assert t <= 0 ==> p * t >= 0;
    }
  }

  lemma NoRemainderDivides(p: int, x: int)
    requires p != 0 && x % p == 0
    ensures Divides(p, x)
  {
    var t := x / p;
    assert x == p * t;
    AbsTimes(p, t);
    MultipleRem(Abs(p), Abs(t));
  }

  lemma SignedMultiple(p: int, x: int, k: nat) returns (c: int)
    requires p != 0 && Abs(x) == Abs(p) * k
    ensures x == p * c
  {
    if p > 0 {
      c := if x >= 0 then k else 0 - k;
      assert p * (0 - k) == 0 - p * k;
    } else {
      c := if x >= 0 then 0 - k else k;
      assert (0 - p) * k == 0 - p * k == p * (0 - k);
    }
  }

  /** The remainder that the % of the program tests is zero at the same time. */
  lemma DividesIsRemainder(p: int, x: int)
    requires p != 0
    ensures Divides(p, x) <==> x % p == 0
  {
    if Divides(p, x) {
      var k := Quotient(Abs(x), Abs(p));
      var c := SignedMultiple(p, x, k);
      MultipleHasNoRemainder(p, c);
    }
    if x % p == 0 {
      NoRemainderDivides(p, x);
    }
  }

  lemma DividesTrans(q: int, d: int, x: int)
    requires q >= 1 && d >= 1 && x >= 0 && Divides(q, d) && Divides(d, x)
    ensures Divides(q, x)
  {
    var a := Quotient(d, q);
    var b := Quotient(x, d);
    assert x == q * (a * b);
    MultipleRem(q, a * b);
  }

  /** Every number from 2 on has a prime divisor that is no larger. */
  lemma {:induction false} PrimeFactor(x: int) returns (q: int)
    requires x >= 2
    ensures IsPrime(q) && q <= x && Divides(q, x)
    decreases x
  {
    if IsPrime(x) {
      q := x;
    } else {
      var d :| 2 <= d < x && Divides(d, x);
      q := PrimeFactor(d);
      DividesTrans(q, d, x);
    }
  }

  lemma {:induction false} PrimesMembers(n: int, p: int)
    ensures p in PrimesUpTo(n) <==> IsPrime(p) && p <= n
    decreases n
  {
    if n >= 2 {
      PrimesMembers(n - 1, p);
    }
  }

  lemma {:induction false} PrimesSkip(m: int, n: int)
    requires m <= n && forall x :: m < x <= n ==> !IsPrime(x)
    ensures PrimesUpTo(n) == PrimesUpTo(m)
    decreases n - m
  {
    if m < n {
      PrimesSkip(m, n - 1);
    }
  }

  /** The first number left has no divisor among ps. */
  lemma {:induction false} FirstLeft(a: int, n: int, ps: seq<int>)
    requires LeftFrom(a, n, ps) != None
    ensures a <= LeftFrom(a, n, ps).head <= n && !HasDivisor(ps, LeftFrom(a, n, ps).head)
    decreases n - a
  {
    if HasDivisor(ps, a) {
      FirstLeft(a + 1, n, ps);
    }
  }

  /** Every number before it has one. */
  lemma {:induction false} BeforeFirst(a: int, n: int, ps: seq<int>, y: int)
    requires a <= y <= n && (LeftFrom(a, n, ps) != None ==> y < LeftFrom(a, n, ps).head)
    ensures HasDivisor(ps, y)
    decreases n - a
  {
    if y > a {
      BeforeFirst(a + 1, n, ps, y);
    }
  }

  function LastOf(ps: seq<int>): int {
    if ps == [] then 1 else ps[|ps| - 1]
  }

  lemma FirstIsAbove(n: int, ps: seq<int>)
    requires PrimeList(ps) && Sieved(n, ps) != None
    ensures Sieved(n, ps).head > LastOf(ps) && 2 <= Sieved(n, ps).head <= n
  {
    var x := Sieved(n, ps).head;
    FirstLeft(2, n, ps);
    if x <= LastOf(ps) {
      var q := PrimeFactor(x);
      PrimesMembers(LastOf(ps), q);
      assert HasDivisor(ps, x);
    }
  }

  lemma FirstIsPrime(n: int, ps: seq<int>)
    requires PrimeList(ps) && Sieved(n, ps) != None
    ensures IsPrime(Sieved(n, ps).head)
  {
    var x := Sieved(n, ps).head;
    FirstIsAbove(n, ps);
    FirstLeft(2, n, ps);
    forall d | 2 <= d < x ensures !Divides(d, x) {
      if Divides(d, x) {
        BeforeFirst(2, n, ps, d);
        var q :| q in ps && Divides(q, d);
        PrimesMembers(LastOf(ps), q);
        DividesTrans(q, d, x);
      }
    }
  }

  /** The first number left over by the primes up to some point is the next prime. */
  lemma FirstLeftIsNext(n: int, ps: seq<int>)
    requires PrimeList(ps) && Sieved(n, ps) != None
    ensures PrimeList(ps + [Sieved(n, ps).head])
  {
    var m, x := LastOf(ps), Sieved(n, ps).head;
    FirstIsAbove(n, ps);
    FirstIsPrime(n, ps);
    forall y | m < y <= x - 1 ensures !IsPrime(y) {
      if y >= 2 {
        BeforeFirst(2, n, ps, y);
      }
      NoPrimeBetween(ps, y);
    }
    PrimesSkip(m, x - 1);
    assert LastOf(ps + [x]) == x;
  }

  lemma NoPrimeBetween(ps: seq<int>, y: int)
    requires PrimeList(ps) && LastOf(ps) < y && (HasDivisor(ps, y) || y < 2)
    ensures !IsPrime(y)
  {
    if y >= 2 {
      var q :| q in ps && Divides(q, y);
      PrimesMembers(LastOf(ps), q);
    }
  }

  lemma DivisorSnoc(ps: seq<int>, p: int, x: int)
    ensures HasDivisor(ps + [p], x) <==> HasDivisor(ps, x) || Divides(p, x)
  {
    assert p in ps + [p];
  }

  /** One more prime removes its multiples. */
  lemma {:induction false} SievedSift(a: int, n: int, ps: seq<int>, p: int)
    ensures LeftFrom(a, n, ps + [p]) == Sift(p, LeftFrom(a, n, ps))
    decreases n - a
  {
    if a <= n {
      SievedSift(a + 1, n, ps, p);
      DivisorSnoc(ps, p, a);
    }
  }

  /** When nothing is left over, all primes have been listed. */
  lemma NothingLeft(n: int, ps: seq<int>)
    requires PrimeList(ps) && Sieved(n, ps) == None && (ps != [] ==> LastOf(ps) <= n)
    ensures ps == PrimesUpTo(n)
  {
    var m := LastOf(ps);
    if m <= n {
      forall y | m < y <= n ensures !IsPrime(y) {
        if y >= 2 {
          BeforeFirst(2, n, ps, y);
        }
        NoPrimeBetween(ps, y);
      }
      PrimesSkip(m, n);
    }
  }

  lemma {:induction false} PrimesPrefix(m: int, n: int)
    requires m <= n
    ensures PrimesUpTo(m) <= PrimesUpTo(n)
    decreases n - m
  {
    if m < n {
      PrimesPrefix(m, n - 1);
    }
  }

  lemma {:induction false} PrimesCount(n: int)
    ensures |PrimesUpTo(n)| <= if n < 2 then 0 else n - 1
    decreases n
  {
    if n >= 2 {
      PrimesCount(n - 1);
    }
  }

  // ---------- steps ----------

  predicate SameHeld(g: Stage, h: Stage) {
    g.Holding? == h.Holding? && (g.Holding? ==> g.x == h.x)
  }

  /** A change before pipe i that leaves what comes out of it alone is not seen later. */
  lemma {:induction false} RestSame(s: Net, n: Net, i: nat, j: nat)
    requires Shape(s) && Shape(n) && i <= j < |s.stages| && j < |n.stages| && j <= |s.printed| && j <= |n.printed|
    requires Rest(s, i) == Rest(n, i)
    requires forall k :: i < k <= j ==> n.pipes[k] == s.pipes[k]
    requires forall k :: i <= k < j ==> n.printed[k] == s.printed[k] && SameHeld(n.stages[k], s.stages[k])
    ensures Rest(n, j) == Rest(s, j)
    decreases j
  {
    if i < j {
      RestSame(s, n, i, j - 1);
    }
  }

  /** At end of file nothing more will come. */
  lemma {:induction false} FinishedRest(s: Net, i: nat)
    requires Chain(s) && i < |s.stages| && Finished(s, i)
    ensures i <= |s.printed| && Rest(s, i) == None
    decreases i
  {
    if i > 0 {
      assert InnerOk(s, i - 1);
      FinishedRest(s, i - 1);
    }
  }

  /** Nothing before pipe i changes what comes out of it. */
  lemma EarlierRest(s: Net, n: Net, i: nat)
    requires Chain(s) && Shape(n) && i < |s.stages| && i < |n.stages| && i <= |s.printed| && i <= |n.printed|
    requires n.next == s.next && n.limit == s.limit
    requires forall k :: 0 <= k <= i ==> n.pipes[k] == s.pipes[k]
    requires forall k :: 0 <= k < i ==> n.printed[k] == s.printed[k] && n.stages[k] == s.stages[k]
    ensures Rest(n, i) == Rest(s, i)
  {
    RestSame(s, n, 0, i);
  }

  /** Reading takes the first number off. */
  lemma ReadRest(s: Net, n: Net, i: nat)
    requires Chain(s) && Shape(n) && i < |s.stages| && i < |n.stages| && s.pipes[i] != [] && i <= |n.printed|
    requires n.pipes[i] == s.pipes[i][1..] && n.next == s.next && n.limit == s.limit
    requires forall k :: 0 <= k < i ==>
               n.pipes[k] == s.pipes[k] && k < |s.printed| && n.printed[k] == s.printed[k] && n.stages[k] == s.stages[k]
    ensures i <= |s.printed| && Rest(s, i) == More(s.pipes[i][0], Rest(n, i))
  {
    SameBehind(s, n, i);
  }

  lemma SameBehind(s: Net, n: Net, i: nat)
    requires Chain(s) && Shape(n) && i < |s.stages| && i < |n.stages| && i <= |n.printed|
    requires n.next == s.next && n.limit == s.limit
    requires forall k :: 0 <= k < i ==>
               n.pipes[k] == s.pipes[k] && k < |s.printed| && n.printed[k] == s.printed[k] && n.stages[k] == s.stages[k]
    ensures i <= |s.printed| && Behind(n, i) == Behind(s, i)
  {
    if i > 0 {
      EarlierRest(s, n, i - 1);
    }
  }

  lemma ReadKeepsRest(s: Net, n: Net, i: nat)
    requires Chain(s) && i + 1 < |s.stages| && s.stages[i].Filter? && s.pipes[i] != []
    requires Shape(n) && |n.stages| == |s.stages| && n.printed == s.printed && n.next == s.next && n.limit == s.limit
    requires n.pipes == s.pipes[i := s.pipes[i][1..]] && (forall k :: 0 <= k < i ==> n.stages[k] == s.stages[k])
    requires var p, x := s.printed[i], s.pipes[i][0];
             n.stages[i] == if Divides(p, x) then Filter(p) else Holding(p, x)
    ensures Rest(n, i + 1) == Rest(s, i + 1)
  {
    var p, x, r := s.printed[i], s.pipes[i][0], Rest(n, i);
    ReadRest(s, n, i);
    assert Behind(s, i + 1) == Sift(p, More(x, r));
    assert Behind(n, i + 1) == Sift(p, WithHeld(n.stages[i], r));
  }

  lemma WriteKeepsRest(s: Net, i: nat)
    requires Chain(s) && i + 1 < |s.stages| && Enabled(s, Step(i)) && s.stages[i].Holding?
    ensures var n := Next(s, Step(i));
      Shape(n) && |n.stages| == |s.stages| && n.printed == s.printed && Rest(n, i + 1) == Rest(s, i + 1)
  {
    var n := Next(s, Step(i));
    assert InnerOk(s, i);
    var p, x, r := s.printed[i], s.stages[i].x, Rest(s, i);
    EarlierRest(s, n, i);
    assert Behind(s, i + 1) == More(x, Sift(p, r));
    assert Behind(n, i + 1) == Sift(p, r);
    QueueSnoc(s.pipes[i + 1], x, Sift(p, r));
  }

  // ---------- every step keeps the invariant ----------

  /** What is left for the last stage does not change while other processes work. */
  lemma LastKeeps(s: Net, n: Net)
    requires Inv(s) && Shape(n) && |n.stages| == |s.stages| && n.printed == s.printed && n.limit == s.limit
    requires n.stages[|s.stages| - 1] == s.stages[|s.stages| - 1] && Rest(n, |s.stages| - 1) == Rest(s, |s.stages| - 1)
    requires Finished(s, |s.stages| - 1) ==> Finished(n, |s.stages| - 1)
    ensures LastOk(n)
  {
    assert Base(n) == Base(s);
  }

  lemma GeneratorInv(s: Net, ev: Event)
    requires Inv(s) && !ev.Step? && Enabled(s, ev)
    ensures Inv(Next(s, ev))
  {
    var n := Next(s, ev);
    var last := |s.stages| - 1;
    if ev.Generate? {
      QueueSnoc(s.pipes[0], s.next, From(s.next + 1, s.limit));
    }
    assert Rest(n, 0) == Rest(s, 0);
    RestSame(s, n, 0, last);
    forall i | 0 <= i < last ensures InnerOk(n, i) {
      assert InnerOk(s, i);
    }
    LastKeeps(s, n);
  }

  lemma InnerKeeps(s: Net, i: nat, j: nat)
    requires Chain(s) && i + 1 < |s.stages| && Enabled(s, Step(i)) && j < |s.stages|
    ensures var n := Next(s, Step(i));
      && Shape(n) && |n.stages| == |s.stages|
      && (j + 1 < |s.stages| ==> InnerOk(n, j)) && (Finished(s, j) ==> Finished(n, j))
  {
    assert InnerOk(s, i);
    assert j + 1 < |s.stages| ==> InnerOk(s, j);
  }

  lemma InnerRest(s: Net, i: nat)
    requires Chain(s) && i + 1 < |s.stages| && Enabled(s, Step(i))
    ensures var n := Next(s, Step(i));
      Shape(n) && |n.stages| == |s.stages| && n.printed == s.printed && Rest(n, i + 1) == Rest(s, i + 1)
  {
    assert InnerOk(s, i);
    if s.stages[i].Filter? && s.pipes[i] != [] {
      ReadKeepsRest(s, Next(s, Step(i)), i);
    } else if s.stages[i].Holding? {
      WriteKeepsRest(s, i);
    } else {
      EarlierRest(s, Next(s, Step(i)), i);
    }
  }

  lemma InnerLast(s: Net, i: nat)
    requires Chain(s) && i + 1 < |s.stages| && Enabled(s, Step(i))
    ensures var n, last := Next(s, Step(i)), |s.stages| - 1;
      && Shape(n) && |n.stages| == |s.stages| && n.printed == s.printed && n.limit == s.limit
      && n.stages[last] == s.stages[last] && Rest(n, last) == Rest(s, last) && (Finished(s, last) ==> Finished(n, last))
  {
    var last := |s.stages| - 1;
    InnerFrame(s, i);
    assert Rest(Next(s, Step(i)), last) == Rest(s, last) by {
      InnerRest(s, i);
      RestSame(s, Next(s, Step(i)), i + 1, last);
    }
    InnerKeeps(s, i, last);
  }

  /** Beyond the pipe it writes to, a stage changes nothing. */
  lemma InnerFrame(s: Net, i: nat)
    requires Chain(s) && i + 1 < |s.stages| && Enabled(s, Step(i))
    ensures var n := Next(s, Step(i));
      && Shape(n) && |n.stages| == |s.stages| && n.printed == s.printed && n.limit == s.limit
      && (forall k :: i + 1 < k < |s.stages| ==> n.pipes[k] == s.pipes[k])
      && (forall k :: i < k < |s.stages| ==> n.stages[k] == s.stages[k])
  {
    assert InnerOk(s, i);
  }

  lemma InnerChain(s: Net, i: nat)
    requires Chain(s) && i + 1 < |s.stages| && Enabled(s, Step(i))
    ensures Chain(Next(s, Step(i)))
  {
    var n := Next(s, Step(i));
    forall j | 0 <= j < |s.stages| - 1 ensures Shape(n) && j < |n.stages| && InnerOk(n, j) {
      InnerKeeps(s, i, j);
    }
  }

  lemma InnerInv(s: Net, i: nat)
    requires Inv(s) && i + 1 < |s.stages| && Enabled(s, Step(i))
    ensures Inv(Next(s, Step(i)))
  {
    InnerChain(s, i);
    InnerLast(s, i);
    LastKeeps(s, Next(s, Step(i)));
  }

  /** The last stage reads the first number left over, which is the next prime. */
  lemma ReadPrimeInv(s: Net, i: nat)
    requires Inv(s) && i + 1 == |s.stages| && s.stages[i].Start? && s.pipes[i] != []
    ensures Inv(Next(s, Step(i)))
  {
    var n := Next(s, Step(i));
    ReadRest(s, n, i);
    assert Base(s) == s.printed && Base(n) == s.printed;
    assert Rest(s, i) == Sieved(s.limit, s.printed);
    FirstLeftIsNext(s.limit, s.printed);
    FirstIsAbove(s.limit, s.printed);
    forall j | 0 <= j < i ensures InnerOk(n, j) {
      assert InnerOk(s, j);
    }
  }

  lemma AnnounceInv(s: Net, i: nat)
    requires Inv(s) && i + 1 == |s.stages| && s.stages[i].Got?
    ensures Inv(Next(s, Step(i)))
  {
    var n := Next(s, Step(i));
    assert Base(s) == s.printed && Base(n) == s.printed;
    EarlierRest(s, n, i);
    forall j | 0 <= j < i ensures InnerOk(n, j) {
      assert InnerOk(s, j);
    }
  }

  /** The new stage is due what the numbers left over lose to the prime before it. */
  lemma ForkRest(s: Net, n: Net, i: nat, p: int)
    requires Chain(s) && Shape(n) && i + 1 == |s.stages| && |n.stages| == i + 2
    requires n.next == s.next && n.limit == s.limit
    requires n.stages[i] == Filter(p) && n.pipes == s.pipes + [[]]
    requires s.stages[i] == Announced(p) && |s.printed| == i + 1 && s.printed[i] == p && n.printed == s.printed
    requires forall k :: 0 <= k < i ==> n.stages[k] == s.stages[k]
    requires p >= 2 && More(p, Rest(s, i)) == Sieved(s.limit, Base(s))
    ensures Rest(n, i + 1) == Sieved(s.limit, n.printed)
  {
    EarlierRest(s, n, i);
    assert Base(s) + [p] == s.printed;
    SievedSift(2, s.limit, Base(s), p);
    assert Divides(p, p) by {
      DividesIsRemainder(p, p);
    }
    assert Behind(n, i + 1) == Sift(p, Rest(n, i));
  }

  lemma ForkInv(s: Net, i: nat)
    requires Inv(s) && i + 1 == |s.stages| && s.stages[i].Announced?
    ensures Inv(Next(s, Step(i)))
  {
    var n := Next(s, Step(i));
    var p := s.stages[i].p;
    assert LastOf(s.printed) == p && p in s.printed;
    PrimesMembers(p, p);
    ForkRest(s, n, i, p);
    assert Base(n) == n.printed;
    forall j | 0 <= j < i + 1 ensures InnerOk(n, j) {
      assert j < i ==> InnerOk(s, j);
    }
  }

  lemma EndInv(s: Net, i: nat)
    requires Inv(s) && i + 1 == |s.stages| && s.stages[i].Start? && Finished(s, i)
    ensures Inv(Next(s, Step(i)))
  {
    var n := Next(s, Step(i));
    forall j | 0 <= j < i ensures InnerOk(n, j) {
      assert InnerOk(s, j);
    }
    assert Rest(n, i) == Rest(s, i) by {
      EarlierRest(s, n, i);
    }
    assert Base(n) == Base(s) == s.printed;
  }

  lemma NextInv(s: Net, ev: Event)
    requires Inv(s) && Enabled(s, ev)
    ensures Inv(Next(s, ev))
  {
    if !ev.Step? {
      GeneratorInv(s, ev);
    } else if ev.i + 1 < |s.stages| {
      InnerInv(s, ev.i);
    } else {
      match s.stages[ev.i]
      case Start => if s.pipes[ev.i] != [] { ReadPrimeInv(s, ev.i); } else { EndInv(s, ev.i); }
      case Got(_) => AnnounceInv(s, ev.i);
      case Announced(_) => ForkInv(s, ev.i);
      case _ =>
    }
  }

  lemma InitialInv(limit: int, cap: nat)
    requires cap >= 1
    ensures Inv(Initial(limit, cap))
  {
    var s := Initial(limit, cap);
    FromIsLeft(2, limit);
    assert PrimesUpTo(1) == [];
    assert Base(s) == [];
  }

  lemma {:induction false} FromIsLeft(a: int, n: int)
    ensures From(a, n) == LeftFrom(a, n, [])
    decreases n - a
  {
    if a <= n {
      FromIsLeft(a + 1, n);
    }
  }

  // ---------- no deadlock ----------

  predicate AllDone(s: Net) {
    !s.open && forall i :: 0 <= i < |s.stages| ==> s.stages[i].Done?
  }

  /** If stage i is waiting for a number, some process can work: the wait leads back to
      a process that can write, as the pipes between are empty. */
  lemma {:induction false} WaitLeadsBack(s: Net, i: nat) returns (ev: Event)
    requires Chain(s) && i < |s.stages| && s.pipes[i] == [] && WriterOpen(s, i)
    ensures Enabled(s, ev)
    decreases i
  {
    if i == 0 {
      ev := if s.next <= s.limit then Generate else CloseInput;
    } else {
      assert InnerOk(s, i - 1);
      if s.stages[i - 1].Holding? || Readable(s, i - 1) {
        ev := Step(i - 1);
      } else {
        ev := WaitLeadsBack(s, i - 1);
      }
    }
  }

  /** Before a stage that has ended every stage has closed its pipes. */
  lemma {:induction false} ClosedBefore(s: Net, i: nat, j: nat)
    requires Chain(s) && j <= i < |s.stages| && Finished(s, i)
    ensures Finished(s, j)
    decreases i
  {
    if j < i {
      assert InnerOk(s, i - 1);
      ClosedBefore(s, i - 1, j);
    }
  }

  /** The last stage that has not ended can, once the one after it has. */
  lemma {:induction false} WaitersEnd(s: Net, i: nat) returns (ev: Event)
    requires Chain(s) && i < |s.stages| && Finished(s, i) && !AllDone(s)
    requires forall k :: i <= k < |s.stages| ==> s.stages[k].Done?
    ensures Enabled(s, ev)
    decreases i
  {
    ClosedBefore(s, i, 0);
    ev := CloseInput;
    if i == 0 {
      assert false;
    } else {
      assert InnerOk(s, i - 1);
      if s.stages[i - 1].Waiting? {
        ev := Step(i - 1);
      } else {
        ClosedBefore(s, i, i - 1);
        ev := WaitersEnd(s, i - 1);
      }
    }
  }

  /** With pipes of any positive capacity, some process can work until all have ended. */
  lemma NoDeadlock(s: Net) returns (ev: Event)
    requires Inv(s) && !AllDone(s)
    ensures Enabled(s, ev)
  {
    var last := |s.stages| - 1;
    var g := s.stages[last];
    if g.Got? || g.Announced? || (g.Start? && Readable(s, last)) {
      ev := Step(last);
    } else if g.Start? {
      ev := WaitLeadsBack(s, last);
    } else {
      ev := WaitersEnd(s, last);
    }
  }

  // ---------- every run ends ----------

  /** The stages there can be. */
  function Most(s: Net): nat {
    if s.limit < 2 then 1 else s.limit
  }

  lemma StagesBounded(s: Net)
    requires Inv(s)
    ensures |s.stages| <= Most(s)
    ensures s.stages[|s.stages| - 1].Announced? ==> |s.stages| < Most(s)
  {
    var ps := Found(s);
    PrimesCount(LastOf(ps));
    assert |ps| <= if LastOf(ps) < 2 then 0 else LastOf(ps) - 1;
  }

  /** How far a stage is from its end, but for the numbers it handles. */
  function Life(g: Stage): nat {
    match g
    case Start => 5
    case Got(_) => 4
    case Announced(_) => 3
    case Filter(_) => 2
    case Holding(_, _) => 2
    case Waiting => 1
    case Done => 0
  }

  function Times(w: nat, n: nat): nat {
    w * n
  }

  lemma TimesOne(w: nat, n: nat)
    ensures Times(w, n + 1) == Times(w, n) + w && Times(w, 0) == 0 && Times(w, 1) == w
  {
  }

  /** The work left at stage i: a number in its pipe may still be read and written once
      by it and by each later stage. */
  function StageWork(s: Net, i: nat): nat
    requires Shape(s) && i < |s.stages| <= Most(s)
  {
    var w := 2 * (Most(s) - i);
    Life(s.stages[i]) + Times(w, |s.pipes[i]|) + Times(w - 1, |Held(s.stages[i])|)
  }

  function Work(s: Net, k: nat): nat
    requires Shape(s) && k <= |s.stages| <= Most(s)
  {
    if k == 0 then 0 else Work(s, k - 1) + StageWork(s, k - 1)
  }

  function ToGenerate(s: Net): nat {
    (if s.open then 1 else 0) + Times(2 * Most(s) + 1, if s.next <= s.limit then s.limit + 1 - s.next else 0)
  }

  function Measure(s: Net): nat
    requires Shape(s) && |s.stages| <= Most(s)
  {
    ToGenerate(s) + Work(s, |s.stages|) + 6 * (Most(s) - |s.stages|)
  }

  /** A change at one stage changes the work by what it changes there. */
  lemma {:induction false} WorkOne(s: Net, n: Net, i: nat, k: nat)
    requires Shape(s) && Shape(n) && i < |s.stages| <= |n.stages| <= Most(s) && k <= |s.stages| && n.limit == s.limit
    requires forall j :: 0 <= j < |s.stages| && j != i ==> n.stages[j] == s.stages[j] && n.pipes[j] == s.pipes[j]
    ensures Work(n, k) == Work(s, k) + if i < k then StageWork(n, i) - StageWork(s, i) else 0
    decreases k
  {
    if k > 0 {
      WorkOne(s, n, i, k - 1);
    }
  }

  lemma GenerateWorks(s: Net)
    requires Shape(s) && Enabled(s, Generate) && |s.stages| <= Most(s)
    ensures Measure(Next(s, Generate)) < Measure(s)
  {
    var n := Next(s, Generate);
    WorkOne(s, n, 0, |s.stages|);
    TimesOne(2 * Most(s), |s.pipes[0]|);
    TimesOne(2 * Most(s) + 1, s.limit - s.next);
  }

  lemma CloseWorks(s: Net)
    requires Shape(s) && Enabled(s, CloseInput) && |s.stages| <= Most(s)
    ensures Measure(Next(s, CloseInput)) < Measure(s)
  {
    WorkOne(s, Next(s, CloseInput), 0, |s.stages|);
  }

  /** A read, a print or an end only changes its own stage. */
  lemma OwnWorks(s: Net, i: nat)
    requires Shape(s) && Enabled(s, Step(i)) && |s.stages| <= Most(s)
    requires !s.stages[i].Announced? && !s.stages[i].Holding?
    ensures |Next(s, Step(i)).stages| == |s.stages| && Measure(Next(s, Step(i))) < Measure(s)
  {
    WorkOne(s, Next(s, Step(i)), i, |s.stages|);
    OwnStageWorks(s, i);
  }

  lemma OwnStageWorks(s: Net, i: nat)
    requires Shape(s) && Enabled(s, Step(i)) && |s.stages| <= Most(s)
    requires !s.stages[i].Announced? && !s.stages[i].Holding?
    ensures |Next(s, Step(i)).stages| == |s.stages| && Most(Next(s, Step(i))) == Most(s)
    ensures StageWork(Next(s, Step(i)), i) < StageWork(s, i)
  {
    var w := 2 * (Most(s) - i);
    TimesOne(w - 1, 0);
    if s.pipes[i] != [] {
      TimesOne(w, |s.pipes[i]| - 1);
    }
  }

  lemma WriteWorks(s: Net, i: nat)
    requires Shape(s) && Enabled(s, Step(i)) && |s.stages| <= Most(s) && s.stages[i].Holding?
    ensures |Next(s, Step(i)).stages| == |s.stages| && Measure(Next(s, Step(i))) < Measure(s)
  {
    var n := Next(s, Step(i));
    var w := 2 * (Most(s) - i);
    var mid := SetStage(s, i, Filter(s.stages[i].p));
    WorkOne(s, mid, i, |s.stages|);
    WorkOne(mid, n, i + 1, |s.stages|);
    TimesOne(w - 1, 0);
    TimesOne(w - 2, |s.pipes[i + 1]|);
  }

  lemma ForkWorks(s: Net, i: nat)
    requires Shape(s) && Enabled(s, Step(i)) && |s.stages| < Most(s) && s.stages[i].Announced?
    ensures |Next(s, Step(i)).stages| == |s.stages| + 1 && Measure(Next(s, Step(i))) < Measure(s)
  {
    var n := Next(s, Step(i));
    WorkOne(s, n, i, |s.stages|);
    TimesOne(2 * (Most(s) - i), 0);
    TimesOne(2 * (Most(s) - i) - 1, 0);
    TimesOne(2 * (Most(s) - (i + 1)), 0);
    TimesOne(2 * (Most(s) - (i + 1)) - 1, 0);
  }

  lemma StepBounded(s: Net, ev: Event)
    requires Inv(s) && Enabled(s, ev)
    ensures |s.stages| <= Most(s) && Shape(Next(s, ev)) && |Next(s, ev).stages| <= Most(Next(s, ev))
    ensures ev.Step? && s.stages[ev.i].Announced? ==> |s.stages| < Most(s)
  {
    StagesBounded(s);
    NextInv(s, ev);
    StagesBounded(Next(s, ev));
  }

  /** Every step uses up work. */
  lemma StepWorks(s: Net, ev: Event)
    requires Inv(s) && Enabled(s, ev)
    ensures |s.stages| <= Most(s) && Shape(Next(s, ev)) && |Next(s, ev).stages| <= Most(Next(s, ev))
    ensures Measure(Next(s, ev)) < Measure(s)
  {
    StepBounded(s, ev);
    if ev.Generate? {
      GenerateWorks(s);
    } else if ev.CloseInput? {
      CloseWorks(s);
    } else if s.stages[ev.i].Announced? {
      ForkWorks(s, ev.i);
    } else if s.stages[ev.i].Holding? {
      WriteWorks(s, ev.i);
    } else {
      OwnWorks(s, ev.i);
    }
  }

  // ---------- whole runs ----------

  ghost predicate Run(s: Net, trace: seq<Event>, n: Net)
    decreases |trace|
  {
    if trace == [] then n == s else Shape(s) && Enabled(s, trace[0]) && Run(Next(s, trace[0]), trace[1..], n)
  }

  lemma {:induction false} RunInv(s: Net, trace: seq<Event>, n: Net)
    requires Inv(s) && Run(s, trace, n)
    ensures Inv(n) && n.limit == s.limit && |s.stages| <= Most(s) && |n.stages| <= Most(n)
    ensures |trace| + Measure(n) <= Measure(s)
    decreases |trace|
  {
    StagesBounded(s);
    if trace != [] {
      NextInv(s, trace[0]);
      StepWorks(s, trace[0]);
      RunInv(Next(s, trace[0]), trace[1..], n);
    }
  }

  lemma LastPrintedBounded(s: Net)
    requires Inv(s) && s.printed != []
    ensures PrimeList(s.printed) && LastOf(s.printed) <= s.limit
  {
    var base, all := Base(s), Found(s);
    if s.stages[|s.stages| - 1].Got? {
      assert LastOf(base) in all;
      PrimesMembers(LastOf(all), LastOf(base));
    }
  }

  /** At every moment of every interleaving the sieve has printed an initial segment of
      the primes up to its limit, in order. */
  lemma {:induction false} PrintsPrimes(limit: int, cap: nat, trace: seq<Event>, n: Net)
    requires cap >= 1 && Run(Initial(limit, cap), trace, n)
    ensures n.printed <= PrimesUpTo(limit)
  {
    InitialInv(limit, cap);
    RunInv(Initial(limit, cap), trace, n);
    var ps := n.printed;
    if ps != [] {
      LastPrintedBounded(n);
      PrimesPrefix(LastOf(ps), limit);
    }
  }

  /** No run is longer than the work there is at the start, none gets stuck before all
      processes have ended, and when they have, exactly the primes up to the limit have
      been printed. */
  lemma {:induction false} SieveTerminates(limit: int, cap: nat, trace: seq<Event>, n: Net)
    requires cap >= 1 && Run(Initial(limit, cap), trace, n)
    ensures |trace| <= Measure(Initial(limit, cap))
    ensures Shape(n) && (AllDone(n) || exists ev :: Enabled(n, ev))
    ensures AllDone(n) ==> n.printed == PrimesUpTo(limit)
  {
    InitialInv(limit, cap);
    RunInv(Initial(limit, cap), trace, n);
    if AllDone(n) {
      var last := |n.stages| - 1;
      FinishedRest(n, last);
      if n.printed != [] {
        LastPrintedBounded(n);
      }
      NothingLeft(limit, n.printed);
    } else {
      var ev := NoDeadlock(n);
    }
  }

  /** Nobody writes to a pipe whose reader has closed it. */
  lemma NoBrokenPipe(s: Net, i: nat)
    requires Inv(s) && Enabled(s, Step(i)) && s.stages[i].Holding?
    ensures !s.stages[i + 1].Waiting? && !s.stages[i + 1].Done?
  {
    assert WriterOpen(s, i + 1);
    if i + 2 < |s.stages| {
      assert InnerOk(s, i + 1);
    } else {
      assert LastOk(s) && i + 1 == |s.stages| - 1;
    }
  }

  // ---------- the order in which processes end ----------

  /** A process other than the first has ended only after its child has; no pipe holds
      more than its capacity. */
  ghost predicate Ordered(s: Net)
    requires Shape(s)
  {
    EndsAfterChild(s) && PipesFit(s)
  }

  /** The processes that have ended, and the room in the pipes. */
  predicate EndsAfterChild(s: Net)
    requires Shape(s)
  {
    forall i :: 1 <= i < |s.stages| - 1 && s.stages[i].Done? ==> s.stages[i + 1].Done?
  }

  lemma StepEnds(s: Net, i: nat)
    requires Inv(s) && EndsAfterChild(s) && Enabled(s, Step(i))
    ensures Shape(DoStep(s, i)) && EndsAfterChild(DoStep(s, i))
  {
    assert i < |s.stages| - 1 ==> InnerOk(s, i);
    StagesAfter(s, i);
  }

  lemma StagesAfter(s: Net, i: nat)
    requires Shape(s) && Enabled(s, Step(i))
    ensures var n := DoStep(s, i).stages;
      && |n| == |DoStep(s, i).pipes| && |n| == (if s.stages[i].Announced? then |s.stages| + 1 else |s.stages|)
      && (forall j :: 0 <= j < |s.stages| && j != i ==> n[j] == s.stages[j])
      && (n[i].Done? <==> (s.stages[i].Start? && s.pipes[i] == []) || s.stages[i].Waiting?)
  {
  }

  predicate PipesFit(s: Net) {
    forall i :: 0 <= i < |s.pipes| ==> |s.pipes[i]| <= s.cap
  }

  lemma StepFits(s: Net, i: nat)
    requires Shape(s) && PipesFit(s) && Enabled(s, Step(i))
    ensures PipesFit(DoStep(s, i)) && DoStep(s, i).cap == s.cap
  {
  }

  lemma NextOrdered(s: Net, ev: Event)
    requires Inv(s) && Ordered(s) && Enabled(s, ev)
    ensures Shape(Next(s, ev)) && Ordered(Next(s, ev)) && Next(s, ev).cap == s.cap
  {
    if ev.Step? {
      StepEnds(s, ev.i);
      StepFits(s, ev.i);
    }
  }

  lemma {:induction false} RunOrdered(s: Net, trace: seq<Event>, n: Net)
    requires Inv(s) && Ordered(s) && Run(s, trace, n)
    ensures Shape(n) && Ordered(n) && n.cap == s.cap
    decreases |trace|
  {
    if trace != [] {
      NextOrdered(s, trace[0]);
      NextInv(s, trace[0]);
      RunOrdered(Next(s, trace[0]), trace[1..], n);
    }
  }

  /** Over every interleaving the processes after the first end from the last one back, and
      a pipe never holds more than it can. */
  lemma EndsInOrder(limit: int, cap: nat, trace: seq<Event>, n: Net)
    requires cap >= 1 && Run(Initial(limit, cap), trace, n)
    ensures Shape(n)
    ensures forall i, j :: 1 <= i <= j < |n.stages| && n.stages[i].Done? ==> n.stages[j].Done?
    ensures forall i :: 0 <= i < |n.pipes| ==> |n.pipes[i]| <= cap
  {
    InitialInv(limit, cap);
    RunOrdered(Initial(limit, cap), trace, n);
    forall i, j | 1 <= i <= j < |n.stages| && n.stages[i].Done? ensures n.stages[j].Done? {
      AllAfterDone(n, i, j);
    }
  }

  lemma {:induction false} AllAfterDone(s: Net, i: nat, j: nat)
    requires Shape(s) && Ordered(s) && 1 <= i <= j < |s.stages| && s.stages[i].Done?
    ensures s.stages[j].Done?
    decreases j - i
  {
    if i < j {
      AllAfterDone(s, i + 1, j);
    }
  }

  lemma {:induction false} RunSnoc(s: Net, trace: seq<Event>, m: Net, ev: Event)
    requires Run(s, trace, m) && Shape(m) && Enabled(m, ev)
    ensures Run(s, trace + [ev], Next(m, ev))
    decreases |trace|
  {
    if trace == [] {
      assert Run(Next(m, ev), [], Next(m, ev));
      assert ([] + [ev])[1..] == [];
    } else {
      RunSnoc(Next(s, trace[0]), trace[1..], m, ev);
      assert (trace + [ev])[1..] == trace[1..] + [ev];
    }
  }

  /** Two numbers are generated and the first is announced. */
  lemma FirstPrinted() returns (trace: seq<Event>)
    ensures Run(Initial(3, 2), trace, Net(3, 2, 4, false, [Announced(2)], [[3]], [2]))
  {
    var s := Initial(3, 2);
    assert Run(s, [], s);
    var none: seq<int> := [];
    assert none + [2] == [2] && [2] + [3] == [2, 3] && [2, 3][1..] == [3];
    RunSnoc(Initial(3, 2), [], s, Generate);
    s, trace := Next(s, Generate), [] + [Generate];
    assert s == Net(3, 2, 3, true, [Start], [[2]], []);
    RunSnoc(Initial(3, 2), trace, s, Generate);
    s, trace := Next(s, Generate), trace + [Generate];
    assert s == Net(3, 2, 4, true, [Start], [[2, 3]], []);
    RunSnoc(Initial(3, 2), trace, s, CloseInput);
    s, trace := Next(s, CloseInput), trace + [CloseInput];
    RunSnoc(Initial(3, 2), trace, s, Step(0));
    s, trace := Next(s, Step(0)), trace + [Step(0)];
    assert s == Net(3, 2, 4, false, [Got(2)], [[3]], []);
    RunSnoc(Initial(3, 2), trace, s, Step(0));
    s, trace := Next(s, Step(0)), trace + [Step(0)];
    assert s == Net(3, 2, 4, false, [Announced(2)], [[3]], [2]);
  }

  /** The first stage passes 3 on and closes its pipes. */
  lemma FirstPassesOn() returns (trace: seq<Event>)
    ensures Run(Initial(3, 2), trace, Net(3, 2, 4, false, [Filter(2), Start], [[], [3]], [2]))
  {
    trace := FirstPrinted();
    var none: seq<int> := [];
    assert none + [3] == [3] && [3][1..] == none;
    var n := Net(3, 2, 4, false, [Announced(2)], [[3]], [2]);
    RunSnoc(Initial(3, 2), trace, n, Step(0));
    n, trace := Next(n, Step(0)), trace + [Step(0)];
    assert n == Net(3, 2, 4, false, [Filter(2), Start], [[3], []], [2]);
    DividesIsRemainder(2, 3);
    RunSnoc(Initial(3, 2), trace, n, Step(0));
    n, trace := Next(n, Step(0)), trace + [Step(0)];
    assert n == Net(3, 2, 4, false, [Holding(2, 3), Start], [[], []], [2]);
    RunSnoc(Initial(3, 2), trace, n, Step(0));
    n, trace := Next(n, Step(0)), trace + [Step(0)];
    assert n == Net(3, 2, 4, false, [Filter(2), Start], [[], [3]], [2]);
  }

  /** The first process waits for one of two children, and the generator is one of them:
      with limit 3 it can have ended while 3 is not printed yet. */
  lemma FirstMayEndEarly() returns (trace: seq<Event>, n: Net)
    ensures Run(Initial(3, 2), trace, n) && Shape(n) && n.stages[0].Done? && n.printed == [2]
    ensures PrimesUpTo(3) == [2, 3] && !AllDone(n)
  {
    trace := FirstPassesOn();
    n := Net(3, 2, 4, false, [Filter(2), Start], [[], [3]], [2]);
    RunSnoc(Initial(3, 2), trace, n, Step(0));
    n, trace := Next(n, Step(0)), trace + [Step(0)];
    assert n == Net(3, 2, 4, false, [Waiting, Start], [[], [3]], [2]);
    RunSnoc(Initial(3, 2), trace, n, Step(0));
    n, trace := Next(n, Step(0)), trace + [Step(0)];
    assert n == Net(3, 2, 4, false, [Done, Start], [[], [3]], [2]);
    assert !n.stages[1].Done?;
    PrimesToThree();
  }

  lemma PrimesToThree()
    ensures PrimesUpTo(3) == [2, 3]
  {
    DividesIsRemainder(2, 3);
    assert IsPrime(2) && IsPrime(3);
    var none := PrimesUpTo(1);
    assert PrimesUpTo(3) == PrimesUpTo(2) + [3] && PrimesUpTo(2) == none + [2] && none == [];
    assert none + [2] + [3] == [2, 3];
  }
}
