/** stab_binsearch (kern/kdebug.c): a binary search over entries of several types that
    are only sorted within a type. */
module Stab {
  const SIZE := 0x1_0000_0000

  datatype Entry = Entry(kind: int, value: nat)

  /** Entry i is one of those searched for. */
  predicate Hit(stabs: seq<Entry>, kind: int, i: int) {
    0 <= i < |stabs| && stabs[i].kind == kind
  }

  /** Entries of the kind are sorted by value. */
  ghost predicate Sorted(stabs: seq<Entry>, kind: int, left: int, right: int) {
    forall i, j :: left <= i < j <= right && Hit(stabs, kind, i) && Hit(stabs, kind, j) ==>
      stabs[i].value <= stabs[j].value
  }

  ghost predicate Present(stabs: seq<Entry>, kind: int, left: int, right: int, value: int) {
    exists i :: left <= i <= right && Hit(stabs, kind, i) && stabs[i].value == value
  }

  /** After an exact match the search goes on for addr + 1, which must not be mistaken
      for the address itself and must not wrap. */
  ghost predicate Separated(stabs: seq<Entry>, kind: int, left: int, right: int, addr: nat) {
    Present(stabs, kind, left, right, addr) ==>
      !Present(stabs, kind, left, right, addr + 1) && addr + 1 < SIZE
  }

  // ---------- what the search should return ----------

  /** No entry of the kind in lo..hi. */
  ghost predicate Without(stabs: seq<Entry>, kind: int, lo: int, hi: int) {
    forall i :: lo <= i <= hi ==> !Hit(stabs, kind, i)
  }

  /** left is the last entry of the kind with a value of at most addr, and right is just
      before the next entry of the kind, or the old right. */
  ghost predicate Brackets(stabs: seq<Entry>, kind: int, addr: nat, oldRight: int, left: int, right: int) {
    && left <= right <= oldRight
    && Hit(stabs, kind, left) && stabs[left].value <= addr
    && Without(stabs, kind, left + 1, right)
    && (right < oldRight ==> Hit(stabs, kind, right + 1) && stabs[right + 1].value > addr)
  }

  /** All entries of the kind are above addr: right is just before the first of them,
      and left does not pass right. */
  ghost predicate AllAbove(stabs: seq<Entry>, kind: int, addr: nat, oldLeft: int, oldRight: int,
                           left: int, right: int) {
    && oldLeft - 1 <= right < oldRight && left == (if right < oldLeft then right else oldLeft)
    && Without(stabs, kind, oldLeft, right)
    && Hit(stabs, kind, right + 1) && stabs[right + 1].value > addr
  }

  ghost predicate Answer(stabs: seq<Entry>, kind: int, addr: nat, oldLeft: int, oldRight: int, left: int, right: int) {
    if Without(stabs, kind, oldLeft, oldRight) then left == oldLeft && right == oldLeft - 1
    else if exists i :: oldLeft <= i <= oldRight && Hit(stabs, kind, i) && stabs[i].value <= addr then
      oldLeft <= left && Brackets(stabs, kind, addr, oldRight, left, right)
    else AllAbove(stabs, kind, addr, oldLeft, oldRight, left, right)
  }

  // ---------- the search ----------

  /** The inner scan: down from m to the first entry of the kind, or below l. */
  function Earlier(stabs: seq<Entry>, kind: int, l: int, m: int): (r: int)
    requires 0 <= l <= m + 1 && m < |stabs|
    ensures l - 1 <= r <= m && Without(stabs, kind, r + 1, m) && (l <= r ==> Hit(stabs, kind, r))
    decreases m - l + 1
  {
    if m >= l && stabs[m].kind != kind then Earlier(stabs, kind, l, m - 1) else m
  }

  /** The state of the loop; *region_right always equals r. */
  datatype Turn = Turn(l: int, r: int, left: int, addr: nat, matched: bool)

  predicate InRange(stabs: seq<Entry>, t: Turn) {
    0 <= t.l <= t.r + 1 && t.r < |stabs|
  }

  /** A step on an exact match need not shrink l..r, but then the entry at l stops
      matching. */
  function Measure(stabs: seq<Entry>, kind: int, t: Turn): int {
    2 * (t.r - t.l + 1) + if t.l <= t.r && Hit(stabs, kind, t.l) && stabs[t.l].value == t.addr then 1 else 0
  }

  /** The entry that a turn looks at, or less than l. */
  function Middle(stabs: seq<Entry>, kind: int, t: Turn): (m: int)
    requires InRange(stabs, t) && t.l <= t.r
    ensures t.l - 1 <= m <= (t.l + t.r) / 2 <= t.r
    ensures Without(stabs, kind, m + 1, (t.l + t.r) / 2) && (t.l <= m ==> Hit(stabs, kind, m))
  {
    Earlier(stabs, kind, t.l, (t.l + t.r) / 2)
  }

  function Next(stabs: seq<Entry>, kind: int, t: Turn): (n: Turn)
    requires InRange(stabs, t) && t.l <= t.r
    ensures InRange(stabs, n) && 0 <= Measure(stabs, kind, n) < Measure(stabs, kind, t)
  {
    var middle := (t.l + t.r) / 2;
    var m := Middle(stabs, kind, t);
    if m < t.l then t.(l := middle + 1)
    else if stabs[m].value < t.addr then t.(l := middle + 1, left := m, matched := true)
    else if stabs[m].value > t.addr then t.(r := m - 1, matched := true)
    else t.(l := m, left := m, addr := (t.addr + 1) % SIZE, matched := true)
  }

  function Search(stabs: seq<Entry>, kind: int, t: Turn): (f: Turn)
    requires InRange(stabs, t)
    ensures InRange(stabs, f) && f.l == f.r + 1
    decreases Measure(stabs, kind, t)
  {
    if t.l > t.r then t else Search(stabs, kind, Next(stabs, kind, t))
  }

  lemma SearchNext(stabs: seq<Entry>, kind: int, t: Turn)
    requires InRange(stabs, t) && t.l <= t.r
    ensures Search(stabs, kind, t) == Search(stabs, kind, Next(stabs, kind, t))
  {
  }

  lemma NextCases(stabs: seq<Entry>, kind: int, t: Turn, m: int)
    requires InRange(stabs, t) && t.l <= t.r && m == Middle(stabs, kind, t)
    ensures m < t.l ==> Next(stabs, kind, t) == t.(l := (t.l + t.r) / 2 + 1)
    ensures m >= t.l ==>
              && m < |stabs|
              && (stabs[m].value < t.addr ==>
                   Next(stabs, kind, t) == t.(l := (t.l + t.r) / 2 + 1, left := m, matched := true))
              && (stabs[m].value > t.addr ==> Next(stabs, kind, t) == t.(r := m - 1, matched := true))
              && (stabs[m].value == t.addr ==>
                   Next(stabs, kind, t) == t.(l := m, left := m, addr := (t.addr + 1) % SIZE, matched := true))
  {
  }

  /** The final scan. */
  function Last(stabs: seq<Entry>, kind: int, left: int, l: int): int
    decreases l - left
  {
    if l > left && !Hit(stabs, kind, l) then Last(stabs, kind, left, l - 1) else l
  }

  function Finish(stabs: seq<Entry>, kind: int, f: Turn): (int, int) {
    if f.matched then (Last(stabs, kind, f.left, f.r), f.r) else (f.left, f.left - 1)
  }

  function Start(addr: nat, left: int, right: int): Turn {
    Turn(left, right, left, addr, false)
  }

  /** The whole function, for a range that need not be proper. */
  function Binsearch(stabs: seq<Entry>, kind: int, addr: nat, left: int, right: int): (int, int)
    requires 0 <= left && right < |stabs|
  {
    var t := Start(addr, left, right);
    Finish(stabs, kind, if left > right then t else Search(stabs, kind, t))
  }

  // ---------- correctness ----------

  /** Everything before l is at most addr, everything after r is above it, and left is an
      entry that is at most addr once there is one. */
  ghost predicate Narrowed(stabs: seq<Entry>, kind: int, addr: nat, left0: int, right0: int, t: Turn) {
    && 0 <= left0 <= t.l <= t.r + 1 <= right0 + 1 <= |stabs|
    && (forall i :: left0 <= i < t.l && Hit(stabs, kind, i) ==> stabs[i].value <= addr)
    && (forall i :: t.r < i <= right0 && Hit(stabs, kind, i) ==> stabs[i].value > addr)
    && (t.r < right0 ==> Hit(stabs, kind, t.r + 1))
    && (if t.left == left0 && !Hit(stabs, kind, left0) then Without(stabs, kind, left0, t.l - 1)
        else if t.left == left0 && stabs[left0].value > addr then t.l == left0
        else left0 <= t.left <= right0 && Hit(stabs, kind, t.left) && stabs[t.left].value <= addr)
    && (t.matched ==> !Without(stabs, kind, left0, right0))
    && (!t.matched ==> t.r == right0 && t.left == left0 && Without(stabs, kind, left0, t.l - 1))
  }

  /** The address the loop compares with is the original one, or the next one when no
      entry that is left has it. */
  ghost predicate Compares(stabs: seq<Entry>, kind: int, addr: nat, t: Turn) {
    t.addr == addr || (t.addr == addr + 1 && !Present(stabs, kind, t.l, t.r, addr + 1))
  }

  lemma NarrowMiss(stabs: seq<Entry>, kind: int, addr: nat, left0: int, right0: int, t: Turn, l: int)
    requires Narrowed(stabs, kind, addr, left0, right0, t) && t.l <= l <= t.r + 1 && Without(stabs, kind, t.l, l - 1)
    ensures Narrowed(stabs, kind, addr, left0, right0, t.(l := l))
  {
  }

  lemma NarrowUp(stabs: seq<Entry>, kind: int, addr: nat, left0: int, right0: int, t: Turn, m: int, l: int, now: nat)
    requires Sorted(stabs, kind, left0, right0) && Narrowed(stabs, kind, addr, left0, right0, t)
    requires t.l <= m <= t.r && Hit(stabs, kind, m) && stabs[m].value <= addr
    requires m <= l <= t.r + 1 && Without(stabs, kind, m + 1, l - 1)
    ensures Narrowed(stabs, kind, addr, left0, right0, Turn(l, t.r, m, now, true))
  {
    forall i | left0 <= i < l && Hit(stabs, kind, i) ensures stabs[i].value <= addr {
      assert i <= m;
    }
  }

  lemma NarrowDown(stabs: seq<Entry>, kind: int, addr: nat, left0: int, right0: int, t: Turn, m: int)
    requires Sorted(stabs, kind, left0, right0) && Narrowed(stabs, kind, addr, left0, right0, t)
    requires t.l <= m <= t.r && Hit(stabs, kind, m) && stabs[m].value > addr
    ensures Narrowed(stabs, kind, addr, left0, right0, t.(r := m - 1, matched := true))
  {
  }

  lemma NextUp(stabs: seq<Entry>, kind: int, addr: nat, left0: int, right0: int, t: Turn)
    requires Sorted(stabs, kind, left0, right0) && InRange(stabs, t) && t.l <= t.r
    requires Narrowed(stabs, kind, addr, left0, right0, t)
    requires var m := Middle(stabs, kind, t); m >= t.l && stabs[m].value <= addr && stabs[m].value <= t.addr
    ensures Narrowed(stabs, kind, addr, left0, right0, Next(stabs, kind, t))
  {
    var n := Next(stabs, kind, t);
    NarrowUp(stabs, kind, addr, left0, right0, t, Middle(stabs, kind, t), n.l, n.addr);
  }

  lemma NextDown(stabs: seq<Entry>, kind: int, addr: nat, left0: int, right0: int, t: Turn)
    requires Sorted(stabs, kind, left0, right0) && InRange(stabs, t) && t.l <= t.r
    requires Narrowed(stabs, kind, addr, left0, right0, t)
    requires var m := Middle(stabs, kind, t); m < t.l || (stabs[m].value > addr && stabs[m].value > t.addr)
    ensures Narrowed(stabs, kind, addr, left0, right0, Next(stabs, kind, t))
  {
    var m := Middle(stabs, kind, t);
    if m < t.l {
      NarrowMiss(stabs, kind, addr, left0, right0, t, (t.l + t.r) / 2 + 1);
    } else {
      NarrowDown(stabs, kind, addr, left0, right0, t, m);
    }
  }

  lemma NextNarrows(stabs: seq<Entry>, kind: int, addr: nat, left0: int, right0: int, t: Turn)
    requires Sorted(stabs, kind, left0, right0) && InRange(stabs, t) && t.l <= t.r
    requires Narrowed(stabs, kind, addr, left0, right0, t) && Compares(stabs, kind, addr, t)
    ensures Narrowed(stabs, kind, addr, left0, right0, Next(stabs, kind, t))
  {
    var m := Middle(stabs, kind, t);
    if m < t.l || stabs[m].value > t.addr {
      NextDown(stabs, kind, addr, left0, right0, t);
    } else {
      assert t.addr == addr + 1 && stabs[m].value == t.addr ==> Present(stabs, kind, t.l, t.r, addr + 1);
      NextUp(stabs, kind, addr, left0, right0, t);
    }
  }

  /** The turn looks at an entry with the value it compares with. */
  predicate Exact(stabs: seq<Entry>, kind: int, t: Turn)
    requires InRange(stabs, t)
  {
    t.l <= t.r && var m := Middle(stabs, kind, t); t.l <= m && stabs[m].value == t.addr
  }

  /** The first turn with an exact match, or the end of the search. */
  function Meets(stabs: seq<Entry>, kind: int, t: Turn): (f: Turn)
    requires InRange(stabs, t)
    ensures InRange(stabs, f) && f.addr == t.addr && (Exact(stabs, kind, f) || f.l == f.r + 1)
    decreases Measure(stabs, kind, t)
  {
    if t.l > t.r || Exact(stabs, kind, t) then t else Meets(stabs, kind, Next(stabs, kind, t))
  }

  lemma {:induction false} MeetsNarrows(stabs: seq<Entry>, kind: int, addr: nat, left0: int, right0: int, t: Turn)
    requires Sorted(stabs, kind, left0, right0) && InRange(stabs, t)
    requires Narrowed(stabs, kind, addr, left0, right0, t) && Compares(stabs, kind, addr, t)
    ensures Narrowed(stabs, kind, addr, left0, right0, Meets(stabs, kind, t))
    ensures Compares(stabs, kind, addr, Meets(stabs, kind, t))
    ensures Search(stabs, kind, t) == Search(stabs, kind, Meets(stabs, kind, t))
    decreases Measure(stabs, kind, t)
  {
    if t.l <= t.r && !Exact(stabs, kind, t) {
      NextNarrows(stabs, kind, addr, left0, right0, t);
      MeetsNarrows(stabs, kind, addr, left0, right0, Next(stabs, kind, t));
    }
  }

  /** An entry with the value looked for is not passed over. */
  lemma {:induction false} MeetsPresent(stabs: seq<Entry>, kind: int, left0: int, right0: int, t: Turn, i: int)
    requires Sorted(stabs, kind, left0, right0) && InRange(stabs, t) && left0 <= t.l && t.r <= right0
    requires t.l <= i <= t.r && Hit(stabs, kind, i) && stabs[i].value == t.addr
    ensures Exact(stabs, kind, Meets(stabs, kind, t))
    ensures t.l <= Meets(stabs, kind, t).l && Meets(stabs, kind, t).r <= t.r
    decreases Measure(stabs, kind, t)
  {
    if !Exact(stabs, kind, t) {
      var m := Middle(stabs, kind, t);
      assert m < t.l ==> Without(stabs, kind, t.l, (t.l + t.r) / 2);
      MeetsPresent(stabs, kind, left0, right0, Next(stabs, kind, t), i);
    }
  }

  lemma {:induction false} LastIs(stabs: seq<Entry>, kind: int, left: int, l: int)
    ensures var k := Last(stabs, kind, left, l);
      && Without(stabs, kind, k + 1, l) && k <= l
      && (l >= left ==> k >= left && (k > left ==> Hit(stabs, kind, k))) && (l <= left ==> k == l)
    decreases l - left
  {
    if l > left && !Hit(stabs, kind, l) {
      LastIs(stabs, kind, left, l - 1);
    }
  }

  lemma FinalAbove(stabs: seq<Entry>, kind: int, addr: nat, left0: int, right0: int, f: Turn)
    requires Narrowed(stabs, kind, addr, left0, right0, f) && f.l == f.r + 1 && f.matched
    requires forall i :: left0 <= i <= right0 && Hit(stabs, kind, i) ==> stabs[i].value > addr
    ensures AllAbove(stabs, kind, addr, left0, right0, Last(stabs, kind, f.left, f.r), f.r)
  {
    LastIs(stabs, kind, f.left, f.r);
    assert f.left == left0;
    assert Without(stabs, kind, left0, f.r);
    var i :| left0 <= i <= right0 && Hit(stabs, kind, i);
    assert f.r < right0;
  }

  lemma FinalBrackets(stabs: seq<Entry>, kind: int, addr: nat, left0: int, right0: int, f: Turn, i: int)
    requires Narrowed(stabs, kind, addr, left0, right0, f) && f.l == f.r + 1 && f.matched
    requires left0 <= i <= right0 && Hit(stabs, kind, i) && stabs[i].value <= addr
    ensures left0 <= Last(stabs, kind, f.left, f.r)
    ensures Brackets(stabs, kind, addr, right0, Last(stabs, kind, f.left, f.r), f.r)
  {
    LastIs(stabs, kind, f.left, f.r);
    assert i <= f.r;
    assert Hit(stabs, kind, f.left) && stabs[f.left].value <= addr;
  }

  lemma FinalAnswer(stabs: seq<Entry>, kind: int, addr: nat, left0: int, right0: int, f: Turn)
    requires Narrowed(stabs, kind, addr, left0, right0, f) && f.l == f.r + 1
    ensures Answer(stabs, kind, addr, left0, right0, Finish(stabs, kind, f).0, Finish(stabs, kind, f).1)
  {
    if f.matched {
      if i :| left0 <= i <= right0 && Hit(stabs, kind, i) && stabs[i].value <= addr {
        FinalBrackets(stabs, kind, addr, left0, right0, f, i);
      } else {
        FinalAbove(stabs, kind, addr, left0, right0, f);
      }
    }
  }

  /** The turn after the address was first met. */
  function AfterMatch(stabs: seq<Entry>, kind: int, addr: nat, left: int, right: int): (t: Turn)
    requires 0 <= left <= right < |stabs| && Exact(stabs, kind, Meets(stabs, kind, Start(addr, left, right)))
    ensures InRange(stabs, t) && t.addr == (addr + 1) % SIZE
  {
    Next(stabs, kind, Meets(stabs, kind, Start(addr, left, right)))
  }

  /** When the address is first met the search goes straight on. */
  ghost predicate Straight(stabs: seq<Entry>, kind: int, addr: nat, left: int, right: int)
    requires 0 <= left && right < |stabs|
  {
    left <= right && Exact(stabs, kind, Meets(stabs, kind, Start(addr, left, right))) ==>
      StraightOn(stabs, kind, addr, AfterMatch(stabs, kind, addr, left, right))
  }

  /** No entry for the successor is left to search; or the successor is the largest
      address, and the entry for it that is met lies just above an entry of the kind with
      a value of at most addr, so that the wrap to 0 leads back to that one. */
  ghost predicate StraightOn(stabs: seq<Entry>, kind: int, addr: nat, t: Turn)
    requires InRange(stabs, t)
  {
    && addr + 1 < SIZE
    && (|| !Present(stabs, kind, t.l, t.r, addr + 1)
        || (addr + 2 == SIZE && LeadsBack(stabs, kind, addr, Meets(stabs, kind, t))))
  }

  predicate LeadsBack(stabs: seq<Entry>, kind: int, addr: nat, t: Turn)
    requires InRange(stabs, t)
  {
    Exact(stabs, kind, t) &&
    LowBefore(stabs, kind, addr, Middle(stabs, kind, t))
  }

  predicate LowBefore(stabs: seq<Entry>, kind: int, addr: nat, m: int) {
    Hit(stabs, kind, m - 1) && stabs[m - 1].value <= addr
  }

  /** Turn t comes just after the address was met for the first time. */
  ghost predicate Matched(stabs: seq<Entry>, kind: int, addr: nat, left0: int, right0: int, t: Turn) {
    && Narrowed(stabs, kind, addr, left0, right0, t) && InRange(stabs, t) && t.matched
    && t.l <= t.r && t.left == t.l && Hit(stabs, kind, t.l) && stabs[t.l].value == addr
  }

  lemma FirstMatch(stabs: seq<Entry>, kind: int, addr: nat, left: int, right: int)
    requires 0 <= left <= right < |stabs| && Sorted(stabs, kind, left, right)
    requires Exact(stabs, kind, Meets(stabs, kind, Start(addr, left, right)))
    ensures Matched(stabs, kind, addr, left, right, AfterMatch(stabs, kind, addr, left, right))
    ensures Binsearch(stabs, kind, addr, left, right)
         == Finish(stabs, kind, Search(stabs, kind, AfterMatch(stabs, kind, addr, left, right)))
  {
    MeetsNarrows(stabs, kind, addr, left, right, Start(addr, left, right));
    NextNarrows(stabs, kind, addr, left, right, Meets(stabs, kind, Start(addr, left, right)));
  }

  // ---------- a second match ----------

  /** Past an entry m above the address: the search does not come back. */
  predicate Past(t: Turn, m: int, value: nat) {
    m <= t.l && m <= t.left && m <= t.r && (t.addr > value || t.l > m)
  }

  lemma {:induction false} StaysPast(stabs: seq<Entry>, kind: int, left0: int, right0: int, t: Turn, m: int)
    requires Sorted(stabs, kind, left0, right0) && InRange(stabs, t) && left0 <= m && t.r <= right0
    requires Hit(stabs, kind, m) && Past(t, m, stabs[m].value) && t.left <= right0
    ensures var f := Search(stabs, kind, t); m <= f.left <= right0 && m <= f.r <= right0
    decreases Measure(stabs, kind, t)
  {
    if t.l <= t.r {
      var n := Next(stabs, kind, t);
      NextPast(stabs, kind, left0, right0, t, m);
      StaysPast(stabs, kind, left0, right0, n, m);
    }
  }

  lemma NextPast(stabs: seq<Entry>, kind: int, left0: int, right0: int, t: Turn, m: int)
    requires Sorted(stabs, kind, left0, right0) && InRange(stabs, t) && left0 <= m && t.l <= t.r <= right0
    requires Hit(stabs, kind, m) && Past(t, m, stabs[m].value) && t.left <= right0
    ensures var n := Next(stabs, kind, t); Past(n, m, stabs[m].value) && n.r <= right0 && n.left <= right0
  {
  }

  lemma LooksAtLeft(stabs: seq<Entry>, kind: int, t: Turn)
    requires InRange(stabs, t) && t.l <= t.r && Hit(stabs, kind, t.l)
    ensures t.l <= Middle(stabs, kind, t) < |stabs|
  {
    assert t.l <= (t.l + t.r) / 2;
  }

  /** Compared with 0, everything is above: the search falls back to just before l. */
  lemma {:induction false} FallsBack(stabs: seq<Entry>, kind: int, left0: int, right0: int, t: Turn)
    requires Sorted(stabs, kind, left0, right0) && InRange(stabs, t) && left0 <= t.l && t.r <= right0
    requires t.addr == 0 && Hit(stabs, kind, t.l) && stabs[t.l].value > 0 && t.left == t.l && t.matched
    ensures Finish(stabs, kind, Search(stabs, kind, t)) == (t.l - 1, t.l - 1)
    decreases Measure(stabs, kind, t)
  {
    if t.l <= t.r {
      var m := Middle(stabs, kind, t);
      LooksAtLeft(stabs, kind, t);
      assert stabs[m].value >= stabs[t.l].value;
      FallsBack(stabs, kind, left0, right0, Next(stabs, kind, t));
    }
  }

  /** An entry above addr is answered for an address that is present. */
  lemma AboveIsWrong(stabs: seq<Entry>, kind: int, addr: nat, left0: int, right0: int, m: int, left: int, right: int)
    requires Sorted(stabs, kind, left0, right0) && Present(stabs, kind, left0, right0, addr)
    requires left0 <= m <= left && right <= right0 && Hit(stabs, kind, m) && stabs[m].value > addr
    ensures !Answer(stabs, kind, addr, left0, right0, left, right)
  {
    var i :| left0 <= i <= right0 && Hit(stabs, kind, i) && stabs[i].value == addr;
    assert !Brackets(stabs, kind, addr, right0, left, right);
  }

  lemma SecondTurn(stabs: seq<Entry>, kind: int, addr: nat, left: int, right: int, t: Turn) returns (n: Turn)
    requires Sorted(stabs, kind, left, right) && Matched(stabs, kind, addr, left, right, t)
    requires t.addr == addr + 1 < SIZE && Present(stabs, kind, t.l, t.r, addr + 1)
    ensures Exact(stabs, kind, Meets(stabs, kind, t)) && n.l == Middle(stabs, kind, Meets(stabs, kind, t))
    ensures InRange(stabs, n) && n.left == n.l && n.matched && n.addr == (addr + 2) % SIZE
    ensures t.l <= n.l <= n.r <= right && Hit(stabs, kind, n.l) && stabs[n.l].value == addr + 1
    ensures Search(stabs, kind, t) == Search(stabs, kind, n)
  {
    var i :| t.l <= i <= t.r && Hit(stabs, kind, i) && stabs[i].value == addr + 1;
    MeetsPresent(stabs, kind, left, right, t, i);
    MeetsSearch(stabs, kind, t);
    n := MatchTurn(stabs, kind, Meets(stabs, kind, t));
  }

  /** The successor is met after the address, by entry n.l, and the search goes on in n. */
  lemma SecondMatch(stabs: seq<Entry>, kind: int, addr: nat, left: int, right: int, t: Turn) returns (n: Turn)
    requires Sorted(stabs, kind, left, right) && Matched(stabs, kind, addr, left, right, t)
    requires t.addr == addr + 1 < SIZE && Present(stabs, kind, t.l, t.r, addr + 1)
    ensures Exact(stabs, kind, Meets(stabs, kind, t)) && n.l == Middle(stabs, kind, Meets(stabs, kind, t))
    ensures InRange(stabs, n) && n.left == n.l && n.matched
    ensures n.addr == if addr + 2 == SIZE then 0 else addr + 2
    ensures left <= t.l < n.l <= n.r <= right && Hit(stabs, kind, n.l) && stabs[n.l].value == addr + 1
    ensures Search(stabs, kind, t) == Search(stabs, kind, n)
  {
    n := SecondTurn(stabs, kind, addr, left, right, t);
    Differ(stabs, t.l, n.l);
    Successor(addr + 1);
  }

  lemma Successor(a: nat)
    requires a < SIZE
    ensures (a + 1) % SIZE == if a + 1 == SIZE then 0 else a + 1
  {
  }

  lemma Differ(stabs: seq<Entry>, i: int, j: int)
    requires 0 <= i < |stabs| && 0 <= j < |stabs| && stabs[i].value != stabs[j].value
    ensures i != j
  {
  }

  lemma MatchTurn(stabs: seq<Entry>, kind: int, t: Turn) returns (n: Turn)
    requires InRange(stabs, t) && Exact(stabs, kind, t)
    ensures InRange(stabs, n) && Search(stabs, kind, t) == Search(stabs, kind, n)
    ensures n.l == n.left == Middle(stabs, kind, t) && n.r == t.r && n.addr == (t.addr + 1) % SIZE && n.matched
    ensures t.l <= n.l <= n.r && Hit(stabs, kind, n.l) && stabs[n.l].value == t.addr
  {
    n := Next(stabs, kind, t);
    SearchNext(stabs, kind, t);
    NextCases(stabs, kind, t, Middle(stabs, kind, t));
  }

  lemma {:induction false} MeetsSearch(stabs: seq<Entry>, kind: int, t: Turn)
    requires InRange(stabs, t)
    ensures Search(stabs, kind, t) == Search(stabs, kind, Meets(stabs, kind, t))
    decreases Measure(stabs, kind, t)
  {
    if t.l <= t.r && !Exact(stabs, kind, t) {
      MeetsSearch(stabs, kind, Next(stabs, kind, t));
    }
  }

  /** The address is the largest one. */
  lemma WrapsAtOnce(stabs: seq<Entry>, kind: int, addr: nat, left: int, right: int, t: Turn)
    requires Sorted(stabs, kind, left, right) && Matched(stabs, kind, addr, left, right, t)
    requires addr + 1 == SIZE && t.addr == 0
    ensures var a := Finish(stabs, kind, Search(stabs, kind, t)); !Answer(stabs, kind, addr, left, right, a.0, a.1)
  {
    FallsBack(stabs, kind, left, right, t);
    assert !Brackets(stabs, kind, addr, right, t.l - 1, t.l - 1);
  }

  lemma EndsBefore(stabs: seq<Entry>, kind: int, addr: nat, left: int, right: int, t: Turn) returns (m: int)
    requires Sorted(stabs, kind, left, right) && Matched(stabs, kind, addr, left, right, t)
    requires addr + 2 == SIZE && t.addr == addr + 1 && Present(stabs, kind, t.l, t.r, addr + 1)
    ensures Exact(stabs, kind, Meets(stabs, kind, t)) && m == Middle(stabs, kind, Meets(stabs, kind, t))
    ensures t.l < m <= right && Hit(stabs, kind, m) && stabs[m].value == addr + 1
    ensures Finish(stabs, kind, Search(stabs, kind, t)) == (m - 1, m - 1)
  {
    var n := SecondMatch(stabs, kind, addr, left, right, t);
    m := EndsBeforeFrom(stabs, kind, left, right, n);
  }

  lemma EndsBeforeFrom(stabs: seq<Entry>, kind: int, left: int, right: int, n: Turn) returns (m: int)
    requires Sorted(stabs, kind, left, right) && InRange(stabs, n) && left <= n.l && n.r <= right
    requires n.addr == 0 && n.left == n.l && n.matched && Hit(stabs, kind, n.l) && stabs[n.l].value > 0
    ensures m == n.l && Finish(stabs, kind, Search(stabs, kind, n)) == (m - 1, m - 1)
  {
    FallsBack(stabs, kind, left, right, n);
    m := n.l;
  }

  /** The address is the last but one. */
  lemma WrapsLater(stabs: seq<Entry>, kind: int, addr: nat, left: int, right: int, t: Turn)
    requires Sorted(stabs, kind, left, right) && Matched(stabs, kind, addr, left, right, t)
    requires addr + 2 == SIZE && t.addr == addr + 1 && Present(stabs, kind, t.l, t.r, addr + 1)
    ensures var a := Finish(stabs, kind, Search(stabs, kind, t));
      Answer(stabs, kind, addr, left, right, a.0, a.1) <==> LeadsBack(stabs, kind, addr, Meets(stabs, kind, t))
  {
    var m := EndsBefore(stabs, kind, addr, left, right, t);
    AnswerBefore(stabs, kind, addr, left, right, t.l, m);
  }

  /** When (m - 1, m - 1) is right, for an entry m above the address. */
  lemma AnswerBefore(stabs: seq<Entry>, kind: int, addr: nat, left: int, right: int, i: int, m: int)
    requires left <= i < m <= right && Hit(stabs, kind, i) && stabs[i].value <= addr
    requires Hit(stabs, kind, m) && stabs[m].value > addr
    ensures Answer(stabs, kind, addr, left, right, m - 1, m - 1) <==> LowBefore(stabs, kind, addr, m)
  {
  }

  /** Otherwise the search ends above the address. */
  lemma RunsPast(stabs: seq<Entry>, kind: int, addr: nat, left: int, right: int, t: Turn)
    requires Sorted(stabs, kind, left, right) && Matched(stabs, kind, addr, left, right, t)
    requires addr + 2 < SIZE && t.addr == addr + 1 && Present(stabs, kind, t.l, t.r, addr + 1)
    ensures var a := Finish(stabs, kind, Search(stabs, kind, t)); !Answer(stabs, kind, addr, left, right, a.0, a.1)
  {
    var n := SecondMatch(stabs, kind, addr, left, right, t);
    StaysPast(stabs, kind, left, right, n, n.l);
    var f := Search(stabs, kind, n);
    MatchedStays(stabs, kind, n);
    LastIs(stabs, kind, f.left, f.r);
    AboveIsWrong(stabs, kind, addr, left, right, n.l, Last(stabs, kind, f.left, f.r), f.r);
  }

  lemma {:induction false} MatchedStays(stabs: seq<Entry>, kind: int, t: Turn)
    requires InRange(stabs, t) && t.matched
    ensures Search(stabs, kind, t).matched
    decreases Measure(stabs, kind, t)
  {
    if t.l <= t.r {
      MatchedStays(stabs, kind, Next(stabs, kind, t));
    }
  }

  // ---------- when the search is right ----------

  lemma EndAnswers(stabs: seq<Entry>, kind: int, addr: nat, left: int, right: int, t: Turn)
    requires 0 <= left <= right < |stabs| && Sorted(stabs, kind, left, right) && InRange(stabs, t)
    requires Narrowed(stabs, kind, addr, left, right, t) && Compares(stabs, kind, addr, t)
    requires !Exact(stabs, kind, Meets(stabs, kind, t))
    ensures var a := Finish(stabs, kind, Search(stabs, kind, t)); Answer(stabs, kind, addr, left, right, a.0, a.1)
  {
    MeetsNarrows(stabs, kind, addr, left, right, t);
    FinalAnswer(stabs, kind, addr, left, right, Meets(stabs, kind, t));
  }

  lemma MatchedAnswers(stabs: seq<Entry>, kind: int, addr: nat, left: int, right: int, t: Turn)
    requires Sorted(stabs, kind, left, right) && Matched(stabs, kind, addr, left, right, t)
    requires addr < SIZE && t.addr == if addr + 1 == SIZE then 0 else addr + 1
    ensures var a := Finish(stabs, kind, Search(stabs, kind, t));
      Answer(stabs, kind, addr, left, right, a.0, a.1) <==> StraightOn(stabs, kind, addr, t)
  {
    if addr + 1 == SIZE {
      WrapsAtOnce(stabs, kind, addr, left, right, t);
    } else if !Present(stabs, kind, t.l, t.r, addr + 1) {
      NoSuccessor(stabs, kind, addr, left, right, t);
    } else if addr + 2 == SIZE {
      WrapsLater(stabs, kind, addr, left, right, t);
    } else {
      RunsPast(stabs, kind, addr, left, right, t);
    }
  }

  lemma NoSuccessor(stabs: seq<Entry>, kind: int, addr: nat, left: int, right: int, t: Turn)
    requires Sorted(stabs, kind, left, right) && Matched(stabs, kind, addr, left, right, t)
    requires t.addr == addr + 1 && !Present(stabs, kind, t.l, t.r, addr + 1)
    ensures var a := Finish(stabs, kind, Search(stabs, kind, t)); Answer(stabs, kind, addr, left, right, a.0, a.1)
  {
    MeetsNarrows(stabs, kind, addr, left, right, t);
    var f := Meets(stabs, kind, t);
    assert Exact(stabs, kind, f) ==> Present(stabs, kind, f.l, f.r, addr + 1);
    EndAnswers(stabs, kind, addr, left, right, t);
  }

  /** The exact condition: for entries sorted within their type the search answers right
      if and only if it goes straight on. */
  lemma BinsearchAnswersIff(stabs: seq<Entry>, kind: int, addr: nat, left: int, right: int)
    requires 0 <= left && right < |stabs| && addr < SIZE && Sorted(stabs, kind, left, right)
    ensures var a := Binsearch(stabs, kind, addr, left, right);
      Answer(stabs, kind, addr, left, right, a.0, a.1) <==> Straight(stabs, kind, addr, left, right)
  {
    if left <= right {
      if Exact(stabs, kind, Meets(stabs, kind, Start(addr, left, right))) {
        FirstMatch(stabs, kind, addr, left, right);
        Successor(addr);
        MatchedAnswers(stabs, kind, addr, left, right, AfterMatch(stabs, kind, addr, left, right));
      } else {
        EndAnswers(stabs, kind, addr, left, right, Start(addr, left, right));
      }
    }
  }

  /** In particular, when the address and its successor are not both present: the search
      returns the bracketing entry and region, says that all entries are above the
      address, or that there are none. */
  lemma BinsearchAnswers(stabs: seq<Entry>, kind: int, addr: nat, left: int, right: int)
    requires 0 <= left && right < |stabs|
    requires Sorted(stabs, kind, left, right) && Separated(stabs, kind, left, right, addr)
    ensures var a := Binsearch(stabs, kind, addr, left, right); Answer(stabs, kind, addr, left, right, a.0, a.1)
  {
    if left <= right {
      if Exact(stabs, kind, Meets(stabs, kind, Start(addr, left, right))) {
        FirstMatch(stabs, kind, addr, left, right);
        var t := AfterMatch(stabs, kind, addr, left, right);
        assert Hit(stabs, kind, t.l) && stabs[t.l].value == addr;
        Successor(addr);
        NoSuccessor(stabs, kind, addr, left, right, t);
      } else {
        EndAnswers(stabs, kind, addr, left, right, Start(addr, left, right));
      }
    }
  }

  /** Two entries with adjacent values defeat the search: it runs past the match. */
  lemma AdjacentValuesMislead(kind: int, v: nat)
    requires v + 2 < SIZE
    ensures var stabs := [Entry(kind, v), Entry(kind, v + 1)];
      && Binsearch(stabs, kind, v, 0, 1) == (1, 1)
      && !Answer(stabs, kind, v, 0, 1, 1, 1)
  {
    var stabs := [Entry(kind, v), Entry(kind, v + 1)];
    assert Hit(stabs, kind, 0) && Hit(stabs, kind, 1);
    var t0 := Turn(0, 1, 0, v, false);
    var t1 := Next(stabs, kind, t0);
    assert t1 == Turn(0, 1, 0, v + 1, true);
    var t2 := Next(stabs, kind, t1);
    assert t2 == Turn(1, 1, 0, v + 1, true);
    var t3 := Next(stabs, kind, t2);
    assert t3 == Turn(1, 1, 1, v + 2, true);
    var t4 := Next(stabs, kind, t3);
    assert t4 == Turn(2, 1, 1, v + 2, true);
    assert Search(stabs, kind, t4) == t4 && Search(stabs, kind, t3) == t4;
    assert Search(stabs, kind, t2) == t4 && Search(stabs, kind, t1) == t4 && Search(stabs, kind, t0) == t4;
    assert !Brackets(stabs, kind, v, 1, 1, 1);
  }

  /** So does a match on the largest address: the next one to look for wraps to 0. */
  lemma LastAddressMisleads(kind: int, v: nat)
    requires v < SIZE - 1
    ensures var stabs := [Entry(kind, v), Entry(kind, SIZE - 1)];
      && Binsearch(stabs, kind, SIZE - 1, 0, 1) == (0, 0)
      && !Answer(stabs, kind, SIZE - 1, 0, 1, 0, 0)
  {
    var stabs := [Entry(kind, v), Entry(kind, SIZE - 1)];
    assert Hit(stabs, kind, 0) && Hit(stabs, kind, 1);
    var t0 := Turn(0, 1, 0, SIZE - 1, false);
    var t1 := Next(stabs, kind, t0);
    assert t1 == Turn(1, 1, 0, SIZE - 1, true);
    var t2 := Next(stabs, kind, t1);
    assert t2 == Turn(1, 1, 1, 0, true);
    var t3 := Next(stabs, kind, t2);
    assert t3 == Turn(1, 0, 1, 0, true);
    assert Search(stabs, kind, t3) == t3 && Search(stabs, kind, t2) == t3;
    assert Search(stabs, kind, t1) == t3 && Search(stabs, kind, t0) == t3;
    assert !Brackets(stabs, kind, SIZE - 1, 1, 0, 0);
  }

  // ---------- the function as the kernel runs it ----------

  ghost function Outcome(stabs: seq<Entry>, kind: int, t: Turn): Turn
    requires 0 <= t.l && t.r < |stabs|
  {
    if t.l > t.r then t else Search(stabs, kind, t)
  }

  lemma OutcomeNext(stabs: seq<Entry>, kind: int, t: Turn)
    requires InRange(stabs, t) && t.l <= t.r
    ensures Outcome(stabs, kind, t) == Outcome(stabs, kind, Next(stabs, kind, t))
  {
    var n := Next(stabs, kind, t);
    SearchNext(stabs, kind, t);
    assert n.l > n.r ==> Search(stabs, kind, n) == n;
  }

  /** The inner loop. */
  method ScanDown(stabs: array<Entry>, kind: int, l: int, middle: int) returns (m: int)
    requires 0 <= l <= middle + 1 && middle < stabs.Length
    ensures m == Earlier(stabs[..], kind, l, middle)
  {
    m := middle;
    while m >= l && stabs[m].kind != kind
      invariant l - 1 <= m <= middle
      invariant Earlier(stabs[..], kind, l, m) == Earlier(stabs[..], kind, l, middle)
    {
      m := m - 1;
    }
  }

  /** The loop after it. */
  method LastScan(stabs: array<Entry>, kind: int, left: int, right: int) returns (l: int)
    requires 0 <= left && right < stabs.Length
    ensures l == Last(stabs[..], kind, left, right)
  {
    l := right;
    while l > left && stabs[l].kind != kind
      invariant l <= right && Last(stabs[..], kind, left, l) == Last(stabs[..], kind, left, right)
    {
      l := l - 1;
    }
  }

  method StabBinsearch(stabs: array<Entry>, regionLeft: int, regionRight: int, kind: int, address: nat)
      returns (left: int, right: int)
    requires 0 <= regionLeft && regionRight < stabs.Length
    ensures (left, right) == Binsearch(stabs[..], kind, address, regionLeft, regionRight)
  {
    left, right := regionLeft, regionRight;
    var l, r, anyMatches := left, right, false;
    var addr: nat := address;
    ghost var s := stabs[..];
    ghost var whole := Outcome(s, kind, Turn(l, r, left, addr, false));
    while l <= r
      invariant 0 <= l && r < stabs.Length && right == r
      invariant whole == Outcome(s, kind, Turn(l, r, left, addr, anyMatches))
      decreases Measure(s, kind, Turn(l, r, left, addr, anyMatches))
    {
      ghost var t := Turn(l, r, left, addr, anyMatches);
      OutcomeNext(s, kind, t);
      var middle := (l + r) / 2;
      var m := ScanDown(stabs, kind, l, middle);
      NextCases(s, kind, t, m);
      if m < l {
        l := middle + 1;
      } else {
        anyMatches := true;
        assert stabs[m] == s[m];
        if stabs[m].value < addr {
          left := m;
          l := middle + 1;
        } else if stabs[m].value > addr {
          right := m - 1;
          r := m - 1;
        } else {
          left := m;
          l := m;
          addr := (addr + 1) % SIZE;
        }
      }
      assert Turn(l, r, left, addr, anyMatches) == Next(s, kind, t);
    }
    if !anyMatches {
      right := left - 1;
    } else {
      left := LastScan(stabs, kind, left, right);
    }
  }
}
