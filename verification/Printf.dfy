/** The printer and the number parser of lib/printfmt.c and lib/string.c.  A string stands
    for its characters before the terminating NUL. */
module Printf {

  // ---------- numbers ----------

  predicate Base(b: int) {
    2 <= b <= 16
  }

  function DigitChar(d: nat): char
    requires d < 16
  {
    if d < 10 then ('0' as int + d) as char else ('a' as int + d - 10) as char
  }

  /** The table printnum indexes. */
  lemma DigitTable(d: nat)
    requires d < 16
    ensures "0123456789abcdef"[d] == DigitChar(d)
  {
  }

  /** Quotient and remainder by repeated subtraction, which keeps proofs linear. */
  function Quot(num: nat, base: nat): (q: nat)
    requires base >= 2
    ensures q <= num && (num >= base ==> q < num)
  {
    if num < base then 0 else 1 + Quot(num - base, base)
  }

  function Rem(num: nat, base: nat): (r: nat)
    requires base >= 2
    ensures r < base
  {
    if num < base then num else Rem(num - base, base)
  }

  lemma {:induction false} QuotRem(num: nat, base: nat)
    requires base >= 2
    ensures num == Quot(num, base) * base + Rem(num, base)
    decreases num
  {
    if num >= base {
      QuotRem(num - base, base);
      assert Quot(num, base) * base == Quot(num - base, base) * base + base;
    }
  }

  lemma Unique(q: nat, r: nat, n: nat, b: nat)
    requires b >= 2 && n == q * b + r && r < b
    ensures n / b == q && n % b == r
  {
    var d: int := n / b - q;
    assert d * b == r - n % b;
    assert d >= 1 ==> d * b >= b;
    assert d <= -1 ==> d * b + b <= 0;
  }

  /** They are the C operators. */
  lemma QuotRemAreDivMod(num: nat, base: nat)
    requires base >= 2
    ensures Quot(num, base) == num / base && Rem(num, base) == num % base
  {
    QuotRem(num, base);
    Unique(Quot(num, base), Rem(num, base), num, base);
  }

  /** The digits of a number, most significant first. */
  function Digits(num: nat, base: nat): (s: string)
    requires Base(base)
    ensures |s| >= 1
    decreases num
  {
    (if num >= base then Digits(Quot(num, base), base) else "") + [DigitChar(Rem(num, base))]
  }

  function Pad(n: int, c: char): (s: string)
    ensures |s| == if n > 0 then n else 0
    decreases n
  {
    if n <= 0 then "" else Pad(n - 1, c) + [c]
  }

  /** printnum. */
  function PrintNum(num: nat, base: nat, width: int, padc: char): string
    requires Base(base)
    decreases num
  {
    (if num >= base then PrintNum(Quot(num, base), base, width - 1, padc) else Pad(width - 1, padc))
    + [DigitChar(Rem(num, base))]
  }

  /** printnum prints the digits, padded on the left to the width. */
  lemma {:induction false} PrintNumIsPadded(num: nat, base: nat, width: int, padc: char)
    requires Base(base)
    ensures PrintNum(num, base, width, padc) == Pad(width - |Digits(num, base)|, padc) + Digits(num, base)
    ensures |PrintNum(num, base, width, padc)| == if width > |Digits(num, base)| then width else |Digits(num, base)|
    decreases num
  {
    var last := [DigitChar(Rem(num, base))];
    if num >= base {
      var high := Digits(Quot(num, base), base);
      PrintNumIsPadded(Quot(num, base), base, width - 1, padc);
      assert PrintNum(num, base, width, padc) == (Pad(width - 1 - |high|, padc) + high) + last;
      assert Digits(num, base) == high + last;
    } else {
      assert Digits(num, base) == last;
    }
  }

  // ---------- strtol ----------

  const TWO31 := 0x8000_0000

  /** The 32-bit two's complement value of x. */
  function Wrap(x: int): (r: int)
    ensures -TWO31 <= r < TWO31 && (-TWO31 <= x < TWO31 ==> r == x)
  {
    (x + TWO31) % 0x1_0000_0000 - TWO31
  }

  /** The value of a digit or letter; 99 for anything else, which ends the number. */
  function DigitOf(c: char): nat {
    if '0' <= c <= '9' then c as int - '0' as int
    else if 'a' <= c <= 'z' then c as int - 'a' as int + 10
    else if 'A' <= c <= 'Z' then c as int - 'A' as int + 10
    else 99
  }

  predicate IsDigit(c: char, base: int) {
    DigitOf(c) != 99 && DigitOf(c) < base
  }

  function SkipBlanks(s: string, i: nat): (j: nat)
    requires i <= |s|
    ensures i <= j <= |s|
    decreases |s| - i
  {
    if i < |s| && (s[i] == ' ' || s[i] == '\t') then SkipBlanks(s, i + 1) else i
  }

  datatype Parsed = Parsed(value: int, end: nat)

  function Accumulate(s: string, i: nat, base: int, val: int): (r: Parsed)
    requires i <= |s|
    ensures i <= r.end <= |s|
    decreases |s| - i
  {
    if i < |s| && IsDigit(s[i], base) then Accumulate(s, i + 1, base, Wrap(val * base + DigitOf(s[i])))
    else Parsed(val, i)
  }

  /** Where the digits start, and the base, given what follows the sign. */
  function Prefix(s: string, i: nat, base: int): (r: (nat, int))
    requires i <= |s|
    ensures i <= r.0 <= |s|
  {
    if (base == 0 || base == 16) && i + 1 < |s| && s[i] == '0' && s[i + 1] == 'x' then (i + 2, 16)
    else if base == 0 && i < |s| && s[i] == '0' then (i + 1, 8)
    else if base == 0 then (i, 10)
    else (i, base)
  }

  function Strtol(s: string, base: int): (r: Parsed)
    ensures r.end <= |s|
  {
    var i := SkipBlanks(s, 0);
    var neg := i < |s| && s[i] == '-';
    var j := if i < |s| && (s[i] == '+' || s[i] == '-') then i + 1 else i;
    var (k, b) := Prefix(s, j, base);
    var r := Accumulate(s, k, b, 0);
    if neg then r.(value := Wrap(-r.value)) else r
  }

  /** The number a string of digits denotes, read on from acc. */
  function ValueOf(s: string, base: nat, acc: nat): nat {
    if s == "" then acc else ValueOf(s[1..], base, acc * base + DigitOf(s[0]))
  }

  ghost predicate AllDigits(s: string, base: int) {
    forall i :: 0 <= i < |s| ==> IsDigit(s[i], base)
  }

  lemma {:induction false} ValueSnoc(s: string, c: char, base: nat, acc: nat)
    ensures ValueOf(s + [c], base, acc) == ValueOf(s, base, acc) * base + DigitOf(c)
    decreases |s|
  {
    if s == "" {
      assert s + [c] == [c] && [c][1..] == "";
    } else {
      assert (s + [c])[1..] == s[1..] + [c];
      ValueSnoc(s[1..], c, base, acc * base + DigitOf(s[0]));
    }
  }

  lemma DigitCharacter(d: nat, base: nat)
    requires Base(base) && d < base
    ensures IsDigit(DigitChar(d), base) && DigitOf(DigitChar(d)) == d && DigitChar(d) != 'x'
  {
  }

  lemma {:induction false} DigitsValue(num: nat, base: nat)
    requires Base(base)
    ensures ValueOf(Digits(num, base), base, 0) == num
    decreases num
  {
    DigitCharacter(Rem(num, base), base);
    var rest := if num >= base then Digits(Quot(num, base), base) else "";
    if num >= base {
      DigitsValue(Quot(num, base), base);
    }
    QuotRem(num, base);
    ValueSnoc(rest, DigitChar(Rem(num, base)), base, 0);
    assert ValueOf(rest, base, 0) == Quot(num, base);
  }

  lemma {:induction false} DigitsShape(num: nat, base: nat)
    requires Base(base)
    ensures forall i :: 0 <= i < |Digits(num, base)| ==>
              IsDigit(Digits(num, base)[i], base) && Digits(num, base)[i] != 'x'
    decreases num
  {
    DigitCharacter(Rem(num, base), base);
    if num >= base {
      DigitsShape(Quot(num, base), base);
    }
  }

  lemma {:induction false} ZerosValue(n: int, s: string, base: nat)
    requires Base(base)
    ensures ValueOf(Pad(n, '0') + s, base, 0) == ValueOf(s, base, 0)
    ensures forall i :: 0 <= i < |Pad(n, '0')| ==> Pad(n, '0')[i] == '0'
    decreases n
  {
    if n <= 0 {
      assert Pad(n, '0') + s == s;
    } else {
      ZerosValue(n - 1, "0" + s, base);
      assert Pad(n, '0') + s == Pad(n - 1, '0') + ("0" + s);
      assert ("0" + s)[1..] == s;
    }
  }

  lemma WrapShift(x: int, n: int)
    ensures Wrap(x - n * 0x1_0000_0000) == Wrap(x)
  {
    var y := x + TWO31;
    assert y - n * 0x1_0000_0000 == (y / 0x1_0000_0000 - n) * 0x1_0000_0000 + y % 0x1_0000_0000;
  }

  /** Wrapping at every digit is wrapping once at the end. */
  lemma WrapDigit(x: int, base: nat, d: nat)
    ensures Wrap(Wrap(x) * base + d) == Wrap(x * base + d)
  {
    var k := (x + TWO31) / 0x1_0000_0000;
    assert Wrap(x) == x - k * 0x1_0000_0000;
    assert Wrap(x) * base == x * base - k * base * 0x1_0000_0000 by {
      assert (k * 0x1_0000_0000) * base == k * base * 0x1_0000_0000;
    }
    WrapShift(x * base + d, k * base);
  }

  /** One digit, on both sides. */
  lemma {:induction false} AccumulateOne(s: string, i: nat, j: nat, base: nat, acc: nat) returns (next: nat)
    requires i < j <= |s| && IsDigit(s[i], base)
    ensures Accumulate(s, i, base, Wrap(acc)) == Accumulate(s, i + 1, base, Wrap(next))
    ensures ValueOf(s[i..j], base, acc) == ValueOf(s[i + 1..j], base, next)
  {
    next := acc * base + DigitOf(s[i]);
    WrapDigit(acc, base, DigitOf(s[i]));
    assert s[i..j][0] == s[i] && s[i..j][1..] == s[i + 1..j];
  }

  lemma DigitsBehind(s: string, i: nat, j: nat, base: int)
    requires i < j <= |s| && AllDigits(s[i..j], base)
    ensures IsDigit(s[i], base) && AllDigits(s[i + 1..j], base)
  {
    assert s[i] == s[i..j][0];
    var t := s[i + 1..j];
    forall k | 0 <= k < |t| ensures IsDigit(t[k], base) {
      assert t[k] == s[i..j][k + 1];
    }
  }

  /** A run of digits is read to its end; a value that does not fit wraps around. */
  lemma {:induction false} AccumulatesValue(s: string, i: nat, j: nat, base: nat, acc: nat)
    requires i <= j <= |s| && AllDigits(s[i..j], base) && (j < |s| ==> !IsDigit(s[j], base))
    ensures Accumulate(s, i, base, Wrap(acc)) == Parsed(Wrap(ValueOf(s[i..j], base, acc)), j)
    decreases j - i
  {
    if i < j {
      DigitsBehind(s, i, j, base);
      var next := AccumulateOne(s, i, j, base, acc);
      AccumulatesValue(s, i + 1, j, base, next);
    }
  }

  lemma {:induction false} SkipsBlanks(n: int, s: string, i: nat)
    requires i <= |Pad(n, ' ')| && (s == "" || (s[0] != ' ' && s[0] != '\t'))
    ensures SkipBlanks(Pad(n, ' ') + s, i) == |Pad(n, ' ')|
    decreases |Pad(n, ' ')| - i
  {
    var t := Pad(n, ' ') + s;
    if i < |Pad(n, ' ')| {
      PadAll(n, ' ', i);
      SkipsBlanks(n, s, i + 1);
    }
  }

  lemma {:induction false} PadAll(n: int, c: char, i: nat)
    requires i < |Pad(n, c)|
    ensures Pad(n, c)[i] == c
    decreases n
  {
    if i < n - 1 {
      PadAll(n - 1, c, i);
    }
  }

  /** What may follow a number: nothing, or something that is no digit or letter. */
  predicate Stops(tail: string) {
    tail == "" || DigitOf(tail[0]) == 99
  }

  /** Zeros and digits only. */
  lemma BodyShape(num: nat, base: nat, zeros: int)
    requires Base(base)
    ensures var body := Pad(zeros, '0') + Digits(num, base);
      AllDigits(body, base) && forall i :: 0 <= i < |body| ==> body[i] != 'x'
  {
    var body := Pad(zeros, '0') + Digits(num, base);
    DigitsShape(num, base);
    forall i | 0 <= i < |body| ensures IsDigit(body[i], base) && body[i] != 'x' {
      if i < |Pad(zeros, '0')| {
        PadAll(zeros, '0', i);
      }
    }
  }

  /** A string of digits needs no skipping and has no prefix. */
  lemma NoPrefix(s: string, i: nat, body: string, base: int, tail: string)
    requires Base(base) && Stops(tail) && i <= |s| && s[i..] == body + tail && body != ""
    requires AllDigits(body, base) && forall k :: 0 <= k < |body| ==> body[k] != 'x'
    ensures SkipBlanks(s, i) == i && Prefix(s, i, base) == (i, base) && s[i] != '-' && s[i] != '+'
  {
    assert s[i] == s[i..][0] == body[0];
    assert IsDigit(body[0], base);
    if i + 1 < |s| {
      assert s[i + 1] == s[i..][1];
      assert s[i + 1] == if |body| > 1 then body[1] else tail[0];
    }
  }

  /** Digits, possibly after zeros, are read back from position i on. */
  lemma ReadsDigits(s: string, i: nat, num: nat, base: nat, zeros: int, tail: string)
    requires Base(base) && Stops(tail) && i <= |s| && s[i..] == Pad(zeros, '0') + Digits(num, base) + tail
    ensures SkipBlanks(s, i) == i && Prefix(s, i, base) == (i, base) && s[i] != '-' && s[i] != '+'
    ensures Accumulate(s, i, base, 0) == Parsed(Wrap(num), |s| - |tail|)
  {
    var body := Pad(zeros, '0') + Digits(num, base);
    var j := i + |body|;
    BodyShape(num, base, zeros);
    NoPrefix(s, i, body, base, tail);
    DigitsValue(num, base);
    ZerosValue(zeros, Digits(num, base), base);
    assert s[i..j] == body && s[j..] == tail;
    assert j < |s| ==> s[j] == tail[0];
    AccumulatesValue(s, i, j, base, 0);
  }

  lemma ReadsFrom(s: string, i: nat, num: nat, base: nat, tail: string)
    requires Base(base) && Stops(tail) && i <= |s| && s[i..] == Digits(num, base) + tail
    ensures i < |s| && IsDigit(s[i], base) && s[i] == Digits(num, base)[0] && s[i] != 'x' && |tail| <= |s|
    ensures Prefix(s, i, base) == (i, base) && Accumulate(s, i, base, 0) == Parsed(Wrap(num), |s| - |tail|)
  {
    NoZeros(Digits(num, base));
    ReadsDigits(s, i, num, base, 0, tail);
    DigitsShape(num, base);
    assert s[i..][0] == s[i];
  }

  lemma NoZeros(s: string)
    ensures Pad(0, '0') + s == s
  {
  }

  lemma ReadsBlanks(s: string, blanks: int, num: nat, base: nat, tail: string)
    requires Base(base) && Stops(tail) && s == Pad(blanks, ' ') + (Digits(num, base) + tail)
    ensures Strtol(s, base) == Parsed(Wrap(num), |s| - |tail|)
  {
    var pad, body := Pad(blanks, ' '), Digits(num, base) + tail;
    assert s[|pad|..] == body;
    ReadsFrom(s, |pad|, num, base, tail);
    assert body[0] == s[|pad|];
    SkipsBlanks(blanks, body, 0);
    NoSign(s, |pad|, base);
  }

  /** After the blanks comes a digit of the base, and no prefix. */
  lemma NoSign(s: string, i: nat, base: int)
    requires i < |s| && IsDigit(s[i], base) && SkipBlanks(s, 0) == i && Prefix(s, i, base) == (i, base)
    ensures Strtol(s, base) == Accumulate(s, i, base, 0)
  {
  }

  lemma ReadsZeros(s: string, zeros: int, num: nat, base: nat, tail: string)
    requires Base(base) && Stops(tail) && s == Pad(zeros, '0') + Digits(num, base) + tail
    ensures Strtol(s, base) == Parsed(Wrap(num), |s| - |tail|)
  {
    assert s[0..] == s;
    ReadsDigits(s, 0, num, base, zeros, tail);
  }

  lemma Concat(a: string, b: string, c: string)
    ensures (a + b) + c == a + (b + c)
  {
  }

  /** The round trip: strtol with the same base reads printnum's output back, for every
      base from 2 to 16, width, and blank or zero padding, and stops at its end.  The
      value is the one printed if that is below 2^31; any other wraps around. */
  lemma NumberRoundTrip(num: nat, base: nat, width: int, padc: char, tail: string)
    requires Base(base) && (padc == ' ' || padc == '0') && Stops(tail)
    ensures var s := PrintNum(num, base, width, padc); Strtol(s + tail, base) == Parsed(Wrap(num), |s|)
  {
    var s := PrintNum(num, base, width, padc) + tail;
    var pad := width - |Digits(num, base)|;
    PrintNumIsPadded(num, base, width, padc);
    if padc == ' ' {
      Concat(Pad(pad, ' '), Digits(num, base), tail);
      ReadsBlanks(s, pad, num, base, tail);
    } else {
      ReadsZeros(s, pad, num, base, tail);
    }
  }

  // ---------- formats ----------

  const MAXERROR := 9

  /** error_string; nothing for 0. */
  function ErrorString(e: nat): string
    requires e < MAXERROR
  {
    ["", "unspecified error", "bad environment", "invalid parameter", "out of memory", "out of environments",
     "segmentation fault", "env is not recving", "unexpected end of file"][e]
  }

  datatype Text = Null | Text(s: string)

  /** The variable arguments: argument k as an integer, and as a string. */
  datatype Args = Args(ints: nat -> int, strs: nat -> Text)

  /** What an escape sets before its conversion character. */
  datatype Flags = Flags(padc: char, width: int, precision: int, lflag: nat, alt: bool)

  const NOFLAGS := Flags(' ', -1, -1, 0, false)

  /** A decimal number at i, and where it ends. */
  function NumberAt(fmt: string, i: nat, acc: int): (r: (int, nat))
    requires i <= |fmt|
    ensures i <= r.1 <= |fmt| && (i < |fmt| && '0' <= fmt[i] <= '9' ==> i < r.1)
    decreases |fmt| - i
  {
    if i < |fmt| && '0' <= fmt[i] <= '9' then NumberAt(fmt, i + 1, acc * 10 + fmt[i] as int - '0' as int)
    else (acc, i)
  }

  /** process_precision. */
  function Sized(fl: Flags, n: int): Flags {
    if fl.width < 0 then fl.(width := n, precision := -1) else fl.(precision := n)
  }

  datatype Escape = Escape(flags: Flags, at: nat, arg: nat)

  predicate IsFlag(c: char) {
    c == '-' || '0' <= c <= '9' || c == '*' || c == '.' || c == '#' || c == 'l'
  }

  /** One flag, width, precision or length modifier. */
  function Flag(fmt: string, e: Escape, args: Args): (r: Escape)
    requires e.at < |fmt| && IsFlag(fmt[e.at])
    ensures e.at < r.at <= |fmt|
  {
    var c, fl := fmt[e.at], e.flags;
    if c == '-' then Escape(fl.(padc := '-'), e.at + 1, e.arg)
    else if c == '0' then Escape(fl.(padc := '0'), e.at + 1, e.arg)
    else if '1' <= c <= '9' then
      var (n, j) := NumberAt(fmt, e.at, 0);
      Escape(Sized(fl, n), j, e.arg)
    else if c == '*' then Escape(Sized(fl, Wrap(args.ints(e.arg))), e.at + 1, e.arg + 1)
    else if c == '.' then Escape(if fl.width < 0 then fl.(width := 0) else fl, e.at + 1, e.arg)
    else if c == '#' then Escape(fl.(alt := true), e.at + 1, e.arg)
    else Escape(fl.(lflag := fl.lflag + 1), e.at + 1, e.arg)
  }

  /** An escape up to its conversion character. */
  function Scan(fmt: string, e: Escape, args: Args): (r: Escape)
    requires e.at <= |fmt|
    ensures e.at <= r.at <= |fmt| && (r.at < |fmt| ==> !IsFlag(fmt[r.at]))
    decreases |fmt| - e.at
  {
    if e.at < |fmt| && IsFlag(fmt[e.at]) then Scan(fmt, Flag(fmt, e, args), args) else e
  }

  predicate NoPercent(fmt: string, i: nat, j: nat)
    requires j <= |fmt|
  {
    forall x :: i <= x < j ==> fmt[x] != '%'
  }

  lemma {:induction false} NumberNoPercent(fmt: string, i: nat, acc: int)
    requires i <= |fmt|
    ensures NoPercent(fmt, i, NumberAt(fmt, i, acc).1)
    decreases |fmt| - i
  {
    if i < |fmt| && '0' <= fmt[i] <= '9' {
      NumberNoPercent(fmt, i + 1, acc * 10 + fmt[i] as int - '0' as int);
    }
  }

  /** An escape has no second percent sign before its conversion character. */
  lemma {:induction false} ScanNoPercent(fmt: string, e: Escape, args: Args)
    requires e.at <= |fmt|
    ensures NoPercent(fmt, e.at, Scan(fmt, e, args).at)
    decreases |fmt| - e.at
  {
    if e.at < |fmt| && IsFlag(fmt[e.at]) {
      if '1' <= fmt[e.at] <= '9' {
        NumberNoPercent(fmt, e.at, 0);
      }
      ScanNoPercent(fmt, Flag(fmt, e, args), args);
    }
  }

  // ---------- conversions ----------

  predicate Known(c: char) {
    c == 'c' || c == 'e' || c == 's' || c == 'd' || c == 'u' || c == 'o' || c == 'p' || c == 'x' || c == '%'
  }

  function GetInt(v: int, lflag: nat): int {
    if lflag >= 2 then (v + 0x8000_0000_0000_0000) % 0x1_0000_0000_0000_0000 - 0x8000_0000_0000_0000 else Wrap(v)
  }

  function GetUint(v: int, lflag: nat): nat {
    if lflag >= 2 then v % 0x1_0000_0000_0000_0000 else v % 0x1_0000_0000
  }

  function Byte(v: int): char {
    (v % 256) as char
  }

  /** The part of a string a precision leaves. */
  function Cut(p: string, precision: int): string {
    if 0 <= precision < |p| then p[..precision] else p
  }

  function Shown(p: string, alt: bool): (r: string)
    ensures |r| == |p|
  {
    if p == "" then "" else [if alt && (p[0] < ' ' || p[0] > '~') then '?' else p[0]] + Shown(p[1..], alt)
  }

  function RenderString(p: string, fl: Flags): string {
    var t := Shown(Cut(p, fl.precision), fl.alt);
    if fl.padc == '-' then t + Pad(fl.width - |t|, ' ') else Pad(fl.width - |t|, fl.padc) + t
  }

  function RenderInt(n: int, fl: Flags): string {
    (if n < 0 then "-" else "") + PrintNum(if n < 0 then -n else n, 10, fl.width, fl.padc)
  }

  function RenderError(err: int): string {
    var e := if err < 0 then -err else err;
    if e >= MAXERROR || ErrorString(e) == "" then "error " + RenderInt(e, NOFLAGS)
    else RenderString(ErrorString(e), NOFLAGS)
  }

  function Render(c: char, fl: Flags, args: Args, k: nat): string {
    var v := args.ints(k);
    if c == 'c' then [Byte(v)]
    else if c == 'e' then RenderError(Wrap(v))
    else if c == 's' then RenderString(match args.strs(k) case Null => "(null)" case Text(s) => s, fl)
    else if c == 'd' then RenderInt(GetInt(v, fl.lflag), fl)
    else if c == 'u' then PrintNum(GetUint(v, fl.lflag), 10, fl.width, fl.padc)
    else if c == 'o' then PrintNum(GetUint(v, fl.lflag), 8, fl.width, fl.padc)
    else if c == 'p' then "0x" + PrintNum(GetUint(v, 0), 16, fl.width, fl.padc)
    else if c == 'x' then PrintNum(GetUint(v, fl.lflag), 16, fl.width, fl.padc)
    else "%"
  }

  function NextArg(c: char, k: nat): nat {
    if c == '%' then k else k + 1
  }

  /** vprintfmt from position i and argument k on.  After an unknown escape the scan
      goes back to just after its percent sign, so that only the percent signs left, and
      then the length, shrink. */
  function Format(fmt: string, i: nat, args: Args, k: nat): string
    requires i <= |fmt|
    decreases |fmt| - i
  {
    if i == |fmt| then ""
    else if fmt[i] != '%' then [fmt[i]] + Format(fmt, i + 1, args, k)
    else
      var e := Scan(fmt, Escape(NOFLAGS, i + 1, k), args);
      if e.at < |fmt| && Known(fmt[e.at]) then
        Render(fmt[e.at], e.flags, args, e.arg) + Format(fmt, e.at + 1, args, NextArg(fmt[e.at], e.arg))
      else "%" + Format(fmt, i + 1, args, e.arg)
  }

  lemma {:induction false} FormatChar(fmt: string, i: nat, args: Args, k: nat)
    requires i < |fmt| && fmt[i] != '%'
    ensures Format(fmt, i, args, k) == [fmt[i]] + Format(fmt, i + 1, args, k)
  {
  }

  lemma SliceFront(s: string, i: nat, j: nat, rest: string)
    requires i < j <= |s|
    ensures s[i..j] + rest == [s[i]] + (s[i + 1..j] + rest)
  {
    assert s[i..j] == [s[i]] + s[i + 1..j];
  }

  lemma SliceNone(s: string, i: nat, rest: string)
    requires i <= |s|
    ensures s[i..i] + rest == rest
  {
  }

  /** Text without percent signs comes out as it is. */
  lemma {:induction false} PlainText(fmt: string, i: nat, j: nat, args: Args, k: nat)
    requires i <= j <= |fmt| && NoPercent(fmt, i, j)
    ensures Format(fmt, i, args, k) == fmt[i..j] + Format(fmt, j, args, k)
    decreases j - i
  {
    if i < j {
      PlainText(fmt, i + 1, j, args, k);
      FormatChar(fmt, i, args, k);
      SliceFront(fmt, i, j, Format(fmt, j, args, k));
    } else {
      SliceNone(fmt, i, Format(fmt, j, args, k));
    }
  }

  lemma {:induction false} FormatKnown(fmt: string, i: nat, args: Args, k: nat, e: Escape)
    requires i < |fmt| && fmt[i] == '%' && e == Scan(fmt, Escape(NOFLAGS, i + 1, k), args)
    requires e.at < |fmt| && Known(fmt[e.at])
    ensures Format(fmt, i, args, k)
         == Render(fmt[e.at], e.flags, args, e.arg) + Format(fmt, e.at + 1, args, NextArg(fmt[e.at], e.arg))
  {
  }

  lemma {:induction false} FormatUnknown(fmt: string, i: nat, args: Args, k: nat, e: Escape)
    requires i < |fmt| && fmt[i] == '%' && e == Scan(fmt, Escape(NOFLAGS, i + 1, k), args)
    requires e.at < |fmt| ==> !Known(fmt[e.at])
    ensures Format(fmt, i, args, k) == "%" + Format(fmt, i + 1, args, e.arg)
  {
  }

  /** An unknown escape comes out verbatim, flags and conversion character included, and
      so does one cut off by the end of the format. */
  lemma {:induction false} UnknownEscapeVerbatim(fmt: string, i: nat, args: Args, k: nat, e: Escape)
    requires i < |fmt| && fmt[i] == '%' && e == Scan(fmt, Escape(NOFLAGS, i + 1, k), args)
    requires e.at < |fmt| ==> !Known(fmt[e.at])
    ensures var end := if e.at < |fmt| then e.at + 1 else e.at;
      Format(fmt, i, args, k) == fmt[i..end] + Format(fmt, end, args, e.arg)
  {
    var end := if e.at < |fmt| then e.at + 1 else e.at;
    FormatUnknown(fmt, i, args, k, e);
    ScanNoPercent(fmt, Escape(NOFLAGS, i + 1, k), args);
    assert NoPercent(fmt, i + 1, end);
    PlainText(fmt, i + 1, end, args, e.arg);
    Concat("%", fmt[i + 1..end], Format(fmt, end, args, e.arg));
    assert fmt[i..end] == "%" + fmt[i + 1..end];
  }

  /** A string conversion is as long as its width or its text, whichever is longer, and
      the text stands at the side the padding is not. */
  lemma StringIsPadded(p: string, fl: Flags)
    ensures var r, t := RenderString(p, fl), Shown(Cut(p, fl.precision), fl.alt);
      && |r| == (if fl.width > |t| then fl.width else |t|)
      && (if fl.padc == '-' then t <= r else |t| <= |r| && r[|r| - |t|..] == t)
  {
  }

  /** A signed conversion reads back as its value unless blanks come between the sign and
      the digits, which is so exactly for a negative number padded with blanks to more
      than the length of its digits. */
  lemma SignedRoundTripIff(n: int, fl: Flags)
    requires -TWO31 <= n < TWO31 && (fl.padc == ' ' || fl.padc == '0')
    ensures Strtol(RenderInt(n, fl), 10) == Parsed(n, |RenderInt(n, fl)|) <==>
              n >= 0 || fl.padc == '0' || fl.width <= |Digits(-n, 10)|
  {
    var s := RenderInt(n, fl);
    if n >= 0 {
      NumberRoundTrip(n, 10, fl.width, fl.padc, "");
      assert s == PrintNum(n, 10, fl.width, fl.padc) + "";
    } else if fl.padc == '0' || fl.width <= |Digits(-n, 10)| {
      ReadsNegative(n, fl);
    } else {
      BlanksEndNumber(n, fl);
    }
  }

  lemma {:induction false} ReadsMinus(s: string, num: nat, zeros: int)
    requires s == "-" + (Pad(zeros, '0') + Digits(num, 10))
    ensures Strtol(s, 10) == Parsed(Wrap(-Wrap(num)), |s|)
  {
    var body := Pad(zeros, '0') + Digits(num, 10);
    assert s[1..] == body == body + "";
    ReadsDigits(s, 1, num, 10, zeros, "");
    SignedParse(s, Wrap(num));
  }

  lemma {:induction false} NegativeText(n: int, fl: Flags)
    requires n < 0 && (fl.padc == '0' || fl.width <= |Digits(-n, 10)|)
    ensures RenderInt(n, fl) == "-" + (Pad(fl.width - |Digits(-n, 10)|, '0') + Digits(-n, 10))
  {
    PrintNumIsPadded(-n, 10, fl.width, fl.padc);
  }

  lemma {:induction false} ReadsNegative(n: int, fl: Flags)
    requires -TWO31 <= n < 0 && (fl.padc == '0' || fl.width <= |Digits(-n, 10)|)
    ensures Strtol(RenderInt(n, fl), 10) == Parsed(n, |RenderInt(n, fl)|)
  {
    NegativeText(n, fl);
    ReadsMinus(RenderInt(n, fl), -n, fl.width - |Digits(-n, 10)|);
    NegatesBack(n);
  }

  /** The smallest number wraps to itself when negated. */
  lemma NegatesBack(n: int)
    requires -TWO31 <= n < 0
    ensures Wrap(-Wrap(-n)) == n
  {
    if n == -TWO31 {
      assert Wrap(TWO31) == -TWO31;
    } else {
      assert Wrap(-n) == -n;
    }
  }

  lemma SignedParse(s: string, value: int)
    requires |s| > 0 && s[0] == '-' && Prefix(s, 1, 10) == (1, 10) && Accumulate(s, 1, 10, 0) == Parsed(value, |s|)
    ensures Strtol(s, 10) == Parsed(Wrap(-value), |s|)
  {
    assert SkipBlanks(s, 0) == 0;
  }

  /** The number ends after its sign. */
  lemma BlanksEndNumber(n: int, fl: Flags)
    requires n < 0 && fl.padc == ' ' && fl.width > |Digits(-n, 10)|
    ensures Strtol(RenderInt(n, fl), 10) == Parsed(0, 1)
  {
    var s, blanks := RenderInt(n, fl), fl.width - |Digits(-n, 10)|;
    PrintNumIsPadded(-n, 10, fl.width, ' ');
    PadAll(blanks, ' ', 0);
    assert s[1] == ' ';
  }

  lemma MinusFiveIsLost()
    ensures RenderInt(-5, NOFLAGS.(width := 3)) == "-  5" && Strtol("-  5", 10) == Parsed(0, 1)
  {
    assert Pad(2, ' ') == "  " by {
      assert Pad(1, ' ') == " ";
    }
    assert PrintNum(5, 10, 3, ' ') == "  5";
    assert "-  5"[1] == ' ';
  }

  // ---------- the loops ----------

  method ReadDigits(s: string, start: nat, base: int) returns (value: int, end: nat)
    requires start <= |s|
    ensures Accumulate(s, start, base, 0) == Parsed(value, end) && end <= |s|
  {
    value, end := 0, start;
    while end < |s| && IsDigit(s[end], base)
      invariant start <= end <= |s| && Accumulate(s, end, base, value) == Accumulate(s, start, base, 0)
    {
      value := Wrap(value * base + DigitOf(s[end]));
      end := end + 1;
    }
  }

  method ParseLong(s: string, base: int) returns (value: int, end: nat)
    ensures Strtol(s, base) == Parsed(value, end)
  {
    var i := 0;
    while i < |s| && (s[i] == ' ' || s[i] == '\t')
      invariant 0 <= i <= |s| && SkipBlanks(s, 0) == SkipBlanks(s, i)
    {
      i := i + 1;
    }
    var neg := false;
    if i < |s| && s[i] == '+' {
      i := i + 1;
    } else if i < |s| && s[i] == '-' {
      i, neg := i + 1, true;
    }
    ghost var j := i;
    var b := base;
    if (b == 0 || b == 16) && i + 1 < |s| && s[i] == '0' && s[i + 1] == 'x' {
      i, b := i + 2, 16;
    } else if b == 0 && i < |s| && s[i] == '0' {
      i, b := i + 1, 8;
    } else if b == 0 {
      b := 10;
    }
    assert Prefix(s, j, base) == (i, b);
    value, end := ReadDigits(s, i, b);
    if neg {
      value := Wrap(-value);
    }
  }

  method Strnlen(s: string, size: int) returns (n: nat)
    ensures n == |Cut(s, size)|
  {
    n := 0;
    while n != size && n < |s|
      invariant 0 <= n <= |s| && (0 <= size ==> n <= size)
      decreases |s| - n
    {
      n := n + 1;
    }
  }

  function Min(a: int, b: int): int {
    if a < b then a else b
  }

  /** struct sprintbuf; sent is everything that has been put, start the buffer before. */
  class SprintBuf {
    const buf: array<char>
    const room: nat
    ghost const start: seq<char>
    var pos: nat
    var cnt: int
    ghost var sent: string

    ghost predicate Valid()
      reads this, buf
    {
      && room < buf.Length == |start|
      && cnt == |sent| && pos == Min(|sent|, room)
      && buf[..pos] == sent[..pos] && buf[pos..] == start[pos..]
    }

    constructor (b: array<char>, n: nat)
      requires 1 <= n <= b.Length
      ensures Valid() && buf == b && room == n - 1 && sent == "" && start == b[..]
    {
      buf := b;
      room := n - 1;
      start := b[..];
      pos := 0;
      cnt := 0;
      sent := "";
    }

    method Put(ch: char)
      requires Valid()
      modifies this, buf
      ensures Valid() && sent == old(sent) + [ch]
    {
      cnt := cnt + 1;
      sent := sent + [ch];
      if pos < room {
        buf[pos] := ch;
        pos := pos + 1;
      }
    }

    method PutAll(s: string)
      requires Valid()
      modifies this, buf
      ensures Valid() && sent == old(sent) + s
    {
      var i := 0;
      while i < |s|
        invariant 0 <= i <= |s| && Valid() && sent == old(sent) + s[..i]
      {
        Put(s[i]);
        i := i + 1;
      }
    }

    method PutPad(n: int, c: char)
      requires Valid()
      modifies this, buf
      ensures Valid() && sent == old(sent) + Pad(n, c)
    {
      var width := n;
      while width > 0
        invariant Valid() && sent == old(sent) + Pad(n - if width > 0 then width else if n > 0 then 0 else n, c)
        invariant width <= n && (n > 0 ==> width >= 0)
      {
        Put(c);
        width := width - 1;
      }
    }

    method PrintNumber(num: nat, base: nat, width: int, padc: char)
      requires Valid() && Base(base)
      modifies this, buf
      ensures Valid() && sent == old(sent) + PrintNum(num, base, width, padc)
      decreases num
    {
      QuotRemAreDivMod(num, base);
      if num >= base {
        PrintNumber(num / base, base, width - 1, padc);
      } else {
        PutPad(width - 1, padc);
      }
      Put(DigitChar(num % base));
    }

    /** At most precision characters, or all of them if it is negative. */
    method PutShown(p: string, limit: int, alt: bool) returns (n: nat)
      requires Valid()
      modifies this, buf
      ensures Valid() && sent == old(sent) + Shown(Cut(p, limit), alt) && n == |Cut(p, limit)|
    {
      var precision := limit;
      ghost var t := Cut(p, limit);
      n := 0;
      while n < |p| && (precision < 0 || precision > 0)
        invariant 0 <= n <= |t| && Valid() && sent == old(sent) + Shown(t[..n], alt)
        invariant precision == if limit < 0 then limit else limit - n
      {
        ShownSnoc(t[..n], t[n], alt);
        assert t[..n + 1] == t[..n] + [t[n]];
        Put(if alt && (p[n] < ' ' || p[n] > '~') then '?' else p[n]);
        precision := if precision > 0 then precision - 1 else precision;
        n := n + 1;
      }
      assert t[..n] == t;
    }

    method PrintString(p: string, fl: Flags)
      requires Valid()
      modifies this, buf
      ensures Valid() && sent == old(sent) + RenderString(p, fl)
    {
      var width := fl.width;
      if width > 0 && fl.padc != '-' {
        var n := Strnlen(p, fl.precision);
        width := width - n;
        PutPad(width, fl.padc);
        width := if width > 0 then 0 else width;
      }
      ghost var lead := if fl.padc == '-' then "" else Pad(fl.width - |Cut(p, fl.precision)|, fl.padc);
      assert sent == old(sent) + lead;
      var shown := PutShown(p, fl.precision, fl.alt);
      PutPad(width - shown, ' ');
      PiecesRender(old(sent), lead, p, fl, width - shown);
    }
  }

  /** Padding before, text, and padding after make up a string conversion. */
  lemma PiecesRender(sent: string, lead: string, p: string, fl: Flags, after: int)
    requires lead == if fl.padc == '-' then "" else Pad(fl.width - |Cut(p, fl.precision)|, fl.padc)
    requires if fl.padc == '-' then after == fl.width - |Cut(p, fl.precision)| else after <= 0
    ensures ((sent + lead) + Shown(Cut(p, fl.precision), fl.alt)) + Pad(after, ' ') == sent + RenderString(p, fl)
  {
    var t := Shown(Cut(p, fl.precision), fl.alt);
    if fl.padc == '-' {
      assert sent + lead == sent;
      assert (sent + t) + Pad(after, ' ') == sent + (t + Pad(after, ' '));
    } else {
      assert Pad(after, ' ') == "";
      assert ((sent + lead) + t) + "" == sent + (lead + t);
    }
  }

  lemma {:induction false} ShownSnoc(p: string, c: char, alt: bool)
    ensures Shown(p + [c], alt) == Shown(p, alt) + [if alt && (c < ' ' || c > '~') then '?' else c]
  {
    if p == "" {
      assert p + [c] == [c] && [c][1..] == "";
    } else {
      assert (p + [c])[1..] == p[1..] + [c];
      ShownSnoc(p[1..], c, alt);
    }
  }

  /** One flag; the precision loop stops at the first character that is no digit. */
  method TakeFlag(fmt: string, e: Escape, args: Args) returns (r: Escape)
    requires e.at < |fmt| && IsFlag(fmt[e.at])
    ensures r == Flag(fmt, e, args)
  {
    var c, fl := fmt[e.at], e.flags;
    match c
    case '-' => r := Escape(fl.(padc := '-'), e.at + 1, e.arg);
    case '0' => r := Escape(fl.(padc := '0'), e.at + 1, e.arg);
    case '*' => r := Escape(Sized(fl, Wrap(args.ints(e.arg))), e.at + 1, e.arg + 1);
    case '.' => r := Escape(if fl.width < 0 then fl.(width := 0) else fl, e.at + 1, e.arg);
    case '#' => r := Escape(fl.(alt := true), e.at + 1, e.arg);
    case 'l' => r := Escape(fl.(lflag := fl.lflag + 1), e.at + 1, e.arg);
    case _ =>
      var precision, j := 0, e.at;
      while j < |fmt| && '0' <= fmt[j] <= '9'
        invariant e.at <= j <= |fmt| && NumberAt(fmt, j, precision) == NumberAt(fmt, e.at, 0)
      {
        precision := precision * 10 + fmt[j] as int - '0' as int;
        j := j + 1;
      }
      r := Escape(Sized(fl, precision), j, e.arg);
  }

  method Convert(b: SprintBuf, c: char, fl: Flags, args: Args, k: nat)
    requires b.Valid() && Known(c)
    modifies b, b.buf
    ensures b.Valid() && b.sent == old(b.sent) + Render(c, fl, args, k)
  {
    var v := args.ints(k);
    match c
    case 'c' => b.Put(Byte(v));
    case 'e' => ConvertError(b, Wrap(v));
    case 's' => b.PrintString(match args.strs(k) case Null => "(null)" case Text(s) => s, fl);
    case 'd' => ConvertInt(b, GetInt(v, fl.lflag), fl);
    case 'u' => b.PrintNumber(GetUint(v, fl.lflag), 10, fl.width, fl.padc);
    case 'o' => b.PrintNumber(GetUint(v, fl.lflag), 8, fl.width, fl.padc);
    case 'x' => b.PrintNumber(GetUint(v, fl.lflag), 16, fl.width, fl.padc);
    case 'p' =>
      b.Put('0');
      b.Put('x');
      b.PrintNumber(GetUint(v, 0), 16, fl.width, fl.padc);
    case _ => b.Put('%');
  }

  method ConvertInt(b: SprintBuf, n: int, fl: Flags)
    requires b.Valid()
    modifies b, b.buf
    ensures b.Valid() && b.sent == old(b.sent) + RenderInt(n, fl)
  {
    if n < 0 {
      b.Put('-');
      b.PrintNumber(-n, 10, fl.width, fl.padc);
    } else {
      b.PrintNumber(n, 10, fl.width, fl.padc);
    }
  }

  method ConvertError(b: SprintBuf, err: int)
    requires b.Valid()
    modifies b, b.buf
    ensures b.Valid() && b.sent == old(b.sent) + RenderError(err)
  {
    var e := if err < 0 then -err else err;
    if e >= MAXERROR || ErrorString(e) == "" {
      b.PutAll("error ");
      ConvertInt(b, e, NOFLAGS);
    } else {
      b.PrintString(ErrorString(e), NOFLAGS);
    }
  }

  /** The flags, from position i on. */
  method TakeFlags(fmt: string, i: nat, args: Args, k: nat) returns (e: Escape)
    requires i <= |fmt|
    ensures e == Scan(fmt, Escape(NOFLAGS, i, k), args)
  {
    e := Escape(NOFLAGS, i, k);
    while e.at < |fmt| && IsFlag(fmt[e.at])
      invariant i <= e.at <= |fmt|
      invariant Scan(fmt, e, args) == Scan(fmt, Escape(NOFLAGS, i, k), args)
      decreases |fmt| - e.at
    {
      e := TakeFlag(fmt, e, args);
    }
  }

  /** Back from at to just after the last percent sign. */
  method Rewind(fmt: string, i: nat, at: nat) returns (j: nat)
    requires i < at <= |fmt| && fmt[i] == '%' && NoPercent(fmt, i + 1, at)
    ensures j == i + 1
  {
    j := at;
    while fmt[j - 1] != '%'
      invariant i < j <= at
      decreases j
    {
      j := j - 1;
    }
  }

  /** One escape, whose percent sign is at i. */
  method PrintEscape(b: SprintBuf, fmt: string, i: nat, args: Args, k: nat) returns (j: nat, arg: nat)
    requires i < |fmt| && fmt[i] == '%' && b.Valid()
    modifies b, b.buf
    ensures i < j <= |fmt| && b.Valid()
    ensures b.sent + Format(fmt, j, args, arg) == old(b.sent) + Format(fmt, i, args, k)
  {
    var e := TakeFlags(fmt, i + 1, args, k);
    if e.at < |fmt| && Known(fmt[e.at]) {
      FormatKnown(fmt, i, args, k, e);
      Convert(b, fmt[e.at], e.flags, args, e.arg);
      j, arg := e.at + 1, NextArg(fmt[e.at], e.arg);
      Concat(old(b.sent), Render(fmt[e.at], e.flags, args, e.arg), Format(fmt, j, args, arg));
    } else {
      FormatUnknown(fmt, i, args, k, e);
      ScanNoPercent(fmt, Escape(NOFLAGS, i + 1, k), args);
      b.Put('%');
      j := Rewind(fmt, i, e.at);
      arg := e.arg;
      Concat(old(b.sent), "%", Format(fmt, j, args, arg));
    }
  }

  lemma {:induction false} FormatPlain(sent: string, fmt: string, i: nat, args: Args, k: nat)
    requires i < |fmt| && fmt[i] != '%'
    ensures (sent + [fmt[i]]) + Format(fmt, i + 1, args, k) == sent + Format(fmt, i, args, k)
  {
    Concat(sent, [fmt[i]], Format(fmt, i + 1, args, k));
  }

  method VPrintFmt(b: SprintBuf, fmt: string, args: Args)
    requires b.Valid()
    modifies b, b.buf
    ensures b.Valid() && b.sent == old(b.sent) + Format(fmt, 0, args, 0)
  {
    var i, k := 0, 0;
    while i < |fmt|
      invariant 0 <= i <= |fmt| && 0 <= k && b.Valid()
      invariant b.sent + Format(fmt, i, args, k) == old(b.sent) + Format(fmt, 0, args, 0)
      decreases |fmt| - i
    {
      if fmt[i] != '%' {
        FormatPlain(b.sent, fmt, i, args, k);
        b.Put(fmt[i]);
        i := i + 1;
      } else {
        i, k := PrintEscape(b, fmt, i, args, k);
      }
    }
  }

  const E_INVAL := 3

  /** vsnprintf. */
  method VsnPrintf(buf: array?<char>, n: int, fmt: string, args: Args) returns (r: int)
    requires buf != null ==> n <= buf.Length
    modifies buf
    ensures buf == null || n < 1 ==> r == -E_INVAL && (buf != null ==> buf[..] == old(buf[..]))
    ensures buf != null && n >= 1 ==>
      var out := Format(fmt, 0, args, 0);
      var m := Min(|out|, n - 1);
      r == |out| && buf[..m] == out[..m] && buf[m] == '\0' && buf[m + 1..] == old(buf[m + 1..])
  {
    if buf == null || n < 1 {
      return -E_INVAL;
    }
    var b := new SprintBuf(buf, n);
    VPrintFmt(b, fmt, args);
    ghost var m := b.pos;
    assert buf[..m] == b.sent[..m] && buf[m..] == b.start[m..] && b.start == old(buf[..]);
    buf[b.pos] := '\0';
    assert buf[m + 1..] == b.start[m + 1..];
    r := b.cnt;
    assert b.sent == Format(fmt, 0, args, 0);
  }
}
