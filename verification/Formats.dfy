/** What a format means: directives as they are documented, written out as text, and what
    the printer of Printf shows for each of them. */
module Formats {
  import opened Printf

  datatype Fill = Blank | Zero | Dash

  datatype Count = Absent | Fixed(n: nat) | Star

  /** %, then optionally # and a fill, a width, a precision after a point, any number of
      l, and the conversion character. */
  datatype Directive = Directive(alt: bool, fill: Fill, width: Count, precision: Count, longs: nat, conv: char)

  datatype Piece = Plain(c: char) | Conv(d: Directive)

  predicate Proper(c: Count) {
    c.Fixed? ==> c.n >= 1
  }

  predicate WellFormed(p: Piece) {
    match p
    case Plain(c) => c != '%'
    case Conv(d) => Proper(d.width) && Proper(d.precision) && d.conv in "cesduopx%"
  }

  // ---------- as text ----------

  function FillChar(f: Fill): char {
    match f case Blank => ' ' case Zero => '0' case Dash => '-'
  }

  /** Each part of a directive, followed by rest. */
  function CountThen(c: Count, rest: string): string {
    match c case Absent => rest case Fixed(n) => Digits(n, 10) + rest case Star => "*" + rest
  }

  function FlagsThen(d: Directive, rest: string): string {
    var fill := if d.fill == Blank then rest else [FillChar(d.fill)] + rest;
    if d.alt then "#" + fill else fill
  }

  function PrecisionThen(c: Count, rest: string): string {
    if c == Absent then rest else "." + CountThen(c, rest)
  }

  function LongsThen(n: nat, rest: string): string {
    if n == 0 then rest else "l" + LongsThen(n - 1, rest)
  }

  function SizesThen(d: Directive, rest: string): string {
    CountThen(d.width, PrecisionThen(d.precision, LongsThen(d.longs, [d.conv] + rest)))
  }

  function DirectiveThen(d: Directive, rest: string): string {
    "%" + FlagsThen(d, SizesThen(d, rest))
  }

  function FormatOf(ps: seq<Piece>): string {
    if ps == [] then ""
    else match ps[0]
         case Plain(c) => [c] + FormatOf(ps[1..])
         case Conv(d) => DirectiveThen(d, FormatOf(ps[1..]))
  }

  // ---------- arguments ----------

  function Stars(c: Count): nat {
    if c == Star then 1 else 0
  }

  /** The index of the argument converted, when the directive begins with argument k: the
      widths and precisions given as arguments come first. */
  function ArgOf(d: Directive, k: nat): nat {
    k + Stars(d.width) + Stars(d.precision)
  }

  function After(p: Piece, k: nat): nat {
    match p
    case Plain(_) => k
    case Conv(d) => if d.conv == '%' then ArgOf(d, k) else ArgOf(d, k) + 1
  }

  function CountValue(c: Count, args: Args, k: nat): int {
    if c.Fixed? then c.n as int else if c.Star? then Wrap(args.ints(k)) else -1
  }

  /** The width asked for; none if it is not positive. */
  function WidthOf(d: Directive, args: Args, k: nat): int {
    var w := CountValue(d.width, args, k);
    if w < 0 && d.precision != Absent then 0 else w
  }

  /** The precision; none if it is negative. */
  function PrecisionOf(d: Directive, args: Args, k: nat): int {
    CountValue(d.precision, args, k + Stars(d.width))
  }

  // ---------- what is shown ----------

  /** A text, with the number and the digits, or the characters, it is about. */
  datatype Shows = Shows(text: string, value: int, core: string)

  /** 32 bits, or 64 from the second l on. */
  function Modulus(longs: nat): nat {
    if longs >= 2 then 0x1_0000_0000_0000_0000 else 0x1_0000_0000
  }

  predicate IsUnsigned(n: int, v: int, m: nat)
    requires m > 0
  {
    0 <= n < m && (v - n) % m == 0
  }

  predicate IsSigned(n: int, v: int, m: nat)
    requires m > 0
  {
    2 * n < m && -2 * n <= m && (v - n) % m == 0
  }

  /** s is the number in that base: no other digits, no capitals, no leading zero. */
  ghost predicate Writes(s: string, base: nat, value: nat) {
    && s != "" && AllDigits(s, base) && ValueOf(s, base, 0) == value
    && (|s| > 1 ==> s[0] != '0') && forall i :: 0 <= i < |s| ==> !('A' <= s[i] <= 'Z')
  }

  /** The core filled up on the left to the width. */
  predicate Filled(text: string, core: string, width: int, fill: char) {
    text == Pad(width - |core|, fill) + core
  }

  ghost predicate ShowsNumber(r: Shows, base: nat, v: int, d: Directive, width: int, prefix: string) {
    && IsUnsigned(r.value, v, Modulus(d.longs)) && Writes(r.core, base, r.value)
    && prefix <= r.text && Filled(r.text[|prefix|..], r.core, width, FillChar(d.fill))
  }

  ghost predicate ShowsSigned(r: Shows, v: int, d: Directive, width: int) {
    && IsSigned(r.value, v, Modulus(d.longs)) && Writes(r.core, 10, if r.value < 0 then -r.value else r.value)
    && (r.value < 0 ==> "-" <= r.text)
    && Filled(if r.value < 0 then r.text[1..] else r.text, r.core, width, FillChar(d.fill))
  }

  ghost predicate ShowsString(r: Shows, p: string, d: Directive, width: int, precision: int) {
    && |r.core| == (if 0 <= precision < |p| then precision else |p|)
    && (forall i :: 0 <= i < |r.core| ==>
         r.core[i] == if d.alt && (p[i] < ' ' || p[i] > '~') then '?' else p[i])
    && if d.fill == Dash then r.text == r.core + Pad(width - |r.core|, ' ')
       else Filled(r.text, r.core, width, FillChar(d.fill))
  }

  ghost predicate ShowsError(r: Shows, v: int) {
    && (IsSigned(r.value, v, Modulus(0)) || IsSigned(-r.value, v, Modulus(0))) && r.value >= 0
    && if 1 <= r.value < MAXERROR then r.text == ErrorString(r.value)
       else "error " <= r.text && r.text[6..] == r.core && Writes(r.core, 10, r.value)
  }

  function StringArg(args: Args, k: nat): string {
    match args.strs(k) case Null => "(null)" case Text(s) => s
  }

  ghost predicate Means(p: Piece, r: Shows, args: Args, k: nat) {
    match p
    case Plain(c) => r.text == [c]
    case Conv(d) =>
      var v, w := args.ints(ArgOf(d, k)), WidthOf(d, args, k);
      if d.conv == 'd' then ShowsSigned(r, v, d, w)
      else if d.conv == 'u' then ShowsNumber(r, 10, v, d, w, "")
      else if d.conv == 'o' then ShowsNumber(r, 8, v, d, w, "")
      else if d.conv == 'x' then ShowsNumber(r, 16, v, d, w, "")
      else if d.conv == 'p' then ShowsNumber(r, 16, v, d.(longs := 0), w, "0x")
      else if d.conv == 'c' then |r.text| == 1 && r.text[0] as int < 256 && (v - r.text[0] as int) % 256 == 0
      else if d.conv == 's' then
        ShowsString(r, StringArg(args, ArgOf(d, k)), d, w, PrecisionOf(d, args, k))
      else if d.conv == 'e' then ShowsError(r, v)
      else r.text == "%"
  }

  // ---------- scanning a directive ----------

  /** s stands in fmt from i on. */
  predicate At(fmt: string, i: nat, s: string) {
    i + |s| <= |fmt| && forall x :: 0 <= x < |s| ==> fmt[i + x] == s[x]
  }

  /** s is what fmt holds from i to the end. */
  predicate Rest(fmt: string, i: nat, s: string) {
    i + |s| == |fmt| && At(fmt, i, s)
  }

  lemma RestChar(fmt: string, i: nat, c: char, s: string)
    requires Rest(fmt, i, [c] + s)
    ensures i < |fmt| && fmt[i] == c && Rest(fmt, i + 1, s)
  {
    var u := [c] + s;
    assert fmt[i + 0] == u[0];
    forall x | 0 <= x < |s| ensures fmt[i + 1 + x] == s[x] {
      assert fmt[i + (x + 1)] == u[x + 1];
    }
  }

  lemma RestSplits(fmt: string, i: nat, s: string, t: string)
    requires Rest(fmt, i, s + t)
    ensures At(fmt, i, s) && Rest(fmt, i + |s|, t)
  {
    var u := s + t;
    forall x | 0 <= x < |s| ensures fmt[i + x] == s[x] {
      assert u[x] == s[x];
    }
    forall x | 0 <= x < |t| ensures fmt[i + |s| + x] == t[x] {
      assert u[|s| + x] == t[x];
    }
  }

  lemma AtFirst(fmt: string, i: nat, s: string)
    requires At(fmt, i, s) && s != ""
    ensures i < |fmt| && fmt[i] == s[0]
  {
    assert fmt[i + 0] == s[0];
  }

  lemma {:induction false} ScanOne(fmt: string, e: Escape, args: Args)
    requires e.at < |fmt| && IsFlag(fmt[e.at])
    ensures Scan(fmt, e, args) == Scan(fmt, Flag(fmt, e, args), args)
  {
  }

  predicate NoDigitAt(fmt: string, i: nat) {
    i < |fmt| ==> !('0' <= fmt[i] <= '9')
  }

  lemma {:induction false} NumberReads(fmt: string, i: nat, s: string, acc: nat)
    requires At(fmt, i, s) && AllDigits(s, 10) && NoDigitAt(fmt, i + |s|)
    ensures NumberAt(fmt, i, acc) == (ValueOf(s, 10, acc), i + |s|)
    decreases |s|
  {
    if s != "" {
      AtFirst(fmt, i, s);
      AtRest(fmt, i, s);
      assert IsDigit(s[0], 10);
      forall x | 0 <= x < |s[1..]| ensures IsDigit(s[1..][x], 10) {
        assert s[1..][x] == s[x + 1];
      }
      NumberReads(fmt, i + 1, s[1..], acc * 10 + DigitOf(s[0]));
    }
  }

  lemma AtRest(fmt: string, i: nat, s: string)
    requires At(fmt, i, s) && s != ""
    ensures At(fmt, i + 1, s[1..])
  {
    forall x | 0 <= x < |s[1..]| ensures fmt[i + 1 + x] == s[1..][x] {
      assert fmt[i + (x + 1)] == s[x + 1];
    }
  }

  lemma {:induction false} DigitsLead(num: nat, base: nat)
    requires Base(base) && num >= 1
    ensures Digits(num, base)[0] != '0'
    decreases num
  {
    if num >= base {
      assert Quot(num, base) >= 1;
      DigitsLead(Quot(num, base), base);
      assert Digits(num, base)[0] == Digits(Quot(num, base), base)[0];
    }
  }

  function CountLength(c: Count): nat {
    match c case Absent => 0 case Fixed(n) => |Digits(n, 10)| case Star => 1
  }

  predicate CountLaid(fmt: string, i: nat, c: Count) {
    && i + CountLength(c) <= |fmt| && NoDigitAt(fmt, i + CountLength(c))
    && (c.Fixed? ==> At(fmt, i, Digits(c.n, 10))) && (c.Star? ==> fmt[i] == '*')
  }

  /** A count, as a width or as a precision. */
  lemma CountScans(fmt: string, e: Escape, args: Args, c: Count)
    requires Proper(c) && c != Absent && CountLaid(fmt, e.at, c)
    ensures var n := if c.Fixed? then c.n else Wrap(args.ints(e.arg));
      Scan(fmt, e, args) == Scan(fmt, Escape(Sized(e.flags, n), e.at + CountLength(c), e.arg + Stars(c)), args)
  {
    if c.Fixed? {
      var s := Digits(c.n, 10);
      AtFirst(fmt, e.at, s);
      DigitsShape(c.n, 10);
      DigitsLead(c.n, 10);
      DigitsValue(c.n, 10);
      assert IsDigit(s[0], 10);
      NumberReads(fmt, e.at, s, 0);
    }
    ScanOne(fmt, e, args);
  }

  lemma {:induction false} LongsScan(fmt: string, e: Escape, args: Args, n: nat)
    requires e.at + n <= |fmt| && forall x :: e.at <= x < e.at + n ==> fmt[x] == 'l'
    ensures Scan(fmt, e, args)
         == Scan(fmt, Escape(e.flags.(lflag := e.flags.lflag + n), e.at + n, e.arg), args)
    decreases n
  {
    if n > 0 {
      ScanOne(fmt, e, args);
      LongsScan(fmt, Flag(fmt, e, args), args, n - 1);
    }
  }

  /** From here on scan is any function that agrees with Scan. */
  ghost predicate Scans(scan: Escape -> Escape, fmt: string, args: Args) {
    forall e: Escape {:trigger Scan(fmt, e, args)} :: e.at <= |fmt| ==> scan(e) == Scan(fmt, e, args)
  }

  lemma OneLeads(fmt: string, e: Escape, args: Args, scan: Escape -> Escape)
    requires Scans(scan, fmt, args) && e.at < |fmt| && IsFlag(fmt[e.at])
    ensures scan(e) == scan(Flag(fmt, e, args))
  {
    ScanOne(fmt, e, args);
  }

  lemma CountLeads(fmt: string, e: Escape, args: Args, c: Count, scan: Escape -> Escape)
    requires Scans(scan, fmt, args) && Proper(c) && c != Absent && CountLaid(fmt, e.at, c)
    ensures var n := if c.Fixed? then c.n else Wrap(args.ints(e.arg));
      scan(e) == scan(Escape(Sized(e.flags, n), e.at + CountLength(c), e.arg + Stars(c)))
  {
    CountScans(fmt, e, args, c);
  }

  lemma LongsLead(fmt: string, e: Escape, args: Args, n: nat, scan: Escape -> Escape)
    requires Scans(scan, fmt, args) && e.at + n <= |fmt| && forall x :: e.at <= x < e.at + n ==> fmt[x] == 'l'
    ensures scan(e) == scan(Escape(e.flags.(lflag := e.flags.lflag + n), e.at + n, e.arg))
  {
    LongsScan(fmt, e, args, n);
  }

  lemma EndLeads(fmt: string, e: Escape, args: Args, scan: Escape -> Escape)
    requires Scans(scan, fmt, args) && e.at < |fmt| && !IsFlag(fmt[e.at])
    ensures scan(e) == e
  {
    assert Scan(fmt, e, args) == e;
  }

  function FlagLength(d: Directive): nat {
    (if d.alt then 1 else 0) + (if d.fill == Blank then 0 else 1)
  }

  predicate FlagsLaid(fmt: string, i: nat, d: Directive) {
    && i + FlagLength(d) <= |fmt| && (d.alt ==> fmt[i] == '#')
    && (d.fill != Blank ==> fmt[i + FlagLength(d) - 1] == FillChar(d.fill))
  }

  lemma FlagsScan(fmt: string, e: Escape, args: Args, d: Directive, scan: Escape -> Escape)
    requires Scans(scan, fmt, args) && FlagsLaid(fmt, e.at, d) && e.flags == NOFLAGS
    ensures scan(e) == scan(Escape(NOFLAGS.(alt := d.alt, padc := FillChar(d.fill)), e.at + FlagLength(d), e.arg))
  {
    var e1 := if d.alt then Escape(NOFLAGS.(alt := true), e.at + 1, e.arg) else e;
    if d.alt {
      OneLeads(fmt, e, args, scan);
    }
    if d.fill != Blank {
      OneLeads(fmt, e1, args, scan);
    }
  }

  /** After the flags, the width. */
  lemma WidthScans(fmt: string, e: Escape, args: Args, c: Count, scan: Escape -> Escape)
    requires Scans(scan, fmt, args) && Proper(c) && CountLaid(fmt, e.at, c)
    requires e.flags.width == e.flags.precision == -1
    ensures var fl := e.flags.(width := CountValue(c, args, e.arg));
      scan(e) == scan(Escape(fl, e.at + CountLength(c), e.arg + Stars(c)))
  {
    if c != Absent {
      CountLeads(fmt, e, args, c, scan);
    } else {
      assert e == Escape(e.flags.(width := -1), e.at, e.arg);
    }
  }

  /** The point makes the next number the precision. */
  lemma PointScans(fmt: string, e: Escape, args: Args, c: Count, scan: Escape -> Escape)
    requires Scans(scan, fmt, args) && e.flags.precision == -1
    requires Proper(c) && c != Absent && e.at < |fmt| && fmt[e.at] == '.' && CountLaid(fmt, e.at + 1, c)
    ensures scan(e)
         == scan(Escape(AfterPoint(e.flags, c, args, e.arg), e.at + 1 + CountLength(c), e.arg + Stars(c)))
  {
    OneLeads(fmt, e, args, scan);
    CountLeads(fmt, Flag(fmt, e, args), args, c, scan);
  }

  predicate SizesLaid(fmt: string, i: nat, d: Directive) {
    var p := i + CountLength(d.width);
    CountLaid(fmt, i, d.width)
    && (d.precision != Absent ==> p < |fmt| && fmt[p] == '.' && CountLaid(fmt, p + 1, d.precision))
  }

  /** The width and the precision, as they are set one after the other. */
  function SizedBy(fl: Flags, d: Directive, args: Args, k: nat): Flags {
    var w := CountValue(d.width, args, k);
    if d.precision == Absent then fl.(width := w, precision := -1)
    else fl.(width := if w < 0 then 0 else w, precision := CountValue(d.precision, args, k + Stars(d.width)))
  }

  /** After the flags, the width and the precision. */
  lemma SizesScan(fmt: string, e: Escape, args: Args, d: Directive, scan: Escape -> Escape)
    requires Scans(scan, fmt, args) && SizesLaid(fmt, e.at, d)
    requires Proper(d.width) && Proper(d.precision) && e.flags.width == e.flags.precision == -1
    ensures scan(e) == scan(Escape(SizedBy(e.flags, d, args, e.arg), e.at + SizeLength(d), ArgOf(d, e.arg)))
  {
    WidthScans(fmt, e, args, d.width, scan);
    SizedInSteps(e.flags, d, args, e.arg);
    if d.precision != Absent {
      var fl := e.flags.(width := CountValue(d.width, args, e.arg));
      PointScans(fmt, Escape(fl, e.at + CountLength(d.width), e.arg + Stars(d.width)), args, d.precision, scan);
    }
  }

  lemma SizedInSteps(flags: Flags, d: Directive, args: Args, k: nat)
    requires flags.precision == -1
    ensures var fl := flags.(width := CountValue(d.width, args, k));
      SizedBy(flags, d, args, k)
        == if d.precision == Absent then fl else AfterPoint(fl, d.precision, args, k + Stars(d.width))
  {
  }

  function AfterPoint(fl: Flags, c: Count, args: Args, k: nat): Flags {
    fl.(width := if fl.width < 0 then 0 else fl.width, precision := CountValue(c, args, k))
  }

  function SizeLength(d: Directive): nat {
    CountLength(d.width) + if d.precision == Absent then 0 else 1 + CountLength(d.precision)
  }

  function Length(d: Directive): nat {
    2 + FlagLength(d) + SizeLength(d) + d.longs
  }

  /** The directive stands at i, part by part. */
  predicate Laid(fmt: string, i: nat, d: Directive) {
    && i < |fmt| && fmt[i] == '%' && FlagsLaid(fmt, i + 1, d) && SizesLaid(fmt, i + 1 + FlagLength(d), d)
    && EndLaid(fmt, i + 1 + FlagLength(d) + SizeLength(d), d)
  }

  predicate EndLaid(fmt: string, i: nat, d: Directive) {
    i + d.longs < |fmt| && fmt[i + d.longs] == d.conv && forall x :: i <= x < i + d.longs ==> fmt[x] == 'l'
  }

  lemma FlagsStand(fmt: string, i: nat, d: Directive, rest: string)
    requires Rest(fmt, i, FlagsThen(d, rest))
    ensures FlagsLaid(fmt, i, d) && Rest(fmt, i + FlagLength(d), rest)
  {
    var fill := if d.fill == Blank then rest else [FillChar(d.fill)] + rest;
    if d.alt {
      RestChar(fmt, i, '#', fill);
    }
    if d.fill != Blank {
      RestChar(fmt, i + if d.alt then 1 else 0, FillChar(d.fill), rest);
    }
  }

  /** No digit follows a count. */
  predicate NoDigitFirst(s: string) {
    s != "" && !('0' <= s[0] <= '9')
  }

  lemma CountStands(fmt: string, i: nat, c: Count, rest: string)
    requires Rest(fmt, i, CountThen(c, rest)) && NoDigitFirst(rest)
    ensures CountLaid(fmt, i, c) && Rest(fmt, i + CountLength(c), rest)
  {
    match c {
      case Absent =>
      case Fixed(n) => RestSplits(fmt, i, Digits(n, 10), rest);
      case Star => RestChar(fmt, i, '*', rest);
    }
    AtFirst(fmt, i + CountLength(c), rest);
  }

  lemma SizesStand(fmt: string, i: nat, d: Directive, rest: string)
    requires Rest(fmt, i, CountThen(d.width, PrecisionThen(d.precision, rest))) && NoDigitFirst(rest)
    ensures SizesLaid(fmt, i, d) && Rest(fmt, i + SizeLength(d), rest)
  {
    CountStands(fmt, i, d.width, PrecisionThen(d.precision, rest));
    if d.precision != Absent {
      RestChar(fmt, i + CountLength(d.width), '.', CountThen(d.precision, rest));
      CountStands(fmt, i + CountLength(d.width) + 1, d.precision, rest);
    }
  }

  lemma {:induction false} LongsStand(fmt: string, i: nat, n: nat, rest: string)
    requires Rest(fmt, i, LongsThen(n, rest))
    ensures i + n <= |fmt| && Rest(fmt, i + n, rest) && forall x :: i <= x < i + n ==> fmt[x] == 'l'
    decreases n
  {
    if n > 0 {
      RestChar(fmt, i, 'l', LongsThen(n - 1, rest));
      LongsStand(fmt, i + 1, n - 1, rest);
    }
  }

  lemma EndStands(fmt: string, i: nat, d: Directive, rest: string)
    requires Rest(fmt, i, LongsThen(d.longs, [d.conv] + rest))
    ensures EndLaid(fmt, i, d) && Rest(fmt, i + d.longs + 1, rest)
  {
    LongsStand(fmt, i, d.longs, [d.conv] + rest);
    RestChar(fmt, i + d.longs, d.conv, rest);
  }

  lemma EndNoDigit(d: Directive, rest: string)
    requires Known(d.conv)
    ensures NoDigitFirst(LongsThen(d.longs, [d.conv] + rest))
  {
  }

  /** A directive that is written out stands there part by part. */
  lemma DirectiveStands(fmt: string, i: nat, d: Directive, rest: string)
    requires Rest(fmt, i, DirectiveThen(d, rest)) && Known(d.conv)
    ensures Laid(fmt, i, d) && Rest(fmt, i + Length(d), rest)
  {
    HeadStands(fmt, i, d, rest);
    TailStands(fmt, i + 1 + FlagLength(d), d, rest);
  }

  lemma HeadStands(fmt: string, i: nat, d: Directive, rest: string)
    requires Rest(fmt, i, DirectiveThen(d, rest))
    ensures i < |fmt| && fmt[i] == '%' && FlagsLaid(fmt, i + 1, d)
    ensures Rest(fmt, i + 1 + FlagLength(d), SizesThen(d, rest))
  {
    RestChar(fmt, i, '%', FlagsThen(d, SizesThen(d, rest)));
    FlagsStand(fmt, i + 1, d, SizesThen(d, rest));
  }

  lemma TailStands(fmt: string, i: nat, d: Directive, rest: string)
    requires Rest(fmt, i, SizesThen(d, rest)) && Known(d.conv)
    ensures SizesLaid(fmt, i, d) && EndLaid(fmt, i + SizeLength(d), d)
    ensures Rest(fmt, i + SizeLength(d) + d.longs + 1, rest)
  {
    SizesEnd(fmt, i, d, rest);
    EndStands(fmt, i + SizeLength(d), d, rest);
  }

  lemma SizesEnd(fmt: string, i: nat, d: Directive, rest: string)
    requires Rest(fmt, i, SizesThen(d, rest)) && Known(d.conv)
    ensures SizesLaid(fmt, i, d) && Rest(fmt, i + SizeLength(d), LongsThen(d.longs, [d.conv] + rest))
  {
    EndNoDigit(d, rest);
    SizesStand(fmt, i, d, LongsThen(d.longs, [d.conv] + rest));
  }

  /** The whole directive is read as it was written. */
  lemma DirectiveScans(fmt: string, i: nat, d: Directive, args: Args, k: nat, scan: Escape -> Escape)
    requires Scans(scan, fmt, args) && WellFormed(Conv(d)) && Laid(fmt, i, d)
    ensures scan(Escape(NOFLAGS, i + 1, k)) == Escape(FlagsOf(d, args, k), i + Length(d) - 1, ArgOf(d, k))
  {
    var fl := NOFLAGS.(alt := d.alt, padc := FillChar(d.fill));
    FlagsScan(fmt, Escape(NOFLAGS, i + 1, k), args, d, scan);
    SizesScan(fmt, Escape(fl, i + 1 + FlagLength(d), k), args, d, scan);
    EndsScan(fmt, i + 1 + FlagLength(d) + SizeLength(d), SizedBy(fl, d, args, k), ArgOf(d, k), args, d, scan);
    FlagsAre(d, args, k);
  }

  lemma FlagsAre(d: Directive, args: Args, k: nat)
    ensures SizedBy(NOFLAGS.(alt := d.alt, padc := FillChar(d.fill)), d, args, k).(lflag := d.longs)
         == FlagsOf(d, args, k)
  {
  }

  /** After the sizes, the letters l and the conversion character. */
  lemma EndsScan(fmt: string, i: nat, fl: Flags, arg: nat, args: Args, d: Directive, scan: Escape -> Escape)
    requires Scans(scan, fmt, args) && EndLaid(fmt, i, d) && Known(d.conv) && fl.lflag == 0
    ensures scan(Escape(fl, i, arg)) == Escape(fl.(lflag := d.longs), i + d.longs, arg)
  {
    LongsLead(fmt, Escape(fl, i, arg), args, d.longs, scan);
    EndLeads(fmt, Escape(fl.(lflag := d.longs), i + d.longs, arg), args, scan);
  }

  // ---------- showing ----------

  lemma {:induction false} DigitsAreLower(num: nat, base: nat)
    requires Base(base)
    ensures forall i :: 0 <= i < |Digits(num, base)| ==> !('A' <= Digits(num, base)[i] <= 'Z')
    decreases num
  {
    if num >= base {
      DigitsAreLower(Quot(num, base), base);
    }
  }

  lemma DigitsWrite(num: nat, base: nat)
    requires Base(base)
    ensures Writes(Digits(num, base), base, num)
  {
    DigitsValue(num, base);
    DigitsShape(num, base);
    DigitsAreLower(num, base);
    if num >= 1 {
      DigitsLead(num, base);
    } else {
      assert Digits(0, base) == [DigitChar(0)];
    }
  }

  lemma NumberShows(num: nat, base: nat, v: int, d: Directive, width: int, prefix: string)
    requires Base(base) && IsUnsigned(num, v, Modulus(d.longs))
    ensures ShowsNumber(Shows(prefix + PrintNum(num, base, width, FillChar(d.fill)), num, Digits(num, base)),
                        base, v, d, width, prefix)
  {
    var t := PrintNum(num, base, width, FillChar(d.fill));
    DigitsWrite(num, base);
    PrintNumIsPadded(num, base, width, FillChar(d.fill));
    assert (prefix + t)[|prefix|..] == t;
  }

  lemma SignedShows(n: int, v: int, d: Directive, fl: Flags)
    requires IsSigned(n, v, Modulus(d.longs)) && fl.padc == FillChar(d.fill)
    ensures ShowsSigned(Shows(RenderInt(n, fl), n, Digits(Magnitude(n), 10)), v, d, fl.width)
  {
    var a := if n < 0 then -n else n;
    DigitsWrite(a, 10);
    PrintNumIsPadded(a, 10, fl.width, fl.padc);
    if n < 0 {
      assert RenderInt(n, fl)[1..] == PrintNum(a, 10, fl.width, fl.padc);
    } else {
      assert RenderInt(n, fl) == PrintNum(a, 10, fl.width, fl.padc);
    }
  }

  lemma {:induction false} ShownChars(p: string, alt: bool, i: nat)
    requires i < |p|
    ensures Shown(p, alt)[i] == if alt && (p[i] < ' ' || p[i] > '~') then '?' else p[i]
    decreases |p|
  {
    if i > 0 {
      ShownChars(p[1..], alt, i - 1);
    }
  }

  lemma StringShows(p: string, d: Directive, fl: Flags)
    requires fl.padc == FillChar(d.fill) && fl.alt == d.alt
    ensures var t := Shown(Cut(p, fl.precision), fl.alt);
      ShowsString(Shows(RenderString(p, fl), 0, t), p, d, fl.width, fl.precision)
  {
    var t := Cut(p, fl.precision);
    forall i | 0 <= i < |t|
      ensures Shown(t, fl.alt)[i] == if d.alt && (p[i] < ' ' || p[i] > '~') then '?' else p[i]
    {
      ShownChars(t, fl.alt, i);
      assert t[i] == p[i];
    }
  }

  lemma ErrorShows(v: int)
    ensures var err := Wrap(v); var e := if err < 0 then -err else err;
      ShowsError(Shows(RenderError(err), e, Digits(e, 10)), v)
  {
    var err := Wrap(v);
    var e := if err < 0 then -err else err;
    WrapIsSigned(v);
    ErrorText(err, e);
    DigitsWrite(e, 10);
  }

  lemma ErrorText(err: int, e: nat)
    requires e == if err < 0 then -err else err
    ensures if 1 <= e < MAXERROR then RenderError(err) == ErrorString(e)
            else "error " <= RenderError(err) && RenderError(err)[6..] == Digits(e, 10)
  {
    if 1 <= e < MAXERROR {
      NamedError(e);
    } else {
      PrintNumIsPadded(e, 10, -1, ' ');
      assert RenderInt(e, NOFLAGS) == Digits(e, 10);
    }
  }

  lemma NamedError(e: nat)
    requires 1 <= e < MAXERROR
    ensures ErrorString(e) != "" && RenderString(ErrorString(e), NOFLAGS) == ErrorString(e)
  {
    var s := ErrorString(e);
    ShownPlain(s);
    assert Pad(-1 - |s|, ' ') == "";
  }

  lemma {:induction false} ShownPlain(s: string)
    ensures Shown(s, false) == s
    decreases |s|
  {
    if s != "" {
      ShownPlain(s[1..]);
    }
  }

  lemma WrapIsSigned(v: int)
    ensures IsSigned(Wrap(v), v, 0x1_0000_0000)
  {
    var y := v + TWO31;
    assert v - Wrap(v) == y - y % 0x1_0000_0000 == y / 0x1_0000_0000 * 0x1_0000_0000;
  }

  lemma GetIntIsSigned(v: int, longs: nat)
    ensures IsSigned(GetInt(v, longs), v, Modulus(longs))
  {
    if longs >= 2 {
      var y := v + 0x8000_0000_0000_0000;
      assert v - GetInt(v, longs) == y / 0x1_0000_0000_0000_0000 * 0x1_0000_0000_0000_0000;
    } else {
      WrapIsSigned(v);
    }
  }

  lemma GetUintIsUnsigned(v: int, longs: nat)
    ensures IsUnsigned(GetUint(v, longs), v, Modulus(longs))
  {
    var m := Modulus(longs);
    assert v - v % m == v / m * m;
  }

  lemma ByteIsLow(v: int)
    ensures Byte(v) as int < 256 && (v - Byte(v) as int) % 256 == 0
  {
    assert v - v % 256 == v / 256 * 256;
  }

  function FlagsOf(d: Directive, args: Args, k: nat): Flags {
    Flags(FillChar(d.fill), WidthOf(d, args, k), PrecisionOf(d, args, k), d.longs, d.alt)
  }

  function Magnitude(n: int): nat {
    if n < 0 then -n else n
  }

  function ShownText(p: Piece, args: Args, k: nat): string {
    match p
    case Plain(c) => [c]
    case Conv(d) => Render(d.conv, FlagsOf(d, args, k), args, ArgOf(d, k))
  }

  /** What the printer shows. */
  function ShowOf(p: Piece, args: Args, k: nat): (r: Shows)
    ensures r.text == ShownText(p, args, k)
  {
    match p
    case Plain(c) => Shows([c], 0, "")
    case Conv(d) =>
      var v, fl := args.ints(ArgOf(d, k)), FlagsOf(d, args, k);
      var text := ShownText(p, args, k);
      if d.conv == 'd' then Shows(text, GetInt(v, d.longs), Digits(Magnitude(GetInt(v, d.longs)), 10))
      else if d.conv == 'u' then Shows(text, GetUint(v, d.longs), Digits(GetUint(v, d.longs), 10))
      else if d.conv == 'o' then Shows(text, GetUint(v, d.longs), Digits(GetUint(v, d.longs), 8))
      else if d.conv == 'x' then Shows(text, GetUint(v, d.longs), Digits(GetUint(v, d.longs), 16))
      else if d.conv == 'p' then Shows(text, GetUint(v, 0), Digits(GetUint(v, 0), 16))
      else if d.conv == 's' then Shows(text, 0, Shown(Cut(StringArg(args, ArgOf(d, k)), fl.precision), fl.alt))
      else if d.conv == 'e' then Shows(text, Magnitude(Wrap(v)), Digits(Magnitude(Wrap(v)), 10))
      else Shows(text, 0, "")
  }

  lemma UnsignedMeans(d: Directive, base: nat, args: Args, k: nat)
    requires Base(base)
    ensures var n, w := GetUint(args.ints(ArgOf(d, k)), d.longs), WidthOf(d, args, k);
      ShowsNumber(Shows(PrintNum(n, base, w, FillChar(d.fill)), n, Digits(n, base)),
                  base, args.ints(ArgOf(d, k)), d, w, "")
  {
    var n, w := GetUint(args.ints(ArgOf(d, k)), d.longs), WidthOf(d, args, k);
    GetUintIsUnsigned(args.ints(ArgOf(d, k)), d.longs);
    NumberShows(n, base, args.ints(ArgOf(d, k)), d, w, "");
    assert "" + PrintNum(n, base, w, FillChar(d.fill)) == PrintNum(n, base, w, FillChar(d.fill));
  }

  /** The printer shows for a directive what it means. */
  lemma ShowOfMeans(p: Piece, args: Args, k: nat)
    requires WellFormed(p)
    ensures Means(p, ShowOf(p, args, k), args, k)
  {
    if p.Conv? {
      var d := p.d;
      var v, fl := args.ints(ArgOf(d, k)), FlagsOf(d, args, k);
      if d.conv == 'd' {
        GetIntIsSigned(v, d.longs);
        SignedShows(GetInt(v, d.longs), v, d, fl);
      } else if d.conv == 'u' {
        UnsignedMeans(d, 10, args, k);
      } else if d.conv == 'o' {
        UnsignedMeans(d, 8, args, k);
      } else if d.conv == 'x' {
        UnsignedMeans(d, 16, args, k);
      } else if d.conv == 'p' {
        GetUintIsUnsigned(v, 0);
        NumberShows(GetUint(v, 0), 16, v, d.(longs := 0), fl.width, "0x");
      } else if d.conv == 'c' {
        ByteIsLow(v);
      } else if d.conv == 's' {
        StringShows(StringArg(args, ArgOf(d, k)), d, fl);
      } else if d.conv == 'e' {
        ErrorShows(v);
      }
    }
  }

  // ---------- whole formats ----------

  function Texts(rs: seq<Shows>): string {
    if rs == [] then "" else rs[0].text + Texts(rs[1..])
  }

  /** Piece by piece, the arguments in order. */
  ghost predicate AllMean(ps: seq<Piece>, rs: seq<Shows>, args: Args, k: nat)
    decreases |ps|
  {
    && |rs| == |ps|
    && (ps != [] ==> Means(ps[0], rs[0], args, k) && AllMean(ps[1..], rs[1..], args, After(ps[0], k)))
  }

  /** The lemmas up to FormatMeans do not depend on what a conversion shows, nor on how a
      format goes on: render and rest are any functions that agree with Render and Format. */
  ghost predicate Renders(render: (char, Flags, Args, nat) -> string) {
    forall c, fl, args, k: nat {:trigger Render(c, fl, args, k)} :: render(c, fl, args, k) == Render(c, fl, args, k)
  }

  ghost predicate Prints(rest: (nat, nat) -> string, fmt: string, args: Args) {
    forall i: nat, k: nat {:trigger Format(fmt, i, args, k)} :: i <= |fmt| ==> rest(i, k) == Format(fmt, i, args, k)
  }

  lemma KnownShows(fmt: string, i: nat, args: Args, k: nat, e: Escape, c: char,
                   render: (char, Flags, Args, nat) -> string, rest: (nat, nat) -> string)
    requires Renders(render) && Prints(rest, fmt, args)
    requires i < |fmt| && fmt[i] == '%' && e == Scan(fmt, Escape(NOFLAGS, i + 1, k), args)
    requires e.at < |fmt| && fmt[e.at] == c && Known(c)
    ensures rest(i, k) == render(c, e.flags, args, e.arg) + rest(e.at + 1, NextArg(c, e.arg))
  {
    FormatKnown(fmt, i, args, k, e);
  }

  lemma PlainShows(fmt: string, i: nat, args: Args, k: nat, rest: (nat, nat) -> string)
    requires Prints(rest, fmt, args) && i < |fmt| && fmt[i] != '%'
    ensures rest(i, k) == [fmt[i]] + rest(i + 1, k)
  {
    FormatChar(fmt, i, args, k);
  }

  function ShownBy(render: (char, Flags, Args, nat) -> string, p: Piece, args: Args, k: nat): string {
    match p
    case Plain(c) => [c]
    case Conv(d) => render(d.conv, FlagsOf(d, args, k), args, ArgOf(d, k))
  }

  lemma DirectiveEscape(fmt: string, i: nat, d: Directive, args: Args, k: nat) returns (e: Escape)
    requires WellFormed(Conv(d)) && Laid(fmt, i, d)
    ensures i + Length(d) <= |fmt| && fmt[i] == '%' && e.at == i + Length(d) - 1 && fmt[e.at] == d.conv
    ensures e == Scan(fmt, Escape(NOFLAGS, i + 1, k), args)
    ensures e.flags == FlagsOf(d, args, k) && e.arg == ArgOf(d, k)
  {
    e := Escape(FlagsOf(d, args, k), i + Length(d) - 1, ArgOf(d, k));
    DirectiveScans(fmt, i, d, args, k, (x: Escape) => if x.at <= |fmt| then Scan(fmt, x, args) else x);
  }

  lemma DirectiveShows(fmt: string, i: nat, d: Directive, args: Args, k: nat,
                       render: (char, Flags, Args, nat) -> string, rest: (nat, nat) -> string)
    requires Renders(render) && Prints(rest, fmt, args) && WellFormed(Conv(d)) && Laid(fmt, i, d)
    ensures i + Length(d) <= |fmt|
    ensures rest(i, k) == ShownBy(render, Conv(d), args, k) + rest(i + Length(d), After(Conv(d), k))
  {
    var e := DirectiveEscape(fmt, i, d, args, k);
    KnownShows(fmt, i, args, k, e, d.conv, render, rest);
  }

  function PieceLength(p: Piece): nat {
    match p case Plain(_) => 1 case Conv(d) => Length(d)
  }

  ghost predicate PieceLaid(fmt: string, i: nat, p: Piece) {
    match p
    case Plain(c) => i < |fmt| && fmt[i] == c
    case Conv(d) => Laid(fmt, i, d)
  }

  /** The pieces stand in fmt from i to the end. */
  ghost predicate AllLaid(fmt: string, i: nat, ps: seq<Piece>)
    decreases |ps|
  {
    if ps == [] then i == |fmt|
    else WellFormed(ps[0]) && PieceLaid(fmt, i, ps[0]) && AllLaid(fmt, i + PieceLength(ps[0]), ps[1..])
  }

  lemma {:induction false} PiecesStand(fmt: string, i: nat, ps: seq<Piece>)
    requires AllFormed(ps) && Rest(fmt, i, FormatOf(ps))
    ensures AllLaid(fmt, i, ps)
    decreases |ps|
  {
    if ps != [] {
      var rest := FormatOf(ps[1..]);
      assert WellFormed(ps[0]);
      match ps[0] {
        case Plain(c) => RestChar(fmt, i, c, rest);
        case Conv(d) => DirectiveStands(fmt, i, d, rest);
      }
      PiecesStand(fmt, i + PieceLength(ps[0]), ps[1..]);
    }
  }

  lemma PieceShows(fmt: string, i: nat, p: Piece, args: Args, k: nat,
                   render: (char, Flags, Args, nat) -> string, rest: (nat, nat) -> string)
    requires Renders(render) && Prints(rest, fmt, args) && WellFormed(p) && PieceLaid(fmt, i, p)
    ensures i + PieceLength(p) <= |fmt|
    ensures rest(i, k) == ShownBy(render, p, args, k) + rest(i + PieceLength(p), After(p, k))
  {
    match p
    case Plain(_) => PlainShows(fmt, i, args, k, rest);
    case Conv(d) => DirectiveShows(fmt, i, d, args, k, render, rest);
  }

  ghost predicate AllFormed(ps: seq<Piece>) {
    forall p :: p in ps ==> WellFormed(p)
  }

  function ShowsOf(ps: seq<Piece>, args: Args, k: nat): seq<Shows>
    decreases |ps|
  {
    if ps == [] then [] else [ShowOf(ps[0], args, k)] + ShowsOf(ps[1..], args, After(ps[0], k))
  }

  lemma {:induction false} ShowsMean(ps: seq<Piece>, args: Args, k: nat)
    requires AllFormed(ps)
    ensures AllMean(ps, ShowsOf(ps, args, k), args, k)
    decreases |ps|
  {
    if ps != [] {
      ShowOfMeans(ps[0], args, k);
      ShowsMean(ps[1..], args, After(ps[0], k));
      assert ShowsOf(ps, args, k)[1..] == ShowsOf(ps[1..], args, After(ps[0], k));
    }
  }

  function AllShown(render: (char, Flags, Args, nat) -> string, ps: seq<Piece>, args: Args, k: nat): string
    decreases |ps|
  {
    if ps == [] then "" else ShownBy(render, ps[0], args, k) + AllShown(render, ps[1..], args, After(ps[0], k))
  }

  lemma {:induction false} ShownAreTexts(render: (char, Flags, Args, nat) -> string, ps: seq<Piece>, args: Args, k: nat)
    requires Renders(render)
    ensures Texts(ShowsOf(ps, args, k)) == AllShown(render, ps, args, k)
    decreases |ps|
  {
    if ps != [] {
      var r, rest := ShowOf(ps[0], args, k), ShowsOf(ps[1..], args, After(ps[0], k));
      ShownAreTexts(render, ps[1..], args, After(ps[0], k));
      TextsCons(r, rest);
      TextIsShown(render, ps[0], args, k);
    }
  }

  lemma TextIsShown(render: (char, Flags, Args, nat) -> string, p: Piece, args: Args, k: nat)
    requires Renders(render)
    ensures ShowOf(p, args, k).text == ShownBy(render, p, args, k)
  {
  }

  lemma TextsCons(r: Shows, rest: seq<Shows>)
    ensures Texts([r] + rest) == r.text + Texts(rest)
  {
    assert ([r] + rest)[1..] == rest;
  }

  lemma {:induction false} PiecesShow(fmt: string, i: nat, ps: seq<Piece>, args: Args, k: nat,
                                      render: (char, Flags, Args, nat) -> string, rest: (nat, nat) -> string)
    requires Renders(render) && Prints(rest, fmt, args) && i <= |fmt| && AllLaid(fmt, i, ps)
    ensures rest(i, k) == AllShown(render, ps, args, k)
    decreases |ps|
  {
    if ps == [] {
      EndShows(fmt, args, k, rest);
    } else {
      PieceShows(fmt, i, ps[0], args, k, render, rest);
      PiecesShow(fmt, i + PieceLength(ps[0]), ps[1..], args, After(ps[0], k), render, rest);
    }
  }

  lemma EndShows(fmt: string, args: Args, k: nat, rest: (nat, nat) -> string)
    requires Prints(rest, fmt, args)
    ensures rest(|fmt|, k) == ""
  {
    assert Format(fmt, |fmt|, args, k) == "";
  }

  /** The output of every format made of plain characters and directives is the texts
      that its pieces mean, in order, each directive taking the next arguments. */
  lemma FormatMeans(ps: seq<Piece>, args: Args) returns (rs: seq<Shows>)
    requires AllFormed(ps)
    ensures AllMean(ps, rs, args, 0) && Format(FormatOf(ps), 0, args, 0) == Texts(rs)
  {
    var fmt := FormatOf(ps);
    PiecesStand(fmt, 0, ps);
    rs := ShowsOf(ps, args, 0);
    ShowsMean(ps, args, 0);
    PrintsAll(fmt, ps, args);
  }

  lemma PrintsAll(fmt: string, ps: seq<Piece>, args: Args)
    requires AllLaid(fmt, 0, ps)
    ensures Format(fmt, 0, args, 0) == Texts(ShowsOf(ps, args, 0))
  {
    var render := (c, fl, a, k: nat) => Render(c, fl, a, k);
    var rest := (i: nat, k: nat) => if i <= |fmt| then Format(fmt, i, args, k) else "";
    PiecesShow(fmt, 0, ps, args, 0, render, rest);
    ShownAreTexts(render, ps, args, 0);
  }

  // ---------- reading back ----------

  /** A number is written in one way only. */
  lemma {:induction false} WritesUnique(s: string, base: nat, value: nat)
    requires Base(base) && Writes(s, base, value)
    ensures s == Digits(value, base)
    decreases |s|
  {
    var h, c := s[..|s| - 1], s[|s| - 1];
    assert s == h + [c] && IsDigit(c, base);
    ValueSnoc(h, c, base, 0);
    var q, d := ValueOf(h, base, 0), DigitOf(c);
    assert DigitChar(d) == c;
    QuotRem(value, base);
    Unique(q, d, value, base);
    QuotRemAreDivMod(value, base);
    if h == "" {
      assert q == 0 && value == d;
    } else {
      assert h[0] == s[0];
      assert AllDigits(h, base) by {
        forall i | 0 <= i < |h| ensures IsDigit(h[i], base) {
          assert h[i] == s[i];
        }
      }
      WritesUnique(h, base, q);
      PositiveLead(h, base);
      assert q * base >= base;
    }
  }

  /** A first digit other than 0 makes the value positive. */
  lemma {:induction false} PositiveLead(s: string, base: nat)
    requires Base(base) && s != "" && AllDigits(s, base) && s[0] != '0'
    ensures ValueOf(s, base, 0) >= 1
  {
    assert IsDigit(s[0], base);
    assert DigitOf(s[0]) >= 1;
    Grows(s[1..], base, DigitOf(s[0]));
  }

  lemma {:induction false} Grows(s: string, base: nat, acc: nat)
    requires base >= 1
    ensures ValueOf(s, base, acc) >= acc
    decreases |s|
  {
    if s != "" {
      assert acc * base >= acc;
      Grows(s[1..], base, acc * base + DigitOf(s[0]));
    }
  }

  /** What %o, %u and %x show for a 32-bit argument, with any width and with blanks or
      zeros, strtol reads back in base 8, 10 and 16, as that argument. */
  lemma ShownReadsBack(d: Directive, r: Shows, args: Args, k: nat, tail: string)
    requires d.conv == 'o' || d.conv == 'u' || d.conv == 'x'
    requires Means(Conv(d), r, args, k) && d.fill != Dash && d.longs < 2 && Stops(tail)
    ensures var base := if d.conv == 'o' then 8 else if d.conv == 'u' then 10 else 16;
      Strtol(r.text + tail, base) == Parsed(Wrap(args.ints(ArgOf(d, k))), |r.text|)
  {
    var base := if d.conv == 'o' then 8 else if d.conv == 'u' then 10 else 16;
    NumberReadsBack(d, base, r, args.ints(ArgOf(d, k)), WidthOf(d, args, k), tail);
  }

  lemma NumberReadsBack(d: Directive, base: nat, r: Shows, v: int, width: int, tail: string)
    requires Base(base) && ShowsNumber(r, base, v, d, width, "") && d.fill != Dash && d.longs < 2 && Stops(tail)
    ensures Strtol(r.text + tail, base) == Parsed(Wrap(v), |r.text|)
  {
    ShownIsPrinted(d, base, r, v, width);
    NumberRoundTrip(r.value, base, width, FillChar(d.fill), tail);
    SameWrap(r.value, v);
  }

  lemma ShownIsPrinted(d: Directive, base: nat, r: Shows, v: int, width: int)
    requires Base(base) && ShowsNumber(r, base, v, d, width, "")
    ensures r.text == PrintNum(r.value, base, width, FillChar(d.fill))
  {
    assert r.text[0..] == r.text;
    WritesUnique(r.core, base, r.value);
    PrintNumIsPadded(r.value, base, width, FillChar(d.fill));
  }

  lemma PrefixedParse(s: string, k: nat, b: int, base: int, value: int, end: nat)
    requires s != "" && '0' <= s[0] <= '9' && k <= |s| && end <= |s|
    requires Prefix(s, 0, base) == (k, b) && Accumulate(s, k, b, 0) == Parsed(value, end)
    ensures Strtol(s, base) == Parsed(value, end)
  {
    assert SkipBlanks(s, 0) == 0;
  }

  /** With base 0 or 16, strtol reads what %p shows. */
  lemma ReadsHex(s: string, num: nat, tail: string, base: nat)
    requires Stops(tail) && (base == 0 || base == 16)
    requires |s| >= 2 && s[0] == '0' && s[1] == 'x' && s[2..] == Digits(num, 16) + tail
    ensures Strtol(s, base) == Parsed(Wrap(num), |s| - |tail|)
  {
    ReadsFrom(s, 2, num, 16, tail);
    PrefixedParse(s, 2, 16, base, Wrap(num), |s| - |tail|);
  }

  /** With base 0 a leading 0 means octal. */
  lemma ReadsOctal(s: string, num: nat, tail: string)
    requires Stops(tail) && |s| >= 1 && s[0] == '0' && s[1..] == Digits(num, 8) + tail
    ensures Strtol(s, 0) == Parsed(Wrap(num), |s| - |tail|)
  {
    ReadsFrom(s, 1, num, 8, tail);
    PrefixedParse(s, 1, 8, 0, Wrap(num), |s| - |tail|);
  }

  /** And any other first digit means decimal. */
  lemma ReadsDecimal(s: string, num: nat, tail: string)
    requires Stops(tail) && num >= 1 && s[0..] == Digits(num, 10) + tail
    ensures Strtol(s, 0) == Parsed(Wrap(num), |s| - |tail|)
  {
    ReadsFrom(s, 0, num, 10, tail);
    DigitsLead(num, 10);
    PrefixedParse(s, 0, 10, 0, Wrap(num), |s| - |tail|);
  }

  const DIGITS := "0123456789"
  const SMALL := "abcdefghijklmnopqrstuvwxyz"
  const CAPITALS := "ABCDEFGHIJKLMNOPQRSTUVWXYZ"

  lemma DigitAt(d: nat)
    requires d < 10
    ensures DIGITS[d] as int == '0' as int + d
  {
  }

  lemma SmallAt(d: nat)
    requires d < 26
    ensures SMALL[d] as int == 'a' as int + d
  {
  }

  lemma CapitalAt(d: nat)
    requires d < 26
    ensures CAPITALS[d] as int == 'A' as int + d
  {
  }

  /** The values of digits, small and capital letters; nothing else is a digit. */
  lemma DigitValues(c: char, d: nat)
    ensures d < 10 ==> (DigitOf(c) == d <==> c == DIGITS[d])
    ensures d < 26 ==> (DigitOf(c) == d + 10 <==> c == SMALL[d] || c == CAPITALS[d])
    ensures DigitOf(c) < 36 || DigitOf(c) == 99
  {
    if d < 10 {
      DigitAt(d);
    }
    if d < 26 {
      SmallAt(d);
      CapitalAt(d);
    }
  }

  predicate Blanks(s: string, b: nat) {
    b <= |s| && forall x :: 0 <= x < b ==> s[x] == ' ' || s[x] == '\t'
  }

  lemma {:induction false} SkipsAll(s: string, i: nat, b: nat)
    requires i <= b && Blanks(s, b) && (b < |s| ==> s[b] != ' ' && s[b] != '\t')
    ensures SkipBlanks(s, i) == b
    decreases b - i
  {
    if i < b {
      SkipsAll(s, i + 1, b);
    }
  }

  /** strtol in general: any blanks and tabs, at most one sign, and digits of the base in
      small or capital letters, up to the first character that is none. */
  lemma StrtolReads(s: string, b: nat, j: nat, e: nat, base: nat)
    requires 2 <= base <= 36 && Blanks(s, b) && j < e <= |s|
    requires j == b || (j == b + 1 && (s[b] == '+' || s[b] == '-'))
    requires AllDigits(s[j..e], base) && (e < |s| ==> !IsDigit(s[e], base))
    requires !(base == 16 && j + 1 < |s| && s[j] == '0' && s[j + 1] == 'x')
    ensures var v := ValueOf(s[j..e], base, 0);
      Strtol(s, base) == Parsed(if j > b && s[b] == '-' then Wrap(-Wrap(v)) else Wrap(v), e)
  {
    DigitsBehind(s, j, e, base);
    SkipsAll(s, 0, b);
    AccumulatesValue(s, j, e, base, 0);
  }

  /** A prefix with no digit after it is read, too. */
  lemma PrefixAlone(base: nat)
    requires base == 0 || base == 16
    ensures Strtol("0x", base) == Parsed(0, 2)
  {
    assert SkipBlanks("0x", 0) == 0;
  }

  lemma SameWrap(x: int, v: int)
    requires (v - x) % 0x1_0000_0000 == 0
    ensures Wrap(x) == Wrap(v)
  {
    var q := (v - x) / 0x1_0000_0000;
    assert v - x == q * 0x1_0000_0000;
    WrapShift(v, q);
  }

  /** The names of the errors of inc/error.h. */
  lemma ErrorNames()
    ensures ErrorString(1) == "unspecified error" && ErrorString(2) == "bad environment"
    ensures ErrorString(3) == "invalid parameter" && ErrorString(4) == "out of memory"
    ensures ErrorString(5) == "out of environments" && ErrorString(6) == "segmentation fault"
    ensures ErrorString(7) == "env is not recving" && ErrorString(8) == "unexpected end of file"
  {
  }
}
