/** The pipelines of the shell in 2-shell: the line parser (parsing.c, utils.c) and the
    wiring of descriptors (exec.c). */
module Shell {
  const NUL: char := '\0'

  datatype Option<T> = None | Some(value: T)

  // ---------- strings ----------

  /** block_contains: the first c, or -1. */
  function IndexOf(s: string, c: char): (i: int)
    ensures -1 <= i < |s| && (i >= 0 ==> s[i] == c)
  {
    if s == "" then -1
    else if s[0] == c then 0
    else if IndexOf(s[1..], c) < 0 then -1
    else IndexOf(s[1..], c) + 1
  }

  lemma {:induction false} NoIndex(s: string, c: char)
    ensures IndexOf(s, c) < 0 <==> c !in s
  {
    if s != "" {
      NoIndex(s[1..], c);
      assert s == [s[0]] + s[1..];
    }
  }

  function SkipSpaces(s: string): (r: string)
    ensures |r| <= |s|
  {
    if s != "" && s[0] == ' ' then SkipSpaces(s[1..]) else s
  }

  // ---------- commands ----------

  /** struct execcmd: argv, eargv and the three redirections; empty when absent. */
  datatype Simple = Simple(argv: seq<string>, eargv: seq<string>, output: string, input: string, error: string,
                           redir: bool)

  datatype Cmd = Exec(cmd: Simple) | Back(cmd: Simple) | Pipe(left: Option<Cmd>, right: Cmd)

  /** get_token: the characters up to a space. */
  function Token(s: string): (t: string)
    ensures t <= s && ' ' !in t && (|t| < |s| ==> s[|t|] == ' ')
  {
    if s == "" || s[0] == ' ' then "" else [s[0]] + Token(s[1..])
  }

  /** One token: redirection, environment variable, or argument.  Expansion of a leading
      dollar sign is the parameter. */
  function Take(c: Simple, tok: string, expand: string -> string): Simple {
    var o := IndexOf(tok, '>');
    if o == 0 then c.(output := tok[1..], redir := true)
    else if o == 1 then c.(error := tok[2..], redir := true)
    else if o > 1 then c.(redir := true)
    else if IndexOf(tok, '<') >= 0 then c.(input := tok[1..], redir := true)
    else if IndexOf(tok, '=') > 0 && IndexOf(tok, '-') < 0 then c.(eargv := c.eargv + [tok])
    else
      var arg := if tok != "" && tok[0] == '$' then expand(tok) else tok;
      if arg == "" then c else c.(argv := c.argv + [arg])
  }

  const EMPTY := Simple([], [], "", "", "", false)

  function Tokens(s: string, c: Simple, expand: string -> string): Simple
    decreases |s|
  {
    if s == "" then c
    else
      var t := Token(s);
      Tokens(if |t| < |s| then s[|t| + 1..] else "", Take(c, t, expand), expand)
  }

  function ParseExec(s: string, expand: string -> string): Simple {
    Tokens(s, EMPTY, expand)
  }

  /** parse_cmd: nothing for the empty string; in the background if there is an
      ampersand that does not follow a redirection. */
  function ParseCmd(s: string, expand: string -> string): Option<Cmd> {
    if s == "" then None
    else
      var i := IndexOf(s, '&');
      if i == 0 || (i > 0 && s[i - 1] != '>') then Some(Back(ParseExec(s[..i], expand)))
      else Some(Exec(ParseExec(s, expand)))
  }

  /** pipe_cmd_create. */
  function PipeCreate(left: Option<Cmd>, right: Option<Cmd>): Option<Cmd> {
    match right
    case None => left
    case Some(r) => Some(Pipe(left, r))
  }

  function Left(s: string): string {
    if IndexOf(s, '|') < 0 then s else s[..IndexOf(s, '|')]
  }

  /** What split_line returns: the rest without leading spaces. */
  function Right(s: string): (r: string)
    ensures |r| < |s| || r == ""
  {
    if IndexOf(s, '|') < 0 then "" else SkipSpaces(s[IndexOf(s, '|') + 1..])
  }

  function ParseLine(s: string, expand: string -> string): Option<Cmd>
    decreases |s|
  {
    var r := Right(s);
    PipeCreate(ParseCmd(Left(s), expand), if IndexOf(r, '|') >= 0 then ParseLine(r, expand) else ParseCmd(r, expand))
  }

  // ---------- pipelines ----------

  /** A command of a pipeline: not empty, without bars, not starting with a space. */
  predicate Plain(c: string) {
    c != "" && c[0] != ' ' && '|' !in c
  }

  function Spaces(n: nat): string {
    if n == 0 then "" else " " + Spaces(n - 1)
  }

  /** c1 | c2 | ... with any number of spaces after each bar. */
  function Line(cs: seq<string>, gaps: seq<nat>): string
    requires |cs| == |gaps|
  {
    if cs == [] then "" else if |cs| == 1 then cs[0] else cs[0] + "|" + Spaces(gaps[0]) + Line(cs[1..], gaps[1..])
  }

  function Simples(cs: seq<string>, expand: string -> string): (r: seq<Cmd>)
    requires forall i :: 0 <= i < |cs| ==> Plain(cs[i])
    ensures |r| == |cs| && forall i :: 0 <= i < |cs| ==> Some(r[i]) == ParseCmd(cs[i], expand)
  {
    if cs == [] then []
    else
      assert Plain(cs[0]);
      [ParseCmd(cs[0], expand).value] + Simples(cs[1..], expand)
  }

  /** The right-nested tree over some leaves. */
  function Nest(leaves: seq<Cmd>): Cmd
    requires |leaves| > 0
  {
    if |leaves| == 1 then leaves[0] else Pipe(Some(leaves[0]), Nest(leaves[1..]))
  }

  lemma {:induction false} SkipsSpaces(n: nat, s: string)
    requires s == "" || s[0] != ' '
    ensures SkipSpaces(Spaces(n) + s) == s
    decreases n
  {
    if n == 0 {
      assert Spaces(0) + s == s;
    } else {
      assert (Spaces(n) + s)[0] == ' ' && (Spaces(n) + s)[1..] == Spaces(n - 1) + s;
      SkipsSpaces(n - 1, s);
    }
  }

  lemma {:induction false} IndexIs(s: string, c: char, k: nat)
    requires k < |s| && s[k] == c && c !in s[..k]
    ensures IndexOf(s, c) == k
    decreases k
  {
    if k > 0 {
      assert s[..k][0] == s[0];
      assert s[1..][..k - 1] == s[..k][1..];
      IndexIs(s[1..], c, k - 1);
    }
  }

  /** The first bar of a line ends its first command. */
  lemma SplitsLine(c: string, n: nat, rest: string, s: string)
    requires '|' !in c && (rest == "" || rest[0] != ' ') && s == c + "|" + Spaces(n) + rest
    ensures Left(s) == c && Right(s) == rest
  {
    assert s[|c|] == '|' && s[..|c|] == c;
    IndexIs(s, '|', |c|);
    var more := s[|c| + 1..];
    assert more == Spaces(n) + rest;
    SkipsSpaces(n, rest);
  }

  /** The parser builds the right-nested tree with the commands of the line as its
      leaves, in order, for every pipeline of non-empty commands. */
  lemma {:induction false} LineParsesToNest(cs: seq<string>, gaps: seq<nat>, expand: string -> string)
    requires |cs| > 0 && |cs| == |gaps| && forall i :: 0 <= i < |cs| ==> Plain(cs[i])
    ensures ParseLine(Line(cs, gaps), expand) == Some(Nest(Simples(cs, expand)))
    ensures Line(cs, gaps) != "" && Line(cs, gaps)[0] != ' '
    ensures '|' in Line(cs, gaps) <==> |cs| > 1
    decreases |cs|
  {
    assert Plain(cs[0]);
    if |cs| == 1 {
      assert Line(cs, gaps) == cs[0];
      assert Left(cs[0]) == cs[0] && Right(cs[0]) == "";
    } else {
      var rest := Line(cs[1..], gaps[1..]);
      LineParsesToNest(cs[1..], gaps[1..], expand);
      SplitsLine(cs[0], gaps[0], rest, Line(cs, gaps));
      assert '|' in Line(cs, gaps) by {
        assert Line(cs, gaps)[|cs[0]|] == '|';
      }
      assert Simples(cs, expand)[1..] == Simples(cs[1..], expand);
      if |cs| == 2 {
        assert rest == cs[1];
        assert Left(rest) == rest && Right(rest) == "";
      }
    }
  }

  /** A command, or nothing: no bars, and no leading space. */
  predicate Part(c: string) {
    '|' !in c && (c == "" || c[0] != ' ')
  }

  /** Left of each bar one command, right of it the rest; what is empty is left out on the
      right, and is a pipe without a command on the left. */
  function NestAll(cs: seq<string>, expand: string -> string): Option<Cmd>
    requires |cs| > 0
  {
    if |cs| == 1 then ParseCmd(cs[0], expand)
    else PipeCreate(ParseCmd(cs[0], expand), NestAll(cs[1..], expand))
  }

  /** What the parser builds for any line at all, empty commands included. */
  lemma {:induction false} LineParses(cs: seq<string>, gaps: seq<nat>, expand: string -> string)
    requires |cs| > 0 && |cs| == |gaps| && forall i :: 0 <= i < |cs| ==> Part(cs[i])
    ensures ParseLine(Line(cs, gaps), expand) == NestAll(cs, expand)
    ensures Line(cs, gaps) == "" || Line(cs, gaps)[0] != ' '
    ensures '|' in Line(cs, gaps) <==> |cs| > 1
    decreases |cs|
  {
    assert Part(cs[0]);
    if |cs| == 1 {
      OnePart(cs[0], expand);
    } else {
      var rest := Line(cs[1..], gaps[1..]);
      LineParses(cs[1..], gaps[1..], expand);
      var s := FirstPart(cs, gaps);
      NoIndex(rest, '|');
      assert |cs| == 2 ==> rest == cs[1];
      assert ParseLine(s, expand) == PipeCreate(ParseCmd(cs[0], expand), NestAll(cs[1..], expand));
    }
  }

  lemma OnePart(c: string, expand: string -> string)
    requires '|' !in c
    ensures ParseLine(c, expand) == ParseCmd(c, expand)
  {
    NoIndex(c, '|');
    assert Left(c) == c && Right(c) == "";
  }

  lemma FirstPart(cs: seq<string>, gaps: seq<nat>) returns (s: string)
    requires |cs| > 1 && |cs| == |gaps| && Part(cs[0])
    requires Line(cs[1..], gaps[1..]) == "" || Line(cs[1..], gaps[1..])[0] != ' '
    ensures s == Line(cs, gaps) && Left(s) == cs[0] && Right(s) == Line(cs[1..], gaps[1..])
    ensures '|' in s && s[0] != ' '
  {
    s := Line(cs, gaps);
    SplitsLine(cs[0], gaps[0], Line(cs[1..], gaps[1..]), s);
    assert s[|cs[0]|] == '|';
  }

  // ---------- words ----------

  lemma {:induction false} TokenIs(s: string, k: nat)
    requires k <= |s| && ' ' !in s[..k] && (k < |s| ==> s[k] == ' ')
    ensures Token(s) == s[..k]
    decreases k
  {
    if k > 0 {
      assert s[..k][0] == s[0] && s[1..][..k - 1] == s[..k][1..];
      TokenIs(s[1..], k - 1);
      assert s[..k] == [s[0]] + s[1..][..k - 1];
    }
  }

  /** A word that is an argument, or stands for one. */
  predicate Word(w: string) {
    w != "" && ' ' !in w && '>' !in w && '<' !in w && '=' !in w
  }

  /** The arguments that words stand for: a variable gives its value, or nothing if that
      is empty, and any other word itself. */
  function Expanded(ws: seq<string>, expand: string -> string): seq<string> {
    if ws == [] then []
    else if ws[0] != "" && ws[0][0] == '$' then
      (if expand(ws[0]) == "" then [] else [expand(ws[0])]) + Expanded(ws[1..], expand)
    else [ws[0]] + Expanded(ws[1..], expand)
  }

  /** Words, each followed by one space or more. */
  function Words(ws: seq<string>, gaps: seq<nat>): string
    requires |ws| == |gaps|
  {
    if ws == [] then "" else ws[0] + (" " + Spaces(gaps[0])) + Words(ws[1..], gaps[1..])
  }

  lemma TakesNothing(c: Simple, expand: string -> string)
    ensures Take(c, "", expand) == c
  {
  }

  lemma TokensSkipSpace(s: string, rest: string, c: Simple, expand: string -> string)
    requires s == " " + rest
    ensures Tokens(s, c, expand) == Tokens(rest, c, expand)
  {
    assert Token(s) == "";
    assert s[1..] == rest;
    TakesNothing(c, expand);
  }

  lemma {:induction false} TokensSkipSpaces(n: nat, s: string, c: Simple, expand: string -> string)
    ensures Tokens(Spaces(n) + s, c, expand) == Tokens(s, c, expand)
    decreases n
  {
    if n == 0 {
      assert Spaces(n) + s == s;
    } else {
      var rest := Spaces(n - 1) + s;
      assert Spaces(n) + s == " " + rest;
      TokensSkipSpaces(n - 1, s, c, expand);
      TokensSkipSpace(Spaces(n) + s, rest, c, expand);
    }
  }

  lemma TakesWord(w: string, c: Simple, expand: string -> string)
    requires Word(w)
    ensures Take(c, w, expand) == c.(argv := c.argv + Expanded([w], expand))
  {
    NoIndex(w, '>');
    NoIndex(w, '<');
    NoIndex(w, '=');
    assert c.argv + [] == c.argv;
  }

  lemma TokensWord(w: string, n: nat, rest: string, s: string, c: Simple, expand: string -> string)
    requires Word(w) && s == w + (" " + Spaces(n)) + rest
    ensures Tokens(s, c, expand) == Tokens(rest, c.(argv := c.argv + Expanded([w], expand)), expand)
  {
    assert s[..|w|] == w && s[|w|] == ' ';
    TokenIs(s, |w|);
    var more := s[|w| + 1..];
    assert more == Spaces(n) + rest;
    TakesWord(w, c, expand);
    var c1 := c.(argv := c.argv + Expanded([w], expand));
    assert Tokens(s, c, expand) == Tokens(more, c1, expand);
    TokensSkipSpaces(n, rest, c1, expand);
  }

  /** parse_exec collects the words of a command as its arguments, in order, however many
      spaces separate them, with variables expanded. */
  lemma {:induction false} WordsAreArguments(ws: seq<string>, gaps: seq<nat>, c: Simple, expand: string -> string)
    requires |ws| == |gaps| && forall i :: 0 <= i < |ws| ==> Word(ws[i])
    ensures Tokens(Words(ws, gaps), c, expand) == c.(argv := c.argv + Expanded(ws, expand))
    decreases |ws|
  {
    if ws == [] {
      assert c.argv + Expanded(ws, expand) == c.argv;
    } else {
      assert Word(ws[0]);
      var c1 := c.(argv := c.argv + Expanded([ws[0]], expand));
      ExpandsFirst(ws, expand);
      assert c1.argv + Expanded(ws[1..], expand) == c.argv + (Expanded([ws[0]], expand) + Expanded(ws[1..], expand));
      WordsAreArguments(ws[1..], gaps[1..], c1, expand);
      TokensWord(ws[0], gaps[0], Words(ws[1..], gaps[1..]), Words(ws, gaps), c, expand);
    }
  }

  lemma ExpandsFirst(ws: seq<string>, expand: string -> string)
    requires ws != []
    ensures Expanded(ws, expand) == Expanded([ws[0]], expand) + Expanded(ws[1..], expand)
  {
    assert [ws[0]][1..] == [];
    assert Expanded([], expand) == [];
  }

  /** A sign that comes third or later redirects nothing, but the token is dropped. */
  lemma DropsLateRedirection(c: Simple, tok: string, k: nat, expand: string -> string)
    requires 2 <= k < |tok| && tok[k] == '>' && '>' !in tok[..k]
    ensures Take(c, tok, expand) == c.(redir := true)
  {
    IndexIs(tok, '>', k);
  }

  /** parse_exec on words alone. */
  lemma WordsOnly(ws: seq<string>, gaps: seq<nat>, expand: string -> string)
    requires |ws| == |gaps| && forall i :: 0 <= i < |ws| ==> Word(ws[i])
    ensures ParseExec(Words(ws, gaps), expand) == Simple(Expanded(ws, expand), [], "", "", "", false)
  {
    WordsAreArguments(ws, gaps, EMPTY, expand);
    assert [] + Expanded(ws, expand) == Expanded(ws, expand);
  }

  /** A word with a dash is an argument even if it has an equals sign, and so is one that
      begins with the equals sign. */
  lemma TakesOption(c: Simple, tok: string, expand: string -> string)
    requires tok != "" && tok[0] != '$' && '>' !in tok && '<' !in tok
    requires '-' in tok || tok[0] == '='
    ensures Take(c, tok, expand) == c.(argv := c.argv + [tok])
  {
    NoIndex(tok, '>');
    NoIndex(tok, '<');
    NoIndex(tok, '-');
  }

  /** Output, error and input redirections and environment settings. */
  lemma TakesRedirection(c: Simple, file: string, expand: string -> string)
    requires '>' !in file && '<' !in file
    ensures Take(c, ">" + file, expand) == c.(output := file, redir := true)
    ensures Take(c, "2>" + file, expand) == c.(error := file, redir := true)
    ensures Take(c, "<" + file, expand) == c.(input := file, redir := true)
  {
    IndexIs(">" + file, '>', 0);
    assert ("2>" + file)[0] == '2' && ("2>" + file)[1..] == ">" + file;
    IndexIs("2>" + file, '>', 1);
    assert '>' !in "<" + file;
    IndexIs("<" + file, '<', 0);
  }

  lemma TakesSetting(c: Simple, key: string, value: string, expand: string -> string)
    requires key != "" && '=' !in key
    requires forall x :: x in key || x in value ==> x != '>' && x != '<' && x != '-'
    ensures Take(c, key + "=" + value, expand) == c.(eargv := c.eargv + [key + "=" + value])
  {
    var tok := key + "=" + value;
    assert tok[..|key|] == key && tok[|key|] == '=';
    IndexIs(tok, '=', |key|);
    NoIndex(tok, '>');
    NoIndex(tok, '<');
    NoIndex(tok, '-');
  }

  /** The first ampersand puts what is before it into the background, unless it belongs
      to a redirection. */
  lemma AmpersandBacks(s: string, rest: string, expand: string -> string)
    requires '&' !in s
    ensures ParseCmd(s + "&" + rest, expand) ==
      if s != "" && s[|s| - 1] == '>' then Some(Exec(ParseExec(s + "&" + rest, expand)))
      else Some(Back(ParseExec(s, expand)))
  {
    var t := s + "&" + rest;
    assert t[..|s|] == s && t[|s|] == '&';
    IndexIs(t, '&', |s|);
  }

  // ---------- the parser as it runs, on the line buffer ----------

  /** The string at a position of a buffer. */
  function StringAt(b: seq<char>, at: nat): string
    requires at <= |b|
    decreases |b| - at
  {
    if at == |b| || b[at] == NUL then "" else [b[at]] + StringAt(b, at + 1)
  }

  /** The buffer holds one string at position at, and zeros from its end on. */
  predicate ZeroFilled(b: seq<char>, at: nat)
    requires at <= |b|
  {
    var end := at + |StringAt(b, at)|;
    end + 1 < |b| && forall i :: end <= i < |b| ==> b[i] == NUL
  }

  lemma {:induction false} StringAtIs(b: seq<char>, at: nat, s: string)
    requires at + |s| < |b| && b[at..at + |s|] == s && NUL !in s && b[at + |s|] == NUL
    ensures StringAt(b, at) == s
    decreases |s|
  {
    if s != "" {
      assert b[at..at + |s|][0] == b[at] == s[0] && s[0] in s;
      assert b[at + 1..at + |s|] == b[at..at + |s|][1..];
      StringAtIs(b, at + 1, s[1..]);
    }
  }

  lemma {:induction false} StringAtHolds(b: seq<char>, at: nat)
    requires at <= |b|
    ensures var s := StringAt(b, at);
      && at + |s| <= |b| && b[at..at + |s|] == s && NUL !in s && (at + |s| < |b| ==> b[at + |s|] == NUL)
      && forall i :: at <= i < at + |s| ==> b[i] == s[i - at] && b[i] != NUL
    decreases |b| - at
  {
    if at < |b| && b[at] != NUL {
      StringAtHolds(b, at + 1);
    }
  }

  /** A terminated string. */
  predicate Terminated(b: seq<char>, at: nat) {
    at <= |b| && at + |StringAt(b, at)| < |b|
  }

  /** Strings only depend on the bytes up to their end. */
  lemma StringAtSame(b: seq<char>, n: seq<char>, at: nat)
    requires Terminated(b, at) && |n| == |b|
    requires forall i :: at <= i <= at + |StringAt(b, at)| ==> n[i] == b[i]
    ensures StringAt(n, at) == StringAt(b, at)
  {
    StringAtHolds(b, at);
    StringAtIs(n, at, StringAt(b, at));
  }

  method BlockContains(buf: array<char>, at: nat, c: char) returns (r: int)
    requires Terminated(buf[..], at) && c != NUL
    ensures r == IndexOf(StringAt(buf[..], at), c)
  {
    ghost var s := StringAt(buf[..], at);
    StringAtHolds(buf[..], at);
    var i := 0;
    while buf[at + i] != NUL
      invariant 0 <= i <= |s| && c !in s[..i]
      decreases |s| - i
    {
      assert buf[at + i] == s[i];
      if buf[at + i] == c {
        IndexIs(s, c, i);
        return i;
      }
      assert s[..i + 1] == s[..i] + [s[i]];
      i := i + 1;
    }
    assert s[..i] == s;
    r := -1;
  }

  lemma {:induction false} SkipSpacesIs(s: string, k: nat)
    requires k <= |s| && (forall i :: 0 <= i < k ==> s[i] == ' ') && (k < |s| ==> s[k] != ' ')
    ensures SkipSpaces(s) == s[k..]
    decreases k
  {
    if k > 0 {
      SkipSpacesIs(s[1..], k - 1);
      assert s[1..][k - 1..] == s[k..];
    }
  }

  /** Where the first loop stops, the line is split. */
  lemma FirstBar(s: string, k: nat)
    requires k <= |s| && '|' !in s[..k] && (k < |s| ==> s[k] == '|')
    ensures |Left(s)| == k && Left(s) == s[..k] && Right(s) == SkipSpaces(After(s, k))
  {
    if k < |s| {
      IndexIs(s, '|', k);
    } else {
      assert s[..k] == s;
      NoIndex(s, '|');
      assert SkipSpaces("") == "";
    }
  }

  /** The first bar of the string at at is at i, or i is its end. */
  predicate BarAt(b: seq<char>, at: nat, i: nat)
    requires at <= |b|
  {
    var s := StringAt(b, at);
    at <= i <= at + |s| && '|' !in s[..i - at] && (i < at + |s| ==> s[i - at] == '|')
  }

  /** The first loop of split_line. */
  method FindBar(buf: array<char>, at: nat) returns (i: nat)
    requires Terminated(buf[..], at)
    ensures BarAt(buf[..], at, i)
  {
    ghost var s := StringAt(buf[..], at);
    StringAtHolds(buf[..], at);
    i := at;
    while buf[i] != '|' && buf[i] != NUL
      invariant at <= i <= at + |s| && '|' !in s[..i - at]
      decreases at + |s| - i
    {
      assert s[..i + 1 - at] == s[..i - at] + [s[i - at]];
      i := i + 1;
    }
  }

  /** The second loop. */
  method PastSpaces(buf: array<char>, at: nat) returns (i: nat)
    requires Terminated(buf[..], at)
    ensures at <= i && Terminated(buf[..], i) && StringAt(buf[..], i) == SkipSpaces(StringAt(buf[..], at))
    ensures i + |StringAt(buf[..], i)| == at + |StringAt(buf[..], at)|
  {
    ghost var s := StringAt(buf[..], at);
    StringAtHolds(buf[..], at);
    i := at;
    while buf[i] == ' '
      invariant at <= i <= at + |s| && forall j :: 0 <= j < i - at ==> s[j] == ' '
      decreases at + |s| - i
    {
      assert i < at + |s| ==> s[i - at] == ' ';
      i := i + 1;
    }
    SkipSpacesIs(s, i - at);
    assert buf[..][i..at + |s|] == s[i - at..];
    StringAtIs(buf[..], i, s[i - at..]);
  }

  /** What comes after position k. */
  function After(s: string, k: nat): string {
    if k < |s| then s[k + 1..] else ""
  }

  /** The buffer after a NUL has been written over the first bar, or over the NUL. */
  lemma Cut(b: seq<char>, at: nat, k: nat)
    requires at <= |b| && ZeroFilled(b, at) && k <= |StringAt(b, at)|
    ensures var s, n := StringAt(b, at), b[at + k := NUL];
      && Terminated(n, at) && StringAt(n, at) == s[..k] && Terminated(n, at + k + 1)
      && StringAt(n, at + k + 1) == After(s, k)
  {
    CutFront(b, at, k);
    CutBack(b, at, k);
  }

  lemma CutFront(b: seq<char>, at: nat, k: nat)
    requires at <= |b| && ZeroFilled(b, at) && k <= |StringAt(b, at)|
    ensures Terminated(b[at + k := NUL], at) && StringAt(b[at + k := NUL], at) == StringAt(b, at)[..k]
  {
    var s, n := StringAt(b, at), b[at + k := NUL];
    StringAtHolds(b, at);
    assert n[at..at + k] == s[..k];
    StringAtIs(n, at, s[..k]);
  }

  lemma CutBack(b: seq<char>, at: nat, k: nat)
    requires at <= |b| && ZeroFilled(b, at) && k <= |StringAt(b, at)|
    ensures var n := b[at + k := NUL];
      Terminated(n, at + k + 1) && StringAt(n, at + k + 1) == After(StringAt(b, at), k)
  {
    var s, n := StringAt(b, at), b[at + k := NUL];
    StringAtHolds(b, at);
    if k < |s| {
      assert n[at + k + 1..at + |s|] == s[k + 1..];
      StringAtIs(n, at + k + 1, s[k + 1..]);
    } else {
      StringAtIs(n, at + k + 1, "");
    }
  }

  /** What split_line leaves: the first command, and the rest from its first character
      that is no space. */
  ghost predicate SplitAt(b: seq<char>, n: seq<char>, at: nat, right: nat)
    requires at <= |b|
  {
    var s := StringAt(b, at);
    && Terminated(n, at) && StringAt(n, at) == Left(s) && at + |StringAt(n, at)| < right
    && Terminated(n, right) && StringAt(n, right) == Right(s)
    && (StringAt(n, right) != "" ==> ZeroFilled(n, right))
  }

  lemma Splits(b: seq<char>, n: seq<char>, at: nat, i: nat, right: nat)
    requires at <= |b| && ZeroFilled(b, at) && BarAt(b, at, i) && i < |b| && n == b[i := NUL]
    requires i < right && Terminated(n, right) && StringAt(n, right) == SkipSpaces(StringAt(n, i + 1))
    requires right + |StringAt(n, right)| == i + 1 + |StringAt(n, i + 1)|
    ensures SplitAt(b, n, at, right)
  {
    Cut(b, at, i - at);
    FirstBar(StringAt(b, at), i - at);
  }

  lemma CutEnds(b: seq<char>, at: nat, i: nat)
    requires at <= |b| && ZeroFilled(b, at) && BarAt(b, at, i)
    ensures i < |b| && Terminated(b[i := NUL], i + 1)
  {
    Cut(b, at, i - at);
  }

  method SplitLine(buf: array<char>, at: nat) returns (right: nat)
    requires at <= buf.Length && ZeroFilled(buf[..], at)
    modifies buf
    ensures SplitAt(old(buf[..]), buf[..], at, right)
  {
    ghost var b := buf[..];
    var i := FindBar(buf, at);
    CutEnds(b, at, i);
    buf[i] := NUL;
    assert buf[..] == b[i := NUL];
    right := PastSpaces(buf, i + 1);
    Splits(b, buf[..], at, i, right);
  }

  lemma Suffix(b: seq<char>, at: nat, k: nat)
    requires Terminated(b, at) && k <= |StringAt(b, at)|
    ensures Terminated(b, at + k) && StringAt(b, at + k) == StringAt(b, at)[k..]
  {
    var s := StringAt(b, at);
    StringAtHolds(b, at);
    assert b[at + k..at + |s|] == s[k..];
    StringAtIs(b, at + k, s[k..]);
  }

  method GetToken(buf: array<char>, idx: nat) returns (tok: string)
    requires Terminated(buf[..], idx)
    ensures tok == Token(StringAt(buf[..], idx))
  {
    ghost var s := StringAt(buf[..], idx);
    StringAtHolds(buf[..], idx);
    tok := "";
    while buf[idx + |tok|] != ' ' && buf[idx + |tok|] != NUL
      invariant |tok| <= |s| && tok == s[..|tok|] && ' ' !in tok
      decreases |s| - |tok|
    {
      tok := tok + [buf[idx + |tok|]];
    }
    TokenIs(s, |tok|);
  }

  /** One token, and where the next one starts. */
  method NextToken(buf: array<char>, idx: nat) returns (tok: string, next: nat)
    requires Terminated(buf[..], idx)
    ensures tok == Token(StringAt(buf[..], idx)) && Terminated(buf[..], next)
    ensures var s := StringAt(buf[..], idx); StringAt(buf[..], next) == if |tok| < |s| then s[|tok| + 1..] else ""
  {
    ghost var s := StringAt(buf[..], idx);
    tok := GetToken(buf, idx);
    StringAtHolds(buf[..], idx);
    next := idx + |tok|;
    Suffix(buf[..], idx, |tok|);
    if buf[next] != NUL {
      next := next + 1;
      Suffix(buf[..], idx, |tok| + 1);
    }
  }

  method ParseExecAt(buf: array<char>, at: nat, expand: string -> string) returns (c: Simple)
    requires Terminated(buf[..], at)
    ensures c == ParseExec(StringAt(buf[..], at), expand)
  {
    ghost var s := StringAt(buf[..], at);
    c := EMPTY;
    var idx := at;
    while buf[idx] != NUL
      invariant Terminated(buf[..], idx)
      invariant Tokens(StringAt(buf[..], idx), c, expand) == Tokens(s, EMPTY, expand)
      decreases |StringAt(buf[..], idx)|
    {
      var tok, next := NextToken(buf, idx);
      c := Take(c, tok, expand);
      idx := next;
    }
  }

  /** Outside lo..hi the buffer has not changed. */
  predicate Outside(b: seq<char>, n: seq<char>, lo: int, hi: int) {
    |n| == |b| && forall i :: 0 <= i < |b| && !(lo <= i < hi) ==> n[i] == b[i]
  }

  method ParseBackAt(buf: array<char>, at: nat, i: nat, expand: string -> string) returns (c: Simple)
    requires Terminated(buf[..], at) && IndexOf(StringAt(buf[..], at), '&') == i
    modifies buf
    ensures c == ParseExec(old(StringAt(buf[..], at))[..i], expand)
    ensures Outside(old(buf[..]), buf[..], at, at + |old(StringAt(buf[..], at))|)
  {
    ghost var s := StringAt(buf[..], at);
    StringAtHolds(buf[..], at);
    ghost var b := buf[..];
    buf[at + i] := NUL;
    ghost var n := buf[..];
    assert n == b[at + i := NUL];
    assert n[at..at + i] == s[..i];
    StringAtIs(n, at, s[..i]);
    c := ParseExecAt(buf, at, expand);
  }

  method ParseCmdAt(buf: array<char>, at: nat, expand: string -> string) returns (c: Option<Cmd>)
    requires Terminated(buf[..], at)
    modifies buf
    ensures c == ParseCmd(old(StringAt(buf[..], at)), expand)
    ensures Outside(old(buf[..]), buf[..], at, at + |old(StringAt(buf[..], at))|)
  {
    StringAtHolds(buf[..], at);
    if buf[at] == NUL {
      return None;
    }
    var i := BlockContains(buf, at, '&');
    if i == 0 || (i > 0 && buf[at + i - 1] != '>') {
      var e := ParseBackAt(buf, at, i, expand);
      c := Some(Back(e));
    } else {
      var e := ParseExecAt(buf, at, expand);
      c := Some(Exec(e));
    }
  }

  method ParseLineAt(buf: array<char>, at: nat, expand: string -> string) returns (c: Option<Cmd>)
    requires at <= buf.Length && ZeroFilled(buf[..], at)
    modifies buf
    ensures c == ParseLine(old(StringAt(buf[..], at)), expand)
    decreases |StringAt(buf[..], at)|
  {
    ghost var s := StringAt(buf[..], at);
    var right := SplitLine(buf, at);
    ghost var b, r := buf[..], StringAt(buf[..], right);
    var left := ParseCmdAt(buf, at, expand);
    StringAtSame(b, buf[..], right);
    var bar := BlockContains(buf, right, '|');
    var rest: Option<Cmd>;
    if bar >= 0 {
      rest := ParseLineAt(buf, right, expand);
    } else {
      rest := ParseCmdAt(buf, right, expand);
    }
    c := match rest case None => left case Some(cmd) => Some(Pipe(left, cmd));
  }

  // ---------- descriptors ----------

  /** What a descriptor refers to: one of the three the shell started with, or an end of
      a pipe. */
  datatype End = Origin(n: nat) | ReadEnd(pipe: nat) | WriteEnd(pipe: nat)

  type Fds = map<nat, End>

  /** The lowest descriptor from i on that is not open. */
  function Lowest(t: Fds, i: nat): (r: nat)
    ensures r !in t && i <= r && forall j :: i <= j < r ==> j in t
    decreases set x | x in t && x >= i
  {
    if i !in t then i
    else
      var above, more := set x | x in t && x >= i, set x | x in t && x >= i + 1;
      assert i in above && i !in more && more <= above;
      Lowest(t, i + 1)
  }

  /** pipe, dup2 and close. */
  function OpenPipe(t: Fds, id: nat): (r: (Fds, nat, nat)) {
    var a := Lowest(t, 0);
    var t1 := t[a := ReadEnd(id)];
    var b := Lowest(t1, 0);
    (t1[b := WriteEnd(id)], a, b)
  }

  function Dup2(t: Fds, from: nat, to: nat): Fds {
    if from in t then t[to := t[from]] else t
  }

  function Close(t: Fds, fd: nat): Fds {
    t - {fd}
  }

  /** A process after setup: a leaf about to run its command, or a parent waiting for
      its two children. */
  datatype Process = Leaf(cmd: Cmd, fds: Fds) | Manager(fds: Fds)

  function Pipes(cmd: Cmd): nat {
    match cmd
    case Pipe(Some(l), r) => 1 + Pipes(l) + Pipes(r)
    case Pipe(None, r) => 1 + Pipes(r)
    case _ => 0
  }

  /** No pipe without a left command; executing one would dereference NULL. */
  predicate Complete(cmd: Cmd) {
    cmd.Pipe? ==> cmd.left.Some? && Complete(cmd.left.value) && Complete(cmd.right)
  }

  function LeftFds(t: Fds, id: nat): Fds {
    var (p, a, b) := OpenPipe(t, id);
    Close(Dup2(Close(p, a), b, 1), b)
  }

  function RightFds(t: Fds, id: nat): Fds {
    var (p, a, b) := OpenPipe(t, id);
    Close(Dup2(Close(p, b), a, 0), a)
  }

  function ManagerFds(t: Fds, id: nat): Fds {
    var (p, a, b) := OpenPipe(t, id);
    Close(Close(p, a), b)
  }

  /** exec_cmd in a process with table t, numbering pipes from id on: the processes that
      remain once all forks are done. */
  function ExecCmd(cmd: Cmd, t: Fds, id: nat): seq<Process>
    requires Complete(cmd)
  {
    if !cmd.Pipe? then [Leaf(cmd, t)]
    else
      ExecCmd(cmd.left.value, LeftFds(t, id), id + 1)
      + ExecCmd(cmd.right, RightFds(t, id), id + 1 + Pipes(cmd.left.value))
      + [Manager(ManagerFds(t, id))]
  }

  // ---------- the wiring of a pipeline ----------

  /** Exactly the three standard descriptors. */
  function Standard(input: End, output: End, error: End): Fds {
    map[0 := input, 1 := output, 2 := error]
  }

  lemma LowestIsThree(t: Fds)
    requires t.Keys == {0, 1, 2}
    ensures Lowest(t, 0) == 3
  {
    assert 0 in t && 1 in t && 2 in t && 3 !in t;
  }

  lemma LowestIsFour(t: Fds)
    requires t.Keys == {0, 1, 2, 3}
    ensures Lowest(t, 0) == 4
  {
    assert 0 in t && 1 in t && 2 in t && 3 in t && 4 !in t;
  }

  /** With only the standard descriptors open, the new pipe takes 3 and 4, and each
      process keeps exactly its standard descriptors. */
  lemma WiresOnePipe(input: End, output: End, error: End, id: nat)
    ensures var t := Standard(input, output, error);
      && OpenPipe(t, id).1 == 3 && OpenPipe(t, id).2 == 4
      && LeftFds(t, id) == Standard(input, WriteEnd(id), error)
      && RightFds(t, id) == Standard(ReadEnd(id), output, error)
      && ManagerFds(t, id) == t
  {
    var t := Standard(input, output, error);
    LowestIsThree(t);
    LowestIsFour(t[3 := ReadEnd(id)]);
    var (p, a, b) := OpenPipe(t, id);
    assert p == t[3 := ReadEnd(id)][4 := WriteEnd(id)];
  }

  /** The input of the k-th command from pipe id on, and its output if there are n. */
  function InputOf(k: nat, id: nat, input: End): End {
    if k == 0 then input else ReadEnd(id + k - 1)
  }

  function OutputOf(k: nat, n: nat, id: nat, output: End): End {
    if k + 1 == n then output else WriteEnd(id + k)
  }

  predicate Leaves(cs: seq<Cmd>) {
    forall i :: 0 <= i < |cs| ==> !cs[i].Pipe?
  }

  /** Leaf k is wired to its neighbours' pipes; then come the parents, the innermost
      first, each with the input of its part of the pipeline and the output of all. */
  function Wired(cs: seq<Cmd>, id: nat, input: End, output: End, error: End): (ps: seq<Process>)
    requires |cs| > 0
    ensures |ps| == 2 * |cs| - 1
  {
    seq(2 * |cs| - 1, i requires 0 <= i < 2 * |cs| - 1 =>
      if i < |cs| then Leaf(cs[i], Standard(InputOf(i, id, input), OutputOf(i, |cs|, id, output), error))
      else Manager(Standard(InputOf(2 * |cs| - 2 - i, id, input), output, error)))
  }

  lemma {:induction false} NestComplete(cs: seq<Cmd>)
    requires |cs| > 0 && Leaves(cs)
    ensures Complete(Nest(cs)) && Pipes(cs[0]) == 0
    decreases |cs|
  {
    if |cs| > 1 {
      assert !cs[0].Pipe?;
      NestComplete(cs[1..]);
    }
  }

  lemma WiredStep(cs: seq<Cmd>, id: nat, input: End, output: End, error: End)
    requires |cs| > 1
    ensures Wired(cs, id, input, output, error) ==
      [Leaf(cs[0], Standard(input, WriteEnd(id), error))]
      + Wired(cs[1..], id + 1, ReadEnd(id), output, error)
      + [Manager(Standard(input, output, error))]
  {
    var n, all := |cs|, Wired(cs, id, input, output, error);
    var rest := Wired(cs[1..], id + 1, ReadEnd(id), output, error);
    forall i | 1 <= i < 2 * n - 2 ensures all[i] == rest[i - 1] {
      WiredTail(cs, id, input, output, error, i);
    }
    assert all == [all[0]] + all[1..2 * n - 2] + [all[2 * n - 2]];
    assert all[1..2 * n - 2] == rest;
  }

  lemma WiredTail(cs: seq<Cmd>, id: nat, input: End, output: End, error: End, i: nat)
    requires |cs| > 1 && 1 <= i < 2 * |cs| - 2
    ensures Wired(cs, id, input, output, error)[i]
         == Wired(cs[1..], id + 1, ReadEnd(id), output, error)[i - 1]
  {
    var n := |cs|;
    assert i < n ==> InputOf(i, id, input) == InputOf(i - 1, id + 1, ReadEnd(id));
    assert i >= n ==> InputOf(2 * n - 2 - i, id, input) == InputOf(2 * n - 3 - i, id + 1, ReadEnd(id));
  }

  lemma ExecNest(cs: seq<Cmd>, t: Fds, id: nat)
    requires |cs| > 1 && Leaves(cs)
    ensures Complete(Nest(cs)) && Complete(Nest(cs[1..]))
    ensures ExecCmd(Nest(cs), t, id) ==
      [Leaf(cs[0], LeftFds(t, id))] + ExecCmd(Nest(cs[1..]), RightFds(t, id), id + 1) + [Manager(ManagerFds(t, id))]
  {
    NestComplete(cs);
    NestComplete(cs[1..]);
    assert !cs[0].Pipe?;
    assert ExecCmd(cs[0], LeftFds(t, id), id + 1) == [Leaf(cs[0], LeftFds(t, id))];
  }

  /** Executing a pipeline with only descriptors 0 to 2 open gives each command exactly
      descriptors 0 to 2, wired to the pipes of its neighbours. */
  lemma {:induction false} PipelineIsWired(cs: seq<Cmd>, id: nat, input: End, output: End, error: End)
    requires |cs| > 0 && Leaves(cs)
    ensures Complete(Nest(cs))
    ensures ExecCmd(Nest(cs), Standard(input, output, error), id) == Wired(cs, id, input, output, error)
    decreases |cs|
  {
    NestComplete(cs);
    var t := Standard(input, output, error);
    if |cs| == 1 {
      assert Wired(cs, id, input, output, error) == [Leaf(cs[0], t)];
    } else {
      ExecNest(cs, t, id);
      WiresOnePipe(input, output, error, id);
      PipelineIsWired(cs[1..], id + 1, ReadEnd(id), output, error);
      WiredStep(cs, id, input, output, error);
    }
  }

  predicate Holds(p: Process, e: End) {
    exists fd :: fd in p.fds && p.fds[fd] == e
  }

  lemma HoldsStandard(p: Process, input: End, output: End, error: End, e: End)
    requires p.fds == Standard(input, output, error)
    ensures Holds(p, e) <==> e == input || e == output || e == error
  {
    assert 0 in p.fds && 1 in p.fds && 2 in p.fds;
    assert p.fds[0] == input && p.fds[1] == output && p.fds[2] == error;
  }

  lemma WiredHolds(cs: seq<Cmd>, k: nat, i: nat)
    requires |cs| > 0 && k + 1 < |cs| && i < 2 * |cs| - 1
    ensures Holds(Wired(cs, 0, Origin(0), Origin(1), Origin(2))[i], WriteEnd(k)) <==> i == k
  {
    var n := |cs|;
    var p := Wired(cs, 0, Origin(0), Origin(1), Origin(2))[i];
    if i < n {
      HoldsStandard(p, InputOf(i, 0, Origin(0)), OutputOf(i, n, 0, Origin(1)), Origin(2), WriteEnd(k));
    } else {
      HoldsStandard(p, InputOf(2 * n - 2 - i, 0, Origin(0)), Origin(1), Origin(2), WriteEnd(k));
    }
  }

  /** Once setup is done, command k is the only process that holds the write end of pipe
      k, so that its reader sees the end of file when the command ends. */
  lemma OneWriterPerPipe(cs: seq<Cmd>, k: nat, i: nat)
    requires |cs| > 0 && Leaves(cs) && k + 1 < |cs| && i < 2 * |cs| - 1
    ensures Complete(Nest(cs))
    ensures var ps := ExecCmd(Nest(cs), Standard(Origin(0), Origin(1), Origin(2)), 0);
      i < |ps| && (Holds(ps[i], WriteEnd(k)) <==> i == k)
  {
    PipelineIsWired(cs, 0, Origin(0), Origin(1), Origin(2));
    WiredHolds(cs, k, i);
  }

  /** From the line to the processes. */
  lemma LineRunsWired(cs: seq<string>, gaps: seq<nat>, expand: string -> string)
    requires |cs| > 0 && |cs| == |gaps| && forall i :: 0 <= i < |cs| ==> Plain(cs[i])
    ensures var c := ParseLine(Line(cs, gaps), expand);
      && c.Some? && Complete(c.value)
      && ExecCmd(c.value, Standard(Origin(0), Origin(1), Origin(2)), 0)
         == Wired(Simples(cs, expand), 0, Origin(0), Origin(1), Origin(2))
  {
    assert ParseLine(Line(cs, gaps), expand) == Some(Nest(Simples(cs, expand))) by {
      LineParsesToNest(cs, gaps, expand);
    }
    SimplesAreLeaves(cs, expand);
    PipelineIsWired(Simples(cs, expand), 0, Origin(0), Origin(1), Origin(2));
  }

  lemma SimplesAreLeaves(cs: seq<string>, expand: string -> string)
    requires forall i :: 0 <= i < |cs| ==> Plain(cs[i])
    ensures Leaves(Simples(cs, expand))
  {
    forall i | 0 <= i < |cs| ensures !Simples(cs, expand)[i].Pipe? {
      assert Some(Simples(cs, expand)[i]) == ParseCmd(cs[i], expand);
    }
  }

  // ---------- the wiring as it runs ----------

  /** The descriptor table of a process. */
  class Descriptors {
    var fds: Fds

    /** A fork copies the table. */
    constructor (t: Fds)
      ensures fds == t
    {
      fds := t;
    }

    /** pipe. */
    method OpenEnds(id: nat) returns (a: nat, b: nat)
      modifies this
      ensures fds == OpenPipe(old(fds), id).0 && a == OpenPipe(old(fds), id).1 && b == OpenPipe(old(fds), id).2
    {
      a := Lowest(fds, 0);
      fds := fds[a := ReadEnd(id)];
      b := Lowest(fds, 0);
      fds := fds[b := WriteEnd(id)];
    }

    method Duplicate(from: nat, to: nat)
      modifies this
      ensures fds == Dup2(old(fds), from, to)
    {
      if from in fds {
        fds := fds[to := fds[from]];
      }
    }

    method CloseOne(fd: nat)
      modifies this
      ensures fds == Close(old(fds), fd)
    {
      fds := fds - {fd};
    }
  }

  /** exec_cmd; a forked child is a recursive call on a copy of the table. */
  method Execute(cmd: Cmd, d: Descriptors, id: nat) returns (ps: seq<Process>)
    requires Complete(cmd)
    modifies d
    ensures ps == ExecCmd(cmd, old(d.fds), id)
    decreases cmd, 1
  {
    match cmd
    case Exec(_) => ps := [Leaf(cmd, d.fds)];
    case Back(_) => ps := [Leaf(cmd, d.fds)];
    case Pipe(l, r) => ps := ExecutePipe(l.value, r, d, id);
  }

  method ExecutePipe(l: Cmd, r: Cmd, d: Descriptors, id: nat) returns (ps: seq<Process>)
    requires Complete(l) && Complete(r)
    modifies d
    ensures ps == ExecCmd(Pipe(Some(l), r), old(d.fds), id)
    decreases Pipe(Some(l), r), 0
  {
    ghost var t := d.fds;
    var a, b := d.OpenEnds(id);
    var ls := RunLeft(l, d, a, b, id, t);
    var rs := RunRight(r, d, a, b, id, t, l);
    CloseBoth(d, a, b, t, id);
    ps := ls + rs + [Manager(d.fds)];
    PipeRuns(l, r, t, id);
  }

  lemma {:induction false} PipeRuns(l: Cmd, r: Cmd, t: Fds, id: nat)
    requires Complete(l) && Complete(r)
    ensures ExecCmd(Pipe(Some(l), r), t, id)
         == ExecCmd(l, LeftFds(t, id), id + 1) + ExecCmd(r, RightFds(t, id), id + 1 + Pipes(l))
            + [Manager(ManagerFds(t, id))]
  {
  }

  /** The left child: its own copy of the table, with the pipe's write end as output. */
  method RunLeft(l: Cmd, d: Descriptors, a: nat, b: nat, id: nat, ghost t: Fds) returns (ps: seq<Process>)
    requires Complete(l) && d.fds == OpenPipe(t, id).0 && a == OpenPipe(t, id).1 && b == OpenPipe(t, id).2
    ensures ps == ExecCmd(l, LeftFds(t, id), id + 1)
    decreases l, 2
  {
    var child := new Descriptors(d.fds);
    child.CloseOne(a);
    child.Duplicate(b, 1);
    child.CloseOne(b);
    assert child.fds == LeftFds(t, id);
    ps := Execute(l, child, id + 1);
  }

  /** The right child: with the pipe's read end as input. */
  method RunRight(r: Cmd, d: Descriptors, a: nat, b: nat, id: nat, ghost t: Fds, l: Cmd) returns (ps: seq<Process>)
    requires Complete(r) && d.fds == OpenPipe(t, id).0 && a == OpenPipe(t, id).1 && b == OpenPipe(t, id).2
    ensures ps == ExecCmd(r, RightFds(t, id), id + 1 + Pipes(l))
    decreases r, 2
  {
    var child := new Descriptors(d.fds);
    child.CloseOne(b);
    child.Duplicate(a, 0);
    child.CloseOne(a);
    assert child.fds == RightFds(t, id);
    ps := Execute(r, child, id + 1 + Pipes(l));
  }

  method CloseBoth(d: Descriptors, a: nat, b: nat, ghost t: Fds, ghost id: nat)
    requires d.fds == OpenPipe(t, id).0 && a == OpenPipe(t, id).1 && b == OpenPipe(t, id).2
    modifies d
    ensures d.fds == ManagerFds(t, id)
  {
    d.CloseOne(a);
    d.CloseOne(b);
  }
}
