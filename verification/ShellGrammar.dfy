/** The shell's language: commands as trees, the grammar of their tokens, and a parser
    on token sequences that is proved to recognise exactly the grammar. */
module ShellGrammar {

  const MAXARGS: nat := 10
  const O_RDONLY: nat := 0
  const O_WRONLY: nat := 1
  const O_CREATE: nat := 0x200

  /** A stretch of the line, from its first character to just past its last. */
  datatype Word = Word(q: nat, eq: nat)

  datatype Cmd =
    | Exec(args: seq<Word>)
    | Redir(cmd: Cmd, file: Word, mode: nat, fd: nat)
    | Pipe(left: Cmd, right: Cmd)
    | List(left: Cmd, right: Cmd)
    | Back(cmd: Cmd)

  /** A token: a word, one of the symbols, or `>>`. */
  datatype Tok = W(w: Word) | Sym(c: char) | Append

  datatype Redirection = Redirection(file: Word, mode: nat, fd: nat)

  predicate IsArrow(t: Tok) { t == Sym('<') || t == Sym('>') || t == Append }

  /** What ends the arguments of a program. */
  predicate IsStop(t: Tok) { t == Sym('|') || t == Sym(')') || t == Sym('&') || t == Sym(';') }

  function RedirOf(t: Tok, file: Word): Redirection {
    if t == Sym('<') then Redirection(file, O_RDONLY, 0) else Redirection(file, O_WRONLY + O_CREATE, 1)
  }

  /** A command inside its redirections, the first one innermost. */
  function Wrapped(c: Cmd, rs: seq<Redirection>): Cmd {
    if rs == [] then c
    else var last := rs[|rs| - 1]; Redir(Wrapped(c, rs[..|rs| - 1]), last.file, last.mode, last.fd)
  }

  // ---- the grammar -------------------------------------------------------

  /** line: commands separated by `;`, each with any number of `&` behind it. */
  ghost predicate IsLine(ts: seq<Tok>, c: Cmd)
    decreases |ts|, 3
  {
    || IsBacks(ts, c)
    || (c.List? && exists m | 0 <= m < |ts| ::
          ts[m] == Sym(';') && IsBacks(ts[..m], c.left) && IsLine(ts[m + 1..], c.right))
  }

  ghost predicate IsBacks(ts: seq<Tok>, c: Cmd)
    decreases |ts|, 2
  {
    || IsPipe(ts, c)
    || (c.Back? && ts != [] && ts[|ts| - 1] == Sym('&') && IsBacks(ts[..|ts| - 1], c.cmd))
  }

  /** pipe: programs and blocks separated by `|`. */
  ghost predicate IsPipe(ts: seq<Tok>, c: Cmd)
    decreases |ts|, 1
  {
    || IsExec(ts, c)
    || (c.Pipe? && exists m | 0 <= m < |ts| ::
          ts[m] == Sym('|') && IsExec(ts[..m], c.left) && IsPipe(ts[m + 1..], c.right))
  }

  /** A program, or a line in parentheses with redirections behind them. */
  ghost predicate IsExec(ts: seq<Tok>, c: Cmd)
    decreases |ts|, 0
  {
    || (exists args, rs :: IsSimple(ts, args, rs) && |args| < MAXARGS && c == Wrapped(Exec(args), rs))
    || (ts != [] && ts[0] == Sym('(') && exists m, sub, rs | 0 < m < |ts| ::
          ts[m] == Sym(')') && IsLine(ts[1..m], sub) && IsSimple(ts[m + 1..], [], rs) && c == Wrapped(sub, rs))
  }

  /** Words and redirections in any order. */
  ghost predicate IsSimple(ts: seq<Tok>, args: seq<Word>, rs: seq<Redirection>)
    decreases |ts|
  {
    if ts == [] then args == [] && rs == []
    else if ts[0].W? then args != [] && args[0] == ts[0].w && IsSimple(ts[1..], args[1..], rs)
    else
      && IsArrow(ts[0]) && |ts| > 1 && ts[1].W? && rs != [] && rs[0] == RedirOf(ts[0], ts[1].w)
      && IsSimple(ts[2..], args, rs[1..])
  }

  // ---- the parser on tokens ----------------------------------------------

  datatype Redirs = NoRedirs | Redirs(list: seq<Redirection>, rest: seq<Tok>)
  datatype Args = NoArgs | Args(args: seq<Word>, rs: seq<Redirection>, rest: seq<Tok>)
  datatype Parse = Fail | Done(cmd: Cmd, rest: seq<Tok>)

  function ParseRedirs(ts: seq<Tok>): (r: Redirs)
    ensures r.Redirs? ==> |r.rest| <= |ts|
    decreases |ts|
  {
    if ts == [] || !IsArrow(ts[0]) then Redirs([], ts)
    else if |ts| == 1 || !ts[1].W? then NoRedirs
    else
      match ParseRedirs(ts[2..])
      case NoRedirs => NoRedirs
      case Redirs(list, rest) => Redirs([RedirOf(ts[0], ts[1].w)] + list, rest)
  }

  /** The arguments after `n` others, with the redirections among them. */
  function ParseArgs(ts: seq<Tok>, n: nat): (r: Args)
    ensures r.Args? ==> |r.rest| <= |ts|
    decreases |ts|
  {
    if ts == [] || IsStop(ts[0]) then Args([], [], ts)
    else if !ts[0].W? || n + 1 >= MAXARGS then NoArgs
    else
      match ParseRedirs(ts[1..])
      case NoRedirs => NoArgs
      case Redirs(list, rest) =>
        match ParseArgs(rest, n + 1)
        case NoArgs => NoArgs
        case Args(args, rs, rest) => Args([ts[0].w] + args, list + rs, rest)
  }

  function ParseExec(ts: seq<Tok>): (r: Parse)
    ensures r.Done? ==> |r.rest| <= |ts|
    decreases |ts|, 0
  {
    if ts != [] && ts[0] == Sym('(') then
      match ParseLine(ts[1..])
      case Fail => Fail
      case Done(c, rest) =>
        if rest == [] || rest[0] != Sym(')') then Fail
        else
          match ParseRedirs(rest[1..])
          case NoRedirs => Fail
          case Redirs(list, rest) => Done(Wrapped(c, list), rest)
    else
      match ParseRedirs(ts)
      case NoRedirs => Fail
      case Redirs(list, rest) =>
        match ParseArgs(rest, 0)
        case NoArgs => Fail
        case Args(args, rs, rest) => Done(Wrapped(Exec(args), list + rs), rest)
  }

  function ParsePipe(ts: seq<Tok>): (r: Parse)
    ensures r.Done? ==> |r.rest| <= |ts|
    decreases |ts|, 1
  {
    match ParseExec(ts)
    case Fail => Fail
    case Done(c, rest) =>
      if rest == [] || rest[0] != Sym('|') then Done(c, rest)
      else
        match ParsePipe(rest[1..])
        case Fail => Fail
        case Done(right, rest) => Done(Pipe(c, right), rest)
  }

  /** The `&` behind a command. */
  function ParseBacks(c: Cmd, ts: seq<Tok>): (r: Parse)
    ensures r.Done? && |r.rest| <= |ts|
    decreases |ts|
  {
    if ts != [] && ts[0] == Sym('&') then ParseBacks(Back(c), ts[1..]) else Done(c, ts)
  }

  function ParseBacked(ts: seq<Tok>): (r: Parse)
    ensures r.Done? ==> |r.rest| <= |ts|
    decreases |ts|, 2
  {
    match ParsePipe(ts)
    case Fail => Fail
    case Done(c, rest) => ParseBacks(c, rest)
  }

  function ParseLine(ts: seq<Tok>): (r: Parse)
    ensures r.Done? ==> |r.rest| <= |ts|
    decreases |ts|, 3
  {
    match ParseBacked(ts)
    case Fail => Fail
    case Done(c, rest) =>
      if rest == [] || rest[0] != Sym(';') then Done(c, rest)
      else
        match ParseLine(rest[1..])
        case Fail => Fail
        case Done(right, rest) => Done(List(c, right), rest)
  }

  // ---- the parser finds what the grammar allows --------------------------

  ghost predicate Stops(b: seq<Tok>) { b == [] || IsStop(b[0]) }

  lemma {:induction false} RedirsComplete(a: seq<Tok>, rs: seq<Redirection>, b: seq<Tok>)
    requires IsSimple(a, [], rs) && (b == [] || !IsArrow(b[0]))
    ensures ParseRedirs(a + b) == Redirs(rs, b)
    decreases |a|
  {
    if a == [] {
      assert a + b == b;
    } else {
      assert (a + b)[2..] == a[2..] + b;
      RedirsComplete(a[2..], rs[1..], b);
      assert rs == [rs[0]] + rs[1..];
    }
  }

  /** Leading redirections and what follows them. */
  lemma {:induction false} SimpleSplits(a: seq<Tok>, args: seq<Word>, rs: seq<Redirection>) returns (n: nat, k: nat)
    requires IsSimple(a, args, rs)
    ensures n <= |a| && k <= |rs| && IsSimple(a[..n], [], rs[..k]) && IsSimple(a[n..], args, rs[k..])
    ensures a[n..] == [] || a[n].W?
    decreases |a|
  {
    if a == [] || a[0].W? {
      n, k := 0, 0;
      assert a[0..] == a && rs[0..] == rs;
    } else {
      n, k := SimpleSplits(a[2..], args, rs[1..]);
      n, k := n + 2, k + 1;
      assert a[2..][..n - 2] == a[..n][2..] && a[2..][n - 2..] == a[n..];
      assert rs[1..][..k - 1] == rs[..k][1..] && rs[1..][k - 1..] == rs[k..];
    }
  }

  /** Unfolding the parser on an argument. */
  lemma ArgsParse(ts: seq<Tok>, n: nat, list: seq<Redirection>, mid: seq<Tok>, args: seq<Word>, rs: seq<Redirection>,
                  b: seq<Tok>)
    requires ts != [] && ts[0].W? && n + 1 < MAXARGS && ParseRedirs(ts[1..]) == Redirs(list, mid)
    requires ParseArgs(mid, n + 1) == Args(args, rs, b)
    ensures ParseArgs(ts, n) == Args([ts[0].w] + args, list + rs, b)
  {
    hide ParseRedirs;
  }

  lemma SimpleParts(a: seq<Tok>, args: seq<Word>, rs: seq<Redirection>)
    requires IsSimple(a, args, rs)
    ensures a == [] ==> args == [] && rs == []
    ensures a != [] ==> a[0] != Sym('(')
    ensures a != [] && a[0].W? ==> args != [] && args[0] == a[0].w && IsSimple(a[1..], args[1..], rs)
  {
  }

  lemma {:induction false} ArgsComplete(a: seq<Tok>, args: seq<Word>, rs: seq<Redirection>, b: seq<Tok>, n: nat)
    requires IsSimple(a, args, rs) && (a != [] ==> a[0].W?) && Stops(b) && n + |args| < MAXARGS
    ensures ParseArgs(a + b, n) == Args(args, rs, b)
    decreases |a|
  {
    hide ParseRedirs, IsSimple, ParseArgs;
    SimpleParts(a, args, rs);
    if a == [] {
      assert a + b == b;
      NoMoreArgs(b, n);
    } else {
      var rest, more := a[1..], args[1..];
      var m, k := SimpleSplits(rest, more, rs);
      var r1, r2, tail := rs[..k], rs[k..], rest[m..] + b;
      FirstOf(rest, m, b);
      RedirsComplete(rest[..m], r1, tail);
      ArgsComplete(rest[m..], more, r2, b, n + 1);
      assert (a + b)[1..] == rest[..m] + tail && (a + b)[0] == a[0];
      ArgsParse(a + b, n, r1, tail, more, r2, b);
      assert args == [args[0]] + more;
      assert rs == r1 + r2;
    }
  }

  lemma NoMoreArgs(b: seq<Tok>, n: nat)
    requires Stops(b)
    ensures ParseArgs(b, n) == Args([], [], b)
  {
  }

  lemma FirstOf(a: seq<Tok>, n: nat, b: seq<Tok>)
    requires n <= |a| && (a[n..] == [] || a[n].W?) && Stops(b)
    ensures a[n..] + b == [] || !IsArrow((a[n..] + b)[0])
  {
  }

  /** Unfolding the parser on a program. */
  lemma ProgramParse(ts: seq<Tok>, list: seq<Redirection>, mid: seq<Tok>, args: seq<Word>, rs: seq<Redirection>,
                     b: seq<Tok>)
    requires (ts == [] || ts[0] != Sym('(')) && ParseRedirs(ts) == Redirs(list, mid)
    requires ParseArgs(mid, 0) == Args(args, rs, b)
    ensures ParseExec(ts) == Done(Wrapped(Exec(args), list + rs), b)
  {
    hide ParseRedirs, ParseArgs, Wrapped, ParseLine;
  }

  lemma ProgramComplete(a: seq<Tok>, args: seq<Word>, rs: seq<Redirection>, b: seq<Tok>)
    requires IsSimple(a, args, rs) && |args| < MAXARGS && Stops(b)
    ensures ParseExec(a + b) == Done(Wrapped(Exec(args), rs), b)
  {
    hide ParseRedirs, ParseArgs, IsSimple, Wrapped, ParseExec;
    SimpleParts(a, args, rs);
    var n, k := SimpleSplits(a, args, rs);
    var r1, r2, tail := rs[..k], rs[k..], a[n..] + b;
    FirstOf(a, n, b);
    RedirsComplete(a[..n], r1, tail);
    ArgsComplete(a[n..], args, r2, b, 0);
    SplitAt(a, n, b);
    assert rs == r1 + r2;
    ProgramParse(a + b, r1, tail, args, r2, b);
  }

  lemma SplitAt(a: seq<Tok>, n: nat, b: seq<Tok>)
    requires n <= |a| && Stops(b) && (a != [] ==> a[0] != Sym('('))
    ensures a + b == a[..n] + (a[n..] + b) && (a + b == [] || (a + b)[0] != Sym('('))
  {
  }

  /** Unfolding the parser on a block. */
  lemma BlockParse(ts: seq<Tok>, sub: Cmd, rest: seq<Tok>, rs: seq<Redirection>, b: seq<Tok>)
    requires ts != [] && ts[0] == Sym('(') && ParseLine(ts[1..]) == Done(sub, rest)
    requires rest != [] && rest[0] == Sym(')') && ParseRedirs(rest[1..]) == Redirs(rs, b)
    ensures ParseExec(ts) == Done(Wrapped(sub, rs), b)
  {
    hide ParseLine, ParseRedirs, Wrapped;
  }

  lemma {:induction false} ExecComplete(a: seq<Tok>, c: Cmd, b: seq<Tok>)
    requires IsExec(a, c) && Stops(b)
    ensures ParseExec(a + b) == Done(c, b)
    decreases |a|, 0
  {
    hide ParseExec, IsLine, IsSimple, Wrapped, ParseLine, ParseRedirs;
    if args, rs :| IsSimple(a, args, rs) && |args| < MAXARGS && c == Wrapped(Exec(args), rs) {
      ProgramComplete(a, args, rs, b);
    } else {
      var m, sub, rs :| 0 < m < |a| && a[m] == Sym(')') && IsLine(a[1..m], sub) && IsSimple(a[m + 1..], [], rs) &&
        c == Wrapped(sub, rs);
      SplitBlock(a, m, b);
      LineComplete(a[1..m], sub, a[m..] + b);
      RedirsComplete(a[m + 1..], rs, b);
      BlockParse(a + b, sub, a[m..] + b, rs, b);
    }
  }

  lemma SplitBlock(a: seq<Tok>, m: nat, b: seq<Tok>)
    requires 0 < m < |a|
    ensures var rest := a[m..] + b;
      && a + b != [] && (a + b)[0] == a[0] && (a + b)[1..] == a[1..m] + rest
      && rest[0] == a[m] && rest[1..] == a[m + 1..] + b
  {
    var t := a[1..];
    assert (a + b)[1..] == t + b && a[1..m] == t[..m - 1] && a[m..] == t[m - 1..] && a[m + 1..] == t[m..];
    SplitAround(t, m - 1, b);
  }

  lemma SplitAround(a: seq<Tok>, m: nat, b: seq<Tok>)
    requires m < |a|
    ensures var rest := a[m..] + b; a + b == a[..m] + rest && rest[0] == a[m] && rest[1..] == a[m + 1..] + b
  {
    assert a == a[..m] + a[m..] && a[m..][1..] == a[m + 1..];
  }

  lemma PipeParse(ts: seq<Tok>, c: Cmd, rest: seq<Tok>)
    requires ParseExec(ts) == Done(c, rest)
    ensures rest == [] || rest[0] != Sym('|') ==> ParsePipe(ts) == Done(c, rest)
    ensures rest != [] && rest[0] == Sym('|') && ParsePipe(rest[1..]).Done? ==>
      var more := ParsePipe(rest[1..]); ParsePipe(ts) == Done(Pipe(c, more.cmd), more.rest)
  {
    hide ParseExec;
  }

  lemma PipeParts(a: seq<Tok>, c: Cmd) returns (m: nat)
    requires IsPipe(a, c) && !IsExec(a, c)
    ensures c.Pipe? && m < |a| && a[m] == Sym('|') && IsExec(a[..m], c.left) && IsPipe(a[m + 1..], c.right)
  {
    hide IsExec;
    m :| 0 <= m < |a| && a[m] == Sym('|') && IsExec(a[..m], c.left) && IsPipe(a[m + 1..], c.right);
  }

  lemma {:induction false} PipeComplete(a: seq<Tok>, c: Cmd, b: seq<Tok>)
    requires IsPipe(a, c) && Stops(b) && (b != [] ==> b[0] != Sym('|'))
    ensures ParsePipe(a + b) == Done(c, b)
    decreases |a|, 1
  {
    hide ParseExec, IsExec, ParsePipe, IsPipe;
    if IsExec(a, c) {
      ExecComplete(a, c, b);
      PipeParse(a + b, c, b);
    } else {
      var m := PipeParts(a, c);
      SplitAround(a, m, b);
      ExecComplete(a[..m], c.left, a[m..] + b);
      PipeComplete(a[m + 1..], c.right, b);
      PipeParse(a + b, c.left, a[m..] + b);
    }
  }

  lemma {:induction false} BacksComplete(a: seq<Tok>, c: Cmd, b: seq<Tok>)
    requires IsBacks(a, c) && Stops(b) && (b != [] ==> b[0] != Sym('|'))
    ensures ParseBacked(a + b) == ParseBacks(c, b)
    decreases |a|, 2
  {
    hide ParsePipe, IsPipe;
    if IsPipe(a, c) {
      PipeComplete(a, c, b);
    } else {
      var n := |a| - 1;
      assert a + b == a[..n] + ([Sym('&')] + b);
      BacksComplete(a[..n], c.cmd, [Sym('&')] + b);
      assert ([Sym('&')] + b)[1..] == b;
    }
  }

  lemma LineParse(ts: seq<Tok>, c: Cmd, rest: seq<Tok>)
    requires ParseBacked(ts) == Done(c, rest)
    ensures rest == [] || rest[0] != Sym(';') ==> ParseLine(ts) == Done(c, rest)
    ensures rest != [] && rest[0] == Sym(';') && ParseLine(rest[1..]).Done? ==>
      var more := ParseLine(rest[1..]); ParseLine(ts) == Done(List(c, more.cmd), more.rest)
  {
    hide ParseBacked;
  }

  lemma LineParts(a: seq<Tok>, c: Cmd) returns (m: nat)
    requires IsLine(a, c) && !IsBacks(a, c)
    ensures c.List? && m < |a| && a[m] == Sym(';') && IsBacks(a[..m], c.left) && IsLine(a[m + 1..], c.right)
  {
    hide IsBacks;
    m :| 0 <= m < |a| && a[m] == Sym(';') && IsBacks(a[..m], c.left) && IsLine(a[m + 1..], c.right);
  }

  lemma {:induction false} LineComplete(a: seq<Tok>, c: Cmd, b: seq<Tok>)
    requires IsLine(a, c) && (b == [] || b[0] == Sym(')'))
    ensures ParseLine(a + b) == Done(c, b)
    decreases |a|, 3
  {
    hide ParseBacked, IsBacks, ParseLine, IsLine;
    if IsBacks(a, c) {
      BacksComplete(a, c, b);
      LineParse(a + b, c, b);
    } else {
      var m := LineParts(a, c);
      SplitAround(a, m, b);
      BacksComplete(a[..m], c.left, a[m..] + b);
      LineComplete(a[m + 1..], c.right, b);
      LineParse(a + b, c.left, a[m..] + b);
    }
  }
  // ---- the parser finds nothing else -------------------------------------

  /** What was read of `ts` when `rest` is left. */
  function Before(ts: seq<Tok>, rest: seq<Tok>): seq<Tok>
    requires |rest| <= |ts|
  {
    ts[..|ts| - |rest|]
  }

  ghost predicate Left(ts: seq<Tok>, rest: seq<Tok>) { |rest| <= |ts| && ts == Before(ts, rest) + rest }

  lemma RedirJoin(ts: seq<Tok>, list: seq<Redirection>, rest: seq<Tok>)
    requires |ts| > 1 && IsArrow(ts[0]) && ts[1].W? && Left(ts[2..], rest) && IsSimple(Before(ts[2..], rest), [], list)
    ensures Left(ts, rest) && IsSimple(Before(ts, rest), [], [RedirOf(ts[0], ts[1].w)] + list)
  {
    var a, rs := Before(ts, rest), [RedirOf(ts[0], ts[1].w)] + list;
    assert ts == ts[..2] + ts[2..];
    assert a == ts[..2] + Before(ts[2..], rest);
    assert a[2..] == Before(ts[2..], rest) && rs[1..] == list;
  }

  lemma {:induction false} RedirsSound(ts: seq<Tok>)
    ensures var r := ParseRedirs(ts); r.Redirs? ==> Left(ts, r.rest) && IsSimple(Before(ts, r.rest), [], r.list)
    decreases |ts|
  {
    hide IsSimple, ParseRedirs;
    RedirsParse(ts);
    if |ts| > 1 && IsArrow(ts[0]) && ts[1].W? {
      RedirsSound(ts[2..]);
      var more := ParseRedirs(ts[2..]);
      if more.Redirs? { RedirJoin(ts, more.list, more.rest); }
    } else {
      NoneBefore(ts);
    }
  }

  lemma RedirsParse(ts: seq<Tok>)
    ensures ts == [] || !IsArrow(ts[0]) ==> ParseRedirs(ts) == Redirs([], ts)
    ensures ts != [] && IsArrow(ts[0]) && (|ts| == 1 || !ts[1].W?) ==> ParseRedirs(ts) == NoRedirs
    ensures |ts| > 1 && IsArrow(ts[0]) && ts[1].W? ==>
      match ParseRedirs(ts[2..])
      case NoRedirs => ParseRedirs(ts) == NoRedirs
      case Redirs(list, rest) => ParseRedirs(ts) == Redirs([RedirOf(ts[0], ts[1].w)] + list, rest)
  {
  }

  lemma {:induction false} SimpleJoins(a: seq<Tok>, rs: seq<Redirection>, b: seq<Tok>, args: seq<Word>,
                                       rs': seq<Redirection>)
    requires IsSimple(a, [], rs) && IsSimple(b, args, rs')
    ensures IsSimple(a + b, args, rs + rs')
    decreases |a|
  {
    if a == [] {
      assert a + b == b && rs + rs' == rs';
    } else {
      SimpleJoins(a[2..], rs[1..], b, args, rs');
      assert (a + b)[2..] == a[2..] + b && (rs + rs')[1..] == rs[1..] + rs';
    }
  }

  lemma {:induction false} ArgsSound(ts: seq<Tok>, n: nat)
    requires n < MAXARGS
    ensures var r := ParseArgs(ts, n);
      r.Args? ==> Left(ts, r.rest) && IsSimple(Before(ts, r.rest), r.args, r.rs) && n + |r.args| < MAXARGS
    decreases |ts|
  {
    hide ParseRedirs, ParseArgs, IsSimple;
    if Stops(ts) {
      NoMoreArgs(ts, n);
      NoneBefore(ts);
    } else if ParseArgs(ts, n).Args? {
      var redirs, more := FirstArg(ts, n);
      RedirsSound(ts[1..]);
      ArgsSound(redirs.rest, n + 1);
      ArgsJoin(ts, redirs.list, redirs.rest, more.args, more.rs, more.rest);
    }
  }

  lemma NoneBefore(ts: seq<Tok>)
    ensures Left(ts, ts) && IsSimple(Before(ts, ts), [], [])
  {
  }

  /** The parts of a list of arguments that was recognised. */
  lemma FirstArg(ts: seq<Tok>, n: nat) returns (redirs: Redirs, more: Args)
    requires !Stops(ts) && ParseArgs(ts, n).Args?
    ensures ts[0].W? && n + 1 < MAXARGS && redirs == ParseRedirs(ts[1..]) && redirs.Redirs? && |redirs.rest| < |ts|
    ensures more == ParseArgs(redirs.rest, n + 1) && more.Args?
    ensures ParseArgs(ts, n) == Args([ts[0].w] + more.args, redirs.list + more.rs, more.rest)
  {
    hide ParseRedirs;
    redirs := ParseRedirs(ts[1..]);
    more := ParseArgs(redirs.rest, n + 1);
  }

  lemma WordJoin(ts: seq<Tok>, args: seq<Word>, rs: seq<Redirection>, rest: seq<Tok>)
    requires ts != [] && ts[0].W? && Left(ts[1..], rest) && IsSimple(Before(ts[1..], rest), args, rs)
    ensures Left(ts, rest) && IsSimple(Before(ts, rest), [ts[0].w] + args, rs)
  {
    var a, all := Before(ts, rest), [ts[0].w] + args;
    assert ts == [ts[0]] + ts[1..];
    assert a == [ts[0]] + Before(ts[1..], rest);
    assert a[1..] == Before(ts[1..], rest) && all[1..] == args;
  }

  lemma ArgsJoin(ts: seq<Tok>, list: seq<Redirection>, mid: seq<Tok>, args: seq<Word>, rs: seq<Redirection>,
                 rest: seq<Tok>)
    requires ts != [] && ts[0].W? && Left(ts[1..], mid) && IsSimple(Before(ts[1..], mid), [], list)
    requires Left(mid, rest) && IsSimple(Before(mid, rest), args, rs)
    ensures Left(ts, rest) && IsSimple(Before(ts, rest), [ts[0].w] + args, list + rs)
  {
    hide IsSimple;
    SimpleJoins(Before(ts[1..], mid), list, Before(mid, rest), args, rs);
    LeftTwice(ts[1..], mid, rest);
    WordJoin(ts, args, list + rs, rest);
  }

  lemma LeftTwice(ts: seq<Tok>, mid: seq<Tok>, rest: seq<Tok>)
    requires Left(ts, mid) && Left(mid, rest)
    ensures Left(ts, rest) && Before(ts, rest) == Before(ts, mid) + Before(mid, rest)
  {
    var x, y := Before(ts, mid), Before(mid, rest);
    assert ts == x + (y + rest) == (x + y) + rest;
    assert Before(ts, rest) == x + y;
  }

  /** Two parts with a symbol between them. */
  lemma LeftAround(ts: seq<Tok>, mid: seq<Tok>, rest: seq<Tok>)
    requires Left(ts, mid) && mid != [] && Left(mid[1..], rest)
    ensures Left(ts, rest)
    ensures var a, m := Before(ts, rest), |Before(ts, mid)|;
      m < |a| && a[..m] == Before(ts, mid) && a[m] == mid[0] && a[m + 1..] == Before(mid[1..], rest)
  {
    var a, m := Before(ts, rest), |Before(ts, mid)|;
    assert mid == [mid[0]] + mid[1..];
    assert ts == Before(ts, mid) + ([mid[0]] + (Before(mid[1..], rest) + rest));
    assert a == Before(ts, mid) + ([mid[0]] + Before(mid[1..], rest));
  }

  lemma BlockIsExec(ts: seq<Tok>, c: Cmd, mid: seq<Tok>, rs: seq<Redirection>, rest: seq<Tok>)
    requires ts != [] && ts[0] == Sym('(') && Left(ts[1..], mid) && IsLine(Before(ts[1..], mid), c)
    requires mid != [] && mid[0] == Sym(')') && Left(mid[1..], rest) && IsSimple(Before(mid[1..], rest), [], rs)
    ensures Left(ts, rest) && IsExec(Before(ts, rest), Wrapped(c, rs))
  {
    hide IsLine, IsSimple, Wrapped, Before, Left;
    var a, m := BlockSlices(ts, mid, rest);
    assert 0 < m < |a| && a[m] == Sym(')') && IsLine(a[1..m], c) && IsSimple(a[m + 1..], [], rs);
  }

  /** The parts of a block. */
  lemma BlockSlices(ts: seq<Tok>, mid: seq<Tok>, rest: seq<Tok>) returns (a: seq<Tok>, m: nat)
    requires ts != [] && Left(ts[1..], mid) && mid != [] && Left(mid[1..], rest)
    ensures Left(ts, rest) && a == Before(ts, rest) && 0 < m < |a| && a[0] == ts[0] && a[m] == mid[0]
    ensures a[1..m] == Before(ts[1..], mid) && a[m + 1..] == Before(mid[1..], rest)
  {
    LeftAround(ts[1..], mid, rest);
    var b, n := Before(ts[1..], rest), |Before(ts[1..], mid)|;
    LeftOne(ts, rest);
    a, m := Before(ts, rest), n + 1;
    ConsSlices(ts[0], b, n);
  }

  lemma LeftOne(ts: seq<Tok>, rest: seq<Tok>)
    requires ts != [] && Left(ts[1..], rest)
    ensures Left(ts, rest) && Before(ts, rest) == [ts[0]] + Before(ts[1..], rest)
  {
    var x := Before(ts[1..], rest);
    assert ts == [ts[0]] + ts[1..] == ([ts[0]] + x) + rest;
    assert Before(ts, rest) == [ts[0]] + x;
  }

  lemma ConsSlices(t: Tok, b: seq<Tok>, n: nat)
    requires n < |b|
    ensures var a := [t] + b; a[1..n + 1] == b[..n] && a[n + 1] == b[n] && a[n + 2..] == b[n + 1..]
  {
  }

  lemma ProgramIsExec(ts: seq<Tok>, list: seq<Redirection>, mid: seq<Tok>, args: seq<Word>, rs: seq<Redirection>,
                      rest: seq<Tok>)
    requires Left(ts, mid) && IsSimple(Before(ts, mid), [], list) && |args| < MAXARGS
    requires Left(mid, rest) && IsSimple(Before(mid, rest), args, rs)
    ensures Left(ts, rest) && IsExec(Before(ts, rest), Wrapped(Exec(args), list + rs))
  {
    hide IsLine, IsSimple, Wrapped;
    LeftTwice(ts, mid, rest);
    SimpleJoins(Before(ts, mid), list, Before(mid, rest), args, rs);
  }

  lemma {:induction false} ExecSound(ts: seq<Tok>)
    ensures var r := ParseExec(ts); r.Done? ==> Left(ts, r.rest) && IsExec(Before(ts, r.rest), r.cmd)
    decreases |ts|, 0
  {
    hide ParseRedirs, ParseArgs, IsSimple, Wrapped, ParseLine, IsLine, IsExec, Left, Before;
    var r := ParseExec(ts);
    if r.Fail? {
    } else if ts != [] && ts[0] == Sym('(') {
      var line := ParseLine(ts[1..]);
      LineSound(ts[1..]);
      var redirs := ParseRedirs(line.rest[1..]);
      RedirsSound(line.rest[1..]);
      BlockIsExec(ts, line.cmd, line.rest, redirs.list, redirs.rest);
    } else {
      var redirs := ParseRedirs(ts);
      RedirsSound(ts);
      var more := ParseArgs(redirs.rest, 0);
      ArgsSound(redirs.rest, 0);
      ProgramIsExec(ts, redirs.list, redirs.rest, more.args, more.rs, more.rest);
    }
  }

  lemma {:induction false} PipeSound(ts: seq<Tok>)
    ensures var r := ParsePipe(ts); r.Done? ==> Left(ts, r.rest) && IsPipe(Before(ts, r.rest), r.cmd)
    decreases |ts|, 1
  {
    hide ParseExec, IsExec;
    ExecSound(ts);
    var r, first := ParsePipe(ts), ParseExec(ts);
    if r.Done? && first.rest != [] && first.rest[0] == Sym('|') {
      PipeSound(first.rest[1..]);
      LeftAround(ts, first.rest, r.rest);
    }
  }

  lemma BackJoin(ts: seq<Tok>, c: Cmd, rest: seq<Tok>)
    requires Left(ts, rest) && IsBacks(Before(ts, rest), c) && rest != [] && rest[0] == Sym('&')
    ensures Left(ts, rest[1..]) && IsBacks(Before(ts, rest[1..]), Back(c))
  {
    hide IsPipe;
    var a := Before(ts, rest[1..]);
    assert rest == [rest[0]] + rest[1..];
    assert ts == Before(ts, rest) + [rest[0]] + rest[1..];
    assert a == Before(ts, rest) + [Sym('&')];
    assert a[..|a| - 1] == Before(ts, rest);
  }

  lemma {:induction false} BacksSound(ts: seq<Tok>, c: Cmd, rest: seq<Tok>)
    requires Left(ts, rest) && IsBacks(Before(ts, rest), c)
    ensures var r := ParseBacks(c, rest); Left(ts, r.rest) && IsBacks(Before(ts, r.rest), r.cmd)
    decreases |rest|
  {
    hide IsBacks, Before;
    if rest != [] && rest[0] == Sym('&') {
      BackJoin(ts, c, rest);
      BacksSound(ts, Back(c), rest[1..]);
    }
  }

  lemma {:induction false} BackedSound(ts: seq<Tok>)
    ensures var r := ParseBacked(ts); r.Done? ==> Left(ts, r.rest) && IsBacks(Before(ts, r.rest), r.cmd)
    decreases |ts|, 2
  {
    hide ParsePipe, IsPipe, IsBacks, Left, Before, ParseBacks;
    PipeSound(ts);
    var first := ParsePipe(ts);
    if first.Done? {
      LeftIs(ts, first.rest);
      PipeIsBacks(Before(ts, first.rest), first.cmd);
      BacksSound(ts, first.cmd, first.rest);
    }
  }

  lemma LeftIs(ts: seq<Tok>, rest: seq<Tok>)
    requires Left(ts, rest)
    ensures |rest| <= |ts|
  {
  }

  lemma {:induction false} LineSound(ts: seq<Tok>)
    ensures var r := ParseLine(ts); r.Done? ==> Left(ts, r.rest) && IsLine(Before(ts, r.rest), r.cmd)
    decreases |ts|, 3
  {
    hide ParseBacked, IsBacks, Left, Before;
    BackedSound(ts);
    var r, first := ParseLine(ts), ParseBacked(ts);
    if first.Done? && first.rest != [] && first.rest[0] == Sym(';') {
      LineSound(first.rest[1..]);
      if r.Done? { LeftAround(ts, first.rest, r.rest); }
    }
  }

  lemma PipeIsBacks(ts: seq<Tok>, c: Cmd)
    requires IsPipe(ts, c)
    ensures IsBacks(ts, c)
  {
  }

  /** The parser accepts all of the tokens with this command if and only if the grammar
      gives them this command. */
  lemma Recognised(ts: seq<Tok>, c: Cmd)
    ensures ParseLine(ts) == Done(c, []) <==> IsLine(ts, c)
  {
    hide ParseLine, IsLine;
    LineSound(ts);
    if ParseLine(ts) == Done(c, []) { assert Before(ts, []) == ts; }
    if IsLine(ts, c) {
      LineComplete(ts, c, []);
      assert ts + [] == ts;
    }
  }

  /** So no line has two readings. */
  lemma Unambiguous(ts: seq<Tok>, c: Cmd, d: Cmd)
    requires IsLine(ts, c) && IsLine(ts, d)
    ensures c == d
  {
    hide IsLine, ParseLine;
    Recognised(ts, c);
    Recognised(ts, d);
  }

  // ---- words and operators -----------------------------------------------

  /** Every argument and redirection file of a command. */
  function TreeWords(c: Cmd): multiset<Word> {
    match c
    case Exec(args) => multiset(args)
    case Redir(sub, file, _, _) => TreeWords(sub) + multiset{file}
    case Pipe(l, r) => TreeWords(l) + TreeWords(r)
    case List(l, r) => TreeWords(l) + TreeWords(r)
    case Back(sub) => TreeWords(sub)
  }

  function WordOf(t: Tok): seq<Word> { if t.W? then [t.w] else [] }

  function WordsOf(ts: seq<Tok>): seq<Word> { if ts == [] then [] else WordOf(ts[0]) + WordsOf(ts[1..]) }

  lemma WordsFirst(ts: seq<Tok>)
    requires ts != []
    ensures WordsOf(ts) == WordOf(ts[0]) + WordsOf(ts[1..])
  {
  }

  lemma WordsNone()
    ensures WordsOf([]) == []
  {
  }

  lemma {:induction false} WordsConcat(a: seq<Tok>, b: seq<Tok>)
    ensures WordsOf(a + b) == WordsOf(a) + WordsOf(b)
    decreases |a|
  {
    hide WordsOf, WordOf;
    if a == [] {
      assert a + b == b;
      WordsNone();
    } else {
      var x, y, z := WordOf(a[0]), WordsOf(a[1..]), WordsOf(b);
      WordsConcat(a[1..], b);
      WordsFirst(a);
      WordsFirst(a + b);
      assert (a + b)[1..] == a[1..] + b && (a + b)[0] == a[0];
      assert x + (y + z) == (x + y) + z;
    }
  }

  lemma WordsAround(a: seq<Tok>, m: nat)
    requires m < |a| && a[m].Sym?
    ensures WordsOf(a) == WordsOf(a[..m]) + WordsOf(a[m + 1..])
  {
    hide WordsOf;
    WordsConcat(a[..m], a[m..]);
    WordsFirst(a[m..]);
    assert a == a[..m] + a[m..];
    assert a[m..][1..] == a[m + 1..];
    assert [] + WordsOf(a[m + 1..]) == WordsOf(a[m + 1..]);
  }

  function FileSeq(rs: seq<Redirection>): (r: seq<Word>)
    ensures |r| == |rs| && forall i | 0 <= i < |rs| :: r[i] == rs[i].file
  {
    seq(|rs|, i requires 0 <= i < |rs| => rs[i].file)
  }

  function Files(rs: seq<Redirection>): multiset<Word> { multiset(FileSeq(rs)) }

  lemma FilesLast(rs: seq<Redirection>, r: Redirection)
    ensures Files(rs + [r]) == Files(rs) + multiset{r.file}
  {
    assert FileSeq(rs + [r]) == FileSeq(rs) + [r.file];
  }

  lemma FilesFirst(r: Redirection, rs: seq<Redirection>)
    ensures Files([r] + rs) == multiset{r.file} + Files(rs)
  {
    assert FileSeq([r] + rs) == [r.file] + FileSeq(rs);
  }

  lemma {:induction false} WrappedWords(c: Cmd, rs: seq<Redirection>)
    ensures TreeWords(Wrapped(c, rs)) == TreeWords(c) + Files(rs)
    decreases |rs|
  {
    if rs == [] {
      assert FileSeq(rs) == [];
    } else {
      hide Files;
      var front, last := rs[..|rs| - 1], rs[|rs| - 1];
      WrappedWords(c, front);
      FilesLast(front, last);
      assert rs == front + [last];
      assert TreeWords(Wrapped(c, rs)) == TreeWords(Wrapped(c, front)) + multiset{last.file};
    }
  }

  lemma MultisetOf(w: Word, ws: seq<Word>)
    ensures multiset([w] + ws) == multiset{w} + multiset(ws)
  {
  }

  lemma SimpleArrow(ts: seq<Tok>, args: seq<Word>, rs: seq<Redirection>)
    requires IsSimple(ts, args, rs) && ts != [] && !ts[0].W?
    ensures |ts| > 1 && ts[1].W? && rs != [] && rs[0].file == ts[1].w && IsSimple(ts[2..], args, rs[1..])
  {
  }

  lemma WordStep(ts: seq<Tok>)
    requires ts != [] && ts[0].W?
    ensures multiset(WordsOf(ts)) == multiset{ts[0].w} + multiset(WordsOf(ts[1..]))
  {
    hide WordsOf;
    WordsFirst(ts);
    MultisetOf(ts[0].w, WordsOf(ts[1..]));
  }

  lemma ArrowStep(ts: seq<Tok>)
    requires |ts| > 1 && !ts[0].W? && ts[1].W?
    ensures multiset(WordsOf(ts)) == multiset{ts[1].w} + multiset(WordsOf(ts[2..]))
  {
    hide WordsOf;
    WordsFirst(ts);
    WordStep(ts[1..]);
    assert ts[1..][1..] == ts[2..];
    assert [] + WordsOf(ts[1..]) == WordsOf(ts[1..]);
  }

  lemma {:induction false} SimpleWords(ts: seq<Tok>, args: seq<Word>, rs: seq<Redirection>)
    requires IsSimple(ts, args, rs)
    ensures multiset(WordsOf(ts)) == multiset(args) + Files(rs)
    decreases |ts|
  {
    hide WordsOf, Files, IsSimple;
    SimpleParts(ts, args, rs);
    if ts == [] {
      NothingOf();
    } else if ts[0].W? {
      SimpleWords(ts[1..], args[1..], rs);
      WordStep(ts);
      assert args == [args[0]] + args[1..];
      MultisetOf(args[0], args[1..]);
    } else {
      SimpleArrow(ts, args, rs);
      SimpleWords(ts[2..], args, rs[1..]);
      ArrowStep(ts);
      assert rs == [rs[0]] + rs[1..];
      FilesFirst(rs[0], rs[1..]);
    }
  }

  lemma NothingOf()
    ensures WordsOf([]) == [] && Files([]) == multiset{}
  {
  }

  lemma BlockWords(ts: seq<Tok>, m: nat)
    requires 0 < m < |ts| && ts[0].Sym? && ts[m].Sym?
    ensures multiset(WordsOf(ts)) == multiset(WordsOf(ts[1..m])) + multiset(WordsOf(ts[m + 1..]))
  {
    hide WordsOf;
    WordsAround(ts, m);
    WordsFirst(ts[..m]);
    assert ts[..m][1..] == ts[1..m];
    assert [] + WordsOf(ts[1..m]) == WordsOf(ts[1..m]);
  }

  lemma {:induction false} ExecWords(ts: seq<Tok>, c: Cmd)
    requires IsExec(ts, c)
    ensures multiset(WordsOf(ts)) == TreeWords(c)
    decreases |ts|, 0
  {
    hide IsSimple, IsLine, TreeWords, WordsOf, Wrapped, Files;
    if args, rs :| IsSimple(ts, args, rs) && |args| < MAXARGS && c == Wrapped(Exec(args), rs) {
      SimpleWords(ts, args, rs);
      WrappedWords(Exec(args), rs);
      ExecIs(args);
    } else {
      var m, sub, rs :| 0 < m < |ts| && ts[m] == Sym(')') && IsLine(ts[1..m], sub) && IsSimple(ts[m + 1..], [], rs) &&
        c == Wrapped(sub, rs);
      LineWords(ts[1..m], sub);
      SimpleWords(ts[m + 1..], [], rs);
      WrappedWords(sub, rs);
      BlockWords(ts, m);
    }
  }

  lemma ExecIs(args: seq<Word>)
    ensures TreeWords(Exec(args)) == multiset(args)
  {
  }

  lemma NoWords(ts: seq<Tok>)
    ensures WordsOf(ts[..0]) == []
  {
  }

  lemma {:induction false} PipeWords(ts: seq<Tok>, c: Cmd)
    requires IsPipe(ts, c)
    ensures multiset(WordsOf(ts)) == TreeWords(c)
    decreases |ts|, 1
  {
    hide IsExec, WordsOf;
    if IsExec(ts, c) {
      ExecWords(ts, c);
    } else {
      var m :| 0 <= m < |ts| && ts[m] == Sym('|') && IsExec(ts[..m], c.left) && IsPipe(ts[m + 1..], c.right);
      ExecWords(ts[..m], c.left);
      PipeWords(ts[m + 1..], c.right);
      WordsAround(ts, m);
    }
  }

  lemma {:induction false} BacksWords(ts: seq<Tok>, c: Cmd)
    requires IsBacks(ts, c)
    ensures multiset(WordsOf(ts)) == TreeWords(c)
    decreases |ts|, 2
  {
    hide IsPipe, WordsOf;
    if IsPipe(ts, c) {
      PipeWords(ts, c);
    } else {
      var m := |ts| - 1;
      BacksWords(ts[..m], c.cmd);
      WordsAround(ts, m);
      assert ts[m + 1..] == ts[..0];
      NoWords(ts);
    }
  }

  /** The words of a line are the words of its command, each as often. */
  lemma {:induction false} LineWords(ts: seq<Tok>, c: Cmd)
    requires IsLine(ts, c)
    ensures multiset(WordsOf(ts)) == TreeWords(c)
    decreases |ts|, 3
  {
    hide IsBacks, WordsOf;
    if IsBacks(ts, c) {
      BacksWords(ts, c);
    } else {
      var m :| 0 <= m < |ts| && ts[m] == Sym(';') && IsBacks(ts[..m], c.left) && IsLine(ts[m + 1..], c.right);
      BacksWords(ts[..m], c.left);
      LineWords(ts[m + 1..], c.right);
      WordsAround(ts, m);
    }
  }
}
