/** The shell's parser: tokens, commands, and the strings it cuts out of the line. */
module Shell {
  import opened G = ShellGrammar
  import T = ShellTree

  // ---- tokens -----------------------------------------------------------------------

  predicate IsSpace(c: char) { c in {' ', '\t', '\r', '\n', '\U{0B}'} }

  predicate IsSymbol(c: char) { c in {'<', '|', '>', '&', ';', '(', ')'} }

  predicate IsLetter(c: char) { !IsSpace(c) && !IsSymbol(c) && c != '\0' }

  predicate CString(s: string) { '\0' !in s }

  function SkipSpace(s: string, i: nat): (r: nat)
    requires i <= |s|
    ensures i <= r <= |s| && (r < |s| ==> !IsSpace(s[r])) && forall k | i <= k < r :: IsSpace(s[k])
    decreases |s| - i
  {
    if i < |s| && IsSpace(s[i]) then SkipSpace(s, i + 1) else i
  }

  function WordEnd(s: string, i: nat): (r: nat)
    requires i <= |s|
    ensures i <= r <= |s| && (r < |s| ==> IsSpace(s[r]) || IsSymbol(s[r]))
    ensures forall k | i <= k < r :: !IsSpace(s[k]) && !IsSymbol(s[k])
    decreases |s| - i
  {
    if i < |s| && !IsSpace(s[i]) && !IsSymbol(s[i]) then WordEnd(s, i + 1) else i
  }

  datatype Kind = End | Is(tok: Tok)

  /** A token, where it starts and ends, and where the next one starts. */
  datatype Token = Token(kind: Kind, q: nat, eq: nat, next: nat)

  /** The token at or after `i`. */
  function Next(s: string, i: nat): (t: Token)
    requires i <= |s|
    ensures i <= t.q <= t.eq <= t.next <= |s| && (t.kind.End? <==> t.q == |s|) && (!t.kind.End? ==> t.q < t.eq)
    ensures t.kind.Is? && t.kind.tok.W? ==> t.kind.tok.w == Word(t.q, t.eq) && t.eq == WordEnd(s, t.q)
  {
    var q := SkipSpace(s, i);
    if q == |s| then Token(End, q, q, q)
    else if s[q] == '>' then
      if q + 1 < |s| && s[q + 1] == '>' then Token(Is(Append), q, q + 2, SkipSpace(s, q + 2))
      else Token(Is(Sym('>')), q, q + 1, SkipSpace(s, q + 1))
    else if IsSymbol(s[q]) then Token(Is(Sym(s[q])), q, q + 1, SkipSpace(s, q + 1))
    else var eq := WordEnd(s, q); Token(Is(W(Word(q, eq))), q, eq, SkipSpace(s, eq))
  }

  /** All the tokens of the line from `i` on. */
  function Toks(s: string, i: nat): seq<Tok>
    requires i <= |s|
    decreases |s| - i
  {
    var t := Next(s, i);
    if t.kind.End? then [] else [t.kind.tok] + Toks(s, t.next)
  }

  /** All its words. */
  function Words(s: string, i: nat): seq<Word>
    requires i <= |s|
  {
    WordsOf(Toks(s, i))
  }

  lemma {:induction false} SkipTwice(s: string, i: nat)
    requires i <= |s|
    ensures SkipSpace(s, SkipSpace(s, i)) == SkipSpace(s, i)
  {
  }

  lemma NextSkip(s: string, i: nat)
    requires i <= |s|
    ensures Next(s, SkipSpace(s, i)) == Next(s, i) && Next(s, i).q == SkipSpace(s, i)
  {
    SkipTwice(s, i);
    hide SkipSpace, WordEnd;
  }

  /** The first token, which leading space does not change. */
  lemma FirstTok(s: string, i: nat)
    requires i <= |s|
    ensures var j := SkipSpace(s, i);
      && Toks(s, j) == Toks(s, i) && Next(s, j) == Next(s, i) && (Toks(s, i) == [] <==> j == |s|)
      && (j < |s| ==> var t := Next(s, i);
            j < t.next && t.kind.Is? && Toks(s, i)[0] == t.kind.tok && Toks(s, t.next) == Toks(s, i)[1..])
  {
    NextSkip(s, i);
    hide Next, SkipSpace;
  }

  /** What peek sees of a symbol. */
  lemma Peeked(s: string, i: nat, c: char)
    requires i <= |s| && c in {'<', '|', '&', ';', '(', ')'}
    ensures var j := SkipSpace(s, i); (j < |s| && s[j] == c) <==> (Toks(s, i) != [] && Toks(s, i)[0] == Sym(c))
  {
    FirstTok(s, i);
  }

  lemma PeekedArrow(s: string, i: nat)
    requires i <= |s|
    ensures var j := SkipSpace(s, i); (j < |s| && s[j] in "<>") <==> (Toks(s, i) != [] && IsArrow(Toks(s, i)[0]))
  {
    FirstTok(s, i);
  }

  /** A maximal run of letters. */
  ghost predicate IsWord(s: string, w: Word) {
    && w.q < w.eq <= |s| && (w.eq < |s| ==> !IsLetter(s[w.eq]))
    && forall k | w.q <= k < w.eq :: IsLetter(s[k])
  }

  ghost predicate AllWords(s: string, ws: seq<Word>, i: nat) { forall w | w in ws :: IsWord(s, w) && i <= w.q }

  ghost predicate InOrder(ws: seq<Word>) { forall a, b | 0 <= a < b < |ws| :: ws[a].eq <= ws[b].q }

  lemma ConsWord(s: string, w: Word, rest: seq<Word>, i: nat)
    requires IsWord(s, w) && i <= w.q && AllWords(s, rest, w.eq) && InOrder(rest)
    ensures AllWords(s, [w] + rest, i) && InOrder([w] + rest)
  {
    var ws := [w] + rest;
    forall b | 0 < b < |ws| ensures ws[0].eq <= ws[b].q { assert ws[b] == rest[b - 1] && rest[b - 1] in rest; }
  }

  /** The words of a line are runs of letters, in order and apart. */
  lemma {:induction false} WordsFormed(s: string, i: nat)
    requires i <= |s| && CString(s)
    ensures AllWords(s, Words(s, i), i) && InOrder(Words(s, i))
    decreases |s| - i
  {
    hide Next, IsWord, SkipSpace;
    var t := Next(s, i);
    if !t.kind.End? {
      WordsFormed(s, t.next);
      assert Toks(s, i)[1..] == Toks(s, t.next);
      if t.kind.tok.W? {
        LettersAre(s, i);
        ConsWord(s, Word(t.q, t.eq), Words(s, t.next), i);
      } else {
        assert Words(s, i) == Words(s, t.next);
      }
    }
  }

  lemma LettersAre(s: string, i: nat)
    requires i <= |s| && CString(s) && Next(s, i).kind.Is? && Next(s, i).kind.tok.W?
    ensures IsWord(s, Word(Next(s, i).q, Next(s, i).eq))
  {
    assert forall k | 0 <= k < |s| :: s[k] in s;
  }

  /** No word occurs twice. */
  lemma WordsOnce(s: string, w: Word)
    requires CString(s) && w in Words(s, 0)
    ensures multiset(Words(s, 0))[w] == 1
  {
    WordsFormed(s, 0);
    var ws := Words(s, 0);
    var a :| 0 <= a < |ws| && ws[a] == w;
    OnceIn(ws, a);
  }

  lemma OnceIn(ws: seq<Word>, a: nat)
    requires a < |ws| && forall b | 0 <= b < |ws| && b != a :: ws[b] != ws[a]
    ensures multiset(ws)[ws[a]] == 1
  {
    var l, r := ws[..a], ws[a + 1..];
    assert ws == l + [ws[a]] + r;
    assert ws[a] !in l && ws[a] !in r;
    assert multiset(ws) == multiset(l) + multiset{ws[a]} + multiset(r);
  }

  method SkipBlanks(s: string, i: nat) returns (p: nat)
    requires i <= |s|
    ensures p == SkipSpace(s, i)
  {
    p := i;
    while p < |s| && IsSpace(s[p])
      invariant i <= p <= |s| && SkipSpace(s, p) == SkipSpace(s, i)
    {
      p := p + 1;
    }
  }

  method SkipLetters(s: string, i: nat) returns (p: nat)
    requires i <= |s|
    ensures p == WordEnd(s, i)
  {
    p := i;
    while p < |s| && !IsSpace(s[p]) && !IsSymbol(s[p])
      invariant i <= p <= |s| && WordEnd(s, p) == WordEnd(s, i)
    {
      p := p + 1;
    }
  }

  method GetToken(s: string, i: nat) returns (t: Token)
    requires CString(s) && i <= |s|
    ensures t == Next(s, i)
  {
    hide SkipSpace, WordEnd;
    var p := SkipBlanks(s, i);
    var q, kind := p, End;
    if p < |s| {
      if s[p] in {'|', '(', ')', ';', '&', '<'} {
        kind := Is(Sym(s[p]));
        p := p + 1;
      } else if s[p] == '>' {
        kind := Is(Sym('>'));
        p := p + 1;
        if p < |s| && s[p] == '>' {
          kind := Is(Append);
          p := p + 1;
        }
      } else {
        p := SkipLetters(s, p);
        kind := Is(W(Word(q, p)));
      }
    }
    var eq := p;
    p := SkipBlanks(s, p);
    t := Token(kind, q, eq, p);
  }

  method Peek(s: string, i: nat, toks: string) returns (found: bool, j: nat)
    requires CString(s) && i <= |s|
    ensures j == SkipSpace(s, i) && (found <==> j < |s| && s[j] in toks)
  {
    j := SkipBlanks(s, i);
    found := j < |s| && s[j] in toks;
  }

  // ---- the tokens in the line --------------------------------------------

  /** Where each token starts. */
  ghost function Starts(s: string, i: nat): seq<nat>
    requires i <= |s|
    decreases |s| - i
  {
    var t := Next(s, i);
    if t.kind.End? then [] else [t.q] + Starts(s, t.next)
  }

  lemma NextAt(s: string, i: nat)
    requires i <= |s| && CString(s) && Next(s, i).kind.Is?
    ensures var t := Next(s, i);
      && T.TokAt(s, t.kind.tok, t.q) && T.End(t.kind.tok, t.q) == t.eq && T.Blank(s, i, t.q) && T.Blank(s, t.eq, t.next)
  {
    assert forall k | 0 <= k < |s| :: s[k] in s;
  }

  lemma {:induction false} TokensPlaced(s: string, i: nat)
    requires i <= |s| && CString(s)
    ensures T.Placed(s, Toks(s, i), Starts(s, i), i, |s|)
    ensures Toks(s, i) != [] ==> T.Blank(s, i, Starts(s, i)[0])
    decreases |s| - i
  {
    hide Next, T.TokAt, T.Blank, T.End;
    var t := Next(s, i);
    if !t.kind.End? {
      TokensPlaced(s, t.next);
      NextAt(s, i);
      var rest, ps := Toks(s, t.next), Starts(s, t.next);
      assert Toks(s, i) == [t.kind.tok] + rest && Starts(s, i) == [t.q] + ps;
      if rest != [] { BlankJoin(s, t.eq, t.next, ps[0]); }
      PlacedFirst(s, t.kind.tok, t.q, t.eq, rest, ps, i, t.next);
    }
  }

  lemma BlankJoin(s: string, a: nat, b: nat, c: nat)
    requires T.Blank(s, a, b) && T.Blank(s, b, c)
    ensures T.Blank(s, a, c)
  {
  }

  lemma PlacedFirst(s: string, t: Tok, q: nat, eq: nat, ts: seq<Tok>, ps: seq<nat>, i: nat, next: nat)
    requires T.Placed(s, ts, ps, next, |s|) && T.TokAt(s, t, q) && T.End(t, q) == eq <= next <= |s| && i <= q
    requires ts != [] ==> |ps| > 0 && T.Blank(s, eq, ps[0])
    ensures T.Placed(s, [t] + ts, [q] + ps, i, |s|)
  {
    hide T.TokAt, T.Blank;
    T.EndAfter(s, t, q);
    hide T.End;
    var ts', ps' := [t] + ts, [q] + ps;
    assert forall k | 0 < k < |ts'| :: ts'[k] == ts[k - 1] && ps'[k] == ps[k - 1];
    forall k | 0 < k < |ts'| ensures T.Blank(s, T.End(ts'[k - 1], ps'[k - 1]), ps'[k]) {
      if k > 1 { assert ts'[k - 1] == ts[k - 2] && ps'[k - 1] == ps[k - 2]; }
    }
  }

  /** Redirections that were read stand after their arrows. */
  lemma RedirsFollow(s: string, i: nat, list: seq<Redirection>, rest: seq<Tok>)
    requires i <= |s| && CString(s) && G.ParseRedirs(Toks(s, i)) == Redirs(list, rest)
    ensures T.Arrows(s, list, i)
  {
    hide Toks, Starts, IsSimple, G.ParseRedirs, T.Arrows, T.Blank, T.TokAt, T.AfterArrow, T.InTurn;
    var ts, ps := Toks(s, i), Starts(s, i);
    TokensPlaced(s, i);
    RedirsSound(ts);
    var m := |ts| - |rest|;
    T.Slice(s, ts, ps, i, |s|, 0, m);
    assert ts[0..m] == G.Before(ts, rest);
    SimpleParts(ts[0..m], [], list);
    T.SimpleFollows(s, ts[0..m], ps[0..m], i, if m == |ts| then |s| else ps[m], [], list);
  }

  // ---- the parser --------------------------------------------------------

  datatype Parsed = Panic | Parsed(cmd: Cmd, pos: nat)

  datatype Redirections = RPanic | Redirections(list: seq<Redirection>, pos: nat)

  /** The result of a parsing method from `i` is that of its counterpart on tokens. */
  ghost predicate Agrees(s: string, i: nat, r: Parsed, p: Parse) {
    if r.Panic? then p.Fail? else i <= r.pos <= |s| && p == Done(r.cmd, Toks(s, r.pos))
  }

  ghost function More(list: seq<Redirection>, r: Redirs): Redirs {
    if r.NoRedirs? then NoRedirs else Redirs(list + r.list, r.rest)
  }

  lemma MoreStep(list: seq<Redirection>, ts: seq<Tok>)
    requires |ts| > 1 && IsArrow(ts[0]) && ts[1].W?
    ensures More(list, G.ParseRedirs(ts)) == More(list + [RedirOf(ts[0], ts[1].w)], G.ParseRedirs(ts[2..]))
  {
    var r := G.ParseRedirs(ts[2..]);
    if r.Redirs? {
      assert list + ([RedirOf(ts[0], ts[1].w)] + r.list) == list + [RedirOf(ts[0], ts[1].w)] + r.list;
    }
  }

  /** Redirections, one after the other. */
  method ParseRedirs(s: string, i: nat) returns (r: Redirections)
    requires CString(s) && i <= |s|
    ensures var p := G.ParseRedirs(Toks(s, i));
      if r.RPanic? then p.NoRedirs? else i <= r.pos <= |s| && p == Redirs(r.list, Toks(s, r.pos))
    ensures !r.RPanic? ==> T.Arrows(s, r.list, i)
  {
    hide Next, Toks, G.ParseRedirs, T.Arrows;
    var list, pos := [], i;
    while true
      invariant i <= pos <= |s| && More(list, G.ParseRedirs(Toks(s, pos))) == G.ParseRedirs(Toks(s, i))
      decreases |s| - pos
    {
      var found, j := Peek(s, pos, "<>");
      PeekedArrow(s, pos);
      FirstTok(s, pos);
      RedirsParse(Toks(s, pos));
      if !found {
        RedirsFollow(s, i, list, Toks(s, j));
        return Redirections(list, j);
      }
      var tok := GetToken(s, j);
      FirstTok(s, tok.next);
      ghost var ts := Toks(s, pos);
      assert ts[1..][0..] == ts[1..];
      var file := GetToken(s, tok.next);
      if file.kind.End? || !file.kind.tok.W? { return RPanic; }
      var redir := if tok.kind.tok == Sym('<') then Redirection(file.kind.tok.w, O_RDONLY, 0)
                   else if tok.kind.tok == Sym('>') then Redirection(file.kind.tok.w, O_WRONLY + O_CREATE, 1)
                   else Redirection(file.kind.tok.w, O_WRONLY + O_CREATE, 1);
      assert ts[1..][1..] == ts[2..];
      MoreStep(list, ts);
      list, pos := list + [redir], file.next;
    }
  }

  method ParseLine(s: string, i: nat) returns (r: Parsed)
    requires CString(s) && i <= |s|
    ensures Agrees(s, i, r, G.ParseLine(Toks(s, i)))
    decreases |s| - i, 3
  {
    hide Next, Toks, G.ParsePipe;
    r := ParsePipe(s, i);
    if r.Panic? { return; }
    var cmd, pos := r.cmd, r.pos;
    var found, j := Peek(s, pos, "&");
    Peeked(s, pos, '&');
    FirstTok(s, pos);
    while found
      invariant i <= j <= |s| && (found <==> Toks(s, j) != [] && Toks(s, j)[0] == Sym('&'))
      invariant G.ParseBacked(Toks(s, i)) == ParseBacks(cmd, Toks(s, j))
      decreases |s| - j
    {
      FirstTok(s, j);
      var t := GetToken(s, j);
      cmd := Back(cmd);
      Peeked(s, t.next, '&');
      FirstTok(s, t.next);
      found, j := Peek(s, t.next, "&");
    }
    var semi, k := Peek(s, j, ";");
    Peeked(s, j, ';');
    FirstTok(s, j);
    if semi {
      var t := GetToken(s, k);
      FirstTok(s, k);
      var rest := ParseLine(s, t.next);
      if rest.Panic? { return Panic; }
      return Parsed(List(cmd, rest.cmd), rest.pos);
    }
    return Parsed(cmd, k);
  }

  method ParsePipe(s: string, i: nat) returns (r: Parsed)
    requires CString(s) && i <= |s|
    ensures Agrees(s, i, r, G.ParsePipe(Toks(s, i)))
    decreases |s| - i, 2
  {
    hide Next, Toks, G.ParseExec;
    r := ParseExec(s, i);
    if r.Panic? { return; }
    var bar, j := Peek(s, r.pos, "|");
    Peeked(s, r.pos, '|');
    FirstTok(s, r.pos);
    if bar {
      var t := GetToken(s, j);
      FirstTok(s, j);
      var rest := ParsePipe(s, t.next);
      if rest.Panic? { return Panic; }
      return Parsed(Pipe(r.cmd, rest.cmd), rest.pos);
    }
    return Parsed(r.cmd, j);
  }

  method ParseBlock(s: string, i: nat) returns (r: Parsed)
    requires CString(s) && i <= |s|
    requires Toks(s, i) != [] && Toks(s, i)[0] == Sym('(')    // otherwise it panics: "parseblock"
    ensures Agrees(s, i, r, G.ParseExec(Toks(s, i)))
    decreases |s| - i, 0
  {
    hide Next, Toks, G.ParseLine, G.ParseRedirs, G.ParseArgs, Wrapped;
    var open, j := Peek(s, i, "(");
    Peeked(s, i, '(');
    FirstTok(s, i);
    if !open { return Panic; }
    var t := GetToken(s, j);
    FirstTok(s, j);
    r := ParseLine(s, t.next);
    if r.Panic? { return; }
    var close, k := Peek(s, r.pos, ")");
    Peeked(s, r.pos, ')');
    FirstTok(s, r.pos);
    if !close { return Panic; }
    var u := GetToken(s, k);
    FirstTok(s, k);
    var redirs := ParseRedirs(s, u.next);
    if redirs.RPanic? { return Panic; }
    return Parsed(Wrapped(r.cmd, redirs.list), redirs.pos);
  }

  ghost function Whole(argv: seq<Word>, wraps: seq<Redirection>, r: Args): Parse {
    if r.NoArgs? then Fail else Done(Wrapped(Exec(argv + r.args), wraps + r.rs), r.rest)
  }

  lemma WholeStart(ts: seq<Tok>, list: seq<Redirection>, mid: seq<Tok>)
    requires (ts == [] || ts[0] != Sym('(')) && G.ParseRedirs(ts) == Redirs(list, mid)
    ensures G.ParseExec(ts) == Whole([], list, ParseArgs(mid, 0))
  {
    hide G.ParseRedirs, ParseArgs, Wrapped, G.ParseLine;
    var r := ParseArgs(mid, 0);
    if r.Args? { assert [] + r.args == r.args; }
  }

  lemma WholeStep(argv: seq<Word>, wraps: seq<Redirection>, ts: seq<Tok>, list: seq<Redirection>, mid: seq<Tok>)
    requires ts != [] && ts[0].W? && |argv| + 1 < MAXARGS && G.ParseRedirs(ts[1..]) == Redirs(list, mid)
    ensures Whole(argv, wraps, ParseArgs(ts, |argv|)) ==
      Whole(argv + [ts[0].w], wraps + list, ParseArgs(mid, |argv| + 1))
  {
    hide G.ParseRedirs, Wrapped, ParseArgs;
    var r := ParseArgs(mid, |argv| + 1);
    if r.NoArgs? {
      NoneAfter(ts, |argv|, list, mid);
    } else {
      ArgsParse(ts, |argv|, list, mid, r.args, r.rs, r.rest);
      Associates(argv, [ts[0].w], r.args);
      Associates(wraps, list, r.rs);
    }
  }

  lemma Associates<T>(a: seq<T>, b: seq<T>, c: seq<T>)
    ensures a + (b + c) == a + b + c
  {
  }

  lemma NoneAfter(ts: seq<Tok>, n: nat, list: seq<Redirection>, mid: seq<Tok>)
    requires ts != [] && ts[0].W? && G.ParseRedirs(ts[1..]) == Redirs(list, mid) && ParseArgs(mid, n + 1).NoArgs?
    ensures ParseArgs(ts, n).NoArgs?
  {
    hide G.ParseRedirs;
  }

  lemma WholeFails(argv: seq<Word>, wraps: seq<Redirection>, ts: seq<Tok>)
    requires ts != [] && !IsStop(ts[0])
    requires !ts[0].W? || |argv| + 1 >= MAXARGS || G.ParseRedirs(ts[1..]).NoRedirs?
    ensures Whole(argv, wraps, ParseArgs(ts, |argv|)).Fail?
  {
  }

  lemma WholeDone(argv: seq<Word>, wraps: seq<Redirection>, ts: seq<Tok>)
    requires ts == [] || IsStop(ts[0])
    ensures Whole(argv, wraps, ParseArgs(ts, |argv|)) == Done(Wrapped(Exec(argv), wraps), ts)
  {
    assert argv + [] == argv && wraps + [] == wraps;
  }

  lemma PeekedStop(s: string, i: nat)
    requires i <= |s|
    ensures var j := SkipSpace(s, i); (j < |s| && s[j] in "|)&;") <==> (Toks(s, i) != [] && IsStop(Toks(s, i)[0]))
  {
    FirstTok(s, i);
  }

  /** A block, or a program whose redirections may stand anywhere among its
      arguments. */
  method ParseExec(s: string, i: nat) returns (r: Parsed)
    requires CString(s) && i <= |s|
    ensures Agrees(s, i, r, G.ParseExec(Toks(s, i)))
    decreases |s| - i, 1
  {
    hide Next, Toks, G.ParseExec, G.ParseRedirs, ParseArgs, Wrapped, Whole;
    var open, start := Peek(s, i, "(");
    Peeked(s, i, '(');
    FirstTok(s, i);
    if open {
      r := ParseBlock(s, start);
      return;
    }
    r := ParseProgram(s, start);
  }

  method ParseProgram(s: string, i: nat) returns (r: Parsed)
    requires CString(s) && i <= |s| && (Toks(s, i) == [] || Toks(s, i)[0] != Sym('('))
    ensures Agrees(s, i, r, G.ParseExec(Toks(s, i)))
  {
    hide Next, Toks, G.ParseExec, G.ParseRedirs, ParseArgs, Wrapped, Whole, IsStop;
    var redirs := ParseRedirs(s, i);
    if redirs.RPanic? {
      ExecFails(Toks(s, i));
      return Panic;
    }
    WholeStart(Toks(s, i), redirs.list, Toks(s, redirs.pos));
    var argv, wraps, pos := [], redirs.list, redirs.pos;
    while true
      invariant i <= pos <= |s| && |argv| < MAXARGS
      invariant G.ParseExec(Toks(s, i)) == Whole(argv, wraps, ParseArgs(Toks(s, pos), |argv|))
      decreases |s| - pos
    {
      var stop, j := Peek(s, pos, "|)&;");
      PeekedStop(s, pos);
      FirstTok(s, pos);
      pos := j;
      ghost var ts := Toks(s, pos);
      if stop { break; }
      var t := GetToken(s, pos);
      FirstTok(s, pos);
      if t.kind.End? { break; }
      if !t.kind.tok.W? {
        WholeFails(argv, wraps, ts);
        return Panic;
      }
      if |argv| + 1 >= MAXARGS {
        WholeFails(argv, wraps, ts);
        return Panic;
      }
      redirs := ParseRedirs(s, t.next);
      if redirs.RPanic? {
        WholeFails(argv, wraps, ts);
        return Panic;
      }
      WholeStep(argv, wraps, ts, redirs.list, Toks(s, redirs.pos));
      argv, wraps, pos := argv + [t.kind.tok.w], wraps + redirs.list, redirs.pos;
    }
    WholeDone(argv, wraps, Toks(s, pos));
    return Parsed(Wrapped(Exec(argv), wraps), pos);
  }

  lemma ExecFails(ts: seq<Tok>)
    requires (ts == [] || ts[0] != Sym('(')) && G.ParseRedirs(ts).NoRedirs?
    ensures G.ParseExec(ts).Fail?
  {
    hide G.ParseRedirs;
  }

  // ---- ending the strings in place -------------------------------------------------------------

  /** The C string that starts at `i`. */
  function CStringAt(b: seq<char>, i: nat): string
    requires i <= |b|
    decreases |b| - i
  {
    if i == |b| || b[i] == '\0' then "" else [b[i]] + CStringAt(b, i + 1)
  }

  ghost function Ends(ws: multiset<Word>): set<nat> { set w | w in ws :: w.eq }

  /** Zeros at `ends`, and nothing else changed. */
  ghost predicate Ended(before: seq<char>, after: seq<char>, ends: set<nat>) {
    |after| == |before| && forall k | 0 <= k < |after| :: after[k] == if k in ends then '\0' else before[k]
  }

  lemma EndedMore(a: seq<char>, b: seq<char>, c: seq<char>, ends: set<nat>, more: set<nat>)
    requires Ended(a, b, ends) && Ended(b, c, more)
    ensures Ended(a, c, ends + more)
  {
  }

  method EndArgs(args: seq<Word>, buf: array<char>)
    requires forall w | w in args :: w.eq < buf.Length
    modifies buf
    ensures Ended(old(buf[..]), buf[..], Ends(multiset(args)))
  {
    var i := 0;
    while i < |args|
      invariant i <= |args| && Ended(old(buf[..]), buf[..], Ends(multiset(args[..i])))
    {
      assert args[..i + 1] == args[..i] + [args[i]];
      EndsSum(multiset(args[..i]), multiset{args[i]});
      ghost var before := buf[..];
      buf[args[i].eq] := '\0';
      assert Ended(before, buf[..], Ends(multiset{args[i]}));
      EndedMore(old(buf[..]), before, buf[..], Ends(multiset(args[..i])), Ends(multiset{args[i]}));
      i := i + 1;
    }
    assert args[..i] == args;
  }

  ghost predicate EndsWithin(ws: multiset<Word>, n: nat) { forall w | w in ws :: w.eq < n }

  /** Every stored string of the command is ended where its word ends; no other
      character changes. */
  method NulTerminate(c: Cmd, buf: array<char>)
    requires EndsWithin(TreeWords(c), buf.Length)
    modifies buf
    ensures Ended(old(buf[..]), buf[..], Ends(TreeWords(c)))
    decreases c
  {
    hide Ended;
    ghost var before := buf[..];
    match c
    case Exec(args) =>
      assert forall w | w in args :: w in multiset(args);
      EndArgs(args, buf);
    case Redir(sub, file, _, _) =>
      EndsSum(TreeWords(sub), multiset{file});
      NulTerminate(sub, buf);
      ghost var mid := buf[..];
      assert file in TreeWords(c);
      EndArgs([file], buf);
      EndedMore(before, mid, buf[..], Ends(TreeWords(sub)), Ends(multiset{file}));
    case Pipe(l, r) =>
      EndsSum(TreeWords(l), TreeWords(r));
      NulTerminate(l, buf);
      ghost var mid := buf[..];
      NulTerminate(r, buf);
      EndedMore(before, mid, buf[..], Ends(TreeWords(l)), Ends(TreeWords(r)));
    case List(l, r) =>
      EndsSum(TreeWords(l), TreeWords(r));
      NulTerminate(l, buf);
      ghost var mid := buf[..];
      NulTerminate(r, buf);
      EndedMore(before, mid, buf[..], Ends(TreeWords(l)), Ends(TreeWords(r)));
    case Back(sub) =>
      NulTerminate(sub, buf);
  }

  lemma EndsSum(a: multiset<Word>, b: multiset<Word>)
    ensures Ends(a + b) == Ends(a) + Ends(b)
  {
  }

  /** A stretch without zeros before a zero is what a C string reads. */
  lemma {:induction false} ReadsBack(b: seq<char>, q: nat, eq: nat)
    requires q <= eq < |b| && b[eq] == '\0' && forall k | q <= k < eq :: b[k] != '\0'
    ensures CStringAt(b, q) == b[q..eq]
    decreases eq - q
  {
    if q < eq {
      ReadsBack(b, q + 1, eq);
      assert b[q..eq] == [b[q]] + b[q + 1..eq];
    }
  }

  /** Ending all the words of a line leaves each of them readable, even words with no
      space between. */
  lemma WordsReadBack(s: string, ws: multiset<Word>, before: seq<char>, after: seq<char>, w: Word)
    requires CString(s) && |s| < |before| && before[..|s|] == s && before[|s|] == '\0' && Ended(before, after, Ends(ws))
    requires (forall v | v in ws :: IsWord(s, v)) && w in ws
    ensures w.q < w.eq <= |s| < |after| && CStringAt(after, w.q) == s[w.q..w.eq]
  {
    forall k | w.q <= k < w.eq ensures after[k] == s[k] && s[k] != '\0' {
      assert before[k] == before[..|s|][k];
      forall v | v in ws ensures v.eq != k { NotAnEnd(s, v, w, k); }
      assert k !in Ends(ws) && s[k] in s;
    }
    assert w.eq in Ends(ws);
    ReadsBack(after, w.q, w.eq);
    assert after[w.q..w.eq] == s[w.q..w.eq];
  }

  /** The character after a word is in no word. */
  lemma NotAnEnd(s: string, v: Word, w: Word, k: nat)
    requires IsWord(s, v) && IsWord(s, w) && w.q <= k < w.eq
    ensures v.eq != k
  {
  }

  /** Each stored word is stored once and reads as it was. */
  ghost predicate Stored(s: string, ws: multiset<Word>, buf: seq<char>) {
    forall w | w in ws ::
      IsWord(s, w) && ws[w] == 1 && w.q <= |buf| && CStringAt(buf, w.q) == s[w.q..w.eq]
  }

  lemma AllStored(s: string, c: Cmd, before: seq<char>, after: seq<char>)
    requires CString(s) && |s| < |before| && before[..|s|] == s && before[|s|] == '\0'
    requires Ended(before, after, Ends(TreeWords(c)))
    requires TreeWords(c) == multiset(Words(s, 0))
    ensures Stored(s, TreeWords(c), after)
  {
    hide Words, IsWord, Ended;
    WordsFormed(s, 0);
    WordsAre(s, c);
    forall w | w in TreeWords(c)
      ensures IsWord(s, w) && TreeWords(c)[w] == 1 && w.q <= |after| && w.q <= w.eq <= |s|
      ensures CStringAt(after, w.q) == s[w.q..w.eq]
    {
      WordsOnce(s, w);
      WordsReadBack(s, TreeWords(c), before, after, w);
    }
  }

  datatype Outcome = Rejected | Accepted(cmd: Cmd)

  method StrLen(buf: array<char>) returns (n: nat)
    requires '\0' in buf[..]
    ensures n < buf.Length && buf[n] == '\0' && CString(buf[..n])
  {
    n := 0;
    while buf[n] != '\0'
      invariant n < buf.Length && '\0' !in buf[..n] && '\0' in buf[n..]
      decreases buf.Length - n
    {
      assert buf[n..] == [buf[n]] + buf[n + 1..];
      assert buf[..n + 1] == buf[..n] + [buf[n]];
      n := n + 1;
    }
  }

  /** A line is accepted exactly when the grammar has a command for its tokens, and that
      is the result.  It follows the line: each operator stands between its parts, each
      redirection does what the arrow before its file says, and the later one is outside.
      Every word of the line is in it exactly once, and every stored pointer reads as its
      word in the changed buffer. */
  method ParseCmd(buf: array<char>) returns (r: Outcome, ghost s: string)
    requires '\0' in buf[..]
    modifies buf
    ensures CString(s) && |s| < buf.Length && s == old(buf[..])[..|s|] && old(buf[..])[|s|] == '\0'
    ensures r.Rejected? ==> buf[..] == old(buf[..]) && forall c :: !IsLine(Toks(s, 0), c)
    ensures r.Accepted? ==> IsLine(Toks(s, 0), r.cmd) && T.Follows(s, r.cmd)
    ensures r.Accepted? ==> TreeWords(r.cmd) == multiset(Words(s, 0)) && Stored(s, TreeWords(r.cmd), buf[..])
  {
    hide IsLine, G.ParseLine, Words, Toks, Ended, Stored, EndsWithin, T.Follows;
    var n := StrLen(buf);
    var line := buf[..n];
    s := line;
    ghost var ts := Toks(line, 0);
    forall c { Recognised(ts, c); }
    var parsed := ParseLine(line, 0);
    if parsed.Panic? { return Rejected, s; }
    var found, end := Peek(line, parsed.pos, "");
    FirstTok(line, parsed.pos);
    if end != n { return Rejected, s; }
    CommandFollows(line, parsed.cmd);
    LineWords(ts, parsed.cmd);
    assert multiset(Words(line, 0)) == TreeWords(parsed.cmd) by { WordsIs(line); }
    WordsWithin(line, parsed.cmd, buf.Length);
    ghost var before := buf[..];
    NulTerminate(parsed.cmd, buf);
    AllStored(line, parsed.cmd, before, buf[..]);
    return Accepted(parsed.cmd), s;
  }

  lemma CommandFollows(s: string, c: Cmd)
    requires CString(s) && IsLine(Toks(s, 0), c)
    ensures T.Follows(s, c)
  {
    hide IsLine, T.Placed, T.Follows, Toks, Starts;
    TokensPlaced(s, 0);
    var ts, ps := Toks(s, 0), Starts(s, 0);
    T.SameLength(s, ts, ps, 0, |s|);
    NothingBefore(s, ts, ps);
    T.LineLaw(s, ts, ps, 0, |s|, c);
  }

  lemma NothingBefore(s: string, ts: seq<Tok>, ps: seq<nat>)
    requires T.Placed(s, ts, ps, 0, |s|) && (ts != [] ==> |ps| > 0 && T.Blank(s, 0, ps[0]))
    ensures T.Opens(s, ts, ps)
  {
  }

  lemma WordsIs(s: string)
    ensures Words(s, 0) == WordsOf(Toks(s, 0))
  {
  }

  lemma WordsWithin(s: string, c: Cmd, n: nat)
    requires CString(s) && TreeWords(c) == multiset(Words(s, 0)) && |s| < n
    ensures EndsWithin(TreeWords(c), n)
  {
    WordsFormed(s, 0);
    WordsAre(s, c);
  }

  lemma WordsAre(s: string, c: Cmd)
    requires TreeWords(c) == multiset(Words(s, 0)) && AllWords(s, Words(s, 0), 0)
    ensures forall w | w in TreeWords(c) :: IsWord(s, w) && w.eq <= |s| && w in Words(s, 0)
  {
  }
}
