/** What the command of a line has to do with the line's characters.

    The grammar speaks of tokens; here the tree is held against the line itself: which
    operator stands between the parts of a node, what each redirection does, and which
    of two is outside. */
module ShellTree {
  import opened ShellGrammar

  predicate IsBlank(c: char) { c in " \t\r\n\U{0B}" }

  /** From `a` to `b` there is only space. */
  ghost predicate Blank(s: string, a: nat, b: nat) {
    a <= b <= |s| && forall k | a <= k < b :: IsBlank(s[k])
  }

  /** The last character before `p` that is no space is `c`. */
  ghost predicate Preceded(s: string, p: nat, c: char) {
    exists k: nat :: LastAt(s, p, c, k)
  }

  ghost predicate LastAt(s: string, p: nat, c: char, k: nat) { k < p && Blank(s, k + 1, p) && s[k] == c && !IsBlank(c) }

  ghost predicate AfterArrow(s: string, p: nat) { Preceded(s, p, '<') || Preceded(s, p, '>') }

  ghost predicate AllBefore(c: Cmd, k: nat) { forall w | w in TreeWords(c) :: w.eq <= k }

  ghost predicate AllAfter(c: Cmd, k: nat) { forall w | w in TreeWords(c) :: k < w.q }

  /** The words of `l` stand before an operator, those of `r` after it. */
  ghost predicate Between(s: string, l: Cmd, r: Cmd, op: char) {
    exists k: nat :: k < |s| && s[k] == op && AllBefore(l, k) && AllAfter(r, k)
  }

  /** The file of a redirection is after an arrow, which says what it is opened for and as
      which descriptor. */
  ghost predicate RightArrow(s: string, file: Word, mode: nat, fd: nat) {
    || (Preceded(s, file.q, '<') && mode == 0 && fd == 0)
    || (Preceded(s, file.q, '>') && mode == 0x201 && fd == 1)
  }

  ghost predicate InTurn(s: string, args: seq<Word>) {
    && (forall i, j | 0 <= i < j < |args| :: args[i].eq <= args[j].q)
    && forall i | 0 <= i < |args| :: !AfterArrow(s, args[i].q)
  }

  /** The tree follows the line: arguments stand in turn and after no arrow, redirections
      after their arrow, the later one outside, and operators between their parts. */
  ghost predicate Follows(s: string, c: Cmd) {
    match c
    case Exec(args) => InTurn(s, args)
    case Redir(sub, file, mode, fd) =>
      && Follows(s, sub) && RightArrow(s, file, mode, fd)
      && (sub.Redir? ==> sub.file.eq <= file.q) && (sub.Exec? || sub.Redir? || AllBefore(sub, file.q))
    case Pipe(l, r) => Follows(s, l) && Follows(s, r) && Between(s, l, r, '|')
    case List(l, r) => Follows(s, l) && Follows(s, r) && Between(s, l, r, ';')
    case Back(sub) => Follows(s, sub) && exists k: nat :: k < |s| && s[k] == '&' && AllBefore(sub, k)
  }

  // ---- where the tokens stand --------------------------------------------

  function End(t: Tok, p: nat): nat { if t.W? then t.w.eq else if t.Append? then p + 2 else p + 1 }

  ghost predicate TokAt(s: string, t: Tok, p: nat) {
    && End(t, p) <= |s|
    && match t
       case W(w) => w.q == p < w.eq && forall k | w.q <= k < w.eq :: !IsBlank(s[k]) && s[k] != '<' && s[k] != '>'
       case Sym(c) => s[p] == c && !IsBlank(c)
       case Append => s[p] == '>' && s[p + 1] == '>'
  }

  /** The tokens stand at `ps`, between `lo` and `hi`, one after the other with only space
      between. */
  ghost predicate Placed(s: string, ts: seq<Tok>, ps: seq<nat>, lo: nat, hi: nat) {
    && |ps| == |ts|
    && (forall i | 0 <= i < |ts| :: TokAt(s, ts[i], ps[i]) && lo <= ps[i] && End(ts[i], ps[i]) <= hi)
    && (forall i, j | 0 <= i < j < |ts| :: End(ts[i], ps[i]) <= ps[j])
    && (forall i | 0 < i < |ts| :: Blank(s, End(ts[i - 1], ps[i - 1]), ps[i]))
  }

  /** If the first of them is a word, it is not after an arrow. */
  ghost predicate Opens(s: string, ts: seq<Tok>, ps: seq<nat>) {
    |ps| == |ts| && (ts != [] && ts[0].W? ==> !AfterArrow(s, ps[0]))
  }

  lemma Slice(s: string, ts: seq<Tok>, ps: seq<nat>, lo: nat, hi: nat, a: nat, b: nat)
    requires Placed(s, ts, ps, lo, hi) && a <= b <= |ts|
    ensures var lo' := if a == 0 then lo else ps[a - 1] + 1; var hi' := if b == |ts| then hi else ps[b];
      Placed(s, ts[a..b], ps[a..b], lo', hi')
  {
    hide TokAt, Blank;
    var ts', ps' := ts[a..b], ps[a..b];
    forall i | 0 <= i < |ts'| ensures TokAt(s, ts'[i], ps'[i]) && (a > 0 ==> ps[a - 1] < ps'[i]) {
      assert ts'[i] == ts[a + i] && ps'[i] == ps[a + i];
      if a > 0 { assert ps[a - 1] < End(ts[a - 1], ps[a - 1]) by { EndAfter(s, ts[a - 1], ps[a - 1]); } }
    }
    forall i | 0 < i < |ts'| ensures Blank(s, End(ts'[i - 1], ps'[i - 1]), ps'[i]) {
      assert ts'[i - 1] == ts[a + i - 1] && ps'[i - 1] == ps[a + i - 1] && ps'[i] == ps[a + i];
    }
  }

  lemma EndAfter(s: string, t: Tok, p: nat)
    requires TokAt(s, t, p)
    ensures p < End(t, p) <= |s|
  {
  }

  /** After anything but an arrow nothing is after an arrow. */
  lemma NotAfter(s: string, ts: seq<Tok>, ps: seq<nat>, lo: nat, hi: nat, i: nat)
    requires Placed(s, ts, ps, lo, hi) && 0 < i < |ts| && !IsArrow(ts[i - 1])
    ensures !AfterArrow(s, ps[i])
  {
    var t, p := ts[i - 1], ps[i - 1];
    var e := End(t, p);
    assert TokAt(s, t, p) && Blank(s, e, ps[i]);
    EndAfter(s, t, p);
    LastIs(s, e, ps[i], '<');
    LastIs(s, e, ps[i], '>');
  }

  /** Before space comes the character before the space. */
  lemma LastIs(s: string, e: nat, p: nat, c: char)
    requires 0 < e && Blank(s, e, p) && !IsBlank(s[e - 1])
    ensures Preceded(s, p, c) ==> s[e - 1] == c
  {
    if k: nat :| LastAt(s, p, c, k) {
      assert k == e - 1;
    }
  }

  lemma OpensAfter(s: string, ts: seq<Tok>, ps: seq<nat>, lo: nat, hi: nat, a: nat, b: nat)
    requires Placed(s, ts, ps, lo, hi) && 0 < a <= b <= |ts| && !IsArrow(ts[a - 1])
    ensures Opens(s, ts[a..b], ps[a..b])
  {
    if a < b { NotAfter(s, ts, ps, lo, hi, a); }
  }

  lemma ArrowBefore(s: string, ts: seq<Tok>, ps: seq<nat>, lo: nat, hi: nat)
    requires Placed(s, ts, ps, lo, hi) && |ts| > 1 && IsArrow(ts[0]) && ts[1].W?
    ensures var r := RedirOf(ts[0], ts[1].w); r.file == ts[1].w && RightArrow(s, r.file, r.mode, r.fd)
  {
    var e := End(ts[0], ps[0]);
    assert TokAt(s, ts[0], ps[0]) && TokAt(s, ts[1], ps[1]) && Blank(s, e, ps[1]);
    assert LastAt(s, ps[1], s[e - 1], e - 1);
  }

  // ---- programs ----------------------------------------------------------

  /** Redirections after their arrows, one after the other. */
  ghost predicate Arrows(s: string, rs: seq<Redirection>, lo: nat) {
    && (forall i | 0 <= i < |rs| :: RightArrow(s, rs[i].file, rs[i].mode, rs[i].fd) && lo <= rs[i].file.q)
    && forall i, j | 0 <= i < j < |rs| :: rs[i].file.eq <= rs[j].file.q
  }

  ghost predicate InTurnFrom(s: string, args: seq<Word>, lo: nat) {
    InTurn(s, args) && forall i | 0 <= i < |args| :: lo <= args[i].q
  }

  lemma ArgFirst(s: string, w: Word, args: seq<Word>, lo: nat)
    requires InTurnFrom(s, args, w.eq) && lo <= w.q <= w.eq && !AfterArrow(s, w.q)
    ensures InTurnFrom(s, [w] + args, lo)
  {
    hide AfterArrow;
  }

  lemma ArrowFirst(s: string, r: Redirection, rs: seq<Redirection>, lo: nat)
    requires Arrows(s, rs, r.file.eq) && lo <= r.file.q <= r.file.eq && RightArrow(s, r.file, r.mode, r.fd)
    ensures Arrows(s, [r] + rs, lo)
  {
    hide RightArrow;
  }

  lemma Later(s: string, args: seq<Word>, rs: seq<Redirection>, lo: nat, lo': nat)
    requires lo <= lo'
    ensures Arrows(s, rs, lo') ==> Arrows(s, rs, lo)
    ensures InTurnFrom(s, args, lo') ==> InTurnFrom(s, args, lo)
  {
    hide RightArrow, AfterArrow;
  }

  lemma {:induction false} SimpleFollows(s: string, ts: seq<Tok>, ps: seq<nat>, lo: nat, hi: nat, args: seq<Word>,
                                         rs: seq<Redirection>)
    requires Placed(s, ts, ps, lo, hi) && Opens(s, ts, ps) && IsSimple(ts, args, rs)
    ensures InTurnFrom(s, args, lo) && Arrows(s, rs, lo)
    decreases |ts|
  {
    hide TokAt, Blank, AfterArrow, IsSimple, RightArrow, RedirOf;
    SimpleParts(ts, args, rs);
    if ts == [] {
    } else if ts[0].W? {
      var w, n := ts[0].w, |ts|;
      assert w.q == ps[0] < w.eq by { assert TokAt(s, ts[0], ps[0]); WordAt(s, w, ps[0]); }
      Tail(s, ts, ps, lo, hi, 1);
      SimpleFollows(s, ts[1..], ps[1..], w.eq, hi, args[1..], rs);
      ArgFirst(s, w, args[1..], lo);
      assert args == [w] + args[1..];
      Later(s, [], rs, lo, w.eq);
    } else {
      SimpleArrow(ts, args, rs);
      SimpleRedir(ts, args, rs);
      ArrowBefore(s, ts, ps, lo, hi);
      var w := ts[1].w;
      assert w.q == ps[1] < w.eq by { assert TokAt(s, ts[1], ps[1]); WordAt(s, w, ps[1]); }
      Tail(s, ts, ps, lo, hi, 2);
      SimpleFollows(s, ts[2..], ps[2..], w.eq, hi, args, rs[1..]);
      ArrowFirst(s, rs[0], rs[1..], lo);
      assert rs == [rs[0]] + rs[1..];
      Later(s, args, [], lo, w.eq);
    }
  }

  lemma WordAt(s: string, w: Word, p: nat)
    requires TokAt(s, W(w), p)
    ensures w.q == p < w.eq
  {
  }

  lemma SimpleRedir(ts: seq<Tok>, args: seq<Word>, rs: seq<Redirection>)
    requires IsSimple(ts, args, rs) && ts != [] && !ts[0].W?
    ensures |ts| > 1 && ts[1].W? && IsArrow(ts[0]) && rs != [] && rs[0] == RedirOf(ts[0], ts[1].w)
  {
    hide RedirOf;
  }

  /** What is left after a word stands after it. */
  lemma Tail(s: string, ts: seq<Tok>, ps: seq<nat>, lo: nat, hi: nat, n: nat)
    requires Placed(s, ts, ps, lo, hi) && 0 < n <= |ts| && ts[n - 1].W?
    ensures Placed(s, ts[n..], ps[n..], ts[n - 1].w.eq, hi) && Opens(s, ts[n..], ps[n..])
  {
    hide TokAt, Blank, AfterArrow;
    Slice(s, ts, ps, lo, hi, n, |ts|);
    OpensAfter(s, ts, ps, lo, hi, n, |ts|);
    assert ts[n..|ts|] == ts[n..] && ps[n..|ts|] == ps[n..];
    forall i | 0 <= i < |ts| - n ensures ts[n - 1].w.eq <= ps[n..][i] {
      assert End(ts[n - 1], ps[n - 1]) <= ps[n + i];
    }
  }

  // ---- the tree ----------------------------------------------------------

  /** A command follows the line inside its redirections if they come after it. */
  lemma {:induction false} WrappedFollows(s: string, c: Cmd, rs: seq<Redirection>, lo: nat)
    requires Follows(s, c) && Arrows(s, rs, lo) && (c.Exec? || AllBefore(c, lo))
    ensures Follows(s, Wrapped(c, rs))
    decreases |rs|
  {
    hide RightArrow;
    if rs != [] {
      var n := |rs| - 1;
      var front := rs[..n];
      WrappedFollows(s, c, front, lo);
      if n > 0 {
        assert Wrapped(c, front).Redir? && Wrapped(c, front).file == front[n - 1].file == rs[n - 1].file;
      } else if c.Redir? {
        assert c.file in TreeWords(c);
      }
    }
  }

  lemma {:induction false} InWords(ts: seq<Tok>, w: Word) returns (i: nat)
    requires w in WordsOf(ts)
    ensures i < |ts| && ts[i] == W(w)
  {
    if ts[0] == W(w) {
      i := 0;
    } else {
      WordsFirst(ts);
      var k := InWords(ts[1..], w);
      i := k + 1;
    }
  }

  /** The words of a command stand where its tokens do. */
  lemma Inside(s: string, ts: seq<Tok>, ps: seq<nat>, lo: nat, hi: nat, c: Cmd)
    requires Placed(s, ts, ps, lo, hi) && multiset(WordsOf(ts)) == TreeWords(c)
    ensures AllBefore(c, hi) && (lo > 0 ==> AllAfter(c, lo - 1))
  {
    hide WordsOf, Blank;
    forall w | w in TreeWords(c) ensures lo <= w.q && w.eq <= hi {
      assert w in multiset(WordsOf(ts));
      var i := InWords(ts, w);
      assert TokAt(s, ts[i], ps[i]);
    }
  }

  lemma {:induction false} ExecLaw(s: string, ts: seq<Tok>, ps: seq<nat>, lo: nat, hi: nat, c: Cmd)
    requires Placed(s, ts, ps, lo, hi) && Opens(s, ts, ps) && IsExec(ts, c)
    ensures Follows(s, c)
    decreases |ts|, 0
  {
    hide IsSimple, IsLine, Placed, Wrapped, InTurn, Arrows, AfterArrow, Follows;
    if args, rs :| IsSimple(ts, args, rs) && |args| < MAXARGS && c == Wrapped(Exec(args), rs) {
      ProgramLaw(s, ts, ps, lo, hi, args, rs);
    } else {
      var m, sub, rs :| 0 < m < |ts| && ts[m] == Sym(')') && IsLine(ts[1..m], sub) && IsSimple(ts[m + 1..], [], rs) &&
        c == Wrapped(sub, rs);
      Block(s, ts, ps, lo, hi, m);
      LineLaw(s, ts[1..m], ps[1..m], ps[0] + 1, ps[m], sub);
      LineWords(ts[1..m], sub);
      Inside(s, ts[1..m], ps[1..m], ps[0] + 1, ps[m], sub);
      SimpleFollows(s, ts[m + 1..], ps[m + 1..], ps[m] + 1, hi, [], rs);
      Later(s, [], rs, ps[m], ps[m] + 1);
      WrappedFollows(s, sub, rs, ps[m]);
    }
  }

  lemma ProgramLaw(s: string, ts: seq<Tok>, ps: seq<nat>, lo: nat, hi: nat, args: seq<Word>, rs: seq<Redirection>)
    requires Placed(s, ts, ps, lo, hi) && Opens(s, ts, ps) && IsSimple(ts, args, rs)
    ensures Follows(s, Wrapped(Exec(args), rs))
  {
    hide IsSimple, Placed, InTurn, Arrows, AfterArrow, Wrapped;
    SimpleFollows(s, ts, ps, lo, hi, args, rs);
    WrappedFollows(s, Exec(args), rs, lo);
  }

  /** The line in a block, and what comes after it. */
  lemma Block(s: string, ts: seq<Tok>, ps: seq<nat>, lo: nat, hi: nat, m: nat)
    requires Placed(s, ts, ps, lo, hi) && 0 < m < |ts| && ts[0] == Sym('(') && ts[m] == Sym(')')
    ensures |ps| == |ts| && Placed(s, ts[1..m], ps[1..m], ps[0] + 1, ps[m]) && Opens(s, ts[1..m], ps[1..m])
    ensures Placed(s, ts[m + 1..], ps[m + 1..], ps[m] + 1, hi) && Opens(s, ts[m + 1..], ps[m + 1..])
  {
    hide TokAt, Blank, AfterArrow;
    Slice(s, ts, ps, lo, hi, 1, m);
    OpensAfter(s, ts, ps, lo, hi, 1, m);
    Parts(s, ts, ps, lo, hi, m);
  }

  /** An operator and the commands before and after it. */
  lemma Operator(s: string, ts: seq<Tok>, ps: seq<nat>, lo: nat, hi: nat, m: nat, op: char, l: Cmd, r: Cmd)
    requires Placed(s, ts, ps, lo, hi) && m < |ts| && ts[m] == Sym(op)
    requires multiset(WordsOf(ts[..m])) == TreeWords(l) && multiset(WordsOf(ts[m + 1..])) == TreeWords(r)
    ensures Between(s, l, r, op)
  {
    hide WordsOf, TreeWords;
    Parts(s, ts, ps, lo, hi, m);
    Inside(s, ts[..m], ps[..m], lo, ps[m], l);
    Inside(s, ts[m + 1..], ps[m + 1..], ps[m] + 1, hi, r);
    assert TokAt(s, ts[m], ps[m]);
    assert ps[m] < |s| && s[ps[m]] == op && AllBefore(l, ps[m]) && AllAfter(r, ps[m]);
  }

  lemma Parts(s: string, ts: seq<Tok>, ps: seq<nat>, lo: nat, hi: nat, m: nat)
    requires Placed(s, ts, ps, lo, hi) && m < |ts|
    ensures Placed(s, ts[..m], ps[..m], lo, ps[m]) && Placed(s, ts[m + 1..], ps[m + 1..], ps[m] + 1, hi)
    ensures Opens(s, ts, ps) ==> Opens(s, ts[..m], ps[..m])
    ensures !IsArrow(ts[m]) ==> Opens(s, ts[m + 1..], ps[m + 1..])
  {
    hide TokAt, Blank, AfterArrow;
    Slice(s, ts, ps, lo, hi, 0, m);
    Slice(s, ts, ps, lo, hi, m + 1, |ts|);
    assert ts[0..m] == ts[..m] && ps[0..m] == ps[..m];
    assert ts[m + 1..|ts|] == ts[m + 1..] && ps[m + 1..|ts|] == ps[m + 1..];
    if !IsArrow(ts[m]) { OpensAfter(s, ts, ps, lo, hi, m + 1, |ts|); }
  }

  lemma {:induction false} PipeLaw(s: string, ts: seq<Tok>, ps: seq<nat>, lo: nat, hi: nat, c: Cmd)
    requires Placed(s, ts, ps, lo, hi) && Opens(s, ts, ps) && IsPipe(ts, c)
    ensures Follows(s, c)
    decreases |ts|, 1
  {
    hide IsExec, IsPipe, Placed, Opens, Between, WordsOf, TreeWords;
    if IsExec(ts, c) {
      ExecLaw(s, ts, ps, lo, hi, c);
    } else {
      var m := PipeParts(ts, c);
      assert |ps| == |ts| by { SameLength(s, ts, ps, lo, hi); }
      Parts(s, ts, ps, lo, hi, m);
      ExecLaw(s, ts[..m], ps[..m], lo, ps[m], c.left);
      PipeLaw(s, ts[m + 1..], ps[m + 1..], ps[m] + 1, hi, c.right);
      ExecWords(ts[..m], c.left);
      PipeWords(ts[m + 1..], c.right);
      Operator(s, ts, ps, lo, hi, m, '|', c.left, c.right);
    }
  }

  lemma SameLength(s: string, ts: seq<Tok>, ps: seq<nat>, lo: nat, hi: nat)
    requires Placed(s, ts, ps, lo, hi)
    ensures |ps| == |ts|
  {
  }

  lemma {:induction false} BacksLaw(s: string, ts: seq<Tok>, ps: seq<nat>, lo: nat, hi: nat, c: Cmd)
    requires Placed(s, ts, ps, lo, hi) && Opens(s, ts, ps) && IsBacks(ts, c)
    ensures Follows(s, c)
    decreases |ts|, 2
  {
    hide IsPipe, Placed, Opens, WordsOf, TreeWords;
    if IsPipe(ts, c) {
      PipeLaw(s, ts, ps, lo, hi, c);
    } else {
      var m := |ts| - 1;
      assert |ps| == |ts| by { SameLength(s, ts, ps, lo, hi); }
      Parts(s, ts, ps, lo, hi, m);
      BacksLaw(s, ts[..m], ps[..m], lo, ps[m], c.cmd);
      BacksWords(ts[..m], c.cmd);
      Inside(s, ts[..m], ps[..m], lo, ps[m], c.cmd);
      SymbolAt(s, ts, ps, lo, hi, m);
    }
  }

  lemma SymbolAt(s: string, ts: seq<Tok>, ps: seq<nat>, lo: nat, hi: nat, m: nat)
    requires Placed(s, ts, ps, lo, hi) && m < |ts| && ts[m].Sym?
    ensures ps[m] < |s| && s[ps[m]] == ts[m].c
  {
    assert TokAt(s, ts[m], ps[m]);
  }

  /** The command of a line follows it. */
  lemma {:induction false} LineLaw(s: string, ts: seq<Tok>, ps: seq<nat>, lo: nat, hi: nat, c: Cmd)
    requires Placed(s, ts, ps, lo, hi) && Opens(s, ts, ps) && IsLine(ts, c)
    ensures Follows(s, c)
    decreases |ts|, 3
  {
    hide IsBacks, IsLine, Placed, Opens, Between, WordsOf, TreeWords;
    if IsBacks(ts, c) {
      BacksLaw(s, ts, ps, lo, hi, c);
    } else {
      var m := LineParts(ts, c);
      assert |ps| == |ts| by { SameLength(s, ts, ps, lo, hi); }
      Parts(s, ts, ps, lo, hi, m);
      BacksLaw(s, ts[..m], ps[..m], lo, ps[m], c.left);
      LineLaw(s, ts[m + 1..], ps[m + 1..], ps[m] + 1, hi, c.right);
      BacksWords(ts[..m], c.left);
      LineWords(ts[m + 1..], c.right);
      Operator(s, ts, ps, lo, hi, m, ';', c.left, c.right);
    }
  }
}
