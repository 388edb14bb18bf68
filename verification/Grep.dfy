/** The pattern matcher of grep, against the language its patterns denote.

    Patterns and lines are C strings; the terminating zero is what `At` reads
    past the last character. */
module Grep {

  predicate CString(s: string) { '\0' !in s }

  function At(s: string, i: nat): char { if i < |s| then s[i] else '\0' }

  // ---- the language ------------------------------------------------------------

  datatype Item = One(c: char) | Star(c: char)

  /** What a pattern means: items in order, tied to either end of the line or not. */
  datatype Pattern = Pattern(start: bool, items: seq<Item>, end: bool)

  predicate CharMatches(c: char, x: char) { c == '.' || c == x }

  predicate ItemMatches(item: Item, w: string) {
    match item
    case One(c) => |w| == 1 && CharMatches(c, w[0])
    case Star(c) => forall x | x in w :: CharMatches(c, x)
  }

  function Concat(parts: seq<string>): string {
    if parts == [] then [] else parts[0] + Concat(parts[1..])
  }

  ghost predicate Divides(items: seq<Item>, parts: seq<string>) {
    |parts| == |items| && forall i | 0 <= i < |items| :: ItemMatches(items[i], parts[i])
  }

  /** `w` divides into one part for each item, each matched by its item. */
  ghost predicate InLanguage(items: seq<Item>, w: string) {
    exists parts :: Divides(items, parts) && Concat(parts) == w
  }

  /** The part of `text` from `i` to `j` is in the language, at the ends the
      pattern asks for. */
  ghost predicate Occurs(p: Pattern, text: string, i: nat, j: nat) {
    && i <= j <= |text| && InLanguage(p.items, text[i..j])
    && (p.start ==> i == 0) && (p.end ==> j == |text|)
  }

  /** How a pattern is read after a leading caret: a star binds first, and a
      dollar is special only at the very end. */
  function Body(re: string): Pattern {
    if re == "" then Pattern(false, [], false)
    else if At(re, 1) == '*' then
      var rest := Body(re[2..]);
      Pattern(false, [Star(re[0])] + rest.items, rest.end)
    else if re == "$" then Pattern(false, [], true)
    else
      var rest := Body(re[1..]);
      Pattern(false, [One(re[0])] + rest.items, rest.end)
  }

  function Parse(re: string): Pattern {
    if At(re, 0) == '^' then Body(re[1..]).(start := true) else Body(re)
  }

  // ---- patterns as they are written --------------------------------------------

  function Written(items: seq<Item>): string {
    if items == [] then ""
    else (match items[0] case One(c) => [c] case Star(c) => [c, '*']) + Written(items[1..])
  }

  function Print(p: Pattern): string { (if p.start then "^" else "") + Written(p.items) + (if p.end then "$" else "") }

  /** Characters that mean themselves, or any character, wherever they stand. */
  predicate Ordinary(items: seq<Item>) { forall i | 0 <= i < |items| :: items[i].c !in "*^$" }

  lemma {:induction false} BodyOfWritten(items: seq<Item>, end: bool)
    requires Ordinary(items)
    ensures Body(Written(items) + (if end then "$" else "")) == Pattern(false, items, end)
    ensures if items == [] then Written(items) == "" else Written(items) != "" && Written(items)[0] == items[0].c
  {
    var tail := if end then "$" else "";
    if items == [] {
      assert Written(items) + tail == tail;
    } else {
      var rest, re := items[1..], Written(items) + tail;
      BodyOfWritten(rest, end);
      var more := Written(rest) + tail;
      assert items == [items[0]] + rest;
      assert items[0].One? ==> re == [items[0].c] + more && re[1..] == more && At(re, 1) == At(more, 0);
      assert items[0].Star? ==> re == [items[0].c, '*'] + more && re[2..] == more;
      assert more != [] ==> more[0] == if rest == [] then '$' else rest[0].c;
      assert rest != [] ==> rest[0] == items[1];
    }
  }

  /** A pattern of such characters, printed with its stars, its caret and its dollar, is
      read back. */
  lemma ParsePrinted(p: Pattern)
    requires Ordinary(p.items)
    ensures Parse(Print(p)) == p
  {
    hide Body, Written;
    var body := Written(p.items) + (if p.end then "$" else "");
    BodyOfWritten(p.items, p.end);
    if p.start {
      assert Print(p) == "^" + body && Print(p)[1..] == body;
    } else {
      assert Print(p) == "" + body == body;
      assert p.items != [] ==> At(body, 0) == p.items[0].c;
    }
  }

  lemma {:induction false} PrintedBody(re: string)
    ensures !Body(re).start && Written(Body(re).items) + (if Body(re).end then "$" else "") == re
    decreases |re|
  {
    if re == "" || re == "$" {
      assert Written(Body(re).items) == "";
    } else if At(re, 1) == '*' {
      PrintedBody(re[2..]);
      var items := Body(re[2..]).items;
      assert ([Star(re[0])] + items)[1..] == items;
      assert re == [re[0], '*'] + re[2..];
    } else {
      PrintedBody(re[1..]);
      var items := Body(re[1..]).items;
      assert ([One(re[0])] + items)[1..] == items;
      assert re == [re[0]] + re[1..];
    }
  }

  /** Every string is what its pattern is printed as. */
  lemma PrintParsed(re: string)
    ensures Print(Parse(re)) == re
  {
    hide Body, Written;
    if At(re, 0) == '^' && re != "" {
      PrintedBody(re[1..]);
      assert re == "^" + re[1..];
    } else {
      PrintedBody(re);
    }
  }

  // ---- the language, item by item ----------------------------------------------

  lemma EmptyLanguage(w: string)
    ensures InLanguage([], w) <==> w == ""
  {
    assert w == "" ==> Divides([], []) && Concat([]) == w;
  }

  lemma FirstItem(item: Item, rest: seq<Item>, w: string)
    ensures InLanguage([item] + rest, w) <==> exists k: nat :: Head(item, rest, w, k)
  {
    var items := [item] + rest;
    if InLanguage(items, w) {
      var parts :| Divides(items, parts) && Concat(parts) == w;
      var tail := parts[1..];
      forall i | 0 <= i < |rest| ensures ItemMatches(rest[i], tail[i]) { assert items[i + 1] == rest[i]; }
      assert ItemMatches(items[0], parts[0]);
      assert w[..|parts[0]|] == parts[0] && w[|parts[0]|..] == Concat(tail);
      assert Divides(rest, tail);
      assert Head(item, rest, w, |parts[0]|);
    }
    if k: nat :| Head(item, rest, w, k) {
      var tail :| Divides(rest, tail) && Concat(tail) == w[k..];
      var parts := [w[..k]] + tail;
      forall i | 0 <= i < |items| ensures ItemMatches(items[i], parts[i]) { }
      assert parts[1..] == tail && Divides(items, parts);
      assert Concat(parts) == w;
    }
  }

  ghost predicate Head(item: Item, rest: seq<Item>, w: string, k: nat) {
    k <= |w| && ItemMatches(item, w[..k]) && InLanguage(rest, w[k..])
  }

  /** Some prefix of `text` is in the language of `p`, reaching its end if `p` asks. */
  ghost predicate Begins(p: Pattern, text: string) {
    exists j: nat :: Prefix(p, text, j)
  }

  ghost predicate Prefix(p: Pattern, text: string, j: nat) {
    j <= |text| && InLanguage(p.items, text[..j]) && (p.end ==> j == |text|)
  }

  lemma Slices(s: string, k: nat, j: nat)
    requires k <= j <= |s|
    ensures s[..j][..k] == s[..k] && s[..j][k..] == s[k..][..j - k]
  {
    var a, b := s[..j], s[k..];
    assert a[..k] == s[..k];
    assert a[k..] == b[..j - k];
  }

  /** Matching a first item and then the rest. */
  lemma BeginsSplit(item: Item, p: Pattern, text: string)
    ensures Begins(p.(items := [item] + p.items), text)
      <==> exists k: nat :: k <= |text| && ItemMatches(item, text[..k]) && Begins(p, text[k..])
  {
    var q := p.(items := [item] + p.items);
    if j: nat :| Prefix(q, text, j) {
      FirstItem(item, p.items, text[..j]);
      var k: nat :| Head(item, p.items, text[..j], k);
      Slices(text, k, j);
      assert Prefix(p, text[k..], j - k);
    }
    if k: nat :| k <= |text| && ItemMatches(item, text[..k]) && Begins(p, text[k..]) {
      var j: nat :| Prefix(p, text[k..], j);
      Slices(text, k, k + j);
      assert Head(item, p.items, text[..k + j], k);
      FirstItem(item, p.items, text[..k + j]);
      assert Prefix(q, text, k + j);
    }
  }

  lemma BeginsOne(c: char, p: Pattern, text: string)
    ensures Begins(p.(items := [One(c)] + p.items), text)
      <==> text != "" && CharMatches(c, text[0]) && Begins(p, text[1..])
  {
    BeginsSplit(One(c), p, text);
    if text != "" { assert text[..1][0] == text[0]; }
  }

  lemma BeginsNothing(end: bool, text: string)
    ensures Begins(Pattern(false, [], end), text) <==> !end || text == ""
  {
    var p := Pattern(false, [], end);
    if j: nat :| Prefix(p, text, j) {
      EmptyLanguage(text[..j]);
      assert j == 0;
    }
    if !end || text == "" {
      EmptyLanguage(text[..0]);
      assert Prefix(p, text, 0);
    }
  }

  // ---- the matcher -----------------------------------------------------------------

  /** True exactly when a line starts with a word of the pattern. */
  method MatchHere(re: string, text: string) returns (r: bool)
    requires CString(re) && CString(text)
    ensures r <==> Begins(Body(re), text)
    decreases |re|, |text|, 0
  {
    if At(re, 0) == '\0' {
      BeginsNothing(false, text);
      return true;
    }
    if At(re, 1) == '*' {
      r := MatchStar(re[0], re[2..], text);
      BeginsSplit(Star(re[0]), Body(re[2..]), text);
      return;
    }
    if re[0] == '$' && At(re, 1) == '\0' {
      assert re == "$";
      BeginsNothing(true, text);
      return At(text, 0) == '\0';
    }
    BeginsOne(re[0], Body(re[1..]), text);
    if At(text, 0) != '\0' && (re[0] == '.' || re[0] == At(text, 0)) {
      r := MatchHere(re[1..], text[1..]);
      return;
    }
    return false;
  }

  /** True exactly when some run of `c`, however short, can be followed by a match. */
  method MatchStar(c: char, re: string, text: string) returns (r: bool)
    requires CString(re) && CString(text)
    ensures r <==> exists k: nat :: k <= |text| && ItemMatches(Star(c), text[..k]) && Begins(Body(re), text[k..])
    decreases |re|, |text|, 1
  {
    var i: nat := 0;
    while true
      invariant i <= |text| && ItemMatches(Star(c), text[..i])
      invariant forall k: nat | k < i :: !Begins(Body(re), text[k..])
      decreases |text| - i
    {
      r := MatchHere(re, text[i..]);
      if r { return; }
      if At(text, i) == '\0' { return false; }
      if !(At(text, i) == c || c == '.') {
        forall k: nat | i < k <= |text| ensures !ItemMatches(Star(c), text[..k]) {
          assert text[..k][i] == text[i] && text[i] in text[..k];
        }
        return false;
      }
      assert text[..i + 1] == text[..i] + [text[i]];
      i := i + 1;
    }
  }

  /** True exactly when some part of the line is in the language of the pattern,
      at the ends its caret and dollar ask for. */
  method Match(re: string, text: string) returns (r: bool)
    requires CString(re) && CString(text)
    ensures r <==> exists i: nat, j: nat :: Occurs(Parse(re), text, i, j)
  {
    if At(re, 0) == '^' {
      r := MatchHere(re[1..], text);
      OccursAt(Parse(re), text, 0);
      BeginsAnchored(Body(re[1..]), text);
      assert text[0..] == text;
      return;
    }
    var i: nat := 0;
    while true
      invariant i <= |text|
      invariant forall k: nat | k < i :: !Begins(Body(re), text[k..])
      decreases |text| - i
    {
      r := MatchHere(re, text[i..]);
      OccursAt(Parse(re), text, i);
      if r { return; }
      if At(text, i) == '\0' {
        assert i == |text|;
        forall k: nat, j: nat | k <= i ensures !Occurs(Parse(re), text, k, j) { OccursAt(Parse(re), text, k); }
        return;
      }
      i := i + 1;
    }
  }

  lemma BeginsAnchored(p: Pattern, text: string)
    ensures Begins(p.(start := true), text) <==> Begins(p, text)
  {
    if j: nat :| Prefix(p, text, j) { assert Prefix(p.(start := true), text, j); }
    if j: nat :| Prefix(p.(start := true), text, j) { assert Prefix(p, text, j); }
  }

  lemma OccursAt(p: Pattern, text: string, i: nat)
    requires i <= |text| && (p.start ==> i == 0)
    ensures Begins(p, text[i..]) <==> exists j: nat :: Occurs(p, text, i, j)
  {
    if j: nat :| Prefix(p, text[i..], j) {
      assert text[i..][..j] == text[i..i + j];
      assert Occurs(p, text, i, i + j);
    }
    if j: nat :| Occurs(p, text, i, j) {
      assert text[i..][..j - i] == text[i..j];
      assert Prefix(p, text[i..], j - i);
    }
  }
}
