/** The circular doubly linked list through a head node, on arrays of links.

    A ring is given by its nodes in order, the head first. */
module Ring {
  import opened Collections

  function After(c: seq<nat>, i: nat): nat
    requires i < |c|
  {
    if i == |c| - 1 then c[0] else c[i + 1]
  }

  function Before(c: seq<nat>, i: nat): nat
    requires i < |c|
  {
    if i == 0 then c[|c| - 1] else c[i - 1]
  }

  ghost predicate Nodes(c: seq<nat>, n: nat) {
    c != [] && Distinct(c) && forall i | 0 <= i < |c| :: c[i] < n
  }

  ghost predicate Forward(next: seq<nat>, c: seq<nat>) {
    Nodes(c, |next|) && forall i: nat {:trigger After(c, i)} | i < |c| :: next[c[i]] == After(c, i)
  }

  ghost predicate Backward(prev: seq<nat>, c: seq<nat>) {
    Nodes(c, |prev|) && forall i: nat {:trigger Before(c, i)} | i < |c| :: prev[c[i]] == Before(c, i)
  }

  /** `next` follows the ring and `prev` is the inverse. */
  ghost predicate IsRing(prev: seq<nat>, next: seq<nat>, c: seq<nat>) {
    |prev| == |next| && Forward(next, c) && Backward(prev, c)
  }

  /** The index of the node after `c[k]`. */
  function NextIndex(c: seq<nat>, k: nat): nat
    requires k < |c|
  {
    if k == |c| - 1 then 0 else k + 1
  }

  lemma WithoutNeighbours(c: seq<nat>, k: nat, j: nat)
    requires 0 < k < |c| && j < |c| - 1
    ensures var j0 := if j < k then j else j + 1;
      && Without(c, k)[j] == c[j0]
      && After(Without(c, k), j) == After(c, if j0 == k - 1 then k else j0)
      && Before(Without(c, k), j) == Before(c, if j0 == NextIndex(c, k) then k else j0)
  {
  }

  lemma WithoutNodes(c: seq<nat>, k: nat, n: nat)
    requires Nodes(c, n) && 0 < k < |c|
    ensures Nodes(Without(c, k), n)
    ensures forall x :: x in Without(c, k) <==> x in c && x != c[k]
  {
    var c' := Without(c, k);
    forall x | x in c && x != c[k] ensures x in c' {
      var j :| 0 <= j < |c| && c[j] == x;
      assert c'[if j < k then j else j - 1] == x;
    }
  }

  lemma Same(c: seq<nat>, n: nat, i: nat, j: nat)
    requires Nodes(c, n) && i < |c| && j < |c|
    ensures c[i] == c[j] ==> i == j
  {
  }

  lemma RemoveForward(next: seq<nat>, c: seq<nat>, k: nat)
    requires Forward(next, c) && 0 < k < |c|
    ensures Forward(next[c[k - 1] := next[c[k]]], Without(c, k))
  {
    hide Distinct, After, Without;
    WithoutNodes(c, k, |next|);
    var n := next[c[k - 1] := next[c[k]]];
    forall j: nat | j < |c| - 1 ensures n[Without(c, k)[j]] == After(Without(c, k), j) {
      WithoutNeighbours(c, k, j);
      Same(c, |next|, if j < k then j else j + 1, k - 1);
    }
  }

  lemma RemoveBackward(prev: seq<nat>, c: seq<nat>, k: nat)
    requires Backward(prev, c) && 0 < k < |c|
    ensures Backward(prev[After(c, k) := prev[c[k]]], Without(c, k))
  {
    hide Distinct, Before, Without;
    WithoutNodes(c, k, |prev|);
    assert After(c, k) == c[NextIndex(c, k)];
    var p := prev[After(c, k) := prev[c[k]]];
    forall j: nat | j < |c| - 1 ensures p[Without(c, k)[j]] == Before(Without(c, k), j) {
      WithoutNeighbours(c, k, j);
      Same(c, |prev|, if j < k then j else j + 1, NextIndex(c, k));
    }
  }

  /** Taking node `b` out: `b->next->prev = b->prev; b->prev->next = b->next`. */
  lemma Remove(prev: seq<nat>, next: seq<nat>, c: seq<nat>, k: nat)
    requires IsRing(prev, next, c) && 0 < k < |c|
    ensures next[c[k]] == After(c, k) < |prev| && prev[c[k]] == Before(c, k) < |next|
    ensures IsRing(prev[After(c, k) := prev[c[k]]], next[Before(c, k) := next[c[k]]], Without(c, k))
  {
    RemoveForward(next, c, k);
    RemoveBackward(prev, c, k);
    assert next[c[k]] == After(c, k) && prev[c[k]] == Before(c, k) == c[k - 1];
    hide Forward, Backward, Without;
  }

  /** The ring with `b` put in after the head. */
  function Pushed(c: seq<nat>, b: nat): (r: seq<nat>)
    requires c != []
    ensures |r| == |c| + 1
  {
    [c[0], b] + c[1..]
  }

  lemma PushedNeighbours(c: seq<nat>, b: nat, j: nat)
    requires c != [] && j < |c| + 1
    ensures Pushed(c, b)[j] == if j == 0 then c[0] else if j == 1 then b else c[j - 1]
    ensures After(Pushed(c, b), j) == if j == 0 then b else if j == 1 then After(c, 0) else After(c, j - 1)
    ensures Before(Pushed(c, b), j) ==
      if j == 1 then c[0]
      else if j == 2 || (j == 0 && |c| == 1) then b
      else if j == 0 then Before(c, 0)
      else Before(c, j - 1)
  {
  }

  lemma PushedNodes(c: seq<nat>, b: nat, n: nat)
    requires Nodes(c, n) && b < n && b !in c
    ensures Nodes(Pushed(c, b), n)
  {
    forall j: nat | j < |c| + 1 { PushedNeighbours(c, b, j); }
  }

  lemma PushForward(next: seq<nat>, c: seq<nat>, b: nat)
    requires Forward(next, c) && b < |next| && b !in c
    ensures Forward(next[b := next[c[0]]][c[0] := b], Pushed(c, b))
  {
    hide Distinct, After, Pushed;
    PushedNodes(c, b, |next|);
    var n := next[b := next[c[0]]][c[0] := b];
    forall j: nat | j < |c| + 1 ensures n[Pushed(c, b)[j]] == After(Pushed(c, b), j) {
      PushedNeighbours(c, b, j);
      if j >= 2 { Same(c, |next|, j - 1, 0); }
    }
  }

  lemma PushBackward(prev: seq<nat>, c: seq<nat>, b: nat)
    requires Backward(prev, c) && b < |prev| && b !in c
    ensures Backward(prev[b := c[0]][After(c, 0) := b], Pushed(c, b))
  {
    hide Distinct, Before, Pushed;
    PushedNodes(c, b, |prev|);
    assert After(c, 0) == c[NextIndex(c, 0)];
    var p := prev[b := c[0]][After(c, 0) := b];
    forall j: nat | j < |c| + 1 ensures p[Pushed(c, b)[j]] == Before(Pushed(c, b), j) {
      PushedNeighbours(c, b, j);
      if j != 1 { Same(c, |prev|, if j == 0 then 0 else j - 1, NextIndex(c, 0)); }
    }
  }

  /** Putting node `b` in after the head. */
  lemma Push(prev: seq<nat>, next: seq<nat>, c: seq<nat>, b: nat)
    requires IsRing(prev, next, c) && b < |next| && b !in c
    ensures next[c[0]] == After(c, 0) < |prev|
    ensures IsRing(prev[b := c[0]][After(c, 0) := b], next[b := next[c[0]]][c[0] := b], Pushed(c, b))
  {
    PushForward(next, c, b);
    PushBackward(prev, c, b);
    assert next[c[0]] == After(c, 0);
    hide Forward, Backward, Pushed;
  }
}
