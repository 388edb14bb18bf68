/** Sizes that several parts of the kernel share. */
module Params {
  const LOGSIZE: nat := 10    // sectors a transaction may log
  const NBUF: nat := 10       // buffers in the cache
  const T_DIR := 1            // inode types
  const T_DEV := 3
}

/** Finite sets and sequences of numbers. */
module Collections {

  ghost predicate Distinct(s: seq<nat>) {
    forall i, j | 0 <= i < j < |s| :: s[i] != s[j]
  }

  lemma {:induction false} CardSubset(a: set<nat>, b: set<nat>)
    requires a <= b
    ensures |a| <= |b|
  {
    if a != {} {
      var x :| x in a;
      CardSubset(a - {x}, b - {x});
    }
  }

  lemma CardUnion(a: set<nat>, b: set<nat>)
    ensures |a + b| <= |a| + |b|
  {
    assert |a + b| == |a| + |b| - |a * b|;
  }

  lemma {:induction false} DistinctCard(s: seq<nat>, all: set<nat>)
    requires Distinct(s) && forall i | 0 <= i < |s| :: s[i] in all
    ensures |s| <= |all|
  {
    if s != [] {
      var x := s[|s| - 1];
      DistinctCard(s[..|s| - 1], all - {x});
    }
  }

  function Without(s: seq<nat>, k: nat): (r: seq<nat>)
    requires k < |s|
    ensures |r| == |s| - 1
  {
    s[..k] + s[k + 1..]
  }
}
