/** What truncating a file gives back. */
module FsTrunc {
  import opened Sector
  import opened FsImage
  import opened FsWrite

  /** The blocks named by slots `lo` to `hi` of an inode. */
  ghost function Named(b: Blocks, nd: Node, lo: nat, hi: nat): set<nat>
    requires Shaped(nd) && hi <= LAST_SLOT + 1
  {
    set k: nat | lo <= k < hi && At(b, nd, k) != 0 :: At(b, nd, k)
  }

  function Empty(nd: Node): Node {
    Node(nd.info, 0, seq(NDIRECT + 1, _ => 0))
  }

  /** The next slot's block is in use and not among those already given back. */
  lemma NextNamed(data: nat, b: Blocks, n: map<nat, Node>, used: set<nat>, i: nat, k: nat)
    requires Owned(data, b, n, used) && i in n && k <= LAST_SLOT
    ensures var a := At(b, n[i], k);
      && (a != 0 ==> data <= a < |b| && a in used)
      && (forall lo: nat, hi: nat | hi <= LAST_SLOT + 1 && (k < lo || hi <= k) && a != 0 ::
          a !in Named(b, n[i], lo, hi))
  {
    hide At, HasOwner;
    assert SlotAddr(b, n, Slot(i, k)) == At(b, n[i], k);
    if At(b, n[i], k) != 0 {
      assert InUse(data, b, used, SlotAddr(b, n, Slot(i, k)));
      forall lo: nat, hi: nat | hi <= LAST_SLOT + 1 && (k < lo || hi <= k)
        ensures At(b, n[i], k) !in Named(b, n[i], lo, hi)
      {
        forall k': nat | lo <= k' < hi && At(b, n[i], k') != 0 ensures At(b, n[i], k') != At(b, n[i], k) {
          assert SlotAddr(b, n, Slot(i, k')) == At(b, n[i], k');
        }
      }
    }
  }

  lemma NamedStep(b: Blocks, nd: Node, lo: nat, k: nat)
    requires Shaped(nd) && lo <= k <= LAST_SLOT
    ensures Named(b, nd, lo, k + 1) == Named(b, nd, lo, k) + (if At(b, nd, k) == 0 then {} else {At(b, nd, k)})
  {
    hide At;
  }

  lemma NamedSplit(b: Blocks, nd: Node)
    requires Shaped(nd)
    ensures Named(b, nd, 0, LAST_SLOT + 1)
         == Named(b, nd, 0, NDIRECT) + Named(b, nd, NDIRECT + 1, LAST_SLOT + 1)
            + (if nd.addrs[NDIRECT] == 0 then {} else {nd.addrs[NDIRECT]})
  {
    assert At(b, nd, NDIRECT) == nd.addrs[NDIRECT];
    hide At;
  }

  lemma NoEntriesNamed(b: Blocks, nd: Node)
    requires Shaped(nd) && nd.addrs[NDIRECT] == 0
    ensures Named(b, nd, NDIRECT + 1, LAST_SLOT + 1) == {}
  {
  }

  /** Emptying an inode gives back exactly the blocks it named, each once: the
      others keep theirs. */
  lemma Emptied(data: nat, b: Blocks, n: map<nat, Node>, used: set<nat>, i: nat)
    requires Owned(data, b, n, used) && i in n
    ensures Owned(data, b, n[i := Empty(n[i])], used - Named(b, n[i], 0, LAST_SLOT + 1))
  {
    var n1, gone := n[i := Empty(n[i])], Named(b, n[i], 0, LAST_SLOT + 1);
    forall s: Slot ensures SlotAddr(b, n1, s) == if s.inum == i then 0 else SlotAddr(b, n, s) { EmptySlot(b, n, i, s); }
    hide At, SlotAddr;
    forall s: Slot | SlotAddr(b, n1, s) != 0 ensures InUse(data, b, used - gone, SlotAddr(b, n1, s)) {
      assert InUse(data, b, used, SlotAddr(b, n, s));
      NotGone(data, b, n, used, i, s);
    }
    forall x | x in used - gone && data <= x ensures HasOwner(b, n1, x) {
      assert HasOwner(b, n, x);
      var s: Slot :| SlotAddr(b, n, s) == x;
      if s.inum == i { SlotNamed(b, n, i, s); }
      assert SlotAddr(b, n1, s) == x;
    }
    NamedIsData(data, b, n, used, i);
  }

  lemma EmptySlot(b: Blocks, n: map<nat, Node>, i: nat, s: Slot)
    requires AllShaped(n) && i in n
    ensures SlotAddr(b, n[i := Empty(n[i])], s) == if s.inum == i then 0 else SlotAddr(b, n, s)
  {
  }

  lemma SlotNamed(b: Blocks, n: map<nat, Node>, i: nat, s: Slot)
    requires AllShaped(n) && i in n && s.inum == i && SlotAddr(b, n, s) != 0
    ensures SlotAddr(b, n, s) in Named(b, n[i], 0, LAST_SLOT + 1)
  {
    hide At;
  }

  lemma NotGone(data: nat, b: Blocks, n: map<nat, Node>, used: set<nat>, i: nat, s: Slot)
    requires Owned(data, b, n, used) && i in n && s.inum != i && SlotAddr(b, n, s) != 0
    ensures SlotAddr(b, n, s) !in Named(b, n[i], 0, LAST_SLOT + 1)
  {
    hide At, HasOwner;
    forall k: nat | k <= LAST_SLOT && At(b, n[i], k) != 0 ensures At(b, n[i], k) != SlotAddr(b, n, s) {
      assert SlotAddr(b, n, Slot(i, k)) == At(b, n[i], k);
    }
  }

  ghost predicate AllFrom(s: set<nat>, data: nat) {
    forall x: nat :: x in s ==> data <= x
  }

  lemma NamedIsData(data: nat, b: Blocks, n: map<nat, Node>, used: set<nat>, i: nat)
    requires Owned(data, b, n, used) && i in n
    ensures AllFrom(Named(b, n[i], 0, LAST_SLOT + 1), data)
  {
    hide At, HasOwner;
    forall k: nat | k <= LAST_SLOT && At(b, n[i], k) != 0 ensures data <= At(b, n[i], k) {
      assert SlotAddr(b, n, Slot(i, k)) == At(b, n[i], k);
      assert InUse(data, b, used, SlotAddr(b, n, Slot(i, k)));
    }
  }

  /** An empty file is whole. */
  lemma EmptyIsWhole(b: Blocks, nd: Node)
    ensures WholeAt(b, Empty(nd)) && Content(b, Empty(nd)) == []
  {
    assert BlocksFor(0) == 0;
  }
}
