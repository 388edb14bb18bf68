/** One order of the buddy allocator: its marks and its list of non-empty marks.

    A mark holds the bitmap of 32 blocks and the two links of a doubly linked
    list, packed as 16-bit indexes into one 32-bit word. */
module BuddyMarks {
  import opened Bits
  import opened Collections

  datatype Mark = Mark(lnks: nat, bitmap: nat)

  /** The marks of one order and the index of the first mark of its list. */
  datatype Marks = Marks(head: nat, at: seq<Mark>)

  const NIL: nat := 0xFFFF

  function PreLnk(lnks: nat): nat { lnks / 0x1_0000 }
  function NextLnk(lnks: nat): nat { lnks % 0x1_0000 }

  /** Packs two links.  A 32-bit word keeps the low 16 bits of each. */
  function Lnks(pre: nat, next: nat): nat {
    pre % 0x1_0000 * 0x1_0000 + next % 0x1_0000
  }

  lemma LnksRoundTrip(pre: nat, next: nat)
    ensures PreLnk(Lnks(pre, next)) == pre <==> pre <= NIL
    ensures NextLnk(Lnks(pre, next)) == next <==> next <= NIL
    ensures Lnks(pre, next) < 0x1_0000_0000
  {
  }

  /** Block `b` is marked available. */
  predicate Available(o: Marks, b: int) {
    0 <= b < 32 * |o.at| && Bit(o.at[b / 32].bitmap, b % 32)
  }

  function PrevIn(list: seq<nat>, i: nat): nat
    requires i < |list|
  {
    if i == 0 then NIL else list[i - 1]
  }

  function NextIn(list: seq<nat>, i: nat): nat
    requires i < |list|
  {
    if i == |list| - 1 then NIL else list[i + 1]
  }

  function HeadOf(list: seq<nat>): nat { if list == [] then NIL else list[0] }

  /** Following the links from the head visits `list` in this order, and the
      back links are the inverse of the forward ones. */
  ghost predicate Linked(o: Marks, list: seq<nat>) {
    && |o.at| <= NIL
    && Distinct(list)
    && (forall i | 0 <= i < |list| :: list[i] < |o.at|)
    && o.head == HeadOf(list)
    && (forall i | 0 <= i < |list| :: o.at[list[i]].lnks == Lnks(PrevIn(list, i), NextIn(list, i)))
  }

  /** The list holds exactly the marks with an available block. */
  ghost predicate Listed(o: Marks, list: seq<nat>) {
    forall k: nat | k < |o.at| :: k in list <==> o.at[k].bitmap != 0
  }

  ghost predicate Words(o: Marks) {
    forall k: nat | k < |o.at| :: o.at[k].bitmap < 0x1_0000_0000
  }

  ghost predicate ListOf(o: Marks, list: seq<nat>) {
    Linked(o, list) && Listed(o, list) && Words(o)
  }

  ghost predicate SameBitmaps(o1: Marks, o2: Marks) {
    |o1.at| == |o2.at| && forall k: nat | k < |o1.at| :: o1.at[k].bitmap == o2.at[k].bitmap
  }

  // ---- the doubly linked list ------------------------------------------

  predicate IsLnk(o: Marks, l: nat) { l == NIL || l < |o.at| }

  /** Mark `i` goes to the head of the list. */
  function Link(o: Marks, i: nat): (r: Marks)
    requires i < |o.at| && IsLnk(o, o.head)
    ensures SameBitmaps(o, r)
  {
    var at := o.at[i := o.at[i].(lnks := Lnks(NIL, o.head))];
    var at := if o.head == NIL then at
              else at[o.head := at[o.head].(lnks := Lnks(i, NextLnk(at[o.head].lnks)))];
    Marks(i, at)
  }

  lemma LinkPushes(o: Marks, list: seq<nat>, i: nat)
    requires Linked(o, list) && i < |o.at| && i !in list
    ensures Linked(Link(o, i), [i] + list)
  {
    hide Lnks, PreLnk, NextLnk;
    var o' := Link(o, i);
    var list' := [i] + list;
    forall k | 0 <= k < |list'| ensures o'.at[list'[k]].lnks == Lnks(PrevIn(list', k), NextIn(list', k)) {
      LinkAt(o, list, i, k);
    }
    assert Distinct(list') by {
      forall j, k | 0 <= j < k < |list'| ensures list'[j] != list'[k] { assert list'[k] == list[k - 1]; }
    }
  }

  lemma LinkAt(o: Marks, list: seq<nat>, i: nat, k: nat)
    requires Linked(o, list) && i < |o.at| && i !in list && k <= |list|
    ensures var o', list' := Link(o, i), [i] + list;
      o'.at[list'[k]].lnks == Lnks(PrevIn(list', k), NextIn(list', k))
  {
    hide Lnks, PreLnk, NextLnk;
    if k > 0 {
      var x := list[k - 1];
      assert o.at[x].lnks == Lnks(PrevIn(list, k - 1), NextIn(list, k - 1)) && x != i;
      LnksRoundTrip(PrevIn(list, k - 1), NextIn(list, k - 1));
      assert k > 1 ==> x != list[0];
    }
  }

  /** Mark `i` leaves the list: its neighbours are linked to each other. */
  function Unlink(o: Marks, i: nat): (r: Marks)
    requires i < |o.at| && IsLnk(o, PreLnk(o.at[i].lnks)) && IsLnk(o, NextLnk(o.at[i].lnks))
    ensures SameBitmaps(o, r)
  {
    Splice(o, i, PreLnk(o.at[i].lnks), NextLnk(o.at[i].lnks))
  }

  function Splice(o: Marks, i: nat, prev: nat, next: nat): (r: Marks)
    requires i < |o.at| && IsLnk(o, prev) && IsLnk(o, next)
    ensures SameBitmaps(o, r)
  {
    var at := o.at;
    var at := if prev == NIL then at else at[prev := at[prev].(lnks := Lnks(PreLnk(at[prev].lnks), next))];
    var head := if prev == NIL && o.head == i then next else o.head;
    var at := if next == NIL then at else at[next := at[next].(lnks := Lnks(prev, NextLnk(at[next].lnks)))];
    Marks(head, at[i := at[i].(lnks := Lnks(NIL, NIL))])
  }

  /** What unlinking the `k`-th mark writes. */
  lemma UnlinkWrites(o: Marks, list: seq<nat>, k: nat)
    requires Linked(o, list) && k < |list|
    ensures PreLnk(o.at[list[k]].lnks) == PrevIn(list, k) && NextLnk(o.at[list[k]].lnks) == NextIn(list, k)
    ensures IsLnk(o, PrevIn(list, k)) && IsLnk(o, NextIn(list, k))
    ensures SplicedOut(o, Unlink(o, list[k]), list, k)
  {
    hide Lnks, PreLnk, NextLnk, Distinct, Splice;
    LnksRoundTrip(PrevIn(list, k), NextIn(list, k));
    SpliceWrites(o, list, k);
  }

  lemma SpliceWrites(o: Marks, list: seq<nat>, k: nat)
    requires Linked(o, list) && k < |list|
    ensures IsLnk(o, PrevIn(list, k)) && IsLnk(o, NextIn(list, k))
    ensures SplicedOut(o, Splice(o, list[k], PrevIn(list, k), NextIn(list, k)), list, k)
  {
    hide Lnks, PreLnk, NextLnk, Splice;
    var prev, next := PrevIn(list, k), NextIn(list, k);
    SpliceEffect(o, list[k], prev, next);
    if k > 0 { LnksRoundTrip(PrevIn(list, k - 1), NextIn(list, k - 1)); }
    if k < |list| - 1 { LnksRoundTrip(PrevIn(list, k + 1), NextIn(list, k + 1)); }
  }

  lemma SpliceEffect(o: Marks, i: nat, prev: nat, next: nat)
    requires |o.at| <= NIL && i < |o.at| && IsLnk(o, prev) && IsLnk(o, next)
    requires prev != i && next != i && (prev != next || prev == NIL)
    ensures var r := Splice(o, i, prev, next);
      && r.head == (if prev == NIL && o.head == i then next else o.head)
      && (prev != NIL ==> r.at[prev].lnks == Lnks(PreLnk(o.at[prev].lnks), next))
      && (next != NIL ==> r.at[next].lnks == Lnks(prev, NextLnk(o.at[next].lnks)))
      && forall k: nat | k < |o.at| && k != prev && k != next && k != i :: r.at[k] == o.at[k]
  {
    hide Lnks, PreLnk, NextLnk;
  }

  ghost predicate SplicedOut(o: Marks, o': Marks, list: seq<nat>, k: nat)
    requires Linked(o, list) && k < |list|
  {
    && |o'.at| == |o.at|
    && o'.head == (if k == 0 then NextIn(list, 0) else o.head)
    && (k > 0 ==> o'.at[list[k - 1]].lnks == Lnks(PrevIn(list, k - 1), NextIn(list, k)))
    && (k < |list| - 1 ==> o'.at[list[k + 1]].lnks == Lnks(PrevIn(list, k), NextIn(list, k + 1)))
    && forall j | 0 <= j < |list| && !(k - 1 <= j <= k + 1) :: o'.at[list[j]].lnks == o.at[list[j]].lnks
  }

  lemma WithoutAt(list: seq<nat>, k: nat)
    requires k < |list|
    ensures forall j | 0 <= j < |list| - 1 :: Without(list, k)[j] == list[if j < k then j else j + 1]
  {
  }

  lemma WithoutNeighbours(list: seq<nat>, k: nat, j: nat)
    requires k < |list| && j < |list| - 1
    ensures var list', j0 := Without(list, k), if j < k then j else j + 1;
      && list'[j] == list[j0]
      && PrevIn(list', j) == PrevIn(list, if j0 == k + 1 then k else j0)
      && NextIn(list', j) == NextIn(list, if j0 == k - 1 then k else j0)
  {
    WithoutAt(list, k);
  }

  lemma SplicedAt(o: Marks, o': Marks, list: seq<nat>, k: nat, j: nat)
    requires Linked(o, list) && k < |list| && SplicedOut(o, o', list, k)
    requires j < |list| - 1
    ensures var list' := Without(list, k);
      list'[j] < |o'.at| && o'.at[list'[j]].lnks == Lnks(PrevIn(list', j), NextIn(list', j))
  {
    WithoutNeighbours(list, k, j);
    hide Lnks, Distinct, Without, PrevIn, NextIn;
  }

  lemma SplicedHead(o: Marks, o': Marks, list: seq<nat>, k: nat)
    requires Linked(o, list) && k < |list| && SplicedOut(o, o', list, k)
    ensures |o'.at| == |o.at| && o'.head == HeadOf(Without(list, k)) && Distinct(Without(list, k))
  {
    hide Lnks;
    WithoutAt(list, k);
  }

  lemma SplicedIsLinked(o: Marks, o': Marks, list: seq<nat>, k: nat)
    requires Linked(o, list) && k < |list| && SplicedOut(o, o', list, k)
    ensures Linked(o', Without(list, k))
  {
    hide Lnks, PrevIn, NextIn, Without, SplicedOut;
    SplicedHead(o, o', list, k);
    var list' := Without(list, k);
    forall j: nat | j < |list'|
      ensures list'[j] < |o'.at| && o'.at[list'[j]].lnks == Lnks(PrevIn(list', j), NextIn(list', j))
    {
      SplicedAt(o, o', list, k, j);
    }
  }

  lemma UnlinkRemoves(o: Marks, list: seq<nat>, k: nat)
    requires Linked(o, list) && k < |list|
    requires IsLnk(o, PreLnk(o.at[list[k]].lnks)) && IsLnk(o, NextLnk(o.at[list[k]].lnks))
    ensures Linked(Unlink(o, list[k]), Without(list, k))
  {
    UnlinkWrites(o, list, k);
    SplicedIsLinked(o, Unlink(o, list[k]), list, k);
  }

  // ---- marking and unmarking a block -----------------------------------

  function PutBitmap(o: Marks, i: nat, w: nat): Marks
    requires i < |o.at|
  {
    o.(at := o.at[i := o.at[i].(bitmap := w)])
  }

  /** `mark_blk`: set the block's bit; a mark that was empty goes to the head. */
  function MarkBlk(o: Marks, b: nat): Marks
    requires b < 32 * |o.at| && IsLnk(o, o.head)
  {
    var w := o.at[b / 32].bitmap;
    var o1 := PutBitmap(o, b / 32, SetBit(w, b % 32));
    if w == 0 then Link(o1, b / 32) else o1
  }

  ghost function MarkList(o: Marks, list: seq<nat>, b: nat): seq<nat>
    requires b < 32 * |o.at|
  {
    if o.at[b / 32].bitmap != 0 then list else [b / 32] + list
  }

  lemma HeadIsLnk(o: Marks, list: seq<nat>)
    requires ListOf(o, list)
    ensures IsLnk(o, o.head)
  {
    if list != [] { assert list[0] < |o.at|; }
  }

  /** A listed head has an available block. */
  lemma ListedHead(o: Marks, list: seq<nat>) returns (i: nat)
    requires ListOf(o, list) && o.head != NIL
    ensures o.head < |o.at| && i < 32 && Bit(o.at[o.head].bitmap, i)
  {
    assert o.head == list[0] && o.head in list;
    Pow2Of32();
    i := SomeBit(o.at[o.head].bitmap, 32);
  }

  /** An empty list means no block is available. */
  lemma NoneAvailable(o: Marks, list: seq<nat>, b: int)
    requires ListOf(o, list) && o.head == NIL
    ensures !Available(o, b)
  {
    assert forall i | 0 <= i < |list| :: list[i] < NIL;
    assert list == [];
    if 0 <= b < 32 * |o.at| {
      ZeroHasNoBit(b % 32);
      assert b / 32 !in list;
    }
  }

  lemma MarkAvailability(o: Marks, b: nat, c: int)
    requires b < 32 * |o.at| && IsLnk(o, o.head)
    ensures Available(MarkBlk(o, b), c) <==> c == b || Available(o, c)
  {
    var o1 := PutBitmap(o, b / 32, SetBit(o.at[b / 32].bitmap, b % 32));
    assert SameBitmaps(o1, MarkBlk(o, b));
    if 0 <= c < 32 * |o.at| && c / 32 == b / 32 {
      SetBitAt(o.at[b / 32].bitmap, b % 32, c % 32);
    }
  }

  lemma WordBits(w: nat, i: nat)
    requires w < 0x1_0000_0000 && i < 32
    ensures 0 < SetBit(w, i) < 0x1_0000_0000
    ensures ClearBit(w, i) < 0x1_0000_0000
  {
    Pow2Of32();
    BitsInWidth(w, i, 32);
    SetBitAt(w, i, i);
    ZeroHasNoBit(i);
  }

  lemma FillKeepsList(o: Marks, list: seq<nat>, i: nat, w: nat)
    requires ListOf(o, list) && i < |o.at| && 0 < w < 0x1_0000_0000
    ensures o.at[i].bitmap != 0 ==> ListOf(PutBitmap(o, i, w), list)
    ensures o.at[i].bitmap == 0 ==> ListOf(Link(PutBitmap(o, i, w), i), [i] + list)
  {
    var o1 := PutBitmap(o, i, w);
    assert Linked(o1, list) && Words(o1);
    if o.at[i].bitmap == 0 {
      LinkPushes(o1, list, i);
      assert SameBitmaps(o1, Link(o1, i));
    }
  }

  lemma MarkKeepsList(o: Marks, list: seq<nat>, b: nat)
    requires ListOf(o, list) && b < 32 * |o.at|
    ensures ListOf(MarkBlk(o, b), MarkList(o, list, b))
  {
    var w := o.at[b / 32].bitmap;
    WordBits(w, b % 32);
    FillKeepsList(o, list, b / 32, SetBit(w, b % 32));
  }

  /** `unmark_blk`: clear the block's bit; a mark that becomes empty is unlinked. */
  function UnmarkBlk(o: Marks, b: nat): Marks
    requires b < 32 * |o.at|
    requires IsLnk(o, PreLnk(o.at[b / 32].lnks)) && IsLnk(o, NextLnk(o.at[b / 32].lnks))
  {
    var w := ClearBit(o.at[b / 32].bitmap, b % 32);
    var o1 := PutBitmap(o, b / 32, w);
    if w == 0 then Unlink(o1, b / 32) else o1
  }

  /** An available block's mark is on the list, so its links are indexes or NIL. */
  lemma AvailableIsListed(o: Marks, list: seq<nat>, b: int) returns (k: nat)
    requires ListOf(o, list) && Available(o, b)
    ensures 0 <= b < 32 * |o.at| && k < |list| && list[k] == b / 32
    ensures IsLnk(o, PreLnk(o.at[b / 32].lnks)) && IsLnk(o, NextLnk(o.at[b / 32].lnks))
  {
    ZeroHasNoBit(b % 32);
    assert b / 32 in list;
    k :| k < |list| && list[k] == b / 32;
    LnksRoundTrip(PrevIn(list, k), NextIn(list, k));
  }

  lemma UnmarkAvailability(o: Marks, b: nat, c: int)
    requires b < 32 * |o.at|
    requires IsLnk(o, PreLnk(o.at[b / 32].lnks)) && IsLnk(o, NextLnk(o.at[b / 32].lnks))
    ensures Available(UnmarkBlk(o, b), c) <==> c != b && Available(o, c)
  {
    var o1 := PutBitmap(o, b / 32, ClearBit(o.at[b / 32].bitmap, b % 32));
    assert SameBitmaps(o1, UnmarkBlk(o, b));
    if 0 <= c < 32 * |o.at| && c / 32 == b / 32 {
      ClearBitAt(o.at[b / 32].bitmap, b % 32, c % 32);
    }
  }

  ghost function UnmarkList(o: Marks, list: seq<nat>, b: nat, k: nat): seq<nat>
    requires b < 32 * |o.at| && k < |list|
  {
    if ClearBit(o.at[b / 32].bitmap, b % 32) != 0 then list else Without(list, k)
  }

  lemma EmptyKeepsList(o: Marks, list: seq<nat>, k: nat)
    requires ListOf(o, list) && k < |list|
    requires IsLnk(o, PreLnk(o.at[list[k]].lnks)) && IsLnk(o, NextLnk(o.at[list[k]].lnks))
    ensures ListOf(Unlink(PutBitmap(o, list[k], 0), list[k]), Without(list, k))
  {
    var o1 := PutBitmap(o, list[k], 0);
    assert Linked(o1, list);
    UnlinkRemoves(o1, list, k);
    var o2 := Unlink(o1, list[k]);
    assert SameBitmaps(o1, o2);
    WithoutMembers(list, k);
  }

  lemma UnmarkKeepsList(o: Marks, list: seq<nat>, b: nat, k: nat)
    requires ListOf(o, list) && b < 32 * |o.at|
    requires k < |list| && list[k] == b / 32
    requires IsLnk(o, PreLnk(o.at[b / 32].lnks)) && IsLnk(o, NextLnk(o.at[b / 32].lnks))
    ensures ListOf(UnmarkBlk(o, b), UnmarkList(o, list, b, k))
  {
    var w := ClearBit(o.at[b / 32].bitmap, b % 32);
    WordBits(o.at[b / 32].bitmap, b % 32);
    if w == 0 {
      EmptyKeepsList(o, list, k);
    } else {
      FillKeepsList(o, list, b / 32, w);
    }
  }

  lemma WithoutMembers(list: seq<nat>, k: nat)
    requires Distinct(list) && k < |list|
    ensures forall x :: x in Without(list, k) <==> x in list && x != list[k]
  {
    forall x | x in list && x != list[k] ensures x in Without(list, k) {
      var j :| 0 <= j < |list| && list[j] == x;
      assert Without(list, k)[if j < k then j else j - 1] == x;
    }
  }
}
