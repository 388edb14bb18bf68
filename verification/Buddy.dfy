/** The kernel's buddy allocator over its in-memory tables.

    `marks` is the array of marks of all orders laid out one order after the
    other, largest blocks first, as kmem_init2 lays them out.  Ghost fields record
    the free blocks, the blocks handed out and not yet freed, and each order's
    list of non-empty marks. */
module Buddy {
  import opened Bits
  import opened Collections
  import opened BuddyTiling
  import opened BuddyMarks

  datatype Order = Order(head: nat, offset: nat)

  /** C's `mem2blkid` inverts `blkid2mem`. */
  lemma MemRoundTrip(o: nat, b: nat)
    ensures Pow2(o) * b / Pow2(o) == b
  {
    DivOfMul(Pow2(o), b);
  }

  lemma DivOfMul(p: nat, b: nat)
    requires p > 0
    ensures p * b / p == b
  {
    var q := p * b / p;
    assert p * q <= p * b < p * q + p;
    Mul(p, q + 1, b);
    Mul(p, b + 1, q);
  }

  lemma SliceUpdate<T>(s: seq<T>, k: nat, v: T, lo: nat, hi: nat)
    requires k < |s| && lo <= hi <= |s|
    ensures s[k := v][lo..hi] == if lo <= k < hi then s[lo..hi][k - lo := v] else s[lo..hi]
  {
  }

  const N_ORD := MAX_ORD - MIN_ORD + 1

  /** The tables of all orders fit the array of marks without overlapping;
      order MIN_ORD + i has `cnt[i]` marks, few enough that none is number NIL. */
  ghost predicate LaidOut(orders: seq<Order>, marks: seq<Mark>, cnt: seq<nat>) {
    && |orders| == |cnt| == N_ORD
    && (forall i | 0 <= i < N_ORD :: orders[i].offset + cnt[i] <= |marks| && cnt[i] <= NIL)
    && (forall i, j | 0 <= i < j < N_ORD :: orders[j].offset + cnt[j] <= orders[i].offset)
  }

  /** The marks and list head of each order. */
  ghost function ViewsOf(orders: seq<Order>, marks: seq<Mark>, cnt: seq<nat>): (r: seq<Marks>)
    requires LaidOut(orders, marks, cnt)
    ensures |r| == N_ORD && forall i | 0 <= i < N_ORD :: |r[i].at| == cnt[i] <= NIL
  {
    seq(N_ORD, i requires 0 <= i < N_ORD => Marks(orders[i].head, marks[orders[i].offset..orders[i].offset + cnt[i]]))
  }

  lemma PutMarkView(orders: seq<Order>, marks: seq<Mark>, cnt: seq<nat>, i: int, k: nat, mk: Mark)
    requires LaidOut(orders, marks, cnt) && 0 <= i < N_ORD && k < cnt[i]
    ensures var v := ViewsOf(orders, marks, cnt);
      && v[i].at[k] == marks[orders[i].offset + k]
      && ViewsOf(orders, marks[orders[i].offset + k := mk], cnt) == v[i := v[i].(at := v[i].at[k := mk])]
  {
    var v := ViewsOf(orders, marks, cnt);
    var v' := v[i := v[i].(at := v[i].at[k := mk])];
    forall j | 0 <= j < N_ORD ensures ViewsOf(orders, marks[orders[i].offset + k := mk], cnt)[j] == v'[j] {
      SliceUpdate(marks, orders[i].offset + k, mk, orders[j].offset, orders[j].offset + cnt[j]);
    }
  }

  lemma PutHeadView(orders: seq<Order>, marks: seq<Mark>, cnt: seq<nat>, i: int, h: nat)
    requires LaidOut(orders, marks, cnt) && 0 <= i < N_ORD
    ensures var v := ViewsOf(orders, marks, cnt);
      && LaidOut(orders[i := orders[i].(head := h)], marks, cnt)
      && ViewsOf(orders[i := orders[i].(head := h)], marks, cnt) == v[i := v[i].(head := h)]
  {
  }

  ghost predicate Lists(v: seq<Marks>, lists: seq<seq<nat>>) {
    |v| == |lists| == N_ORD && forall i | 0 <= i < N_ORD :: ListOf(v[i], lists[i])
  }

  /** The bitmaps mark exactly the blocks of `free`. */
  ghost predicate Bitmaps(v: seq<Marks>, free: set<Block>) {
    && |v| == N_ORD
    && (forall i, b | 0 <= i < N_ORD :: Block(MIN_ORD + i, b) in free <==> Available(v[i], b))
    && (forall k | k in free :: IsOrder(k.ord))
  }

  lemma MarkState(v: seq<Marks>, lists: seq<seq<nat>>, free: set<Block>, i: nat, b: nat)
    requires Lists(v, lists) && Bitmaps(v, free) && i < N_ORD && b < 32 * |v[i].at|
    ensures IsLnk(v[i], v[i].head)
    ensures Lists(v[i := MarkBlk(v[i], b)], lists[i := MarkList(v[i], lists[i], b)])
    ensures Bitmaps(v[i := MarkBlk(v[i], b)], free + {Block(MIN_ORD + i, b)})
  {
    hide ListOf, MarkBlk, MarkList, Available, IsLnk;
    HeadIsLnk(v[i], lists[i]);
    MarkKeepsList(v[i], lists[i], b);
    forall c { MarkAvailability(v[i], b, c); }
  }

  lemma UnmarkState(v: seq<Marks>, lists: seq<seq<nat>>, free: set<Block>, i: nat, b: nat) returns (k: nat)
    requires Lists(v, lists) && Bitmaps(v, free) && i < N_ORD && Block(MIN_ORD + i, b) in free
    ensures b < 32 * |v[i].at| && k < |lists[i]|
    ensures var l := v[i].at[b / 32].lnks; IsLnk(v[i], PreLnk(l)) && IsLnk(v[i], NextLnk(l))
    ensures Lists(v[i := UnmarkBlk(v[i], b)], lists[i := UnmarkList(v[i], lists[i], b, k)])
    ensures Bitmaps(v[i := UnmarkBlk(v[i], b)], free - {Block(MIN_ORD + i, b)})
  {
    hide ListOf, UnmarkBlk, UnmarkList, Available, IsLnk, PreLnk, NextLnk;
    k := AvailableIsListed(v[i], lists[i], b);
    UnmarkKeepsList(v[i], lists[i], b, k);
    forall c { UnmarkAvailability(v[i], b, c); }
  }

  lemma Mul(p: nat, x: nat, y: nat)
    ensures x <= y ==> p * x <= p * y
  {
  }

  function AlignUp(x: nat, al: nat): nat
    requires al > 0
  {
    (x + al - 1) / al * al
  }

  lemma AlignUpBounds(x: nat, al: nat)
    requires al > 0
    ensures x <= AlignUp(x, al) < x + al && AlignUp(x, al) % al == 0
  {
    var q := (x + al - 1) / al;
    assert (q * al) % al == 0 by { ModOfMul(q, al); }
  }

  lemma {:induction false} ModOfMul(q: nat, al: nat)
    requires al > 0
    ensures (q * al) % al == 0
  {
    DivOfMul(al, q);
    assert q * al == al * q;
  }

  /** The estimated number of marks of the maximal order: `(len >> 17) + 1`. */
  function MaxMarks(len: nat): (n: nat)
    ensures 0 < n
  {
    len / 0x2_0000 + 1
  }

  /** Marks per order, smallest blocks first: each order down doubles them. */
  function Counts(n: nat): seq<nat> {
    [64 * n, 32 * n, 16 * n, 8 * n, 4 * n, 2 * n, n]
  }

  /** The index NIL is free to stand for "no mark". */
  predicate MarksFit(len: nat) { 64 * MaxMarks(len) <= NIL }

  /** Which pools leave NIL free; the one set up at boot has 65088 marks. */
  lemma WhenMarksFit(len: nat)
    ensures MarksFit(len) <==> len < 1023 * 0x2_0000
    ensures 64 * MaxMarks(0x0800_0000 - 0x10_0000) == 65088
  {
  }

  lemma CountsDouble(n: nat)
    ensures |Counts(n)| == N_ORD && Counts(n)[N_ORD - 1] == n && Counts(n)[0] == 64 * n
    ensures forall i | 0 <= i < N_ORD - 1 :: Counts(n)[i] == 2 * Counts(n)[i + 1]
    ensures forall i, j | 0 <= i < j < N_ORD :: 2 * Counts(n)[j] <= Counts(n)[i]
    ensures forall i | 0 <= i < N_ORD :: n <= Counts(n)[i] <= 64 * n
  {
  }

  /** The estimate leaves a bit for every block there is room for. */
  lemma CapacityLeft(m: nat, n: nat)
    requires m <= 32 * n
    ensures forall o | IsOrder(o) :: Blocks(m, o) <= 32 * Counts(n)[o - MIN_ORD]
  {
    assert Blocks(m, 12) == m && Blocks(m, 11) == 2 * m && Blocks(m, 10) == 4 * m && Blocks(m, 9) == 8 * m;
    assert Blocks(m, 8) == 16 * m && Blocks(m, 7) == 32 * m && Blocks(m, 6) == 64 * m;
  }

  /** No byte of `n` bytes at `a` is in the block `k` of the heap at `start`. */
  ghost predicate ClearOf(start: nat, a: nat, n: nat, k: Block) {
    && k.ord >= 0
    && (a + n <= start + k.id * Pow2(k.ord) || start + (k.id + 1) * Pow2(k.ord) <= a)
  }

  const NO_LISTS: seq<seq<nat>> := [[], [], [], [], [], [], []]
  const EMPTY_MARK := Mark(Lnks(NIL, NIL), 0)

  class Heap {
    const marks: array<Mark>
    const orders: array<Order>
    const start: nat
    const startHeap: nat
    const end: nat
    ghost const cnt: seq<nat>       // marks of each order
    ghost var m: nat                // maximal blocks in the heap
    ghost var lists: seq<seq<nat>>
    ghost var free: set<Block>
    ghost var out: set<Block>

    ghost predicate Layout()
      reads orders, marks
    {
      0 < startHeap && startHeap % 4096 == 0 && LaidOut(orders[..], marks[..], cnt)
    }

    /** The marks and list head of each order. */
    ghost function Views(): (r: seq<Marks>)
      requires Layout()
      reads orders, marks
      ensures |r| == N_ORD && forall i | 0 <= i < N_ORD :: |r[i].at| == cnt[i] <= NIL
    {
      ViewsOf(orders[..], marks[..], cnt)
    }

    ghost predicate Structure()
      reads this`free, this`lists, orders, marks
    {
      Layout() && Lists(Views(), lists) && Bitmaps(Views(), free)
    }

    /** The heap's invariant: free and outstanding blocks tile it, and no two
        free buddies are left apart. */
    ghost predicate Valid()
      reads this, orders, marks
    {
      && Structure()
      && Sound(free, out, m)
      && (forall o | IsOrder(o) :: Blocks(m, o) <= 32 * cnt[o - MIN_ORD])
    }

    /** The state after the start: maximal blocks from the heap's start to the
        end of the pool, all of them free. */
    ghost predicate PoolIsFree()
      reads this`m, this`free, this`out
    {
      && out == {}
      && (forall k :: k in free <==> k.ord == MAX_ORD && 0 <= k.id < m)
      && end <= startHeap + 4096 * m
      && (m > 0 ==> startHeap + 4096 * m < end + 4096)
    }

    /** Every word of the bitmaps is what it is once the start is done. */
    ghost predicate InitialWords()
      reads this`m, orders, marks
    {
      && Layout()
      && forall i: nat, k: nat | i < N_ORD && k < cnt[i] :: Views()[i].at[k].bitmap == InitialWord(i, k, m)
    }

    function Addr(o: nat, b: nat): nat { startHeap + Pow2(o) * b }

    // ---- initialisation ------------------------------------------------

    /** `kmem_init2`: lays out the marks of all orders at the start of the pool
        and frees the rest of it, one maximal block at a time. */
    constructor (vstart: nat, vend: nat)
      requires 0 < vstart <= vend
      requires vend + 4096 <= 0x1_0000_0000    // no address computed wraps around
      requires MarksFit(vend - vstart)
      ensures startHeap == AlignUp(vstart + 1016 * MaxMarks(vend - vstart), 4096)
      ensures startHeap % 4096 == 0
      ensures var tables := vstart + 1016 * ((vend - vstart) / 0x2_0000 + 1); tables <= startHeap < tables + 4096
      ensures start == vstart && end == vend && Valid() && PoolIsFree() && InitialWords()
      ensures fresh(marks) && fresh(orders)
    {
      hide Valid, PoolIsFree, Layout, Views, Counts, AlignUp;
      var n := MaxMarks(vend - vstart);
      start, end := vstart, vend;
      startHeap := AlignUp(vstart + 1016 * n, 4096);
      marks := new Mark[127 * n];
      orders := new Order[N_ORD];
      cnt := Counts(n);
      m, free, out, lists := 0, {}, {}, NO_LISTS;
      new;
      AlignUpBounds(vstart + 1016 * n, 4096);
      Setup(n);
      NothingOut();
      AllFreedIsInitial();
    }

    lemma NothingOut()
      requires PoolIsFree()
      ensures out == {}
    {
    }

    method Setup(n: nat)
      requires marks.Length == 127 * n && orders.Length == N_ORD && cnt == Counts(n) && 64 * n <= NIL && 0 < n
      requires startHeap % 4096 == 0 && 0 < start <= end && n == MaxMarks(end - start) && start + 1016 * n <= startHeap
      requires m == 0 && free == {} && out == {} && lists == NO_LISTS
      modifies this`m, this`free, this`out, this`lists, marks, orders
      ensures Valid() && PoolIsFree()
    {
      hide Valid, PoolIsFree, Layout, Views, Counts, MaxMarks;
      CountsDouble(n);
      ClearMarks(n);
      EmptyIsValid();
      FreePool(n);
    }

    /** The loop over the rest of the pool. */
    method FreePool(ghost n: nat)
      requires Valid() && m == 0 && free == {} && out == {} && cnt == Counts(n)
      requires startHeap % 4096 == 0 && start <= end && n == MaxMarks(end - start) && start + 1016 * n <= startHeap
      modifies this`m, this`free, this`out, this`lists, marks, orders
      ensures Valid() && PoolIsFree()
    {
      hide Structure, Sound, Tiles;
      var i := startHeap;
      while i < end
        invariant Valid() && i == startHeap + 4096 * m
        invariant out == {} && forall k :: k in free <==> k.ord == MAX_ORD && 0 <= k.id < m
        invariant m > 0 ==> i < end + 4096
        decreases end - i
      {
        FreeMaximal(i, n);
        i := i + 4096;
      }
    }

    /** One more maximal block, which joins the heap by being freed. */
    method FreeMaximal(i: nat, ghost n: nat)
      requires Valid() && out == {} && cnt == Counts(n) && i == startHeap + 4096 * m && m + 1 <= 32 * n
      requires startHeap % 4096 == 0
      modifies this`m, this`free, this`out, this`lists, marks, orders
      ensures Valid() && out == {} && m == old(m) + 1 && free == old(free) + {Block(MAX_ORD, old(m))}
    {
      hide Structure, Sound, Tiles, Pow2, Counts;
      CapacityLeft(m + 1, n);
      ExtendStep(free, out, m);
      ghost var id := m;
      m, out := m + 1, out + {Block(MAX_ORD, m)};
      assert Addr(MAX_ORD, id) == i by { Pow2Of12(); }
      AlignedAddr(MAX_ORD, id);
      var _ := Kfree(i, MAX_ORD, id);
    }

    /** The loop over orders: every mark empty, every list empty. */
    method ClearMarks(n0: nat)
      requires marks.Length == 127 * n0 && orders.Length == N_ORD && cnt == Counts(n0) && 64 * n0 <= NIL
      requires 0 < startHeap && startHeap % 4096 == 0
      modifies marks, orders
      ensures Layout()
      ensures forall i | 0 <= i < N_ORD :: Views()[i].head == NIL
      ensures forall i, k | 0 <= i < N_ORD && 0 <= k < cnt[i] :: Views()[i].at[k] == EMPTY_MARK
    {
      hide Views, Layout, Counts, Lnks, MaxMarks, Pow2;
      CountsDouble(n0);
      var total, n, i := 0, n0, N_ORD - 1;
      while i >= 0
        invariant -1 <= i < N_ORD && total == n - n0
        invariant n == if i >= 0 then cnt[i] else 128 * n0
        invariant forall j | i < j < N_ORD :: orders[j] == Order(NIL, cnt[j] - n0)
        invariant forall k | 0 <= k < total :: marks[k] == EMPTY_MARK
      {
        orders[i] := Order(NIL, total);
        var j := 0;
        while j < n
          modifies marks
          invariant 0 <= j <= n
          invariant forall k | 0 <= k < total + j :: marks[k] == EMPTY_MARK
        {
          marks[orders[i].offset + j] := EMPTY_MARK;
          j := j + 1;
        }
        total := total + n;
        n := n * 2;
        i := i - 1;
      }
      Cleared(n0);
    }

    lemma Cleared(n0: nat)
      requires marks.Length == 127 * n0 && orders.Length == N_ORD && cnt == Counts(n0) && 64 * n0 <= NIL
      requires 0 < startHeap && startHeap % 4096 == 0
      requires forall j | 0 <= j < N_ORD :: orders[j] == Order(NIL, cnt[j] - n0)
      requires forall k | 0 <= k < 127 * n0 :: marks[k] == EMPTY_MARK
      ensures Layout()
      ensures forall i | 0 <= i < N_ORD :: Views()[i].head == NIL
      ensures forall i, k | 0 <= i < N_ORD && 0 <= k < cnt[i] :: Views()[i].at[k] == EMPTY_MARK
    {
      hide Lnks;
      assert forall j | 0 <= j < N_ORD :: orders[..][j] == Order(NIL, cnt[j] - n0);
    }

    lemma EmptyIsValid()
      requires Layout() && m == 0 && free == {} && out == {} && lists == NO_LISTS && cnt[0] > 0
      requires forall i | 0 <= i < N_ORD :: Views()[i].head == NIL
      requires forall i, k | 0 <= i < N_ORD && 0 <= k < cnt[i] :: Views()[i].at[k] == EMPTY_MARK
      ensures Valid()
    {
      hide Structure, Sound, Views;
      EmptyStructure();
      EmptySound();
      forall o | IsOrder(o) ensures Blocks(0, o) == 0 { BlocksShrink(0, MIN_ORD, o); }
    }

    lemma EmptyStructure()
      requires Layout() && free == {} && lists == NO_LISTS
      requires forall i | 0 <= i < N_ORD :: Views()[i].head == NIL
      requires forall i, k | 0 <= i < N_ORD && 0 <= k < cnt[i] :: Views()[i].at[k] == EMPTY_MARK
      ensures Structure()
    {
      hide Views;
      var v := Views();
      forall i, b | 0 <= i < N_ORD ensures !Available(v[i], b) {
        if 0 <= b < 32 * cnt[i] { ZeroHasNoBit(b % 32); }
      }
      forall i | 0 <= i < N_ORD ensures ListOf(v[i], []) { }
    }

    lemma EmptySound()
      ensures Sound({}, {}, 0)
    {
      var none: set<Block> := {};
      assert none + none == none;
      HeapUnits(0);
    }

    // ---- array accesses ------------------------------------------------

    method GetMark(o: int, k: nat) returns (mk: Mark)
      requires Layout() && IsOrder(o) && k < cnt[o - MIN_ORD]
      ensures mk == Views()[o - MIN_ORD].at[k]
    {
      mk := marks[orders[o - MIN_ORD].offset + k];
      assert mk == marks[..][orders[o - MIN_ORD].offset + k];
    }

    method PutMark(o: int, k: nat, mk: Mark)
      requires Layout() && IsOrder(o) && k < cnt[o - MIN_ORD]
      modifies marks
      ensures Layout()
      ensures var v := old(Views()[o - MIN_ORD]); Views() == old(Views())[o - MIN_ORD := v.(at := v.at[k := mk])]
    {
      ghost var s := marks[..];
      PutMarkView(orders[..], s, cnt, o - MIN_ORD, k, mk);
      marks[orders[o - MIN_ORD].offset + k] := mk;
      assert marks[..] == s[orders[o - MIN_ORD].offset + k := mk];
      assert orders[..] == old(orders[..]);
    }

    method GetHead(o: int) returns (h: nat)
      requires Layout() && IsOrder(o)
      ensures h == Views()[o - MIN_ORD].head
    {
      h := orders[o - MIN_ORD].head;
    }

    method PutHead(o: int, h: nat)
      requires Layout() && IsOrder(o)
      modifies orders
      ensures Layout()
      ensures Views() == old(Views())[o - MIN_ORD := old(Views()[o - MIN_ORD]).(head := h)]
    {
      ghost var s := orders[..];
      PutHeadView(s, marks[..], cnt, o - MIN_ORD, h);
      hide LaidOut, ViewsOf;
      orders[o - MIN_ORD] := orders[o - MIN_ORD].(head := h);
      assert orders[..] == s[o - MIN_ORD := s[o - MIN_ORD].(head := h)];
      assert marks[..] == old(marks[..]);
    }

    // ---- marking and unmarking -----------------------------------------

    /** Writes `mark_blk` makes: exactly those of `BuddyMarks.MarkBlk`. */
    method MarkWrites(o: int, b: nat)
      requires Layout() && IsOrder(o) && b < 32 * cnt[o - MIN_ORD]
      requires IsLnk(Views()[o - MIN_ORD], Views()[o - MIN_ORD].head)
      modifies marks, orders
      ensures Layout()
      ensures Views() == old(Views())[o - MIN_ORD := MarkBlk(old(Views()[o - MIN_ORD]), b)]
    {
      hide Layout, Views, Lnks, PreLnk, NextLnk, SetBit;
      var i := b / 32;
      var mk := GetMark(o, i);
      var insert := mk.bitmap == 0;
      mk := mk.(bitmap := SetBit(mk.bitmap, b % 32));
      PutMark(o, i, mk);
      if insert {
        var head := GetHead(o);
        PutMark(o, i, mk.(lnks := Lnks(NIL, head)));
        if head != NIL {
          var p := GetMark(o, head);
          PutMark(o, head, p.(lnks := Lnks(i, NextLnk(p.lnks))));
        }
        PutHead(o, i);
      }
    }

    /** Writes `unmark_blk` makes: exactly those of `BuddyMarks.UnmarkBlk`. */
    method UnmarkWrites(o: int, b: nat)
      requires Layout() && IsOrder(o) && b < 32 * cnt[o - MIN_ORD]
      requires var v := Views()[o - MIN_ORD];
        IsLnk(v, PreLnk(v.at[b / 32].lnks)) && IsLnk(v, NextLnk(v.at[b / 32].lnks))
      modifies marks, orders
      ensures Layout()
      ensures Views() == old(Views())[o - MIN_ORD := UnmarkBlk(old(Views()[o - MIN_ORD]), b)]
    {
      hide Layout, Views, Lnks, PreLnk, NextLnk, ClearBit;
      var i := b / 32;
      var mk := GetMark(o, i);
      mk := mk.(bitmap := ClearBit(mk.bitmap, b % 32));
      PutMark(o, i, mk);
      if mk.bitmap == 0 {
        UnlinkMark(o, i, mk);
      }
    }

    method UnlinkMark(o: int, i: nat, mk: Mark)
      requires Layout() && IsOrder(o) && i < cnt[o - MIN_ORD] && mk == Views()[o - MIN_ORD].at[i]
      requires var v := Views()[o - MIN_ORD]; IsLnk(v, PreLnk(mk.lnks)) && IsLnk(v, NextLnk(mk.lnks))
      modifies marks, orders
      ensures Layout()
      ensures Views() == old(Views())[o - MIN_ORD := Unlink(old(Views()[o - MIN_ORD]), i)]
    {
      hide Layout, Views, Lnks, PreLnk, NextLnk;
      var prev, next := PreLnk(mk.lnks), NextLnk(mk.lnks);
      var head := GetHead(o);
      if prev != NIL {
        var p := GetMark(o, prev);
        PutMark(o, prev, p.(lnks := Lnks(PreLnk(p.lnks), next)));
      } else if head == i {
        PutHead(o, next);
      }
      if next != NIL {
        var p := GetMark(o, next);
        PutMark(o, next, p.(lnks := Lnks(prev, NextLnk(p.lnks))));
      }
      var mk := GetMark(o, i);
      PutMark(o, i, mk.(lnks := Lnks(NIL, NIL)));
    }

    /** `mark_blk`: the block joins the free blocks. */
    method MarkFree(o: int, b: nat)
      requires Structure() && IsOrder(o) && b < 32 * cnt[o - MIN_ORD]
      requires Block(o, b) !in free    // otherwise it panics: "double free"
      modifies this`free, this`lists, marks, orders
      ensures Structure() && free == old(free) + {Block(o, b)}
    {
      MarkState(Views(), lists, free, o - MIN_ORD, b);
      ghost var list := MarkList(Views()[o - MIN_ORD], lists[o - MIN_ORD], b);
      MarkWrites(o, b);
      lists := lists[o - MIN_ORD := list];
      free := free + {Block(o, b)};
    }

    /** `unmark_blk`: the block leaves the free blocks. */
    method UnmarkFree(o: int, b: nat)
      requires Structure() && IsOrder(o)
      requires Block(o, b) in free    // otherwise it panics: "double alloc"
      modifies this`free, this`lists, marks, orders
      ensures Structure() && free == old(free) - {Block(o, b)}
    {
      ghost var k := UnmarkState(Views(), lists, free, o - MIN_ORD, b);
      ghost var list := UnmarkList(Views()[o - MIN_ORD], lists[o - MIN_ORD], b, k);
      UnmarkWrites(o, b);
      lists := lists[o - MIN_ORD := list];
      free := free - {Block(o, b)};
    }

    /** `get_blk`: takes the first available block of the first listed mark. */
    method GetBlk(o: int) returns (mem: nat, ghost b: nat)
      requires Structure() && IsOrder(o) && Views()[o - MIN_ORD].head != NIL
      modifies this`free, this`lists, marks, orders
      ensures Structure() && Block(o, b) in old(free) && free == old(free) - {Block(o, b)}
      ensures mem == Addr(o, b)
    {
      hide Layout, Views, ListOf, Pow2, Bit;
      var head := GetHead(o);
      ghost var w := ListedHead(Views()[o - MIN_ORD], lists[o - MIN_ORD]);
      var mk := GetMark(o, head);
      var i := 0;
      while !Bit(mk.bitmap, i)
        invariant 0 <= i <= w
        decreases w - i
      {
        i := i + 1;
      }
      var id := head * 32 + i;
      assert id / 32 == head && id % 32 == i;
      assert Available(Views()[o - MIN_ORD], id);
      UnmarkFree(o, id);
      mem, b := startHeap + Pow2(o) * id, id;
    }

    /** `available`: tests the block's bit. */
    method IsAvailable(o: int, b: nat) returns (r: bool)
      requires Structure() && IsOrder(o) && b < 32 * cnt[o - MIN_ORD]
      ensures r <==> Block(o, b) in free
    {
      hide Layout, Views, Bit, Lists;
      var mk := GetMark(o, b / 32);
      r := Bit(mk.bitmap, b % 32);
      assert Available(Views()[o - MIN_ORD], b) <==> r;
    }

    // ---- freeing -------------------------------------------------------

    /** `_kfree`: frees the block and merges it with free buddies. */
    method KfreeRec(mem: nat, o: int, ghost b: nat)
      requires Valid() && IsOrder(o) && Block(o, b) in out && mem == Addr(o, b)
      modifies this`free, this`out, this`lists, marks, orders
      ensures Valid()
      ensures out == old(out) - {Block(o, b)}
      ensures free == Freed(old(free), o, b)
      decreases MAX_ORD - o
    {
      hide Layout, Views, Sound, Structure, Pow2, Addr, Blocks;
      IdAt(o, b);
      var id := (mem - startHeap) / Pow2(o);
      assert id == b;
      InBitmap(o, b);
      var isFree := IsAvailable(o, id);
      if isFree {    // "kfree: double free"
        assert false;
      }
      var buddyFree := IsAvailable(o, Buddy(id));
      if !buddyFree || o == MAX_ORD {
        FreeStep(free, out, m, o, id);
        MarkFree(o, id);
        out := out - {Block(o, id)};
      } else {
        MergeStep(free, out, m, o, id);
        UnmarkFree(o, Buddy(id));
        out := out - {Block(o, id)} + {Block(o + 1, id / 2)};
        ParentAt(o, id);
        KfreeRec(startHeap + Pow2(o) * (id - id % 2), o + 1, id / 2);
      }
    }

    lemma IdAt(o: nat, b: nat)
      ensures Addr(o, b) >= startHeap && (Addr(o, b) - startHeap) / Pow2(o) == b
    {
      hide Pow2;
      MemRoundTrip(o, b);
    }

    lemma ParentAt(o: nat, b: nat)
      ensures startHeap + Pow2(o) * (b - b % 2) == Addr(o + 1, b / 2)
    {
      hide Pow2;
      HalfAddr(o, b);
    }

    /** Every block of the tiling has its bit in a mark of its order. */
    lemma InBitmap(o: int, b: int)
      requires Valid() && Block(o, b) in free + out
      ensures Layout() && IsOrder(o) && 0 <= b < 32 * cnt[o - MIN_ORD]
      ensures Block(o, b) in out ==> Block(o, b) !in free
    {
    }

    // ---- allocating ----------------------------------------------------

    /** `_kmalloc`: takes a block of the order, splitting a larger one if none
        is free.  0 stands for NULL. */
    method KmallocRec(o: int) returns (up: nat, ghost b: nat, ghost j: int)
      requires Valid() && IsOrder(o)
      modifies this`free, this`out, this`lists, marks, orders
      ensures Valid()
      ensures up == 0 ==> free == old(free) && out == old(out) && forall k | k in free :: k.ord < o
      ensures up != 0 ==> up == Addr(o, b) && Block(o, b) !in old(out) && out == old(out) + {Block(o, b)}
      ensures up != 0 ==> BestFit(old(free), o, b, j) && free == Taken(old(free), o, b, j)
      decreases MAX_ORD - o
    {
      hide Layout, Views, Sound, Structure, Pow2, Anc, Taken;
      up, b, j := 0, 0, o;
      HasLayout();
      var head := GetHead(o);
      if head != NIL {
        ghost var f := free;
        up, b := GetBlk(o);
        TakeStep(f, out, m, Block(o, b));
        out := out + {Block(o, b)};
        TakenWhole(f, o, b);
      } else {
        NoneOfOrder(o);
        if o < MAX_ORD {
          ghost var p;
          up, p, j := KmallocRec(o + 1);
          if up != 0 {
            TakenHalf(old(free), o, p, j);
            SplitStep(free, out, m, o + 1, p);
            HalfAddr(o, 2 * p + 1);
            assert up + Pow2(o) == Addr(o, 2 * p + 1);
            assert Block(o, 2 * p) in Children(o + 1, p);
            out := SplitOf(out, o + 1, p);
            KfreeRec(up + Pow2(o), o, 2 * p + 1);
            b := 2 * p;
          }
        }
      }
    }

    lemma TakenWhole(f: set<Block>, o: int, b: nat)
      requires IsOrder(o) && Block(o, b) in f
      ensures BestFit(f, o, b, o) && Taken(f, o, b, o) == f - {Block(o, b)}
    {
    }

    lemma TakenHalf(f: set<Block>, o: int, p: nat, j: int)
      requires MIN_ORD <= o < MAX_ORD && BestFit(f, o + 1, p, j) && (forall k | k in f :: k.ord != o)
      ensures BestFit(f, o, 2 * p, j) && Taken(f, o, 2 * p, j) == Taken(f, o + 1, p, j) + {Block(o, 2 * p + 1)}
    {
      AncNext(o, 2 * p);
      hide Anc;
      AncCompose(o, 2 * p, o + 1, j);
    }

    lemma AncNext(o: int, b: nat)
      ensures Anc(o, b, o + 1) == b / 2
    {
    }

    lemma HasLayout()
      requires Structure()
      ensures Layout()
    {
    }

    lemma NoneOfOrder(o: int)
      requires Structure() && IsOrder(o) && Views()[o - MIN_ORD].head == NIL
      ensures forall k | k in free :: k.ord != o && k.ord <= MAX_ORD
    {
      hide Layout, Views, Available, ListOf;
      forall k | k in free ensures k.ord != o {
        assert k == Block(MIN_ORD + (k.ord - MIN_ORD), k.id);
        NoneAvailable(Views()[o - MIN_ORD], lists[o - MIN_ORD], k.id);
      }
    }

    // ---- the interface -------------------------------------------------

    /** `kmalloc`: NULL (0) exactly when no aligned region of the size is entirely free;
        otherwise a region that was, now outstanding.  It comes from a smallest free
        block that is large enough, and the rest of that stays free. */
    method Kmalloc(o: int) returns (up: nat, ghost b: nat, ghost j: int)
      requires Valid()
      requires IsOrder(o)    // otherwise it panics: "order out of range"
      modifies this`free, this`out, this`lists, marks, orders
      ensures Valid()
      ensures up == 0 <==> !exists r | 0 <= r < Blocks(m, o) :: EntirelyFree(old(free), o, r)
      ensures up == 0 ==> free == old(free) && out == old(out)
      ensures up != 0 ==> up == Addr(o, b) && EntirelyFree(old(free), o, b)
      ensures up != 0 ==> Block(o, b) !in old(out) && out == old(out) + {Block(o, b)}
      ensures up != 0 ==> BestFit(old(free), o, b, j) && free == Taken(old(free), o, b, j)
      ensures up % Pow2(o) == 0    // so kfree does not panic: "memory unaligned"
      ensures up != 0 ==> startHeap <= up && up + Pow2(o) <= startHeap + 4096 * m
      ensures up != 0 ==> forall k | k in old(out) :: ClearOf(startHeap, up, Pow2(o), k)
    {
      hide Valid, Pow2, Tiles, EntirelyFree, Taken, Anc;
      SoundFree();
      RegionIffBlock(free, m, o);
      up, b, j := KmallocRec(o);
      if up != 0 {
        FreeBlockFreesRegion(old(free), o, b, j);
        assert Block(o, b) in free + out;
        InBitmap(o, b);
        AlignedAddr(o, b);
        InBytes(o, b);
      }
    }

    /** An outstanding block in bytes: inside the heap and apart from all others. */
    lemma InBytes(o: int, b: nat)
      requires Valid() && IsOrder(o) && Block(o, b) in out
      ensures Addr(o, b) + Pow2(o) <= startHeap + 4096 * m
      ensures forall k | k in out && k != Block(o, b) :: ClearOf(startHeap, Addr(o, b), Pow2(o), k)
    {
      hide Structure, Tiles, Pow2;
      var me := Block(o, b);
      BlocksApart(free + out, m, me, me);
      Wide(me);
      forall k | k in out && k != me ensures ClearOf(startHeap, Addr(o, b), Pow2(o), k) {
        BlocksApart(free + out, m, me, k);
      }
    }

    /** Blocks lie at multiples of their size. */
    lemma AlignedAddr(o: int, b: nat)
      requires startHeap % 4096 == 0 && IsOrder(o)
      ensures Addr(o, b) % Pow2(o) == 0
    {
      hide Pow2;
      Pow2Add(o, MAX_ORD - o);
      assert Pow2(MAX_ORD) == 4096 by { Pow2Of12(); }
      MultipleOf(Pow2(o), Pow2(MAX_ORD - o), startHeap / 4096, b);
    }

    lemma SoundFree()
      requires Valid()
      ensures Coalesced(free) && Within(free, m)
    {
      assert forall k | k in free :: k in free + out;
    }

    /** `kfree` of an outstanding block.  It panics (`ok` is false) exactly when the order
        is out of range or the address not a multiple of the block's size. */
    method Kfree(mem: nat, o: int, ghost b: nat) returns (ok: bool)
      requires Valid()
      requires IsOrder(o) && mem % Pow2(o) == 0 ==> mem == Addr(o, b) && Block(o, b) in out
      modifies this`free, this`out, this`lists, marks, orders
      ensures Valid()
      ensures ok <==> IsOrder(o) && mem % Pow2(o) == 0
      ensures ok ==> out == old(out) - {Block(o, b)} && free == Freed(old(free), o, b)
      ensures !ok ==> out == old(out) && free == old(free)
    {
      if !IsOrder(o) { return false; }
      if mem % Pow2(o) != 0 { return false; }
      KfreeRec(mem, o, b);
      return true;
    }

    /** Whatever was allocated and freed in between, once nothing is outstanding exactly
        the maximal blocks are free and the bitmaps are as after the start, word for
        word. */
    lemma AllFreedIsInitial()
      requires Valid() && out == {}
      ensures forall k :: k in free <==> k.ord == MAX_ORD && 0 <= k.id < m
      ensures InitialWords()
    {
      hide Views, Linked, Listed, Bit, InitialWord;
      assert free + out == free;
      AllFreeIsMaximal(free, m);
      forall i: nat, k: nat | i < N_ORD && k < cnt[i] ensures Views()[i].at[k].bitmap == InitialWord(i, k, m) {
        WordIs(Views()[i], lists[i], i, k, m, free);
      }
    }
  }

  /** The bitmap of the `k`-th mark of an order when exactly the maximal blocks are free:
      a bit for each, and none in the smaller orders. */
  function InitialWord(i: nat, k: nat, m: nat): nat {
    if i < N_ORD - 1 || m <= 32 * k then 0
    else if m >= 32 * k + 32 then Pow2(32) - 1
    else Pow2(m - 32 * k) - 1
  }

  lemma InitialBits(i: nat, k: nat, m: nat, j: nat)
    requires i < N_ORD && j < 32
    ensures Bit(InitialWord(i, k, m), j) <==> i == N_ORD - 1 && 32 * k + j < m
    ensures InitialWord(i, k, m) < Pow2(32)
  {
    hide Bit, Pow2;
    ZeroHasNoBit(j);
    LowBits(32, j);
    if 32 * k < m < 32 * k + 32 {
      LowBits(m - 32 * k, j);
      Pow2Mono(m - 32 * k, 32);
    }
  }

  lemma WordIs(v: Marks, list: seq<nat>, i: nat, k: nat, m: nat, free: set<Block>)
    requires ListOf(v, list) && i < N_ORD && k < |v.at|
    requires forall b :: Block(MIN_ORD + i, b) in free <==> Available(v, b)
    requires forall b :: b in free <==> b.ord == MAX_ORD && 0 <= b.id < m
    ensures v.at[k].bitmap == InitialWord(i, k, m)
  {
    hide Linked, Listed, Bit, InitialWord;
    Pow2Of32();
    InitialBits(i, k, m, 0);
    forall j: nat | j < 32 ensures Bit(v.at[k].bitmap, j) <==> Bit(InitialWord(i, k, m), j) {
      var b := 32 * k + j;
      assert b / 32 == k && b % 32 == j;
      assert Available(v, b) <==> Bit(v.at[k].bitmap, j);
      assert Block(MIN_ORD + i, b) in free <==> MIN_ORD + i == MAX_ORD && b < m;
      InitialBits(i, k, m, j);
    }
    ExtensionalBits(v.at[k].bitmap, InitialWord(i, k, m), 32);
  }

  lemma MultipleOf(p: nat, r: nat, q: nat, b: nat)
    requires p > 0
    ensures (p * r * q + p * b) % p == 0
  {
    assert p * r * q + p * b == (r * q + b) * p by { assert p * r * q == p * (r * q); }
    ModOfMul(r * q + b, p);
  }

  lemma HalfAddr(o: nat, b: nat)
    ensures Pow2(o) * (b - b % 2) == Pow2(o + 1) * (b / 2)
    ensures Pow2(o) * b == Pow2(o + 1) * (b / 2) + Pow2(o) * (b % 2)
  {
    var h := b / 2;
    assert b == 2 * h + b % 2;
    assert Pow2(o) * (2 * h) == Pow2(o + 1) * h;
    assert Pow2(o) * (2 * h + b % 2) == Pow2(o) * (2 * h) + Pow2(o) * (b % 2);
  }
}
