/** The geometry of the buddy heap.

    The heap is a row of units of 64 bytes.  A block of order `o` and number `b`
    spans 2^(o-6) consecutive units, and the block of order `o` that holds unit
    `u` has number `At(o, u)`.  A set of blocks tiles the heap when every unit
    lies in exactly one of them. */
module BuddyTiling {
  import opened Bits

  const MIN_ORD := 6
  const MAX_ORD := 12

  datatype Block = Block(ord: int, id: int)

  predicate IsOrder(o: int) { MIN_ORD <= o <= MAX_ORD }

  /** The number of the order-`o2` block around block `b` of order `o1`. */
  function Anc(o1: int, b: int, o2: int): (r: int)
    requires o1 <= o2
    ensures 0 <= b ==> 0 <= r
    decreases o2 - o1
  {
    if o1 == o2 then b else Anc(o1, b, o2 - 1) / 2
  }

  function At(o: int, u: int): int
    requires MIN_ORD <= o
  {
    Anc(MIN_ORD, u, o)
  }

  /** How many blocks of order `o` a heap of `m` maximal blocks has. */
  function Blocks(m: nat, o: int): nat
    requires o <= MAX_ORD
    decreases MAX_ORD - o
  {
    if o == MAX_ORD then m else 2 * Blocks(m, o + 1)
  }

  ghost predicate Within(s: set<Block>, m: nat) {
    forall k | k in s :: IsOrder(k.ord) && 0 <= k.id < Blocks(m, k.ord)
  }

  /** `s` has a block around unit `u`. */
  ghost predicate Covered(s: set<Block>, u: int) {
    exists o | IsOrder(o) :: Block(o, At(o, u)) in s
  }

  ghost predicate Cover(s: set<Block>, m: nat) {
    forall u | 0 <= u < Blocks(m, MIN_ORD) :: Covered(s, u)
  }

  /** At most one block of `s` holds unit `u`. */
  ghost predicate AtMostOnce(s: set<Block>, u: int) {
    forall o1, o2 | IsOrder(o1) && IsOrder(o2) && Block(o1, At(o1, u)) in s && Block(o2, At(o2, u)) in s :: o1 == o2
  }

  ghost predicate Disjoint(s: set<Block>) {
    forall u | 0 <= u :: AtMostOnce(s, u)
  }

  ghost predicate Tiles(s: set<Block>, m: nat) {
    Within(s, m) && Cover(s, m) && Disjoint(s)
  }

  /** No two buddies below the maximal order are both in `f`. */
  ghost predicate Coalesced(f: set<Block>) {
    forall k | k in f && k.ord < MAX_ORD :: Block(k.ord, Buddy(k.id)) !in f
  }

  /** C's `b ^ 1`. */
  function Buddy(b: int): int {
    if b % 2 == 0 then b + 1 else b - 1
  }

  /** Every unit of block `b` of order `o` lies in a block of `f`. */
  ghost predicate EntirelyFree(f: set<Block>, o: int, b: int)
    requires IsOrder(o)
  {
    forall u | 0 <= u && At(o, u) == b :: Covered(f, u)
  }

  // ---- ancestors -------------------------------------------------------

  lemma {:induction false} AncCompose(o1: int, b: int, o2: int, o3: int)
    requires o1 <= o2 <= o3
    ensures Anc(o2, Anc(o1, b, o2), o3) == Anc(o1, b, o3)
    decreases o3 - o2
  {
    if o2 < o3 { AncCompose(o1, b, o2, o3 - 1); }
  }

  /** Every block has a unit. */
  lemma {:induction false} FirstUnit(o: int, b: int) returns (u: int)
    requires MIN_ORD <= o && 0 <= b
    ensures 0 <= u && At(o, u) == b
    decreases o
  {
    if o == MIN_ORD {
      u := b;
    } else {
      u := FirstUnit(o - 1, 2 * b);
    }
  }

  /** A unit of a block inside the heap is inside the heap, and conversely. */
  lemma {:induction false} UnitInHeap(m: nat, o: int, u: int)
    requires IsOrder(o) && 0 <= u
    ensures At(o, u) < Blocks(m, o) <==> u < Blocks(m, MIN_ORD)
    decreases o
  {
    if o > MIN_ORD { UnitInHeap(m, o - 1, u); }
  }

  /** Addresses: block `b` of order `o` holds exactly the byte offsets from
      b * 2^o to (b + 1) * 2^o. */
  lemma {:induction false} AtIsDivision(o: int, u: int)
    requires MIN_ORD <= o && 0 <= u
    ensures At(o, u) * Pow2(o - MIN_ORD) <= u < (At(o, u) + 1) * Pow2(o - MIN_ORD)
    decreases o
  {
    if o > MIN_ORD {
      AtIsDivision(o - 1, u);
      var p, q := Pow2(o - 1 - MIN_ORD), At(o - 1, u);
      assert At(o, u) == q / 2;
      assert q / 2 * (2 * p) <= q * p && (q + 1) * p <= (q / 2 + 1) * (2 * p) by {
        Halves(q, p);
      }
    }
  }

  lemma Halves(q: int, p: nat)
    ensures q / 2 * (2 * p) <= q * p
    ensures (q + 1) * p <= (q / 2 + 1) * (2 * p)
  {
    var h := q / 2;
    if q % 2 == 0 {
      assert q == 2 * h;
      assert q * p == h * (2 * p);
    } else {
      assert q == 2 * h + 1;
      assert q * p == h * (2 * p) + p;
    }
    assert (h + 1) * (2 * p) == h * (2 * p) + 2 * p;
  }

  // ---- splitting and merging -------------------------------------------

  function Children(o: int, p: int): set<Block> {
    {Block(o - 1, 2 * p), Block(o - 1, 2 * p + 1)}
  }

  function SplitOf(s: set<Block>, o: int, p: int): set<Block> {
    s - {Block(o, p)} + Children(o, p)
  }

  function MergeOf(s: set<Block>, o: int, p: int): set<Block> {
    s - Children(o, p) + {Block(o, p)}
  }

  /** Two blocks of a tiling never nest. */
  lemma NoNesting(s: set<Block>, o1: int, b: int, o2: int)
    requires Disjoint(s) && MIN_ORD <= o1 < o2 <= MAX_ORD && 0 <= b
    requires Block(o1, b) in s
    ensures Block(o2, Anc(o1, b, o2)) !in s
  {
    var u := FirstUnit(o1, b);
    AncCompose(MIN_ORD, u, o1, o2);
    assert AtMostOnce(s, u) && Block(o1, At(o1, u)) in s;
    assert Block(o2, At(o2, u)) !in s;
  }

  lemma ChildrenAbsent(s: set<Block>, o: int, p: int)
    requires Disjoint(s) && MIN_ORD < o <= MAX_ORD && 0 <= p && Block(o, p) in s
    ensures s !! Children(o, p)
  {
    if Block(o - 1, 2 * p) in s { NoNesting(s, o - 1, 2 * p, o); }
    if Block(o - 1, 2 * p + 1) in s { NoNesting(s, o - 1, 2 * p + 1, o); }
  }

  /** Outside block `p` of order `o`, splitting or merging it changes nothing. */
  lemma OtherUnits(s: set<Block>, t: set<Block>, o: int, p: int, u: int)
    requires MIN_ORD < o <= MAX_ORD && 0 <= u && At(o, u) != p
    requires t == SplitOf(s, o, p) || t == MergeOf(s, o, p)
    ensures Covered(s, u) <==> Covered(t, u)
    ensures AtMostOnce(s, u) <==> AtMostOnce(t, u)
  {
    assert At(o, u) == At(o - 1, u) / 2;
    assert forall o1 | IsOrder(o1) :: Block(o1, At(o1, u)) in s <==> Block(o1, At(o1, u)) in t;
  }

  /** A unit inside block `p` is in one of the halves instead, and conversely. */
  lemma InnerUnit(s: set<Block>, t: set<Block>, o: int, p: int, u: int)
    requires MIN_ORD < o <= MAX_ORD && 0 <= u && At(o, u) == p && AtMostOnce(s, u)
    requires (t == SplitOf(s, o, p) && Block(o, p) in s) || (t == MergeOf(s, o, p) && Children(o, p) <= s)
    ensures Covered(t, u) && AtMostOnce(t, u)
  {
    assert At(o, u) == At(o - 1, u) / 2;
    if t == SplitOf(s, o, p) && Block(o, p) in s {
      assert Block(o - 1, At(o - 1, u)) in t;
    } else {
      assert Block(o - 1, At(o - 1, u)) in s;
      assert Block(o, At(o, u)) in t;
    }
  }

  lemma SplitTiles(s: set<Block>, m: nat, o: int, p: int)
    requires Tiles(s, m) && MIN_ORD < o <= MAX_ORD && Block(o, p) in s
    ensures Tiles(SplitOf(s, o, p), m)
  {
    var t := SplitOf(s, o, p);
    forall u | 0 <= u ensures AtMostOnce(t, u) && (Covered(s, u) ==> Covered(t, u)) {
      if At(o, u) == p { InnerUnit(s, t, o, p, u); } else { OtherUnits(s, t, o, p, u); }
    }
  }

  lemma MergeTiles(s: set<Block>, m: nat, o: int, p: int)
    requires Tiles(s, m) && MIN_ORD < o <= MAX_ORD && Children(o, p) <= s
    ensures Tiles(MergeOf(s, o, p), m)
  {
    var t := MergeOf(s, o, p);
    assert Block(o - 1, 2 * p) in s;
    forall u | 0 <= u ensures AtMostOnce(t, u) && (Covered(s, u) ==> Covered(t, u)) {
      if At(o, u) == p { InnerUnit(s, t, o, p, u); } else { OtherUnits(s, t, o, p, u); }
    }
  }

  /** One maximal block more extends a tiling of `m` blocks to `m + 1`. */
  lemma ExtendTiles(s: set<Block>, m: nat)
    requires Tiles(s, m)
    ensures Tiles(s + {Block(MAX_ORD, m)}, m + 1)
  {
    var t := s + {Block(MAX_ORD, m)};
    forall o | o <= MAX_ORD ensures Blocks(m, o) <= Blocks(m + 1, o) { BlocksGrow(m, o); }
    forall u | 0 <= u ensures AtMostOnce(t, u) && (u < Blocks(m + 1, MIN_ORD) ==> Covered(t, u)) {
      ExtendUnit(s, m, u);
    }
  }

  lemma ExtendUnit(s: set<Block>, m: nat, u: int)
    requires Tiles(s, m) && 0 <= u
    ensures AtMostOnce(s + {Block(MAX_ORD, m)}, u)
    ensures u < Blocks(m + 1, MIN_ORD) ==> Covered(s + {Block(MAX_ORD, m)}, u)
  {
    var t := s + {Block(MAX_ORD, m)};
    UnitInHeap(m, MAX_ORD, u);
    UnitInHeap(m + 1, MAX_ORD, u);
    assert AtMostOnce(s, u);
    if At(MAX_ORD, u) == m {
      forall o | IsOrder(o) ensures Block(o, At(o, u)) !in s { UnitInHeap(m, o, u); }
      assert Block(MAX_ORD, At(MAX_ORD, u)) in t;
    } else {
      assert forall o | IsOrder(o) :: Block(o, At(o, u)) in s <==> Block(o, At(o, u)) in t;
      assert u < Blocks(m + 1, MIN_ORD) ==> Covered(s, u);
    }
  }

  lemma {:induction false} BlocksGrow(m: nat, o: int)
    requires o <= MAX_ORD
    ensures Blocks(m, o) <= Blocks(m + 1, o)
    decreases MAX_ORD - o
  {
    if o < MAX_ORD { BlocksGrow(m, o + 1); }
  }

  lemma {:induction false} BlocksShrink(m: nat, o1: int, o2: int)
    requires o1 <= o2 <= MAX_ORD
    ensures Blocks(m, o2) <= Blocks(m, o1)
    decreases o2 - o1
  {
    if o1 < o2 { BlocksShrink(m, o1 + 1, o2); }
  }

  // ---- full coalescing -------------------------------------------------

  /** In a coalesced heap a region that is entirely free lies inside one free
      block: free memory is never split across buddies. */
  lemma {:induction false} FreeRegionInFreeBlock(f: set<Block>, o: int, b: int) returns (o2: int)
    requires Coalesced(f) && IsOrder(o) && 0 <= b && EntirelyFree(f, o, b)
    ensures o <= o2 <= MAX_ORD && Block(o2, Anc(o, b, o2)) in f
    decreases o
  {
    if o == MIN_ORD {
      assert At(o, b) == b;
      assert Covered(f, b);
      o2 :| IsOrder(o2) && Block(o2, At(o2, b)) in f;
    } else {
      forall u | 0 <= u && (At(o - 1, u) == 2 * b || At(o - 1, u) == 2 * b + 1) ensures Covered(f, u) {
        assert At(o, u) == b;
      }
      var l := FreeRegionInFreeBlock(f, o - 1, 2 * b);
      var r := FreeRegionInFreeBlock(f, o - 1, 2 * b + 1);
      assert Anc(o - 1, 2 * b, o) == b && Anc(o - 1, 2 * b + 1, o) == b;
      assert Block(o - 1, 2 * b) in f ==> Block(o - 1, Buddy(2 * b)) !in f;
      if l > o - 1 {
        AncCompose(o - 1, 2 * b, o, l);
        o2 := l;
      } else if r > o - 1 {
        AncCompose(o - 1, 2 * b + 1, o, r);
        o2 := r;
      } else {
        assert false;
      }
    }
  }

  /** A free block makes every region inside it entirely free. */
  lemma FreeBlockFreesRegion(f: set<Block>, o: int, b: int, o2: int)
    requires IsOrder(o) && o <= o2 <= MAX_ORD && Block(o2, Anc(o, b, o2)) in f
    ensures EntirelyFree(f, o, b)
  {
    forall u | 0 <= u && At(o, u) == b ensures Covered(f, u) {
      AncCompose(MIN_ORD, u, o, o2);
      assert Block(o2, At(o2, u)) in f;
    }
  }

  /** An entirely free region of order `o` exists exactly when some free block
      has order `o` or more. */
  lemma RegionIffBlock(f: set<Block>, m: nat, o: int)
    requires Coalesced(f) && Within(f, m) && IsOrder(o)
    ensures (exists b | 0 <= b < Blocks(m, o) :: EntirelyFree(f, o, b)) <==> (exists k | k in f :: o <= k.ord)
  {
    if b :| 0 <= b < Blocks(m, o) && EntirelyFree(f, o, b) {
      var o2 := FreeRegionInFreeBlock(f, o, b);
      assert Block(o2, Anc(o, b, o2)) in f;
    }
    if k :| k in f && o <= k.ord {
      var u := FirstUnit(k.ord, k.id);
      AncCompose(MIN_ORD, u, o, k.ord);
      UnitInHeap(m, k.ord, u);
      UnitInHeap(m, o, u);
      FreeBlockFreesRegion(f, o, At(o, u), k.ord);
      assert 0 <= At(o, u) < Blocks(m, o);
    }
  }

  /** When nothing is outstanding the free blocks are exactly the maximal ones. */
  lemma AllFreeIsMaximal(f: set<Block>, m: nat)
    requires Tiles(f, m) && Coalesced(f)
    ensures forall k :: k in f <==> k.ord == MAX_ORD && 0 <= k.id < m
  {
    forall b | 0 <= b < m ensures Block(MAX_ORD, b) in f {
      forall u | 0 <= u && At(MAX_ORD, u) == b ensures Covered(f, u) {
        UnitInHeap(m, MAX_ORD, u);
      }
      var o2 := FreeRegionInFreeBlock(f, MAX_ORD, b);
    }
    forall k | k in f ensures k.ord == MAX_ORD && 0 <= k.id < m {
      if k.ord < MAX_ORD {
        var u := FirstUnit(k.ord, k.id);
        UnitInHeap(m, k.ord, u);
        UnitInHeap(m, MAX_ORD, u);
        AncCompose(MIN_ORD, u, k.ord, MAX_ORD);
        NoNesting(f, k.ord, k.id, MAX_ORD);
        assert false;
      }
    }
  }

  // ---- what each step of the allocator keeps -----------------------------

  /** The heap's invariant: free and outstanding blocks tile the heap, and no
      two free buddies are left apart. */
  ghost predicate Sound(free: set<Block>, out: set<Block>, m: nat) {
    free !! out && Tiles(free + out, m) && Coalesced(free)
  }

  lemma TakeStep(free: set<Block>, out: set<Block>, m: nat, k: Block)
    requires Sound(free, out, m) && k in free
    ensures k !in out
    ensures Sound(free - {k}, out + {k}, m)
  {
    assert free - {k} + (out + {k}) == free + out;
  }

  lemma FreeStep(free: set<Block>, out: set<Block>, m: nat, o: int, b: int)
    requires Sound(free, out, m) && Block(o, b) in out
    requires o == MAX_ORD || Block(o, Buddy(b)) !in free
    ensures Sound(free + {Block(o, b)}, out - {Block(o, b)}, m)
  {
    assert free + {Block(o, b)} + (out - {Block(o, b)}) == free + out;
    assert Buddy(Buddy(b)) == b;
  }

  lemma MergeStep(free: set<Block>, out: set<Block>, m: nat, o: int, b: int)
    requires Sound(free, out, m) && Block(o, b) in out
    requires o < MAX_ORD && Block(o, Buddy(b)) in free
    ensures Block(o + 1, b / 2) !in free + out
    ensures Sound(free - {Block(o, Buddy(b))}, out - {Block(o, b)} + {Block(o + 1, b / 2)}, m)
  {
    var s, p := free + out, b / 2;
    assert Block(o, b) in s && Anc(o, b, o + 1) == p;
    NoNesting(s, o, b, o + 1);
    assert Children(o + 1, p) == {Block(o, b), Block(o, Buddy(b))};
    MergeTiles(s, m, o + 1, p);
    assert free - {Block(o, Buddy(b))} + (out - {Block(o, b)} + {Block(o + 1, p)}) == MergeOf(s, o + 1, p);
  }

  lemma SplitStep(free: set<Block>, out: set<Block>, m: nat, o: int, p: int)
    requires Sound(free, out, m) && MIN_ORD < o && Block(o, p) in out
    ensures free + out !! Children(o, p)
    ensures Sound(free, SplitOf(out, o, p), m)
  {
    var s := free + out;
    assert Block(o, p) in s;
    ChildrenAbsent(s, o, p);
    SplitTiles(s, m, o, p);
    assert free + SplitOf(out, o, p) == SplitOf(s, o, p);
  }

  /** The free blocks once block `b` of order `o` is freed and merged. */
  ghost function Freed(f: set<Block>, o: int, b: int): set<Block>
    requires o <= MAX_ORD
    decreases MAX_ORD - o
  {
    if o == MAX_ORD || Block(o, Buddy(b)) !in f then f + {Block(o, b)}
    else Freed(f - {Block(o, Buddy(b))}, o + 1, b / 2)
  }

  /** The free blocks once block `b` of order `o` is cut out of its ancestor of order `j`:
      of each larger block on the way one half stays free. */
  ghost function Taken(f: set<Block>, o: int, b: int, j: int): set<Block>
    requires o <= j
    decreases j - o
  {
    if o == j then f - {Block(o, b)} else Taken(f, o + 1, b / 2, j) + {Block(o, Buddy(b))}
  }

  /** A smallest free block that is large enough. */
  ghost predicate BestFit(f: set<Block>, o: int, b: int, j: int) {
    o <= j <= MAX_ORD && Block(j, Anc(o, b, j)) in f && forall k | k in f :: k.ord < o || j <= k.ord
  }

  lemma ExtendStep(free: set<Block>, out: set<Block>, m: nat)
    requires Sound(free, out, m)
    ensures Block(MAX_ORD, m) !in free + out
    ensures Sound(free, out + {Block(MAX_ORD, m)}, m + 1)
  {
    ExtendTiles(free + out, m);
    assert free + (out + {Block(MAX_ORD, m)}) == free + out + {Block(MAX_ORD, m)};
  }

  /** The tiling in bytes: every byte of the heap lies in exactly one block. */
  lemma EveryByteOnce(s: set<Block>, m: nat, x: int) returns (k: Block)
    requires Tiles(s, m) && 0 <= x < 4096 * m
    ensures k in s && k.id * Pow2(k.ord) <= x < (k.id + 1) * Pow2(k.ord)
    ensures forall k' | k' in s && k'.id * Pow2(k'.ord) <= x < (k'.id + 1) * Pow2(k'.ord) :: k' == k
  {
    var u := x / 64;
    HeapUnits(m);
    assert Covered(s, u) && AtMostOnce(s, u);
    var o :| IsOrder(o) && Block(o, At(o, u)) in s;
    k := Block(o, At(o, u));
    ByteInBlock(k.ord, k.id, x);
    forall k' | k' in s && k'.id * Pow2(k'.ord) <= x < (k'.id + 1) * Pow2(k'.ord) ensures k' == k {
      ByteInBlock(k'.ord, k'.id, x);
    }
  }

  /** The byte ranges of two blocks do not overlap. */
  ghost predicate ByteApart(k: Block, k': Block)
    requires k.ord >= 0 && k'.ord >= 0
  {
    (k.id + 1) * Pow2(k.ord) <= k'.id * Pow2(k'.ord) || (k'.id + 1) * Pow2(k'.ord) <= k.id * Pow2(k.ord)
  }

  /** Blocks of a tiling lie in the heap, and no two of them share a byte. */
  lemma BlocksApart(s: set<Block>, m: nat, k: Block, k': Block)
    requires Tiles(s, m) && k in s && k' in s
    ensures IsOrder(k.ord) && IsOrder(k'.ord) && 0 <= k.id * Pow2(k.ord) && (k.id + 1) * Pow2(k.ord) <= 4096 * m
    ensures k != k' ==> ByteApart(k, k')
  {
    hide Tiles, Pow2;
    InHeapBytes(s, m, k);
    InHeapBytes(s, m, k');
    var a, b := k.id * Pow2(k.ord), k'.id * Pow2(k'.ord);
    if k != k' && !ByteApart(k, k') {
      var x := if a < b then b else a;
      Wide(k);
      Wide(k');
      var one := EveryByteOnce(s, m, x);
    }
  }

  lemma Wide(k: Block)
    requires k.ord >= 0
    ensures (k.id + 1) * Pow2(k.ord) == k.id * Pow2(k.ord) + Pow2(k.ord)
  {
    hide Pow2;
  }

  lemma InHeapBytes(s: set<Block>, m: nat, k: Block)
    requires Tiles(s, m) && k in s
    ensures IsOrder(k.ord) && 0 <= k.id * Pow2(k.ord) && (k.id + 1) * Pow2(k.ord) <= 4096 * m
  {
    hide Pow2, Cover, Disjoint, Blocks;
    OrderBytes(m, k.ord);
    var n, p := Blocks(m, k.ord), Pow2(k.ord);
    assert (k.id + 1) * p <= n * p && 0 <= k.id * p;
  }

  lemma Doubled(o: nat)
    ensures Pow2(o + 1) == 2 * Pow2(o)
  {
  }

  lemma Shifted(b: nat, p: nat)
    ensures 2 * b * p == b * (2 * p)
  {
  }

  lemma {:induction false} OrderBytes(m: nat, o: int)
    requires IsOrder(o)
    ensures Blocks(m, o) * Pow2(o) == 4096 * m
    decreases MAX_ORD - o
  {
    if o == MAX_ORD {
      Pow2Of12();
    } else {
      OrderBytes(m, o + 1);
      Doubled(o);
      hide Pow2;
      Shifted(Blocks(m, o + 1), Pow2(o));
    }
  }

  lemma HeapUnits(m: nat)
    ensures Blocks(m, MIN_ORD) == 64 * m
  {
    assert Blocks(m, 10) == 4 * m;
    assert Blocks(m, 8) == 16 * m;
  }

  lemma ByteInBlock(o: int, b: int, x: int)
    requires IsOrder(o) && 0 <= x
    ensures At(o, x / 64) == b <==> b * Pow2(o) <= x < (b + 1) * Pow2(o)
  {
    hide Anc, Pow2;
    var u, p, q := x / 64, Pow2(o - MIN_ORD), At(o, x / 64);
    AtIsDivision(o, u);
    Pow2Sum(o - MIN_ORD);
    ScaledBounds(b, p, x);
    MulMono(b + 1, q, p);
    MulMono(q + 1, b, p);
  }

  /** Bounds on a byte and on its unit agree. */
  lemma ScaledBounds(b: int, p: nat, x: int)
    ensures b * (64 * p) <= x < (b + 1) * (64 * p) <==> b * p <= x / 64 < (b + 1) * p
  {
    var lo, hi := b * p, (b + 1) * p;
    assert b * (64 * p) == 64 * lo;
    assert (b + 1) * (64 * p) == 64 * hi;
  }

  lemma MulMono(x: int, y: int, p: nat)
    ensures x <= y ==> x * p <= y * p
  {
  }

  lemma {:induction false} Pow2Sum(k: nat)
    ensures Pow2(k + MIN_ORD) == 64 * Pow2(k)
  {
    if k > 0 { Pow2Sum(k - 1); }
  }
}
