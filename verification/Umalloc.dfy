/** The user-level allocator of section 8.7 of "The C Programming Language".

    Addresses count headers of 8 bytes.  `ptr` and `size` are the two words of
    the headers in memory.  The free blocks form a ring through `base` in address
    order.  Ghost fields record the ring, the blocks handed out, and the units
    obtained from the system. */
module Umalloc {

  // ---- chains of links ---------------------------------------------------

  function Succ(list: seq<nat>, i: nat, end: nat): nat
    requires i < |list|
  {
    if i == |list| - 1 then end else list[i + 1]
  }

  /** Following `ptr` from the first of `list` visits it all and then `end`. */
  ghost predicate Chain(ptr: map<nat, nat>, list: seq<nat>, end: nat) {
    && (forall i | 0 <= i < |list| :: list[i] in ptr)
    && (forall i: nat {:trigger Succ(list, i, end)} | i < |list| :: ptr[list[i]] == Succ(list, i, end))
  }

  ghost predicate Increasing(list: seq<nat>) {
    forall i, j | 0 <= i < j < |list| :: list[i] < list[j]
  }

  lemma ChainSplit(ptr: map<nat, nat>, a: seq<nat>, c: seq<nat>, end: nat)
    requires Chain(ptr, a + c, end)
    ensures Chain(ptr, a, Succ([0] + c, 0, end)) && Chain(ptr, c, end)
  {
    var l, mid := a + c, Succ([0] + c, 0, end);
    forall i: nat | i < |c| ensures c[i] in ptr && ptr[c[i]] == Succ(c, i, end) {
      assert l[|a| + i] == c[i] && Succ(l, |a| + i, end) == Succ(c, i, end);
    }
    forall i: nat | i < |a| ensures a[i] in ptr && ptr[a[i]] == Succ(a, i, mid) {
      assert l[i] == a[i] && Succ(l, i, end) == Succ(a, i, mid);
    }
  }

  lemma ChainJoin(ptr: map<nat, nat>, a: seq<nat>, c: seq<nat>, end: nat)
    requires Chain(ptr, a, Succ([0] + c, 0, end)) && Chain(ptr, c, end)
    ensures Chain(ptr, a + c, end)
  {
    var l, mid := a + c, Succ([0] + c, 0, end);
    forall i: nat | i < |l| ensures l[i] in ptr && ptr[l[i]] == Succ(l, i, end) {
      if i < |a| {
        assert l[i] == a[i] && Succ(l, i, end) == Succ(a, i, mid);
      } else {
        assert l[i] == c[i - |a|] && Succ(l, i, end) == Succ(c, i - |a|, end);
      }
    }
  }

  /** Rewriting the last link of a chain. */
  lemma ChainRelink(ptr: map<nat, nat>, a: seq<nat>, end: nat, ptr': map<nat, nat>, end': nat)
    requires Chain(ptr, a, end) && a != [] && Increasing(a)
    requires ptr'.Keys >= ptr.Keys && ptr'[a[|a| - 1]] == end'
    requires forall x | x in a && x != a[|a| - 1] :: ptr'[x] == ptr[x]
    ensures Chain(ptr', a, end')
  {
    forall i: nat | i < |a| ensures ptr'[a[i]] == Succ(a, i, end') {
      if i < |a| - 1 { assert a[i] != a[|a| - 1] && Succ(a, i, end) == Succ(a, i, end'); }
    }
  }

  lemma ChainFrame(ptr: map<nat, nat>, a: seq<nat>, end: nat, ptr': map<nat, nat>)
    requires Chain(ptr, a, end) && ptr'.Keys >= ptr.Keys && forall x | x in a :: ptr'[x] == ptr[x]
    ensures Chain(ptr', a, end)
  {
  }

  lemma ChainOne(ptr: map<nat, nat>, x: nat, end: nat)
    ensures Chain(ptr, [x], end) <==> x in ptr && ptr[x] == end
  {
    assert Succ([x], 0, end) == end;
  }

  ghost predicate AtMost(r: seq<nat>, v: nat) { forall x :: x in r ==> x <= v }
  ghost predicate AtLeast(r: seq<nat>, v: nat) { forall x :: x in r ==> v <= x }

  /** Cutting an increasing sequence in two. */
  lemma Cut(r: seq<nat>, k: nat)
    requires Increasing(r) && k < |r|
    ensures Increasing(r[..k + 1]) && Increasing(r[k + 1..])
    ensures AtMost(r[..k + 1], r[k]) && (k + 1 < |r| ==> AtLeast(r[k + 1..], r[k + 1]) && r[k] < r[k + 1])
    ensures r[..k + 1] + r[k + 1..] == r
  {
  }

  // ---- the ring of free blocks ----------------------------------------------

  /** The header of the empty block the ring starts with.  It lies in the static
      data, below everything the system hands out. */
  const BASE: nat := 1

  /** Circular, through the base, in address order. */
  ghost predicate Ring(ptr: map<nat, nat>, ring: seq<nat>) {
    ring != [] && ring[0] == BASE && Increasing(ring) && Chain(ptr, ring, BASE)
  }

  /** Where `bp` belongs: between the `k`-th free block and the next. */
  ghost predicate Place(ring: seq<nat>, k: nat, bp: nat) {
    k < |ring| && ring[k] < bp && (k + 1 < |ring| ==> bp < ring[k + 1])
  }

  ghost function Insert(ring: seq<nat>, k: nat, bp: nat): seq<nat>
    requires k < |ring|
  {
    ring[..k + 1] + [bp] + ring[k + 1..]
  }

  /** The ring without the block after the `k`-th. */
  ghost function Drop(ring: seq<nat>, k: nat): seq<nat>
    requires k + 1 < |ring|
  {
    ring[..k + 1] + ring[k + 2..]
  }

  lemma InsertMembers(ring: seq<nat>, k: nat, bp: nat)
    requires k < |ring| && Increasing(ring) && Place(ring, k, bp)
    ensures forall x :: x in Insert(ring, k, bp) <==> x == bp || x in ring
    ensures bp !in ring && Increasing(Insert(ring, k, bp))
  {
    forall x | x in ring ensures x in Insert(ring, k, bp) {
      var i :| 0 <= i < |ring| && ring[i] == x;
      assert Insert(ring, k, bp)[if i <= k then i else i + 1] == x;
    }
    assert Insert(ring, k, bp)[k + 1] == bp;
  }

  lemma DropMembers(ring: seq<nat>, k: nat)
    requires k + 1 < |ring| && Increasing(ring)
    ensures forall x :: x in Drop(ring, k) <==> x in ring && x != ring[k + 1]
    ensures Increasing(Drop(ring, k))
  {
    forall x | x in ring && x != ring[k + 1] ensures x in Drop(ring, k) {
      var i :| 0 <= i < |ring| && ring[i] == x;
      assert Drop(ring, k)[if i <= k then i else i - 1] == x;
    }
  }

  lemma InsertRing(ptr: map<nat, nat>, ring: seq<nat>, k: nat, bp: nat)
    requires Ring(ptr, ring) && Place(ring, k, bp)
    ensures Ring(ptr[bp := Succ(ring, k, BASE)][ring[k] := bp], Insert(ring, k, bp))
  {
    hide Increasing, Chain;
    var a, c := ring[..k + 1], ring[k + 1..];
    var ptr' := ptr[bp := Succ(ring, k, BASE)][ring[k] := bp];
    Cut(ring, k);
    InsertMembers(ring, k, bp);
    ChainSplit(ptr, a, c, BASE);
    var mid := Succ([0] + c, 0, BASE);
    ChainRelink(ptr, a, mid, ptr', bp);
    forall x | x in c ensures x in ring && x != ring[k] { assert k + 1 < |ring|; }
    ChainFrame(ptr, c, BASE, ptr');
    ChainOne(ptr', bp, mid);
    ChainJoin(ptr', [bp], c, BASE);
    ChainJoin(ptr', a, [bp] + c, BASE);
    assert a + ([bp] + c) == Insert(ring, k, bp);
  }

  lemma DropRing(ptr: map<nat, nat>, ring: seq<nat>, k: nat)
    requires Ring(ptr, ring) && k + 1 < |ring|
    ensures ring[k + 1] in ptr && Ring(ptr[ring[k] := ptr[ring[k + 1]]], Drop(ring, k))
  {
    hide Increasing, Chain;
    var a, y, c := ring[..k + 1], ring[k + 1], ring[k + 2..];
    Cut(ring, k);
    Cut(ring, k + 1);
    DropMembers(ring, k);
    assert a + ([y] + c) == ring && ring[k + 1..] == [y] + c;
    ChainSplit(ptr, a, [y] + c, BASE);
    ChainSplit(ptr, [y], c, BASE);
    var mid := Succ([0] + c, 0, BASE);
    ChainOne(ptr, y, mid);
    var ptr' := ptr[ring[k] := ptr[y]];
    ChainRelink(ptr, a, y, ptr', mid);
    ChainFrame(ptr, c, BASE, ptr');
    ChainJoin(ptr', a, c, BASE);
  }

  // ---- tiling the arena --------------------------------------------------------

  /** Blocks, given by first unit and size, that are disjoint and together are
      exactly the units of `arena`. */
  ghost predicate Tiled(blocks: map<nat, nat>, arena: set<nat>) {
    Ordered(blocks) && forall u: nat :: u in arena <==> Covered(blocks, u)
  }

  ghost predicate Ordered(blocks: map<nat, nat>) {
    && (forall a | a in blocks :: blocks[a] > 0)
    && (forall a, b | a in blocks && b in blocks && a < b :: a + blocks[a] <= b)
  }

  ghost predicate Holds(blocks: map<nat, nat>, a: nat, u: nat) {
    a in blocks && a <= u < a + blocks[a]
  }

  ghost predicate Covered(blocks: map<nat, nat>, u: nat) {
    exists a: nat :: Holds(blocks, a, u)
  }

  /** A block absorbs the one that starts where it ends. */
  ghost function Join(blocks: map<nat, nat>, x: nat, y: nat): map<nat, nat>
    requires x in blocks && y in blocks
  {
    (blocks - {y})[x := blocks[x] + blocks[y]]
  }

  lemma JoinUnit(blocks: map<nat, nat>, x: nat, u: nat)
    requires x in blocks && x + blocks[x] in blocks && blocks[x] > 0
    ensures Covered(blocks, u) <==> Covered(Join(blocks, x, x + blocks[x]), u)
  {
    var y := x + blocks[x];
    var after := Join(blocks, x, y);
    if Covered(blocks, u) {
      var a: nat :| Holds(blocks, a, u);
      assert Holds(after, if a == y then x else a, u);
    }
    if Covered(after, u) {
      var a: nat :| Holds(after, a, u);
      assert Holds(blocks, if a == x && y <= u then y else a, u);
    }
  }

  lemma JoinTiled(blocks: map<nat, nat>, x: nat, arena: set<nat>)
    requires Tiled(blocks, arena) && x in blocks && x + blocks[x] in blocks
    ensures Tiled(Join(blocks, x, x + blocks[x]), arena)
  {
    hide Covered;
    forall u: nat { JoinUnit(blocks, x, u); }
  }

  /** The tail of a block becomes a block of its own. */
  ghost function Split(blocks: map<nat, nat>, x: nat, n: nat): map<nat, nat>
    requires x in blocks && 0 < n < blocks[x]
  {
    blocks[x := blocks[x] - n][x + blocks[x] - n := n]
  }

  lemma SplitOrdered(blocks: map<nat, nat>, x: nat, n: nat)
    requires Ordered(blocks) && x in blocks && 0 < n < blocks[x]
    ensures x + blocks[x] - n !in blocks && Ordered(Split(blocks, x, n))
  {
    var after, y := Split(blocks, x, n), x + blocks[x] - n;
    forall a, b | a in after && b in after && a < b ensures a + after[a] <= b {
      assert a == y || a in blocks;
      assert b == y || b in blocks;
    }
  }

  lemma SplitTiled(blocks: map<nat, nat>, x: nat, n: nat, arena: set<nat>)
    requires Tiled(blocks, arena) && x in blocks && 0 < n < blocks[x]
    ensures x + blocks[x] - n !in blocks && Tiled(Split(blocks, x, n), arena)
  {
    hide Covered, Ordered;
    SplitOrdered(blocks, x, n);
    var after, y := Split(blocks, x, n), x + blocks[x] - n;
    assert Join(after, x, y) == blocks;
    forall u: nat { JoinUnit(after, x, u); }
  }

  ghost predicate InRange(a: nat, n: nat, u: nat) { a <= u < a + n }

  ghost function Units(a: nat, n: nat): set<nat> { set u: nat | u < a + n && InRange(a, n, u) }

  ghost predicate Below(arena: set<nat>, a: nat) { forall u :: u in arena ==> BASE < u < a }

  lemma ExtendTiled(blocks: map<nat, nat>, a: nat, n: nat, arena: set<nat>)
    requires Tiled(blocks, arena) && Below(arena, a) && n > 0
    ensures a !in blocks && Tiled(blocks[a := n], arena + Units(a, n))
  {
    forall b | b in blocks ensures b + blocks[b] <= a {
      var last := b + blocks[b] - 1;
      assert Holds(blocks, b, last) && last in arena;
    }
    var after := blocks[a := n];
    forall u: nat ensures u in arena + Units(a, n) <==> Covered(after, u) {
      if Covered(blocks, u) {
        var b: nat :| Holds(blocks, b, u);
        assert Holds(after, b, u);
      }
      if Covered(after, u) {
        var b: nat :| Holds(after, b, u);
        assert b != a ==> Holds(blocks, b, u);
      }
      assert InRange(a, n, u) <==> Holds(blocks[a := n], a, u);
    }
  }

  // ---- the invariant -------------------------------------------------------------

  /** The free blocks, other than those of `except`, do not end where a free block starts. */
  ghost predicate Apart(blocks: map<nat, nat>, ring: seq<nat>, except: set<nat>) {
    forall x | x in ring && x != BASE && x !in except && x in blocks :: x + blocks[x] !in ring
  }

  ghost predicate Within(blocks: map<nat, nat>, ring: seq<nat>) {
    && BASE in ring
    && (forall x | x in ring && x != BASE :: x in blocks)
    && (forall a | a in blocks :: BASE < a)
  }

  lemma InsertApart(blocks: map<nat, nat>, ring: seq<nat>, k: nat, bp: nat, arena: set<nat>)
    requires Tiled(blocks, arena) && Within(blocks, ring) && Increasing(ring) && Place(ring, k, bp) && bp in blocks
    requires Apart(blocks, ring, {})
    ensures var ring' := Insert(ring, k, bp);
      && Within(blocks, ring') && Apart(blocks, ring', {ring[k], bp})
      && (bp + blocks[bp] in ring' <==> k + 1 < |ring| && bp + blocks[bp] == ring[k + 1])
  {
    hide Insert;
    InsertMembers(ring, k, bp);
    forall x | x in ring && x != BASE && x != ring[k] ensures x + blocks[x] != bp {
      var i :| 0 <= i < |ring| && ring[i] == x;
      assert i < k ==> BASE < x < ring[k];
      assert ring[k] in ring;
    }
    forall x | x in ring && x == bp + blocks[bp] ensures k + 1 < |ring| && x == ring[k + 1] {
      var i :| 0 <= i < |ring| && ring[i] == x;
      assert i > k;
      assert BASE < bp < ring[k + 1] && ring[k + 1] in ring;
    }
  }

  lemma DropApart(blocks: map<nat, nat>, ring: seq<nat>, k: nat, except: set<nat>, arena: set<nat>)
    requires Tiled(blocks, arena) && Within(blocks, ring) && Increasing(ring) && k + 1 < |ring| && ring[0] == BASE
    requires Apart(blocks, ring, except)
    ensures Within(blocks, Drop(ring, k)) && Apart(blocks, Drop(ring, k), except)
  {
    hide Drop;
    DropMembers(ring, k);
  }

  /** A free block that absorbs the next ends where that one did. */
  lemma JoinApart(blocks: map<nat, nat>, ring: seq<nat>, k: nat, except: set<nat>, arena: set<nat>)
    requires Tiled(blocks, arena) && Within(blocks, ring) && Increasing(ring) && 0 < k && k + 1 < |ring|
    requires ring[0] == BASE
    requires Apart(blocks, ring, except) && ring[k] + blocks[ring[k]] == ring[k + 1]
    requires ring[k + 1] + blocks[ring[k + 1]] !in ring
    ensures var after := Join(blocks, ring[k], ring[k + 1]);
      Within(after, Drop(ring, k)) && Apart(after, Drop(ring, k), except - {ring[k]})
  {
    hide Drop;
    DropMembers(ring, k);
  }

  /** The two words of the headers, the ring of free blocks, all blocks with
      their sizes, those handed out, and the units obtained from the system. */
  datatype Heap = Heap(ptr: map<nat, nat>, size: map<nat, nat>, ring: seq<nat>,
                       blocks: map<nat, nat>, out: map<nat, nat>, arena: set<nat>)

  ghost predicate Headed(size: map<nat, nat>, blocks: map<nat, nat>) {
    BASE in size && size[BASE] == 0 && forall a | a in blocks :: a in size && size[a] == blocks[a]
  }

  ghost predicate OutIs(h: Heap) {
    forall a :: a in h.out <==> a in h.blocks && a !in h.ring
  }

  ghost predicate Almost(h: Heap, except: set<nat>) {
    && Ring(h.ptr, h.ring) && Within(h.blocks, h.ring) && Headed(h.size, h.blocks)
    && Tiled(h.blocks, h.arena) && Apart(h.blocks, h.ring, except)
    && OutIs(h) && forall a | a in h.out :: h.out[a] == h.blocks[a]
  }

  /** The allocator's invariant: the ring is circular and address ordered, free
      blocks and outstanding blocks are disjoint and make up the arena, and no
      two free blocks are adjacent. */
  ghost predicate Sound(h: Heap) { Almost(h, {}) }

  // ---- freeing ---------------------------------------------------------------------

  ghost function Inserted(h: Heap, k: nat, bp: nat): Heap
    requires k < |h.ring|
  {
    h.(ptr := h.ptr[bp := Succ(h.ring, k, BASE)][h.ring[k] := bp], ring := Insert(h.ring, k, bp), out := h.out - {bp})
  }

  lemma InsertStep(h: Heap, k: nat, bp: nat)
    requires Sound(h) && bp in h.out && Place(h.ring, k, bp)
    ensures var t := Inserted(h, k, bp);
      && Almost(t, {h.ring[k], bp}) && |t.ring| == |h.ring| + 1 && t.ring[k] == h.ring[k] && t.ring[k + 1] == bp
      && (bp + h.blocks[bp] in t.ring <==> bp + h.blocks[bp] == Succ(h.ring, k, BASE))
  {
    hide Ring, Apart, Tiled, Within, Insert;
    InsertRing(h.ptr, h.ring, k, bp);
    assert Increasing(h.ring) && bp > BASE by { RingOrder(h); }
    InsertApart(h.blocks, h.ring, k, bp, h.arena);
    InsertMembers(h.ring, k, bp);
    InsertAt(h.ring, k, bp);
  }

  lemma RingOrder(h: Heap)
    requires Ring(h.ptr, h.ring) && Within(h.blocks, h.ring)
    ensures Increasing(h.ring) && h.ring[0] == BASE && forall a | a in h.blocks :: a > BASE
  {
  }

  lemma InsertAt(ring: seq<nat>, k: nat, bp: nat)
    requires k < |ring|
    ensures var r := Insert(ring, k, bp); |r| == |ring| + 1 && r[k] == ring[k] && r[k + 1] == bp
    ensures k + 1 < |ring| ==> Insert(ring, k, bp)[k + 2] == ring[k + 1]
  {
  }

  ghost predicate Touches(h: Heap, j: nat) {
    0 < j && j + 1 < |h.ring| && h.ring[j] in h.blocks && h.ring[j] + h.blocks[h.ring[j]] == h.ring[j + 1]
  }

  /** The `j`-th free block absorbs the next. */
  ghost function Merged(h: Heap, j: nat): Heap
    requires j + 1 < |h.ring| && h.ring[j] in h.blocks && h.ring[j + 1] in h.blocks && h.ring[j + 1] in h.ptr
  {
    var x, y := h.ring[j], h.ring[j + 1];
    h.(ptr := h.ptr[x := h.ptr[y]], size := h.size[x := h.blocks[x] + h.blocks[y]],
       ring := Drop(h.ring, j), blocks := Join(h.blocks, x, y))
  }

  lemma MergeStep(h: Heap, j: nat, except: set<nat>)
    requires Almost(h, except) && Touches(h, j)
    requires h.ring[j + 1] in h.blocks ==> h.ring[j + 1] + h.blocks[h.ring[j + 1]] !in h.ring
    ensures h.ring[j + 1] in h.blocks && h.ring[j + 1] in h.ptr
    ensures var t := Merged(h, j);
      && Almost(t, except - {h.ring[j]}) && |t.ring| == |h.ring| - 1
      && (forall i | 0 <= i <= j :: t.ring[i] == h.ring[i])
  {
    hide Ring, Apart, Tiled, Within, Drop;
    MergeParts(h, j);
    DropRing(h.ptr, h.ring, j);
    JoinApart(h.blocks, h.ring, j, except, h.arena);
    JoinTiled(h.blocks, h.ring[j], h.arena);
    DropMembers(h.ring, j);
    DropAt(h.ring, j);
  }

  lemma MergeParts(h: Heap, j: nat)
    requires Ring(h.ptr, h.ring) && Within(h.blocks, h.ring) && j + 1 < |h.ring|
    ensures Increasing(h.ring) && h.ring[0] == BASE && h.ring[j] in h.ring
    ensures h.ring[j + 1] in h.blocks && h.ring[j + 1] in h.ring && BASE !in h.blocks
  {
    assert h.ring[0] < h.ring[j + 1];
  }

  lemma DropAt(ring: seq<nat>, k: nat)
    requires k + 1 < |ring|
    ensures |Drop(ring, k)| == |ring| - 1 && forall i | 0 <= i <= k :: Drop(ring, k)[i] == ring[i]
  {
  }

  /** If a free block ends where some free block starts, it is the next one. */
  lemma OnlyNext(h: Heap, j: nat, except: set<nat>)
    requires Almost(h, except) && 0 < j < |h.ring| && h.ring[j] in h.blocks
    requires h.ring[j] + h.blocks[h.ring[j]] in h.ring
    ensures Touches(h, j)
  {
    hide Apart, Chain;
    var end := h.ring[j] + h.blocks[h.ring[j]];
    var i :| 0 <= i < |h.ring| && h.ring[i] == end;
    assert h.ring[0] < h.ring[j] < h.ring[i];
    assert j + 1 <= i && h.ring[j + 1] in h.ring && BASE < h.ring[j] < h.ring[j + 1];
  }

  lemma Settle(h: Heap, x: nat)
    requires Almost(h, {x})
    requires x == BASE || x !in h.ring || (x in h.blocks && x + h.blocks[x] !in h.ring)
    ensures Sound(h)
  {
  }

  /** Some free block has at least `n` units. */
  ghost predicate Fits(h: Heap, n: nat) {
    exists x: nat :: x in h.ring && x in h.size && h.size[x] >= n
  }

  /** The headers after `bp` is merged with the next block, or linked before it. */
  ghost function AfterUp(h: Heap, p: nat, bp: nat): (map<nat, nat>, map<nat, nat>)
    requires p in h.ptr && bp in h.size
  {
    var next := h.ptr[p];
    if bp + h.size[bp] == next && next in h.size && next in h.ptr
    then (h.ptr[bp := h.ptr[next]], h.size[bp := h.size[bp] + h.size[next]])
    else (h.ptr[bp := next], h.size)
  }

  lemma NextFacts(h: Heap, k: nat, bp: nat)
    requires Sound(h) && bp in h.out && Place(h.ring, k, bp)
    ensures h.ring[k] in h.ptr && bp in h.size && h.ptr[h.ring[k]] == Succ(h.ring, k, BASE)
    ensures bp in h.blocks && h.size[bp] == h.blocks[bp] == h.out[bp] > 0 && h.ring[k] in h.size && bp != h.ring[k]
    ensures var next := h.ptr[h.ring[k]]; bp < next ==> next in h.ptr && next in h.size && next in h.blocks
    ensures var next := h.ptr[h.ring[k]]; bp < next ==> h.size[next] == h.blocks[next] && h.ring[k] < next
    ensures k + 1 < |h.ring| <==> bp < h.ptr[h.ring[k]]
  {
    assert Succ(h.ring, k, BASE) == h.ptr[h.ring[k]];
    assert k > 0 ==> h.ring[0] < h.ring[k];
    if k + 1 < |h.ring| { assert h.ring[k + 1] in h.ring; }
  }

  /** Merging upwards, if `bp` touches the next free block. */
  lemma UpStep(h: Heap, k: nat, bp: nat) returns (t: Heap)
    requires Sound(h) && bp in h.out && Place(h.ring, k, bp)
    ensures h.ring[k] in h.ptr && bp in h.size
    ensures Almost(t, {h.ring[k]}) && k + 1 < |t.ring| && t.ring[k] == h.ring[k] && t.ring[k + 1] == bp
    ensures (t.ptr, t.size) == (AfterUp(h, h.ring[k], bp).0[h.ring[k] := bp], AfterUp(h, h.ring[k], bp).1)
    ensures t.out == h.out - {bp} && t.arena == h.arena && bp in t.blocks && t.blocks[bp] >= h.out[bp]
  {
    hide Sound, Almost, Insert;
    NextFacts(h, k, bp);
    InsertStep(h, k, bp);
    InsertAt(h.ring, k, bp);
    t := Inserted(h, k, bp);
    if bp + h.blocks[bp] in t.ring {
      OnlyNext(t, k + 1, {h.ring[k], bp});
      Ends(t, t.ring[k + 2], {h.ring[k], bp});
      MergeStep(t, k + 1, {h.ring[k], bp});
      var next := h.ptr[h.ring[k]];
      assert next == t.ring[k + 2] && t.ptr[next] == h.ptr[next];
      assert t.ptr[bp := h.ptr[next]] == h.ptr[bp := h.ptr[next]][h.ring[k] := bp];
      t := Merged(t, k + 1);
      Narrow(t, {h.ring[k], bp} - {bp}, {h.ring[k]});
    } else {
      SettleOne(t, h.ring[k], bp);
    }
  }

  lemma Ends(h: Heap, x: nat, except: set<nat>)
    requires Almost(h, except) && x in h.ring && x > BASE && x !in except
    ensures x in h.blocks && x + h.blocks[x] !in h.ring
  {
    hide Ring, Tiled;
  }

  lemma Narrow(h: Heap, except: set<nat>, except': set<nat>)
    requires Almost(h, except) && except <= except'
    ensures Almost(h, except')
  {
    hide Ring, Within, Tiled;
  }

  lemma SettleOne(h: Heap, p: nat, x: nat)
    requires Almost(h, {p, x}) && x in h.blocks && x + h.blocks[x] !in h.ring
    ensures Almost(h, {p})
  {
    hide Ring, Within, Tiled;
  }

  /** Merging downwards, if the block before touches `bp`. */
  lemma DownStep(h: Heap, k: nat) returns (t: Heap)
    requires k + 1 < |h.ring| && Almost(h, {h.ring[k]}) && h.ring[k + 1] in h.blocks
    ensures var p, bp := h.ring[k], h.ring[k + 1];
      && p in h.size && bp in h.size && bp in h.ptr && p in t.ring && t.out == h.out && t.arena == h.arena
      && Sound(t) && Fits(t, h.blocks[bp])
      && t.ptr == (if p + h.size[p] == bp then h.ptr[p := h.ptr[bp]] else h.ptr)
      && t.size == (if p + h.size[p] == bp then h.size[p := h.size[p] + h.size[bp]] else h.size)
  {
    hide Sound, Almost;
    var p, bp := h.ring[k], h.ring[k + 1];
    PairFacts(h, k, {p});
    t := h;
    if p + h.size[p] == bp {
      Ends(h, bp, {p});
      MergeStep(h, k, {p});
      t := Merged(h, k);
      assert t.ring[k] == p && t.size[p] >= h.blocks[bp];
      Narrow(t, {p} - {p}, {});
      assert Sound(t) by { SoundIs(t); }
    } else {
      if p in h.blocks && p + h.blocks[p] in h.ring { OnlyNext(h, k, {p}); }
      Settle(h, p);
      assert t.ring[k + 1] == bp && t.size[bp] >= h.blocks[bp];
    }
  }

  lemma SoundIs(h: Heap)
    ensures Sound(h) <==> Almost(h, {})
  {
  }

  lemma PairFacts(h: Heap, k: nat, except: set<nat>)
    requires k + 1 < |h.ring| && Almost(h, except)
    ensures var p, bp := h.ring[k], h.ring[k + 1];
      && p in h.size && bp in h.size && bp in h.ptr && p < bp && bp in h.blocks && h.size[bp] == h.blocks[bp]
      && p in h.ring && bp in h.ring && bp > BASE
      && (k > 0 ==> p in h.blocks && h.size[p] == h.blocks[p])
      && (k == 0 ==> p == BASE && h.size[p] == 0 && p !in h.blocks) && BASE <= p
  {
    hide Apart, Tiled;
    assert k > 0 ==> h.ring[0] < h.ring[k];
    assert h.ring[0] < h.ring[k + 1];
  }

  // ---- growing and taking ------------------------------------------------------------

  ghost function Grown(h: Heap, at: nat, n: nat): Heap {
    h.(size := h.size[at := n], blocks := h.blocks[at := n], out := h.out[at := n], arena := h.arena + Units(at, n))
  }

  /** Units obtained from the system join as a block handed out. */
  lemma GrowStep(h: Heap, at: nat, n: nat)
    requires Sound(h) && BASE < at && Below(h.arena, at) && n > 0
    ensures Sound(Grown(h, at, n)) && at !in h.out
  {
    hide Ring, Tiled, Units;
    ExtendTiled(h.blocks, at, n, h.arena);
  }

  /** The free block after the `k`-th, handed out whole. */
  ghost function TakenWhole(h: Heap, k: nat): Heap
    requires k + 1 < |h.ring| && h.ring[k + 1] in h.ptr && h.ring[k + 1] in h.blocks
  {
    var p := h.ring[k + 1];
    h.(ptr := h.ptr[h.ring[k] := h.ptr[p]], ring := Drop(h.ring, k), out := h.out[p := h.blocks[p]])
  }

  lemma WholeStep(h: Heap, k: nat)
    requires Sound(h) && k + 1 < |h.ring|
    ensures h.ring[k + 1] in h.ptr && h.ring[k + 1] in h.blocks && h.ring[k + 1] !in h.out
    ensures Sound(TakenWhole(h, k)) && h.ring[k] in TakenWhole(h, k).ring
  {
    hide Ring, Tiled, Within, Apart, Drop;
    MergeParts(h, k);
    DropRing(h.ptr, h.ring, k);
    DropApart(h.blocks, h.ring, k, {}, h.arena);
    DropMembers(h.ring, k);
    PairFacts(h, k, {});
  }

  /** The last `n` units of the free block `p`, handed out. */
  ghost function TakenTail(h: Heap, p: nat, n: nat): Heap
    requires p in h.blocks && 0 < n < h.blocks[p]
  {
    var rest := h.blocks[p] - n;
    h.(size := h.size[p := rest][p + rest := n], blocks := Split(h.blocks, p, n), out := h.out[p + rest := n])
  }

  lemma TailStep(h: Heap, p: nat, n: nat)
    requires Sound(h) && p in h.ring && p in h.blocks && 0 < n < h.blocks[p]
    ensures p + h.blocks[p] - n !in h.out && Sound(TakenTail(h, p, n))
  {
    hide Ring, Tiled;
    SplitTiled(h.blocks, p, n, h.arena);
  }

  // ---- walking the ring --------------------------------------------------------------

  lemma {:induction false} FindPlace(ring: seq<nat>, bp: nat, n: nat) returns (k: nat)
    requires 0 < n <= |ring| && Increasing(ring) && ring[0] < bp && bp !in ring
    requires n < |ring| ==> bp < ring[n]
    ensures Place(ring, k, bp)
  {
    if ring[n - 1] < bp { k := n - 1; } else { k := FindPlace(ring, bp, n - 1); }
  }

  /** One link of the ring. */
  lemma Link(h: Heap, i: nat)
    requires Sound(h) && i < |h.ring|
    ensures h.ring[i] in h.ptr && h.ring[i] in h.size && h.ptr[h.ring[i]] == Succ(h.ring, i, BASE)
    ensures h.ring[0] == BASE && Increasing(h.ring)
  {
    hide Apart, Tiled;
    assert Succ(h.ring, i, BASE) == h.ptr[h.ring[i]];
    assert h.ring[i] in h.ring;
  }

  lemma OutsideRing(h: Heap, bp: nat)
    requires Sound(h) && bp in h.out
    ensures BASE < bp && bp !in h.ring && h.ring != [] && h.ring[0] == BASE && Increasing(h.ring)
  {
    hide Apart, Tiled, Chain;
  }

  /** The search stops at exactly the place of `bp`, wherever it started. */
  lemma StopsAtPlace(ring: seq<nat>, i: nat, k: nat, bp: nat)
    requires i < |ring| && Increasing(ring) && ring[0] == BASE && BASE < bp && Place(ring, k, bp)
    ensures var p, next := ring[i], Succ(ring, i, BASE);
      i == k <==> (p < bp < next) || (next <= p && (p < bp || bp < next))
  {
    assert i < k ==> ring[i] < ring[k] && ring[i + 1] <= ring[k];
    assert k < i ==> ring[k + 1] <= ring[i];
    assert i + 1 < |ring| ==> ring[i] < ring[i + 1];
  }

  /** The place of a block is after the last free block below it. */
  lemma Neighbours(ring: seq<nat>, k: nat, bp: nat)
    requires Increasing(ring) && Place(ring, k, bp)
    ensures ring[k] < bp && forall x | x in ring :: x <= ring[k] || bp < x
  {
  }

  /** The ring as a walk that starts after the `f`-th block and ends at it. */
  ghost function Walk(ring: seq<nat>, f: nat): seq<nat>
    requires f < |ring|
  {
    ring[f + 1..] + ring[..f + 1]
  }

  lemma WalkFollows(h: Heap, f: nat, c: nat)
    requires Sound(h) && f < |h.ring| && c < |h.ring|
    ensures var w := Walk(h.ring, f);
      && |w| == |h.ring| && w[|w| - 1] == h.ring[f] && w[c] in h.ptr && w[c] in h.size && w[c] in h.ring
      && h.ptr[w[c]] == Succ(w, c, w[0])
      && (w[c] == h.ring[f] <==> c == |w| - 1)
  {
    hide Sound;
    var n := |h.ring|;
    var i := if c < n - f - 1 then f + 1 + c else c - (n - f - 1);
    assert Walk(h.ring, f)[c] == h.ring[i];
    Link(h, i);
  }

  // ---- requests ------------------------------------------------------------------------

  const WORD: nat := 0x1_0000_0000
  const UNIT: nat := 8

  /** The units asked for: the payload rounded up and one for the header, in
      32-bit arithmetic. */
  function Request(nbytes: nat): (n: nat)
    requires nbytes < WORD
    ensures n > 0
    ensures nbytes <= (n - 1) * UNIT < nbytes + UNIT <==> nbytes + UNIT <= WORD
  {
    (nbytes + UNIT - 1) % WORD / UNIT + 1
  }

  /** What a call of sbrk for `Amount(n)` units answers. */
  datatype Core = Refused | Granted(at: nat)

  /** The units asked of the system: at least 4096, and no more than needed above that. */
  function Amount(n: nat): (r: nat)
    ensures n <= r && 4096 <= r && (r == n || (r == 4096 && n < 4096))
  {
    if n < 4096 then 4096 else n
  }

  /** The byte count is a positive int. */
  predicate Countable(n: nat) { Amount(n) * UNIT < WORD / 2 }

  datatype Outcome = Null | Block(header: nat) | Overflow

  /** A whole walk without a fit. */
  lemma NoneFits(h: Heap, f: nat, n: nat)
    requires Sound(h) && f < |h.ring|
    requires forall d | 0 <= d < |h.ring| :: Walk(h.ring, f)[d] in h.size && h.size[Walk(h.ring, f)[d]] < n
    ensures !Fits(h, n)
  {
    hide Sound;
    forall x | x in h.ring && x in h.size ensures h.size[x] < n {
      var i :| 0 <= i < |h.ring| && h.ring[i] == x;
      assert Walk(h.ring, f)[if i > f then i - f - 1 else i + |h.ring| - f - 1] == x;
    }
  }

  /** The search of malloc: it started after the `f`-th block, `c` blocks were too
      small, and it now looks at `p`, the successor of `prevp`. */
  ghost predicate Looking(h: Heap, f: nat, c: nat, prevp: nat, p: nat, n: nat) {
    && f < |h.ring| && c < |h.ring| && p == Walk(h.ring, f)[c] && p in h.size && p in h.ring
    && prevp in h.ring && prevp in h.ptr && h.ptr[prevp] == p
    && forall d | 0 <= d < c :: Walk(h.ring, f)[d] in h.size && h.size[Walk(h.ring, f)[d]] < n
  }

  /** The units come from the end of the first block that is large enough, looking from the
      one after `freep` on, and the next search starts where this one ended. */
  ghost predicate FirstFit(h: Heap, freep: nat, n: nat, header: nat, freep': nat) {
    exists f: nat, c: nat, p: nat :: f < |h.ring| && h.ring[f] == freep && FitsAt(h, f, c, freep', p, n, header)
  }

  ghost predicate FitsAt(h: Heap, f: nat, c: nat, prevp: nat, p: nat, n: nat, header: nat) {
    Looking(h, f, c, prevp, p, n) && h.size[p] >= n && header == p + h.size[p] - n
  }

  lemma IsLooking(h: Heap, f: nat, c: nat, prevp: nat, p: nat, n: nat)
    requires Looking(h, f, c, prevp, p, n)
    ensures p in h.size && p in h.ring
  {
  }

  lemma LookFirst(h: Heap, freep: nat, n: nat) returns (f: nat)
    requires Sound(h) && freep in h.ring
    ensures f < |h.ring| && h.ring[f] == freep && freep in h.ptr
    ensures Looking(h, f, 0, freep, h.ptr[freep], n)
  {
    hide Sound;
    f :| f < |h.ring| && h.ring[f] == freep;
    WalkFollows(h, f, |h.ring| - 1);
    WalkFollows(h, f, 0);
  }

  lemma LookNext(h: Heap, f: nat, c: nat, prevp: nat, p: nat, n: nat)
    requires Sound(h) && Looking(h, f, c, prevp, p, n) && h.size[p] < n
    ensures p == h.ring[f] ==> !Fits(h, n)
    ensures p != h.ring[f] ==> c + 1 < |h.ring| && p in h.ptr && Looking(h, f, c + 1, p, h.ptr[p], n)
  {
    hide Sound, Fits;
    WalkFollows(h, f, c);
    if p == h.ring[f] {
      NoneFits(h, f, n);
    } else {
      WalkFollows(h, f, c + 1);
    }
  }

  lemma LookHere(h: Heap, f: nat, c: nat, prevp: nat, p: nat, n: nat) returns (i: nat)
    requires Sound(h) && Looking(h, f, c, prevp, p, n)
    ensures i < |h.ring| && h.ring[i] == prevp && Succ(h.ring, i, BASE) == p && p in h.size
    ensures h.size[p] >= n ==> Fits(h, n)
  {
    hide Sound, Walk;
    i :| i < |h.ring| && h.ring[i] == prevp;
    Link(h, i);
  }

  /** The first call's ring is the base alone. */
  lemma Start(h: Heap)
    requires h.ring == [BASE] && BASE in h.ptr && h.ptr[BASE] == BASE && BASE in h.size && h.size[BASE] == 0
    requires h.blocks == map[] && h.out == map[] && h.arena == {}
    ensures Sound(h)
  {
    ChainOne(h.ptr, BASE, BASE);
    forall u: nat ensures !Covered(h.blocks, u) { }
  }

  lemma StartFits(h: Heap, n: nat)
    requires h.ring == [BASE] && BASE in h.size && h.size[BASE] == 0 && n > 0
    ensures !Fits(h, n)
  {
  }

  /** A link of the ring leads to a free block with its true size, or to the base. */
  lemma FreeSize(h: Heap, i: nat)
    requires Sound(h) && i < |h.ring|
    ensures var p := Succ(h.ring, i, BASE);
      && p in h.size && (p == BASE ==> h.size[p] == 0) && p in h.ring
      && (i + 1 < |h.ring| ==> p != BASE && p in h.blocks && h.blocks[p] == h.size[p])
  {
    hide Apart, Tiled;
    if i + 1 < |h.ring| { assert h.ring[0] < h.ring[i + 1] && h.ring[i + 1] in h.ring; }
  }

  // ---- the allocator -----------------------------------------------------------------

  class Allocator {
    var ptr: map<nat, nat>
    var size: map<nat, nat>
    /** Where the last search ended; 0 before the first call. */
    var freep: nat
    ghost var ring: seq<nat>
    ghost var blocks: map<nat, nat>
    /** The blocks handed out, by header, with their sizes in units. */
    ghost var out: map<nat, nat>
    /** The units obtained from the system. */
    ghost var arena: set<nat>

    ghost function H(): Heap
      reads this
    {
      Heap(ptr, size, ring, blocks, out, arena)
    }

    ghost predicate Valid()
      reads this
    {
      if freep == 0 then blocks == map[] && out == map[] && arena == {}
      else freep in ring && Sound(H())
    }

    ghost method Adopt(h: Heap)
      requires h.ptr == ptr && h.size == size
      modifies this`ring, this`blocks, this`out, this`arena
      ensures H() == h
    {
      ring, blocks, out, arena := h.ring, h.blocks, h.out, h.arena;
    }

    /** The search of free: from any starting point it reaches the free block
        after which `bp` belongs. */
    method Search(bp: nat) returns (p: nat, ghost k: nat)
      requires Valid() && freep != 0 && bp in out
      ensures Place(ring, k, bp) && p == ring[k]
      ensures p in ring && p < bp && forall x | x in ring :: x <= p || bp < x
    {
      hide Sound, Place, Increasing;
      OutsideRing(H(), bp);
      ghost var n: nat := |ring|;
      k := FindPlace(ring, bp, n);
      ghost var i: nat :| i < n && ring[i] == freep;
      p := freep;
      Link(H(), i);
      StopsAtPlace(ring, i, k, bp);
      while !(p < bp && bp < ptr[p])
        invariant i < n && p == ring[i] && p in ptr && ptr[p] == Succ(ring, i, BASE)
        invariant i == k <==> (p < bp < ptr[p]) || (ptr[p] <= p && (p < bp || bp < ptr[p]))
        decreases if i <= k then k - i else k - i + n
      {
        if ptr[p] <= p && (p < bp || bp < ptr[p]) { break; }
        p := ptr[p];
        i := if i + 1 == n then 0 else i + 1;
        Link(H(), i);
        StopsAtPlace(ring, i, k, bp);
      }
      Neighbours(ring, k, bp);
    }

    /** The user returns the block whose header is `bp`. */
    method Free(bp: nat)
      requires Valid() && bp in out
      modifies this
      ensures Valid() && freep != 0
      ensures out == old(out) - {bp} && arena == old(arena)
      ensures Fits(H(), old(out)[bp])
      ensures freep in old(ring) && freep < bp && forall x | x in old(ring) :: x <= freep || bp < x
    {
      hide Sound, Place, Almost;
      ghost var h := H();
      var p, k := Search(bp);
      ghost var t := UpStep(h, k, bp);
      NextFacts(h, k, bp);
      PairFacts(t, k, {p});
      ghost var t' := DownStep(t, k);
      var next := ptr[p];
      if bp + size[bp] == next {
        size := size[bp := size[bp] + size[next]];
        ptr := ptr[bp := ptr[next]];
      } else {
        ptr := ptr[bp := next];
      }
      assert (ptr, size) == AfterUp(h, p, bp);
      if p + size[p] == bp {
        size := size[p := size[p] + size[bp]];
        ptr := ptr[p := ptr[bp]];
      } else {
        ptr := ptr[p := bp];
      }
      assert ptr == t'.ptr;
      assert size == t'.size;
      freep := p;
      Adopt(t');
    }

    ghost predicate FreeFits(n: nat)
      reads this
    {
      freep != 0 && Fits(H(), n)
    }

    /** More units from the system, put on the ring by free. */
    method Morecore(n: nat, core: Core) returns (ok: bool)
      requires Valid() && freep != 0 && n > 0
      requires core.Granted? ==> BASE < core.at && Below(arena, core.at)
      modifies this
      ensures Valid() && freep != 0 && out == old(out) && ok == core.Granted?
      ensures !ok ==> H() == old(H()) && freep == old(freep)
      ensures ok ==> arena == old(arena) + Units(core.at, Amount(n)) && Fits(H(), n)
    {
      hide Sound, Units;
      if core.Refused? { return false; }
      var nu := Amount(n);
      GrowStep(H(), core.at, nu);
      ghost var t := Grown(H(), core.at, nu);
      size := size[core.at := nu];
      Adopt(t);
      Free(core.at);
      assert out == old(out);
      return true;
    }

    /** Takes `n` units from `p`, the free block after `prevp`. */
    method Take(prevp: nat, p: nat, n: nat, ghost i: nat) returns (header: nat)
      requires Valid() && freep != 0 && n > 0
      requires i < |ring| && ring[i] == prevp && Succ(ring, i, BASE) == p && p in size && size[p] >= n
      modifies this
      ensures Valid() && freep == prevp != 0 && arena == old(arena)
      ensures header !in old(out) && out == old(out)[header := n]
      ensures header == p + old(size)[p] - n
    {
      hide Sound;
      Link(H(), 0);
      Link(H(), i);
      FreeSize(H(), i);
      assert i > 0 ==> ring[0] < ring[i];
      if size[p] == n {
        WholeStep(H(), i);
        ghost var t := TakenWhole(H(), i);
        ptr := ptr[prevp := ptr[p]];
        header := p;
        Adopt(t);
      } else {
        TailStep(H(), p, n);
        ghost var t := TakenTail(H(), p, n);
        size := size[p := size[p] - n];
        header := p + size[p];
        size := size[header := n];
        Adopt(t);
      }
      freep := prevp;
    }

    /** The first call makes the ring of the base alone. */
    method First()
      requires Valid() && freep == 0
      modifies this
      ensures Valid() && freep == BASE && ring == [BASE] && BASE in size && size[BASE] == 0
      ensures out == old(out) && arena == old(arena)
    {
      ptr := ptr[BASE := BASE];
      freep := BASE;
      size := size[BASE := 0];
      ring := [BASE];
      Start(H());
    }

    /** The block handed out has exactly the units asked for and overlaps no
        other; a null pointer means no free block fits and the system refused. */
    method Malloc(nbytes: nat, core: Core) returns (r: Outcome)
      requires Valid() && nbytes < WORD
      requires core.Granted? ==> BASE < core.at && Below(arena, core.at)
      modifies this
      ensures Valid() && freep != 0
      ensures var n := Request(nbytes);
        match r
        case Block(header) => header !in old(out) && out == old(out)[header := n]
        case _ => out == old(out)
      ensures var n := Request(nbytes);
        && (r.Block? <==> old(FreeFits(n)) || (Countable(n) && core.Granted?))
        && (r.Overflow? <==> !old(FreeFits(n)) && !Countable(n))
      ensures arena == if r.Block? && !old(FreeFits(Request(nbytes)))
                       then old(arena) + Units(core.at, Amount(Request(nbytes))) else old(arena)
      ensures r.Block? && old(FreeFits(Request(nbytes))) ==>
        FirstFit(old(H()), old(freep), Request(nbytes), r.header, freep)
    {
      hide Sound, Units, Fits, Request, Looking, Countable, Amount, Below;
      var n := Request(nbytes);
      ghost var fits := FreeFits(n);
      if freep == 0 {
        First();
        StartFits(H(), n);
      }
      ghost var f: nat := LookFirst(H(), freep, n);
      var prevp := freep;
      var p := ptr[prevp];
      ghost var c: nat, grown := 0, false;
      ghost var h := H();
      IsLooking(h, f, c, prevp, p, n);
      while true
        invariant H() == h && Valid() && freep != 0 && f < |ring| && ring[f] == freep && c < |ring|
        invariant Looking(h, f, c, prevp, p, n) && p in size && p in ring && out == old(out)
        invariant !grown ==> fits == Fits(h, n) && arena == old(arena)
        invariant !grown && fits ==> h == old(H()) && freep == old(freep)
        invariant grown ==> Fits(h, n) && !fits && core.Granted? && Countable(n)
        invariant grown ==> arena == old(arena) + Units(core.at, Amount(n))
        decreases !grown, |ring| - c
      {
        ghost var i := LookHere(h, f, c, prevp, p, n);
        if size[p] >= n {
          var header := Take(prevp, p, n, i);
          assert FitsAt(h, f, c, prevp, p, n, header);
          return Block(header);
        }
        LookNext(h, f, c, prevp, p, n);
        if p == freep {
          if !Countable(n) { return Overflow; }
          var ok := Morecore(n, core);
          if !ok { return Null; }
          grown, h, c := true, H(), 0;
          f := LookFirst(h, freep, n);
          p := freep;
        } else {
          c := c + 1;
        }
        prevp := p;
        p := ptr[p];
        IsLooking(h, f, c, prevp, p, n);
      }
    }
  }
}
