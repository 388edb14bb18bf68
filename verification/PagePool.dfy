/** Where pages and page tables come from.

    Pages are maximal blocks of the buddy heap.  Page tables are blocks of 1 KB, from
    the list set up at boot as long as there are any, and then from the same heap. */
module PagePool {
  import opened Collections
  import opened Bits
  import opened BuddyTiling
  import opened H = Buddy

  /** Page-table blocks below this address came from the boot-time list. */
  const INIT_KERNMAP: nat := 0x10_0000
  const PT_ORDER: int := 10
  const PTE_SHIFT: int := 12

  datatype Maybe = None | Some(v: nat)

  // ---- counting free blocks ----------------------------------------------

  ghost function OfOrder(f: set<Block>, o: int): set<Block> { set k | k in f && k.ord == o }

  /** The free pages. */
  ghost function Large(f: set<Block>): nat { |OfOrder(f, PTE_SHIFT)| }

  /** The page tables there is room for besides the free pages. */
  ghost function Small(f: set<Block>): nat { |OfOrder(f, PT_ORDER)| + 2 * |OfOrder(f, PT_ORDER + 1)| }

  lemma OfOrderMinus(f: set<Block>, k: Block, o: int)
    requires k in f
    ensures |OfOrder(f - {k}, o)| == |OfOrder(f, o)| - if k.ord == o then 1 else 0
  {
    assert OfOrder(f - {k}, o) == if k.ord == o then OfOrder(f, o) - {k} else OfOrder(f, o);
  }

  lemma OfOrderPlus(f: set<Block>, k: Block, o: int)
    requires k !in f
    ensures |OfOrder(f + {k}, o)| == |OfOrder(f, o)| + if k.ord == o then 1 else 0
  {
    assert OfOrder(f + {k}, o) == if k.ord == o then OfOrder(f, o) + {k} else OfOrder(f, o);
  }

  lemma NoneOfOrder(f: set<Block>, o: int)
    ensures |OfOrder(f, o)| == 0 <==> forall k | k in f :: k.ord != o
  {
    if k :| k in f && k.ord == o { assert k in OfOrder(f, o); }
    if |OfOrder(f, o)| != 0 { var k :| k in OfOrder(f, o); }
  }

  /** A page table takes one place; if there is no other room, it costs a page, of which
      three more places are left. */
  lemma TableTaken(f: set<Block>, b: int, j: int)
    requires BestFit(f, PT_ORDER, b, j)
    ensures var f' := Taken(f, PT_ORDER, b, j);
      if Small(f) > 0 then Small(f') == Small(f) - 1 && Large(f') == Large(f)
      else Large(f') == Large(f) - 1 && Small(f') == 3
  {
    hide OfOrder, Anc;
    NoneOfOrder(f, PT_ORDER);
    NoneOfOrder(f, PT_ORDER + 1);
    var top := Block(j, Anc(PT_ORDER, b, j));
    Ancestors(b);
    var f1 := f - {top};
    forall o { OfOrderMinus(f, top, o); }
    var b10, b11 := Block(10, Buddy(b)), Block(11, Buddy(b / 2));
    if j == 10 {
      assert Taken(f, 10, b, j) == f1;
    } else if j == 11 {
      assert Taken(f, 10, b, j) == f1 + {b10};
      forall o { OfOrderPlus(f1, b10, o); }
    } else {
      assert Taken(f, 11, b / 2, j) == f1 + {b11};
      assert Taken(f, 10, b, j) == f1 + {b11} + {b10};
      forall o { OfOrderPlus(f1, b11, o); }
      forall o { OfOrderPlus(f1 + {b11}, b10, o); }
    }
  }

  lemma Ancestors(b: int)
    ensures Anc(10, b, 10) == b && Anc(10, b, 11) == b / 2 && Anc(10, b, 12) == b / 2 / 2
  {
  }

  lemma PageTaken(f: set<Block>, b: int, j: int)
    requires BestFit(f, PTE_SHIFT, b, j)
    ensures Large(Taken(f, PTE_SHIFT, b, j)) == Large(f) - 1 && Small(Taken(f, PTE_SHIFT, b, j)) == Small(f)
  {
    hide OfOrder;
    var k := Block(12, b);
    assert j == 12 && Taken(f, 12, b, j) == f - {k};
    forall o { OfOrderMinus(f, k, o); }
  }

  // ---- what a request costs ----------------------------------------------

  /** The pages it takes to make `tables` page tables, with room for `small` of them in
      other free blocks and `boot` on the boot-time list. */
  function TableCost(tables: nat, small: nat, boot: nat): nat {
    if tables <= small + boot then 0 else (tables - small - boot + 3) / 4
  }

  // ---- the pool ------------------------------------------------------------

  class Pool {
    const heap: Heap
    var freelist: seq<nat>
    ghost var pages: set<nat>     // in use
    ghost var tables: set<nat>    // in use
    ghost const others: set<Block>

    /** A block of the heap in use here. */
    ghost predicate InHeap(o: nat, a: nat)
      reads heap`out
    {
      a >= heap.startHeap && exists b: nat :: a == heap.Addr(o, b) && Block(o, b) in heap.out && Block(o, b) !in others
    }

    /** Pages and page tables in use are blocks handed out by the heap, or came from the
        boot-time list; the heap has handed out nothing else, except to others. */
    ghost predicate Owns()
      reads this, heap`out
    {
      && others <= heap.out
      && (forall k | k in heap.out && k !in others && k.ord == PTE_SHIFT ::
          k.id >= 0 && heap.Addr(PTE_SHIFT, k.id) in pages)
      && (forall k | k in heap.out && k !in others && k.ord != PTE_SHIFT ::
            k.ord == PT_ORDER && k.id >= 0 && heap.Addr(PT_ORDER, k.id) in tables)
      && (forall p | p in pages :: InHeap(PTE_SHIFT, p))
      && (forall t | t in tables && t >= INIT_KERNMAP :: InHeap(PT_ORDER, t))
    }

    ghost predicate Listed()
      reads this`freelist, this`tables
    {
      Distinct(freelist) && forall i | 0 <= i < |freelist| :: 0 < freelist[i] < INIT_KERNMAP && freelist[i] !in tables
    }

    ghost predicate Valid()
      reads this, heap, heap.marks, heap.orders
    {
      heap.Valid() && INIT_KERNMAP <= heap.startHeap && Owns() && Listed()
    }

    /** Free pages, and room for page tables besides. */
    ghost function Free(): nat
      reads heap`free
    {
      Large(heap.free)
    }

    ghost function Room(): nat
      reads heap`free
    {
      Small(heap.free)
    }

    /** Nothing in use yet; what the heap has handed out belongs to others. */
    constructor (heap: Heap, freelist: seq<nat>)
      requires heap.Valid() && INIT_KERNMAP <= heap.startHeap
      requires Distinct(freelist) && forall i | 0 <= i < |freelist| :: 0 < freelist[i] < INIT_KERNMAP
      ensures Valid() && this.heap == heap && this.freelist == freelist && pages == {} && tables == {}
      ensures others == heap.out
    {
      this.heap, this.freelist, pages, tables, others := heap, freelist, {}, {}, heap.out;
    }

    lemma NoneLarge(o: int)
      requires heap.Valid() && IsOrder(o)
      ensures (exists r | 0 <= r < Blocks(heap.m, o) ::
        EntirelyFree(heap.free, o, r)) <==> exists k | k in heap.free :: o <= k.ord
    {
      hide Heap.Valid;
      heap.SoundFree();
      RegionIffBlock(heap.free, heap.m, o);
    }

    lemma SameId(o: nat, a: nat, b: nat)
      ensures heap.Addr(o, a) == heap.Addr(o, b) ==> a == b
    {
      hide Heap.Addr;
      heap.IdAt(o, a);
      heap.IdAt(o, b);
    }

    /** `alloc_page`. */
    method AllocPage() returns (r: Maybe)
      requires Valid()
      modifies this`pages, heap`free, heap`out, heap`lists, heap.marks, heap.orders
      ensures Valid()
      ensures r.None? <==> old(Free()) == 0
      ensures r.None? ==> pages == old(pages) && Free() == old(Free()) && Room() == old(Room())
      ensures r.Some? ==> r.v > 0 && r.v !in old(pages) && pages == old(pages) + {r.v}
      ensures r.Some? ==> Free() == old(Free()) - 1 && Room() == old(Room())
    {
      hide Heap.Valid, Heap.Addr, Large, Small, BestFit, Taken, Pow2;
      NoneLarge(PTE_SHIFT);
      PagesLeft();
      ghost var b, j;
      var up;
      up, b, j := heap.Kmalloc(PTE_SHIFT);
      if up == 0 { return None; }
      PageTaken(old(heap.free), b, j);
      heap.IdAt(PTE_SHIFT, b);
      forall c: nat { SameId(PTE_SHIFT, b, c); }
      pages := pages + {up};
      return Some(up);
    }

    lemma PagesLeft()
      requires heap.Valid()
      ensures Free() == 0 <==> !exists k | k in heap.free :: PTE_SHIFT <= k.ord
      ensures Free() == 0 && Room() == 0 <==> !exists k | k in heap.free :: PT_ORDER <= k.ord
    {
      hide Heap.Valid, OfOrder;
      heap.SoundFree();
      NoneOfOrder(heap.free, 10);
      NoneOfOrder(heap.free, 11);
      NoneOfOrder(heap.free, 12);
    }

    /** `free_page` of a page in use, so that it does not panic. */
    method FreePage(p: nat)
      requires Valid() && p in pages
      modifies this`pages, heap`free, heap`out, heap`lists, heap.marks, heap.orders
      ensures Valid() && pages == old(pages) - {p}
    {
      hide Heap.Valid, Heap.Addr, Pow2;
      ghost var b: nat :| p == heap.Addr(PTE_SHIFT, b) && Block(PTE_SHIFT, b) in heap.out &&
        Block(PTE_SHIFT, b) !in others;
      Multiple(PTE_SHIFT, b);
      var ok := heap.Kfree(p, PTE_SHIFT, b);
      forall c: nat { SameId(PTE_SHIFT, b, c); }
      pages := pages - {p};
    }

    lemma Multiple(o: int, b: nat)
      requires heap.Valid() && IsOrder(o)
      ensures heap.Addr(o, b) % Pow2(o) == 0
    {
      heap.AlignedAddr(o, b);
    }

    /** `kpt_alloc`: from the boot-time list, or else from the heap; none is a panic. */
    method KptAlloc() returns (r: Maybe)
      requires Valid()
      modifies this`freelist, this`tables, heap`free, heap`out, heap`lists, heap.marks, heap.orders
      ensures Valid()
      ensures r.None? <==> old(freelist) == [] && old(Room()) == 0 && old(Free()) == 0
      ensures r.Some? ==> r.v > 0 && r.v !in old(tables) && tables == old(tables) + {r.v}
      ensures r.Some? && old(freelist) != [] ==> freelist == old(freelist)[1..] && Free() == old(Free())
      ensures r.Some? && old(freelist) != [] ==> Room() == old(Room())
      ensures r.Some? && old(freelist) == [] ==> freelist == []
      ensures r.Some? && old(freelist) == [] ==>
        if old(Room()) > 0 then Room() == old(Room()) - 1 && Free() == old(Free())
          else Free() == old(Free()) - 1 && Room() == 3
    {
      hide Heap.Valid, Heap.Addr, Large, Small, BestFit, Taken, Pow2;
      if freelist != [] {
        var t := freelist[0];
        freelist := freelist[1..];
        tables := tables + {t};
        return Some(t);
      }
      r := FromHeap();
    }

    method FromHeap() returns (r: Maybe)
      requires Valid() && freelist == []
      modifies this`tables, heap`free, heap`out, heap`lists, heap.marks, heap.orders
      ensures Valid()
      ensures r.None? <==> old(Room()) == 0 && old(Free()) == 0
      ensures r.Some? ==> r.v > 0 && r.v !in old(tables) && tables == old(tables) + {r.v}
      ensures r.Some? ==>
        if old(Room()) > 0 then Room() == old(Room()) - 1 && Free() == old(Free())
          else Free() == old(Free()) - 1 && Room() == 3
    {
      hide Heap.Valid, Heap.Addr, Large, Small, BestFit, Taken, Pow2;
      NoneLarge(PT_ORDER);
      PagesLeft();
      ghost var b, j;
      var up;
      up, b, j := heap.Kmalloc(PT_ORDER);
      if up == 0 { return None; }
      TableTaken(old(heap.free), b, j);
      heap.IdAt(PT_ORDER, b);
      forall c: nat { SameId(PT_ORDER, b, c); }
      tables := tables + {up};
      return Some(up);
    }

    /** `kpt_free`: back to where its address says it came from. */
    method KptFree(t: nat)
      requires Valid() && t in tables && t > 0
      modifies this`freelist, this`tables, heap`free, heap`out, heap`lists, heap.marks, heap.orders
      ensures Valid() && tables == old(tables) - {t}
      ensures freelist == if t >= INIT_KERNMAP then old(freelist) else [t] + old(freelist)
    {
      hide Heap.Valid, Heap.Addr, Pow2;
      if t >= INIT_KERNMAP {
        ghost var b: nat :| t == heap.Addr(PT_ORDER, b) && Block(PT_ORDER, b) in heap.out &&
          Block(PT_ORDER, b) !in others;
        Multiple(PT_ORDER, b);
        var ok := heap.Kfree(t, PT_ORDER, b);
        forall c: nat { SameId(PT_ORDER, b, c); }
      } else {
        forall c: nat ensures heap.Addr(PT_ORDER, c) > t { heap.IdAt(PT_ORDER, c); }
        assert forall i | 0 <= i < |freelist| :: freelist[i] != t;
        freelist := [t] + freelist;
        assert forall i | 0 < i < |freelist| :: freelist[i] == old(freelist)[i - 1];
      }
      tables := tables - {t};
    }
  }
}
