/** User address spaces: growing, shrinking, copying and freeing them.

    Directories, page tables and page contents are maps by address; the memory for them
    comes from one pool.  Addresses of pages are page numbers; sizes are bytes. */
module Vm {
  import opened PageTable
  import opened PagePool
  import opened Sector

  const PTE_SZ: nat := 4096
  const UADDR_SZ: nat := 0x1000_0000
  const AP_KU: nat := 3
  const WORD: nat := 0x1_0000_0000

  type Page = seq<byte>

  function ZeroPage(): (p: Page)
    ensures |p| == 4096 && forall i | 0 <= i < |p| :: p[i] == 0
  {
    seq(PTE_SZ, _ => 0)
  }

  /** The pages of `sz` bytes, the last one perhaps partly used. */
  function Pages(sz: nat): nat { (sz + PTE_SZ - 1) / PTE_SZ }

  /** They are the fewest that hold so many bytes. */
  lemma PagesFewest(sz: nat, n: nat)
    ensures Pages(sz) <= n <==> sz <= n * 4096
  {
  }

  // ---- shrinking ---------------------------------------------------------------------

  /** The pages the loop of deallocuvm jumps over: the first page of an entry, not
      the first of all, after an entry without a table. */
  predicate Skipped(dd: seq<Pde>, s: nat, q: nat)
    requires |dd| == NUM && q < PAGES
  {
    q % NUM == 0 && s < q && dd[q / NUM - 1].NoTable?
  }

  /** What the loop has done when it is about to look at page `a`. */
  ghost predicate Cleared(m0: Memory, m: Memory, d: nat, s: nat, a: nat)
    requires Formed(m0) && d in m0.dir
  {
    && Sound(m) && m.dir == m0.dir && m.tableAt == m0.tableAt
    && (forall d', q: nat | d' in m0.dir && q < PAGES ::
          Lookup(m, d', q) == if d' == d && s <= q < a && !Skipped(m0.dir[d], s, q) then Absent else Lookup(m0, d', q))
    && m.frameAt.Keys <= m0.frameAt.Keys
  }

  lemma ClearStart(m: Memory, d: nat, s: nat)
    requires Sound(m) && d in m.dir
    ensures Cleared(m, m, d, s, s)
  {
  }

  lemma ClearPresent(m0: Memory, m: Memory, d: nat, s: nat, a: nat)
    requires Sound(m0) && d in m0.dir && Cleared(m0, m, d, s, a) && s <= a < PAGES && !Skipped(m0.dir[d], s, a)
    requires m.dir[d][a / NUM].Table? && Lookup(m, d, a).Present?
    ensures Cleared(m0, Unmapped(m, d, a), d, s, a + 1)
  {
    hide Lookup, Formed, FramesOnce, Skipped;
    UnmapSound(m, d, a);
    EntryOf(m, d, a, Absent, Unmapped(m, d, a));
  }

  lemma ClearAbsent(m0: Memory, m: Memory, d: nat, s: nat, a: nat)
    requires Sound(m0) && d in m0.dir && Cleared(m0, m, d, s, a) && s <= a < PAGES && Lookup(m, d, a) == Absent
    ensures Cleared(m0, m, d, s, a + 1)
  {
    hide Lookup, Formed, FramesOnce, Skipped;
  }

  /** No table for the entry of `a`: the rest of the entry is empty anyway, and the
      first page of the next entry is skipped. */
  lemma ClearMissing(m0: Memory, m: Memory, d: nat, s: nat, a: nat, c: nat)
    requires Sound(m0) && d in m0.dir && Cleared(m0, m, d, s, a) && s <= a < PAGES && m0.dir[d][a / NUM].NoTable?
    requires a <= c <= (a + NUM - 1) / NUM * NUM + 1
    ensures Cleared(m0, m, d, s, c)
  {
    hide FramesOnce;
    forall q: nat | a <= q < c && q < PAGES ensures Lookup(m0, d, q) == Absent || Skipped(m0.dir[d], s, q) {
      if q / NUM != a / NUM {
        assert q == (a / NUM + 1) * NUM;
        assert q / NUM == a / NUM + 1 && q % NUM == 0;
      }
    }
    hide Formed, Lookup;
  }

  /** With tables in a prefix nothing is skipped: the pages from `s` on are gone. */
  lemma ClearedFlat(m0: Memory, m: Memory, d: nat, s: nat, a: nat, flat: map<nat, seq<Mapping>>)
    requires Sound(m0) && d in m0.dir && AllFlat(m0, flat) && Cleared(m0, m, d, s, a)
    requires |flat[d]| <= a
    ensures AllFlat(m, flat[d := Cut(flat[d], s)])
  {
    hide FramesOnce;
    forall q: nat | q < PAGES ensures Lookup(m, d, q) == FlatAt(Cut(flat[d], s), q) {
      ClearedPage(m0, m, d, s, a, flat[d], q);
    }
    hide Lookup, Formed, Skipped;
    forall d' | d' in m.dir && d' != d ensures Flat(m, d', flat[d']) { }
  }

  lemma ClearedPage(m0: Memory, m: Memory, d: nat, s: nat, a: nat, fl: seq<Mapping>, q: nat)
    requires Sound(m0) && d in m0.dir && Flat(m0, d, fl) && Cleared(m0, m, d, s, a) && |fl| <= a && q < PAGES
    ensures Lookup(m, d, q) == FlatAt(Cut(fl, s), q)
  {
    hide FramesOnce;
    assert Lookup(m0, d, q) == FlatAt(fl, q);
    if m0.dir[d][q / NUM].Table? {
      assert q % NUM == 0 && s < q ==> m0.dir[d][q / NUM - 1].Table?;
    }
  }

  function Cut(fl: seq<Mapping>, s: nat): seq<Mapping> { if s < |fl| then fl[..s] else fl }

  /** Exactly when deallocuvm leaves no page mapped in its range: no mapped page of
      the range is the first of an entry that follows an entry without a table. */
  lemma LeavesNone(m0: Memory, m: Memory, d: nat, s: nat, e: nat)
    requires Sound(m0) && d in m0.dir && Cleared(m0, m, d, s, e) && e <= PAGES
    ensures (forall q: nat | s <= q < e :: Lookup(m, d, q) == Absent)
      <==> (forall q: nat | s <= q < e && Skipped(m0.dir[d], s, q) :: Lookup(m0, d, q) == Absent)
  {
    hide Lookup, TablesOnce, FramesOnce, Skipped;
    forall q: nat | s <= q < e
      ensures Lookup(m, d, q) == if Skipped(m0.dir[d], s, q) then Lookup(m0, d, q) else Absent
    {
    }
  }

  // ---- what growing costs ------------------------------------------------

  /** What is left: free pages, room for page tables besides, and boot-time blocks. */
  datatype Stock = Stock(free: nat, room: nat, boot: nat)

  /** There is enough for so many pages and page tables. */
  predicate Enough(pages: nat, tables: nat, st: Stock) { pages + TableCost(tables, st.room, st.boot) <= st.free }

  /** One page table is made: from the boot-time list, else from a free block that is no
      page, else out of a page. */
  predicate TableMade(st: Stock, st': Stock) {
    if st.boot > 0 then st' == Stock(st.free, st.room, st.boot - 1)
    else if st.room > 0 then st' == Stock(st.free, st.room - 1, 0)
    else st.free > 0 && st' == Stock(st.free - 1, 3, 0)
  }

  /** One page, and the page table for it if it is missing. */
  predicate PageMade(st: Stock, st': Stock, table: bool) {
    && st.free > 0
    && var st1 := Stock(st.free - 1, st.room, st.boot); if table then TableMade(st1, st') else st' == st1
  }

  lemma EnoughMade(pages: nat, tables: nat, st: Stock, st': Stock, table: bool)
    requires PageMade(st, st', table)
    ensures Enough(pages + 1, if table then tables + 1 else tables, st) <==> Enough(pages, tables, st')
  {
  }

  lemma EnoughLess(p: nat, t: nat, p': nat, t': nat, st: Stock)
    requires p <= p' && t <= t' && Enough(p', t', st)
    ensures Enough(p, t, st)
  {
  }

  /** The entries without a table. */
  function Missing(dd: seq<Pde>, n: nat): nat
    requires n <= |dd|
  {
    if n == 0 then 0 else Missing(dd, n - 1) + if dd[n - 1].NoTable? then 1 else 0
  }

  lemma {:induction false} MissingMore(dd: seq<Pde>, n: nat, n': nat)
    requires n <= n' <= |dd|
    ensures Missing(dd, n) <= Missing(dd, n')
  {
    if n < n' { MissingMore(dd, n, n' - 1); }
  }

  lemma {:induction false} MissingNone(dd: seq<Pde>, n: nat)
    requires n <= |dd| && forall i | 0 <= i < n :: dd[i].Table?
    ensures Missing(dd, n) == 0
  {
    if n > 0 { MissingNone(dd, n - 1); }
  }

  lemma {:induction false} MissingAll(n: nat)
    requires n <= NUM
    ensures Missing(EmptyDirectory(), n) == n
  {
    if n > 0 { MissingAll(n - 1); }
  }

  /** The page tables for so many pages. */
  function TablesFor(pages: nat): nat { (pages + NUM - 1) / NUM }

  lemma TablesOrder(a: nat, n: nat)
    requires a <= n <= PAGES
    ensures TablesFor(a) <= TablesFor(n) <= NUM
  {
  }

  lemma NextTable(a: nat)
    ensures TablesFor(a + 1) == a / NUM + 1 && TablesFor(a) == if a % NUM == 0 then a / NUM else a / NUM + 1
  {
  }

  /** Mapped pages have tables. */
  lemma AllTabled(m: Memory, d: nat, fl: seq<Mapping>)
    requires Formed(m) && d in m.dir && Flat(m, d, fl)
    ensures |m.dir[d]| == NUM && TablesFor(|fl|) <= NUM && Missing(m.dir[d], TablesFor(|fl|)) == 0
  {
    forall i | 0 <= i < TablesFor(|fl|) ensures m.dir[d][i].Table? {
      var q := i * NUM;
      assert q < |fl| && q / NUM == i;
      assert Lookup(m, d, q) == FlatAt(fl, q);
    }
    MissingNone(m.dir[d], TablesFor(|fl|));
  }

  lemma TableHere(m: Memory, d: nat, fl: seq<Mapping>)
    requires Formed(m) && d in m.dir && Flat(m, d, fl) && |fl| % NUM != 0
    ensures m.dir[d][|fl| / NUM].Table?
  {
    var q := |fl| - 1;
    assert q / NUM == |fl| / NUM;
    assert Lookup(m, d, q) == FlatAt(fl, q);
  }

  // ---- running out -------------------------------------------------------

  /** With the tables before it made, there is enough for page `a`, but not for its own
      page table. */
  predicate ShortAt(dd: seq<Pde>, made: nat, p0: nat, a: nat, st: Stock)
    requires p0 <= a < PAGES && |dd| == NUM
  {
    TablesOrder(a, a + 1);
    && Enough(a + 1 - p0, made + Missing(dd, TablesFor(a)), st)
    && !Enough(a + 1 - p0, made + Missing(dd, TablesFor(a + 1)), st)
  }

  /** Growing from `p0` to `n` pages runs out at a page table, which is a panic, and not at
      a page. */
  predicate TableShort(dd: seq<Pde>, made: nat, p0: nat, n: nat, st: Stock)
    requires p0 <= n <= PAGES && |dd| == NUM
  {
    exists a | p0 <= a < n :: ShortAt(dd, made, p0, a, st)
  }

  /** There is enough for all of it. */
  predicate Suffices(dd: seq<Pde>, made: nat, p0: nat, n: nat, st: Stock)
    requires p0 <= n <= PAGES && |dd| == NUM
  {
    TablesOrder(n, n);
    Enough(n - p0, made + Missing(dd, TablesFor(n)), st)
  }

  /** What is left is what there was but for so many pages and page tables. */
  ghost predicate Spent(st0: Stock, st: Stock, pages: nat, tables: nat) {
    forall p: nat, t: nat :: Enough(p, t, st) <==> Enough(p + pages, t + tables, st0)
  }

  /** Where the loop stands at page `a`: the tables from there on are as they were. */
  ghost predicate Going(dd0: seq<Pde>, dd: seq<Pde>, made: nat, p0: nat, a: nat, st0: Stock, st: Stock) {
    && p0 <= a && |dd0| == |dd| == NUM && TablesFor(a) <= NUM
    && Spent(st0, st, a - p0, made + Missing(dd0, TablesFor(a)))
    && forall i | TablesFor(a) <= i < NUM :: dd[i] == dd0[i]
  }

  lemma GoingNext(dd0: seq<Pde>, dd: seq<Pde>, dd': seq<Pde>, made: nat, p0: nat, a: nat, st0: Stock, st: Stock,
                  st': Stock)
    requires Going(dd0, dd, made, p0, a, st0, st) && a < PAGES && (a % NUM != 0 ==> dd[a / NUM].Table?)
    requires PageMade(st, st', dd[a / NUM].NoTable?)
    requires |dd'| == NUM && forall i | 0 <= i < NUM && i != a / NUM :: dd'[i] == dd[i]
    ensures Going(dd0, dd', made, p0, a + 1, st0, st')
  {
    hide Enough, PageMade, TablesFor;
    NextTable(a);
    var table, m := dd[a / NUM].NoTable?, made + Missing(dd0, TablesFor(a));
    forall p: nat, t: nat
      ensures Enough(p, t, st') <==> Enough(p + (a + 1 - p0), t + (made + Missing(dd0, TablesFor(a + 1))), st0)
    {
      EnoughMade(p, t, st, st', table);
      var t1 := if table then t + 1 else t;
      assert Enough(p + 1, t1, st) <==> Enough(p + 1 + (a - p0), t1 + m, st0);
    }
  }

  /** What was made so far was enough, and nowhere short of a table. */
  lemma GoingSoFar(dd0: seq<Pde>, dd: seq<Pde>, made: nat, p0: nat, a: nat, st0: Stock, st: Stock)
    requires Going(dd0, dd, made, p0, a, st0, st) && a <= PAGES
    ensures Suffices(dd0, made, p0, a, st0) && !TableShort(dd0, made, p0, a, st0)
  {
    hide TablesFor, Missing;
    assert Enough(0, 0, st);
    assert Enough(0 + (a - p0), 0 + (made + Missing(dd0, TablesFor(a))), st0);
    forall b | p0 <= b < a ensures !ShortAt(dd0, made, p0, b, st0) {
      TablesOrder(b + 1, a);
      MissingMore(dd0, TablesFor(b + 1), TablesFor(a));
      EnoughLess(b + 1 - p0, made + Missing(dd0, TablesFor(b + 1)), a - p0, made + Missing(dd0, TablesFor(a)), st0);
    }
  }

  /** The page cannot be had, or it can and its page table cannot: then growing to `n`
      pages fails, and how is told by `TableShort`. */
  lemma GoingFails(dd0: seq<Pde>, dd: seq<Pde>, made: nat, p0: nat, a: nat, n: nat, st0: Stock, st: Stock)
    requires Going(dd0, dd, made, p0, a, st0, st) && a < n <= PAGES && (a % NUM != 0 ==> dd[a / NUM].Table?)
    requires st.free == 0 || (st == Stock(1, 0, 0) && dd[a / NUM].NoTable?)
    ensures !Suffices(dd0, made, p0, n, st0)
    ensures TableShort(dd0, made, p0, n, st0) <==> st.free != 0
  {
    hide TablesFor, Missing;
    GoingSoFar(dd0, dd, made, p0, a, st0, st);
    var k, m := a - p0, made + Missing(dd0, TablesFor(a));
    assert Enough(1, 0, st) <==> Enough(1 + k, 0 + m, st0);
    assert Enough(1, 1, st) <==> Enough(1 + k, 1 + m, st0);
    NextTable(a);
    TableAdds(dd0, a);
    assert !Enough(k + 1, made + Missing(dd0, TablesFor(a + 1)), st0);
    BeyondFails(dd0, made, p0, a, n, st0);
    if st.free == 0 {
      forall b | p0 <= b < n ensures !ShortAt(dd0, made, p0, b, st0) {
        if b >= a { ShortBeyond(dd0, made, p0, a, b, st0); }
      }
    } else {
      assert ShortAt(dd0, made, p0, a, st0);
    }
  }

  lemma TableAdds(dd: seq<Pde>, a: nat)
    requires a < PAGES && |dd| == NUM
    ensures TablesFor(a) <= TablesFor(a + 1) <= NUM
    ensures Missing(dd, TablesFor(a + 1)) ==
      Missing(dd, TablesFor(a)) + if a % NUM == 0 && dd[a / NUM].NoTable? then 1 else 0
  {
    hide TablesFor;
    NextTable(a);
  }

  lemma BeyondFails(dd: seq<Pde>, made: nat, p0: nat, a: nat, n: nat, st: Stock)
    requires p0 <= a < n <= PAGES && |dd| == NUM
    requires TablesFor(a + 1) <= NUM && !Enough(a + 1 - p0, made + Missing(dd, TablesFor(a + 1)), st)
    ensures !Suffices(dd, made, p0, n, st)
  {
    hide TablesFor, Missing;
    TablesOrder(a + 1, n);
    MissingMore(dd, TablesFor(a + 1), TablesFor(n));
    if Suffices(dd, made, p0, n, st) {
      EnoughLess(a + 1 - p0, made + Missing(dd, TablesFor(a + 1)), n - p0, made + Missing(dd, TablesFor(n)), st);
    }
  }

  lemma ShortBeyond(dd: seq<Pde>, made: nat, p0: nat, a: nat, b: nat, st: Stock)
    requires p0 <= a <= b < PAGES && |dd| == NUM
    requires TablesFor(a) <= NUM && !Enough(a + 1 - p0, made + Missing(dd, TablesFor(a)), st)
    ensures !ShortAt(dd, made, p0, b, st)
  {
    hide TablesFor, Missing;
    TablesOrder(a, b);
    MissingMore(dd, TablesFor(a), TablesFor(b));
    if ShortAt(dd, made, p0, b, st) {
      EnoughLess(a + 1 - p0, made + Missing(dd, TablesFor(a)), b + 1 - p0, made + Missing(dd, TablesFor(b)), st);
    }
  }

  // ---- the memory --------------------------------------------------------

  class Memories {
    const pool: Pool
    var dir: map<nat, seq<Pde>>
    var tab: map<nat, seq<Pte>>
    var page: map<nat, Page>
    ghost var tableAt: map<nat, Place>
    ghost var frameAt: map<nat, Place>
    /** Each address space as the sequence of its mapped pages. */
    ghost var flat: map<nat, seq<Mapping>>

    ghost function Rep(): set<object> { {pool, pool.heap, pool.heap.marks, pool.heap.orders} }

    ghost function M(): Memory
      reads this
    {
      Memory(dir, tab, tableAt, frameAt)
    }

    ghost function Tables(): set<nat>
      reads this
    {
      dir.Keys + tableAt.Keys
    }

    ghost function Left(): Stock
      reads pool, pool.heap`free
    {
      Stock(pool.Free(), pool.Room(), |pool.freelist|)
    }

    /** Every page the pool has given out is mapped at one page of one address space, but
        for those of `loose`, and every page table is a directory or in one entry of one. */
    ghost predicate HeldBut(loose: set<nat>)
      reads this, Rep()
    {
      && Sound(M()) && dir.Keys !! tableAt.Keys && pool.Valid()
      && pool.tables == Tables() && pool.pages == frameAt.Keys + loose && frameAt.Keys !! loose
      && frameAt.Keys <= page.Keys && 0 !in frameAt && 0 !in Tables()
    }

    ghost predicate Held()
      reads this, Rep()
    {
      HeldBut({})
    }

    /** And every address space is a prefix of its pages. */
    ghost predicate Valid()
      reads this, Rep()
    {
      Held() && AllFlat(M(), flat)
    }

    /** No address space yet. */
    constructor (pool: Pool)
      requires pool.Valid() && pool.pages == {} && pool.tables == {}
      ensures Valid() && this.pool == pool && dir == map[]
    {
      hide Sound, AllFlat, Pool.Valid;
      this.pool, dir, tab, page := pool, map[], map[], map[];
      tableAt, frameAt, flat := map[], map[], map[];
      new;
      NoSpaces();
    }

    /** An empty table for the first entry without one. */
    method AddTable(d: nat, i: nat, ghost loose: set<nat>) returns (r: Maybe)
      requires HeldBut(loose) && AllFlat(M(), flat) && d in dir
      requires |flat[d]| < PAGES && i == |flat[d]| / NUM && dir[d][i].NoTable?
      modifies Rep(), this`dir, this`tab, this`tableAt
      ensures r.None? ==> old(Left()) == Stock(0, 0, 0) && dir == old(dir)
      ensures r.Some? ==> HeldBut(loose) && AllFlat(M(), flat) && TableMade(old(Left()), Left())
      ensures r.Some? ==> dir == old(dir)[d := old(dir)[d][i := Table(r.v)]]
    {
      hide Formed, FramesOnce, AllFlat, Lookup, Pool.Valid, Pool.Free, Pool.Room;
      Entry(M(), d, i * NUM);
      ghost var m := M();
      r := pool.KptAlloc();
      if r.None? { return; }
      TableKeepsFlat(m, d, r.v, flat);
      tab := tab[r.v := EmptyTable()];
      dir := dir[d := dir[d][i := Table(r.v)]];
      tableAt := tableAt[r.v := Place(d, i)];
      assert M() == Tabled(m, d, i, r.v);
    }

    /** The page table for page `q`, made if it is missing and `alloc` says so; not
        `ok` is the panic for want of a block. */
    method WalkPgdir(d: nat, q: nat, alloc: bool, ghost loose: set<nat>) returns (r: Maybe, ok: bool)
      requires HeldBut(loose) && AllFlat(M(), flat) && d in dir && q < PAGES && (alloc ==> q == |flat[d]|)
      modifies Rep(), this`dir, this`tab, this`tableAt
      ensures |old(dir)[d]| == NUM && dir.Keys == old(dir).Keys
      ensures !ok <==> alloc && old(dir)[d][q / NUM].NoTable? && old(Left()) == Stock(0, 0, 0)
      ensures ok ==> HeldBut(loose) && AllFlat(M(), flat)
      ensures ok ==> match r
        case Some(t) => dir == old(dir)[d := old(dir)[d][q / NUM := Table(t)]]
        case None => !alloc && dir[d][q / NUM].NoTable?
      ensures ok && (!alloc || old(dir)[d][q / NUM].Table?) ==> M() == old(M()) && Left() == old(Left())
      ensures ok && alloc && old(dir)[d][q / NUM].NoTable? ==> TableMade(old(Left()), Left())
    {
      hide Formed, FramesOnce, AllFlat, Lookup, HeldBut;
      HeldSound(loose);
      Entry(M(), d, q);
      if dir[d][q / NUM].Table? {
        assert dir[d][q / NUM := dir[d][q / NUM]] == dir[d];
        return Some(dir[d][q / NUM].t), true;
      }
      if !alloc { return None, true; }
      r := AddTable(d, q / NUM, loose);
      return r, r.Some?;
    }

    lemma HeldSound(loose: set<nat>)
      requires HeldBut(loose)
      ensures Sound(M()) && frameAt.Keys <= page.Keys && 0 !in frameAt && pool.pages == frameAt.Keys + loose
      ensures frameAt.Keys !! loose
    {
    }

    /** mappages for one page, the one after the last mapped one; it is not mapped
        yet, which would panic. */
    method MapPage(d: nat, q: nat, f: nat, ap: nat) returns (ok: bool)
      requires HeldBut({f}) && AllFlat(M(), flat) && d in dir && q == |flat[d]| < PAGES && f in page && f != 0
      modifies Rep(), this`dir, this`tab, this`tableAt, this`frameAt, this`flat
      ensures |old(dir)[d]| == NUM && dir.Keys == old(dir).Keys
      ensures !ok <==> old(dir)[d][q / NUM].NoTable? && old(Left()) == Stock(0, 0, 0)
      ensures ok ==> Valid() && flat == old(flat)[d := old(flat)[d] + [Mapping(f, ap)]]
      ensures ok ==> frameAt.Keys == old(frameAt).Keys + {f}
      ensures ok ==> exists t :: dir == old(dir)[d := old(dir)[d][q / NUM := Table(t)]]
      ensures ok && old(dir)[d][q / NUM].Table? ==> dir == old(dir) && Left() == old(Left())
      ensures ok && old(dir)[d][q / NUM].NoTable? ==> TableMade(old(Left()), Left())
    {
      hide Formed, FramesOnce, AllFlat, Lookup, Pool.Valid, Left;
      var pgtab, walked := WalkPgdir(d, q, true, {f});
      if !walked { return false; }
      SetEntry(d, q, pgtab.v, f, ap);
      return true;
    }

    /** The entry in the page table, once there is one. */
    method SetEntry(d: nat, q: nat, t: nat, f: nat, ap: nat)
      requires HeldBut({f}) && AllFlat(M(), flat) && d in dir && q == |flat[d]| < PAGES && f in page && f != 0
      requires |dir[d]| == NUM && dir[d][q / NUM] == Table(t)
      modifies this`tab, this`frameAt, this`flat
      ensures Valid() && flat == old(flat)[d := old(flat)[d] + [Mapping(f, ap)]]
      ensures frameAt.Keys == old(frameAt).Keys + {f}
    {
      hide Formed, FramesOnce, AllFlat, Lookup, Pool.Valid;
      Entry(M(), d, q);
      PageAfter(M(), d, flat);
      assert tab[t][q % NUM].Absent?;
      MapExtendsFlat(M(), d, f, ap, flat);
      ghost var m := M();
      tab := tab[t := tab[t][q % NUM := Present(f, ap)]];
      frameAt := frameAt[f := Place(d, q)];
      flat := flat[d := flat[d] + [Mapping(f, ap)]];
      assert M() == Mapped(m, d, q, f, ap);
    }

    /** Frees the frame of a mapped page; a frame at address 0 would panic. */
    method FreeEntry(d: nat, a: nat, t: nat)
      requires Held() && d in dir && a < PAGES && dir[d][a / NUM] == Table(t) && tab[t][a % NUM].Present?
      modifies Rep(), this`tab, this`frameAt
      ensures Held() && M() == Unmapped(old(M()), d, a)
    {
      hide Formed, FramesOnce, Lookup, Pool.Valid;
      ghost var before := M();
      Entry(before, d, a);
      FrameKnown(before, d, a);
      UnmapSound(before, d, a);
      var f := tab[t][a % NUM].frame;
      assert f != 0;
      pool.FreePage(f);
      tab := tab[t := tab[t][a % NUM := Absent]];
      frameAt := frameAt - {f};
      assert M() == Unmapped(before, d, a);
    }

    /** Unmaps and frees the pages from `newsz` up to `oldsz`, which may be beyond the
        last mapped one, except those its loop skips. */
    method DeallocUvm(d: nat, oldsz: nat, newsz: nat) returns (sz: nat)
      requires Held() && d in dir && oldsz <= UADDR_SZ
      modifies Rep(), this`tab, this`frameAt
      ensures Held() && sz == if newsz >= oldsz then oldsz else newsz
      ensures newsz >= oldsz ==> M() == old(M()) && Left() == old(Left())
      ensures newsz < oldsz ==> Cleared(old(M()), M(), d, Pages(newsz), Pages(oldsz))
    {
      hide Formed, FramesOnce, Lookup, Cleared, Skipped, Pool.Valid;
      if newsz >= oldsz { return oldsz; }
      ghost var m := M();
      ghost var s := Pages(newsz);
      var a := Pages(newsz);
      ghost var e := Pages(oldsz);
      ClearStart(m, d, s);
      Entry(m, d, 0);
      if s < PAGES { NotSkipped(m.dir[d], s, s); }
      while a * PTE_SZ < oldsz
        invariant s <= a && Held() && Cleared(m, M(), d, s, Least(a, e)) && M().dir == m.dir && M().tableAt == m.tableAt
        invariant a < PAGES ==> !Skipped(m.dir[d], s, a)
        decreases oldsz - a * PTE_SZ
      {
        assert a < PAGES;
        Entry(m, d, a);
        Entry(M(), d, a);
        NotSkipped(m.dir[d], s, a);
        if dir[d][a / NUM].NoTable? {
          ClearMissing(m, M(), d, s, a, Least((a + NUM - 1) / NUM * NUM + 1, e));
          a := (a + NUM - 1) / NUM * NUM;
        } else {
          var t := dir[d][a / NUM].t;
          if tab[t][a % NUM].Present? {
            ClearPresent(m, M(), d, s, a);
            FreeEntry(d, a, t);
          } else {
            ClearAbsent(m, M(), d, s, a);
          }
        }
        a := a + 1;
      }
      return newsz;
    }

    /** deallocuvm on a valid address space cuts it at the new size. */
    method Shrink(d: nat, oldsz: nat, newsz: nat) returns (sz: nat)
      requires Valid() && d in dir && oldsz <= UADDR_SZ && |flat[d]| <= Pages(oldsz)
      modifies Rep(), this`tab, this`frameAt, this`flat
      ensures Valid() && sz == if newsz >= oldsz then oldsz else newsz
      ensures flat == old(flat)[d := Cut(old(flat)[d], Pages(newsz))]
    {
      hide Formed, FramesOnce, Lookup, Cleared, AllFlat, Pool.Valid, Left;
      FlatHas(M(), flat, d);
      ghost var m := M();
      sz := DeallocUvm(d, oldsz, newsz);
      if newsz < oldsz {
        ClearedFlat(m, M(), d, Pages(newsz), Pages(oldsz), flat);
      } else {
        assert flat[d := Cut(flat[d], Pages(newsz))] == flat;
      }
      flat := flat[d := Cut(flat[d], Pages(newsz))];
    }

    /** A frame with the given content becomes the next page of `d`, if there is one. */
    method AddPage(d: nat, a: nat, content: Page, ap: nat) returns (r: Maybe, ok: bool)
      requires Valid() && d in dir && a == |flat[d]| < PAGES
      modifies this, Rep()
      ensures |old(dir)[d]| == NUM
      ensures !ok <==> old(Left()) == Stock(1, 0, 0) && old(dir)[d][a / NUM].NoTable?
      ensures ok ==> (r.None? <==> old(Left()).free == 0)
      ensures r.None? && ok ==> Valid() && M() == old(M()) && flat == old(flat) && page == old(page)
      ensures r.Some? && ok ==> Valid() && PageMade(old(Left()), Left(), old(dir)[d][a / NUM].NoTable?)
      ensures r.Some? && ok ==> r.v !in old(frameAt) && page == old(page)[r.v := content]
      ensures r.Some? && ok ==> flat == old(flat)[d := old(flat)[d] + [Mapping(r.v, ap)]]
      ensures r.Some? && ok ==> frameAt.Keys == old(frameAt).Keys + {r.v}
      ensures r.Some? && ok ==> exists t :: dir == old(dir)[d := old(dir)[d][a / NUM := Table(t)]]
      ensures r.Some? && ok && old(dir)[d][a / NUM].Table? ==> dir == old(dir)
    {
      hide Formed, FramesOnce, Lookup, AllFlat, Pool.Valid, Pool.Free, Pool.Room;
      Entry(M(), d, a);
      r := pool.AllocPage();
      if r.None? { return None, true; }
      page := page[r.v := content];
      ok := MapPage(d, a, r.v, ap);
    }

    lemma HeldParts()
      requires Valid()
      ensures Sound(M()) && flat.Keys == dir.Keys && frameAt.Keys <= page.Keys
    {
    }

    /** The way back when allocuvm runs out of memory. */
    method Rollback(d: nat, newsz: nat, oldsz: nat, ghost a: nat, ghost m: Memory, ghost flat0: map<nat, seq<Mapping>>,
                    ghost page0: map<nat, Page>)
      requires Valid() && d in dir && oldsz <= newsz <= UADDR_SZ && a <= Pages(newsz)
      requires Growing(flat0, flat, d, a, m.frameAt.Keys, page0, page) && |flat0[d]| == Pages(oldsz)
      requires Sound(m) && AllFlat(m, flat0)
      modifies Rep(), this`tab, this`frameAt, this`flat
      ensures Valid() && flat == flat0 && frameAt == m.frameAt
    {
      hide Formed, FramesOnce, Lookup, AllFlat, Pages, Cut, GrownTo, SamePages, Pool.Valid;
      CutBack(flat0, flat, d, Pages(oldsz));
      var r := Shrink(d, newsz, oldsz);
      FramesDeterminedByFlat(m, M(), flat);
    }

    /** One turn of the loop of allocuvm. */
    method GrowOne(d: nat, a: nat, ghost flat0: map<nat, seq<Mapping>>, ghost keys: set<nat>,
                   ghost page0: map<nat, Page>) returns (got: bool, ok: bool)
      requires Valid() && d in dir && a < PAGES && Growing(flat0, flat, d, a, keys, page0, page)
      requires keys <= frameAt.Keys
      modifies this, Rep()
      ensures |old(dir)[d]| == NUM && (a % NUM != 0 ==> old(dir)[d][a / NUM].Table?)
      ensures !ok <==> old(Left()) == Stock(1, 0, 0) && old(dir)[d][a / NUM].NoTable?
      ensures ok ==> (!got <==> old(Left()).free == 0)
      ensures ok ==> Valid() && dir.Keys == old(dir).Keys && |dir[d]| == NUM
      ensures ok ==> keys <= frameAt.Keys && Growing(flat0, flat, d, if got then a + 1 else a, keys, page0, page)
      ensures ok && got ==> PageMade(old(Left()), Left(), old(dir)[d][a / NUM].NoTable?)
      ensures ok && got ==> forall i | 0 <= i < NUM && i != a / NUM :: dir[d][i] == old(dir)[d][i]
    {
      hide Formed, FramesOnce, Lookup, AllFlat, ZeroPage, Growing, GrownTo, SamePages, HeldBut, Left, PageMade;
      GrowingLength(flat0, flat, d, a, keys, page0, page);
      TabledAt(d);
      ghost var flat1, page1 := flat, page;
      var mem;
      mem, ok := AddPage(d, a, ZeroPage(), AP_KU);
      got := mem.Some?;
      if ok && got {
        GrowingNext(flat0, flat1, d, a, keys, page0, page1, mem.v);
      }
    }

    lemma TabledAt(d: nat)
      requires Valid() && d in dir
      ensures d in flat && |dir[d]| == NUM && |flat[d]| <= PAGES
      ensures |flat[d]| % NUM != 0 ==> dir[d][|flat[d]| / NUM].Table?
    {
      hide HeldBut;
      HeldSound({});
      assert Flat(M(), d, flat[d]);
      if |flat[d]| % NUM != 0 { TableHere(M(), d, flat[d]); }
    }

    /** The loop of allocuvm. */
    method Grow(d: nat, oldsz: nat, newsz: nat) returns (done: bool, ok: bool)
      requires Valid() && d in dir && |flat[d]| == Pages(oldsz) && oldsz <= newsz < UADDR_SZ
      modifies this, Rep()
      ensures |old(dir)[d]| == NUM && Pages(oldsz) <= Pages(newsz) <= PAGES
      ensures ok ==> Valid() && dir.Keys == old(dir).Keys
      ensures ok && done ==> Growing(old(flat), flat, d, Pages(newsz), old(frameAt).Keys, old(page), page)
      ensures ok && !done ==> flat == old(flat) && frameAt == old(frameAt)
      ensures ok && !done ==> SamePages(old(frameAt).Keys, old(page), page)
      ensures ok && done <==> Suffices(old(dir)[d], 0, Pages(oldsz), Pages(newsz), old(Left()))
      ensures !ok <==> TableShort(old(dir)[d], 0, Pages(oldsz), Pages(newsz), old(Left()))
    {
      hide Formed, FramesOnce, Lookup, AllFlat, Pages, ZeroPage, Growing, GrownTo, SamePages, HeldBut, Left, Going,
        PageMade, TableShort, Suffices;
      PagesOrder(oldsz, newsz);
      HeldParts();
      Begins(d);
      ghost var m, flat0, page0, p0, n := M(), flat, page, Pages(oldsz), Pages(newsz);
      GrowingStart(flat, d, frameAt.Keys, page);
      var a := Pages(oldsz);
      while a * PTE_SZ < newsz
        invariant Valid() && dir.Keys == old(dir).Keys && |dir[d]| == NUM
        invariant m.frameAt.Keys <= frameAt.Keys && p0 <= a <= n
        invariant Growing(flat0, flat, d, a, m.frameAt.Keys, page0, page)
        invariant Going(m.dir[d], dir[d], 0, p0, a, old(Left()), Left())
        decreases newsz - a * PTE_SZ
      {
        PagesReach(newsz, a);
        ghost var dd, st := dir[d], Left();
        var got;
        got, ok := GrowOne(d, a, flat0, m.frameAt.Keys, page0);
        if !ok || !got { GoingFails(m.dir[d], dd, 0, p0, a, n, old(Left()), st); }
        if !ok { return false, false; }
        if !got {
          GrowingPages(flat0, flat, d, a, m.frameAt.Keys, page0, page);
          Rollback(d, newsz, oldsz, a, m, flat0, page0);
          return false, true;
        }
        GoingNext(m.dir[d], dd, dir[d], 0, p0, a, old(Left()), st, Left());
        a := a + 1;
      }
      PagesDone(newsz, a);
      GoingSoFar(m.dir[d], dir[d], 0, p0, a, old(Left()), Left());
      return true, true;
    }

    lemma Begins(d: nat)
      requires Valid() && d in dir
      ensures d in flat && |dir[d]| == NUM && |flat[d]| <= PAGES
      ensures Going(dir[d], dir[d], 0, |flat[d]|, |flat[d]|, Left(), Left())
    {
      hide HeldBut, Missing, TablesFor;
      HeldSound({});
      assert Flat(M(), d, flat[d]);
      AllTabled(M(), d, flat[d]);
    }

    /** Grows an address space by zeroed pages, exactly when there is enough memory for
        them and for their page tables.  If it runs out at a page, the answer is 0 and it
        is as it was but for page tables; if at a page table, not `ok`, it is a panic. */
    method AllocUvm(d: nat, oldsz: nat, newsz: nat) returns (sz: nat, ok: bool)
      requires Valid() && d in dir && |flat[d]| == Pages(oldsz)
      modifies this, Rep()
      ensures ok ==> Valid() && dir.Keys == old(dir).Keys && SamePages(old(frameAt).Keys, old(page), page)
      ensures newsz >= UADDR_SZ ==> ok && sz == 0 && flat == old(flat) && M() == old(M())
      ensures newsz < oldsz && newsz < UADDR_SZ ==> ok && sz == oldsz && flat == old(flat) && M() == old(M())
      ensures oldsz <= newsz < UADDR_SZ ==>
        && |old(dir)[d]| == NUM && Pages(oldsz) <= Pages(newsz) <= PAGES
        && (!ok <==> TableShort(old(dir)[d], 0, Pages(oldsz), Pages(newsz), old(Left())))
        && if Suffices(old(dir)[d], 0, Pages(oldsz), Pages(newsz), old(Left()))
           then && ok && sz == newsz && GrownTo(old(flat)[d], flat, d, Pages(newsz), page)
                && flat == old(flat)[d := flat[d]]
           else ok ==> sz == 0 && flat == old(flat) && frameAt == old(frameAt)
    {
      hide Formed, FramesOnce, Lookup, AllFlat, Pages, ZeroPage, Growing, GrownTo, SamePages, HeldBut, Left, TableShort,
        Suffices;
      SameSelf(frameAt.Keys, page);
      if newsz >= UADDR_SZ { return 0, true; }
      if newsz < oldsz { return oldsz, true; }
      ghost var flat0, page0, keys := flat, page, frameAt.Keys;
      var done;
      done, ok := Grow(d, oldsz, newsz);
      if !ok { return 0, false; }
      if !done { return 0, true; }
      GrowingPages(flat0, flat, d, Pages(newsz), keys, page0, page);
      return newsz, true;
    }

    /** Frees the pages, then the page tables, then the directory, each to where it came
        from. */
    method FreeVm(d: nat)
      requires Valid() && d in dir
      modifies this`dir, this`tab, Rep(), this`tableAt, this`frameAt, this`flat
      ensures Valid() && flat == old(flat) - {d} && dir.Keys == old(dir).Keys - {d}
      ensures frameAt.Keys == old(frameAt).Keys - FramesOf(old(flat)[d])
      ensures forall t | t in tableAt :: t in old(tableAt) && tableAt[t] == old(tableAt)[t] && tableAt[t].d != d
    {
      hide Formed, FramesOnce, Lookup, AllFlat, Pool.Valid;
      ghost var m0, flat0 := M(), flat;
      FlatHas(m0, flat, d);
      var r := Shrink(d, UADDR_SZ, 0);
      ghost var m := M();
      assert flat == flat0[d := []];
      EmptiedFrames(m0, flat0, m, flat, d);
      CloseFlat(m, flat, d);
      var pgdir := dir[d];
      dir := dir - {d};
      tableAt := Closed(m, d).tableAt;
      flat := flat - {d};
      assert M() == Closed(m, d);
      FreeTables(d, pgdir, m);
      assert flat == old(flat) - {d};
    }

    /** The loop of freevm over the directory `pgdir`, which nothing refers to any
        more, and the directory itself. */
    method FreeTables(d: nat, pgdir: seq<Pde>, ghost m: Memory)
      requires Formed(m) && d in m.dir && m.dir[d] == pgdir && tableAt == Closed(m, d).tableAt && dir == m.dir - {d}
      requires m.dir.Keys !! m.tableAt.Keys && pool.Valid() && pool.tables == m.dir.Keys + m.tableAt.Keys
      requires 0 !in pool.tables
      modifies Rep()
      ensures pool.Valid() && pool.tables == Tables() && pool.pages == old(pool.pages)
    {
      hide Formed, Pool.Valid;
      Entry(m, d, 0);
      RestAll(m, d);
      for i := 0 to NUM
        invariant pool.Valid() && pool.tables == dir.Keys + tableAt.Keys + {d} + Rest(m, d, i)
        invariant 0 !in pool.tables && pool.pages == old(pool.pages)
      {
        RestNext(m, d, i);
        if pgdir[i].Table? {
          pool.KptFree(pgdir[i].t);
        }
      }
      RestNone(m, d);
      pool.KptFree(d);
    }

    /** A new address space without pages. */
    method OpenDir() returns (r: Maybe)
      requires Valid()
      modifies Rep(), this`dir, this`flat
      ensures r.None? <==> old(Left()) == Stock(0, 0, 0)
      ensures r.Some? ==> Valid() && TableMade(old(Left()), Left())
      ensures r.Some? ==> r.v !in old(dir) && dir == old(dir)[r.v := EmptyDirectory()] && flat == old(flat)[r.v := []]
    {
      hide Formed, FramesOnce, Lookup, AllFlat, Pool.Valid, Pool.Free, Pool.Room;
      ghost var m := M();
      r := pool.KptAlloc();
      if r.None? { return; }
      OpenFlat(m, r.v, flat);
      dir := dir[r.v := EmptyDirectory()];
      flat := flat[r.v := []];
      assert M() == Opened(m, r.v);
    }

    /** One turn of the loop of copyuvm.  The page it copies is mapped, so neither of
        its panics can happen. */
    method CopyOne(d: nat, d2: nat, i: nat, ghost flat0: map<nat, seq<Mapping>>, ghost keys: set<nat>,
                   ghost page0: map<nat, Page>) returns (got: bool, ok: bool)
      requires Valid() && d in dir && d2 in dir && Copying(flat0, flat, d, d2, i, keys, page0, page)
      requires i < |flat0[d]| <= PAGES
      requires keys <= frameAt.Keys && InKeys(flat0[d], keys) && keys <= page0.Keys
      modifies this, Rep()
      ensures |old(dir)[d2]| == NUM && (i % NUM != 0 ==> old(dir)[d2][i / NUM].Table?)
      ensures !ok <==> old(Left()) == Stock(1, 0, 0) && old(dir)[d2][i / NUM].NoTable?
      ensures ok ==> (!got <==> old(Left()).free == 0)
      ensures ok ==> Valid() && dir.Keys == old(dir).Keys && |dir[d2]| == NUM
      ensures ok ==> keys <= frameAt.Keys && Copying(flat0, flat, d, d2, if got then i + 1 else i, keys, page0, page)
      ensures ok && got ==> PageMade(old(Left()), Left(), old(dir)[d2][i / NUM].NoTable?)
      ensures ok && got ==> forall k | 0 <= k < NUM && k != i / NUM :: dir[d2][k] == old(dir)[d2][k]
    {
      hide Formed, FramesOnce, Lookup, AllFlat, SamePages, Copying, InKeys, HeldBut, Left, PageMade;
      CopyingParts(flat0, flat, d, d2, i, keys, page0, page);
      HeldSound({});
      TabledAt(d2);
      var content, ap := SourceOf(d, i);
      InKeysAt(flat0[d], keys, i);
      ghost var flat1, page1, frameAt1 := flat, page, frameAt.Keys;
      KeysOf(M(), flat, d2);
      var mem;
      mem, ok := AddPage(d2, i, content, ap);
      got := mem.Some?;
      if ok && got {
        NotInKeys(flat1[d2], frameAt1, mem.v);
        CopyingNext(flat0, flat1, d, d2, i, keys, page0, page1, mem.v);
      }
    }

    /** What a mapped page holds, found through its page table. */
    method SourceOf(d: nat, i: nat) returns (content: Page, ap: nat)
      requires Valid() && d in dir && d in flat && i < |flat[d]|
      ensures flat[d][i].frame in page && content == page[flat[d][i].frame] && ap == flat[d][i].ap
    {
      hide Formed, FramesOnce, AllFlat, Lookup, HeldBut;
      HeldSound({});
      SourcePage(M(), flat, d, i);
      Entry(M(), d, i);
      FrameKnown(M(), d, i);
      var pte := tab[dir[d][i / NUM].t][i % NUM];
      return page[pte.frame], pte.ap;
    }

    /** Copies an address space, page by page, exactly when there is enough memory for the
        pages, their page tables and the directory.  If it runs out at a page, there is no
        copy, and the other address spaces are as they were; if at the directory or a page
        table, not `ok`, it is a panic. */
    method CopyUvm(d: nat, sz: nat) returns (r: Maybe, ok: bool)
      requires Valid() && d in dir && |flat[d]| == Pages(sz) && sz < UADDR_SZ
      modifies this, Rep()
      ensures ok ==> Valid() && SamePages(old(frameAt).Keys, old(page), page)
      ensures ok && r.Some? ==> r.v !in old(dir) && dir.Keys == old(dir).Keys + {r.v}
      ensures ok && r.Some? ==> Copying(old(flat), flat, d, r.v, Pages(sz), old(frameAt).Keys, old(page), page)
      ensures ok && r.None? ==> flat == old(flat) && frameAt == old(frameAt) && dir.Keys == old(dir).Keys
      ensures Pages(sz) <= PAGES
      ensures ok && r.Some? <==> Enough(Pages(sz), 1 + TablesFor(Pages(sz)), old(Left()))
      ensures !ok <==> !Enough(0, 1, old(Left())) || TableShort(EmptyDirectory(), 1, 0, Pages(sz), old(Left()))
    {
      hide Formed, FramesOnce, Lookup, AllFlat, Pages, SamePages, Copying, InKeys, HeldBut, Left, Enough, Missing,
        TablesFor, TableShort, Suffices, Going;
      HeldParts();
      PagesOrder(0, sz);
      ghost var m, flat0, page0, keys := M(), flat, page, frameAt.Keys;
      KeysOf(m, flat, d);
      EnoughDirectory(Pages(sz), Left());
      var dd := OpenDir();
      if dd.None? { return None, false; }
      GoingOpened(old(Left()), Left());
      CopyingStart(flat0, d, dd.v, keys, page0);
      var done; ghost var i;
      done, ok, i := CopyPages(d, dd.v, sz, flat0, keys, page0, old(Left()));
      if !ok { return None, false; }
      CopyingParts(flat0, flat, d, dd.v, i, keys, page0, page);
      if !done {
        Discard(dd.v, m, flat0);
        return None, true;
      }
      return dd, true;
    }

    /** The loop of copyuvm. */
    method CopyPages(d: nat, d2: nat, sz: nat, ghost flat0: map<nat, seq<Mapping>>, ghost keys: set<nat>,
                     ghost page0: map<nat, Page>, ghost st0: Stock)
      returns (done: bool, ok: bool, ghost i: nat)
      requires Valid() && d in dir && d2 in dir && sz < UADDR_SZ
      requires Copying(flat0, flat, d, d2, 0, keys, page0, page) && |flat0[d]| == Pages(sz)
      requires keys <= frameAt.Keys && InKeys(flat0[d], keys) && keys <= page0.Keys
      requires Going(dir[d2], dir[d2], 1, 0, 0, st0, Left())
      modifies this, Rep()
      ensures |old(dir)[d2]| == NUM && Pages(sz) <= PAGES
      ensures ok ==> Valid() && dir.Keys == old(dir).Keys
      ensures ok ==> Copying(flat0, flat, d, d2, i, keys, page0, page) && (done ==> i == Pages(sz))
      ensures ok && done <==> Suffices(old(dir)[d2], 1, 0, Pages(sz), st0)
      ensures !ok <==> TableShort(old(dir)[d2], 1, 0, Pages(sz), st0)
    {
      hide Formed, FramesOnce, Lookup, AllFlat, Pages, SamePages, Copying, InKeys, HeldBut, Left, Going, PageMade,
        TableShort, Suffices;
      PagesOrder(0, sz);
      TabledAt(d2);
      ghost var dd0, n := dir[d2], Pages(sz);
      var a := 0;
      while a * PTE_SZ < sz
        invariant Valid() && dir.Keys == old(dir).Keys && |dir[d2]| == NUM && keys <= frameAt.Keys && a <= n
        invariant Copying(flat0, flat, d, d2, a, keys, page0, page)
        invariant Going(dd0, dir[d2], 1, 0, a, st0, Left())
        decreases sz - a * PTE_SZ
      {
        PagesReach(sz, a);
        ghost var dd, st := dir[d2], Left();
        var got;
        got, ok := CopyOne(d, d2, a, flat0, keys, page0);
        if !ok || !got {
          GoingFails(dd0, dd, 1, 0, a, n, st0, st);
          return false, ok, a;
        }
        GoingNext(dd0, dd, dir[d2], 1, 0, a, st0, st, Left());
        a := a + 1;
      }
      PagesDone(sz, a);
      GoingSoFar(dd0, dir[d2], 1, 0, a, st0, Left());
      return true, true, a;
    }

    /** The way back when copyuvm runs out of memory. */
    method Discard(d2: nat, ghost m: Memory, ghost flat0: map<nat, seq<Mapping>>)
      requires Valid() && d2 in dir && d2 !in flat0 && d2 in flat && flat == flat0[d2 := flat[d2]]
      requires Sound(m) && AllFlat(m, flat0)
      modifies this`dir, this`tab, Rep(), this`tableAt, this`frameAt, this`flat
      ensures Valid() && flat == flat0 && frameAt == m.frameAt && dir.Keys == old(dir).Keys - {d2}
    {
      hide Formed, FramesOnce, Lookup, AllFlat, Pool.Valid;
      FreeVm(d2);
      assert flat == flat0;
      FramesDeterminedByFlat(m, M(), flat);
    }

    /** sbrk for a process of `sz` bytes: its new size, and 0 or -1.  Growing works exactly
        when there is enough memory, and panics as `AllocUvm` does.  The recorded size
        matches the address space afterwards except when the whole of it is given
        back: deallocuvm then answers 0, which growproc takes for a failure. */
    method GrowProc(d: nat, sz: nat, n: int) returns (sz': nat, r: int, ok: bool)
      requires Valid() && d in dir && |flat[d]| == Pages(sz) && sz < UADDR_SZ && -0x8000_0000 <= n < 0x8000_0000
      modifies this, Rep()
      ensures ok ==> Valid() && dir.Keys == old(dir).Keys
      ensures ok ==> (d in flat && |flat[d]| == Pages(sz') <==> !(n < 0 && sz == -n))
      ensures ok ==> sz' == if r == 0 && sz + n >= 0 then sz + n else sz
      ensures ok ==> (r == 0 || r == -1) && (n > 0 && r == -1 ==> flat == old(flat))
      ensures n > 0 && sz + n >= UADDR_SZ ==> ok && r == -1
      ensures n > 0 && sz + n < UADDR_SZ ==>
        && |old(dir)[d]| == NUM && Pages(sz) <= Pages(sz + n) <= PAGES
        && (!ok <==> TableShort(old(dir)[d], 0, Pages(sz), Pages(sz + n), old(Left())))
        && (ok && r == 0 <==> Suffices(old(dir)[d], 0, Pages(sz), Pages(sz + n), old(Left())))
      ensures n <= 0 ==> ok && (r == -1 <==> n < 0 && (sz + n == 0 || sz == 0))
      ensures d in old(flat) && (ok ==> d in flat && flat == old(flat)[d := flat[d]])
      ensures ok ==> SamePages(old(frameAt).Keys, old(page), page)
      ensures ok && n > 0 && r == 0 ==> GrownTo(old(flat)[d], flat, d, Pages(sz + n), page)
      ensures n < 0 ==> flat[d] == Cut(old(flat)[d], Pages((sz + n) % WORD))
      ensures n == 0 ==> flat == old(flat) && frameAt == old(frameAt)
    {
      hide Formed, FramesOnce, Lookup, AllFlat, GrownTo, SamePages, HeldBut, Left, TableShort, Suffices;
      SameSelf(frameAt.Keys, page);
      assert d in flat by { HeldSound({}); FlatHas(M(), flat, d); }
      PagesPositive(sz);
      var newsz := (sz + n) % WORD;
      sz', ok := sz, true;
      if n > 0 {
        PagesOrder(sz, newsz);
        sz', ok := AllocUvm(d, sz, newsz);
        if !ok { return sz, -1, false; }
        if sz' == 0 { return sz, -1, true; }
        assert |flat[d]| == Pages(newsz) by { GrownLength(old(flat)[d], flat, d, Pages(newsz), page); }
      } else if n < 0 {
        if newsz < sz { PagesOrder(newsz, sz); } else { PagesOrder(sz, newsz); }
        sz' := Shrink(d, sz, newsz);
        if sz' == 0 { return sz, -1, true; }
      }
      return sz', 0, true;
    }
  }

  lemma NoSpaces()
    ensures var m := Memory(map[], map[], map[], map[]); Sound(m) && AllFlat(m, map[])
  {
  }

  lemma EnoughDirectory(pages: nat, st: Stock)
    requires pages <= PAGES
    ensures st == Stock(0, 0, 0) <==> !Enough(0, 1, st)
    ensures Enough(pages, 1 + TablesFor(pages), st) <==> Suffices(EmptyDirectory(), 1, 0, pages, st)
    ensures !Enough(0, 1, st) ==> !Enough(pages, 1 + TablesFor(pages), st)
  {
    TablesOrder(pages, pages);
    MissingAll(TablesFor(pages));
  }

  lemma GoingOpened(st: Stock, st': Stock)
    requires TableMade(st, st')
    ensures Going(EmptyDirectory(), EmptyDirectory(), 1, 0, 0, st, st')
  {
  }

  lemma GrownLength(fl: seq<Mapping>, flat: map<nat, seq<Mapping>>, d: nat, n: nat, page: map<nat, Page>)
    requires GrownTo(fl, flat, d, n, page)
    ensures d in flat && |flat[d]| == n
  {
  }

  lemma PagesPositive(sz: nat)
    ensures Pages(sz) == 0 <==> sz == 0
  {
  }

  /** A mapped page that deallocuvm leaves mapped, since tables do not form a prefix. */
  lemma SkipExample() returns (m: Memory)
    ensures Sound(m) && 1 in m.dir && Skipped(m.dir[1], 0, 256) && Lookup(m, 1, 256).Present?
    ensures forall m' :: Cleared(m, m', 1, 0, 257) ==> Lookup(m', 1, 256).Present?
  {
    var m0 := Memory(map[], map[], map[], map[]);
    OpenSound(m0, 1);
    var m1 := Opened(m0, 1);
    TableSound(m1, 1, 1, 7);
    var m2 := Tabled(m1, 1, 1, 7);
    assert Lookup(m2, 1, 256) == Lookup(m1, 1, 256) == Absent;
    MapSound(m2, 1, 256, 9, AP_KU);
    m := Mapped(m2, 1, 256, 9, AP_KU);
    forall m' | Cleared(m, m', 1, 0, 257) ensures Lookup(m', 1, 256).Present? {
      assert Lookup(m', 1, 256) == Lookup(m, 1, 256);
    }
  }

  lemma OpenFlat(m: Memory, d: nat, flat: map<nat, seq<Mapping>>)
    requires Sound(m) && AllFlat(m, flat) && d !in m.dir
    ensures Sound(Opened(m, d)) && AllFlat(Opened(m, d), flat[d := []])
  {
    hide Lookup, Formed, FramesOnce;
    OpenSound(m, d);
    var m' := Opened(m, d);
    forall d' | d' in m'.dir ensures Flat(m', d', flat[d := []][d']) {
      if d' != d { assert Flat(m, d', flat[d']); }
    }
  }

  /** The first `i` pages of `d` as of `flat0` are copied to the new space `d2`: other
      frames, the same contents and permissions. */
  ghost predicate Copying(flat0: map<nat, seq<Mapping>>, flat: map<nat, seq<Mapping>>, d: nat, d2: nat, i: nat,
                          keys: set<nat>, page0: map<nat, Page>, page: map<nat, Page>)
  {
    && d in flat0 && d2 !in flat0 && d2 in flat && flat == flat0[d2 := flat[d2]] && |flat[d2]| == i <= |flat0[d]|
    && SamePages(keys, page0, page)
    && forall q | 0 <= q < i :: CopiedPage(flat0[d][q], flat[d2][q], keys, page0, page)
  }

  ghost predicate CopiedPage(from: Mapping, to: Mapping, keys: set<nat>, page0: map<nat, Page>, page: map<nat, Page>) {
    to.ap == from.ap && to.frame !in keys && from.frame in page0 && to.frame in page &&
      page[to.frame] == page0[from.frame]
  }

  lemma CopyingStart(flat: map<nat, seq<Mapping>>, d: nat, d2: nat, keys: set<nat>, page: map<nat, Page>)
    requires d in flat && d2 !in flat
    ensures Copying(flat, flat[d2 := []], d, d2, 0, keys, page, page)
  {
    SameSelf(keys, page);
  }

  lemma CopyingParts(flat0: map<nat, seq<Mapping>>, flat: map<nat, seq<Mapping>>, d: nat, d2: nat, i: nat,
                     keys: set<nat>, page0: map<nat, Page>, page: map<nat, Page>)
    requires Copying(flat0, flat, d, d2, i, keys, page0, page)
    ensures d in flat0 && d2 !in flat0 && d2 in flat && flat == flat0[d2 := flat[d2]] && |flat[d2]| == i
    ensures SamePages(keys, page0, page)
    ensures d != d2 && d in flat && flat[d] == flat0[d]
  {
  }

  lemma CopyingNext(flat0: map<nat, seq<Mapping>>, flat: map<nat, seq<Mapping>>, d: nat, d2: nat, i: nat,
                    keys: set<nat>, page0: map<nat, Page>, page: map<nat, Page>, f: nat)
    requires Copying(flat0, flat, d, d2, i, keys, page0, page) && i < |flat0[d]| && f !in keys
    requires (forall q | 0 <= q < i :: flat[d2][q].frame != f)
    requires flat0[d][i].frame in keys && flat0[d][i].frame in page0 && flat0[d][i].frame in page
    ensures Copying(flat0, flat[d2 := flat[d2] + [Mapping(f, flat0[d][i].ap)]], d, d2, i + 1, keys, page0,
      page[f := page[flat0[d][i].frame]])
  {
    var content := page[flat0[d][i].frame];
    SameNext(keys, page0, page, f, content);
    Update(flat0, flat, d2, flat[d2] + [Mapping(f, flat0[d][i].ap)]);
  }

  ghost predicate InKeys(fl: seq<Mapping>, keys: set<nat>) { forall q | 0 <= q < |fl| :: fl[q].frame in keys }

  lemma InKeysAt(fl: seq<Mapping>, keys: set<nat>, i: nat)
    requires InKeys(fl, keys) && i < |fl|
    ensures fl[i].frame in keys
  {
  }

  lemma NotInKeys(fl: seq<Mapping>, keys: set<nat>, f: nat)
    requires InKeys(fl, keys) && f !in keys
    ensures forall q | 0 <= q < |fl| :: fl[q].frame != f
  {
  }

  lemma KeysOf(m: Memory, flat: map<nat, seq<Mapping>>, d: nat)
    requires Sound(m) && AllFlat(m, flat) && d in m.dir
    ensures d in flat && |flat[d]| <= PAGES && InKeys(flat[d], m.frameAt.Keys)
  {
    hide Lookup, Formed;
    assert Flat(m, d, flat[d]);
    forall q: nat | q < |flat[d]| ensures flat[d][q].frame in m.frameAt {
      assert Lookup(m, d, q) == FlatAt(flat[d], q);
    }
  }

  lemma SourcePage(m: Memory, flat: map<nat, seq<Mapping>>, d: nat, i: nat)
    requires Formed(m) && AllFlat(m, flat) && d in m.dir && i < |flat[d]|
    ensures i < PAGES && Lookup(m, d, i) == Present(flat[d][i].frame, flat[d][i].ap)
  {
    assert Flat(m, d, flat[d]);
    assert Lookup(m, d, i) == FlatAt(flat[d], i);
  }

  ghost function FramesOf(fl: seq<Mapping>): set<nat> { set q | 0 <= q < |fl| :: fl[q].frame }

  /** The tables of `d` from entry `i` on. */
  ghost function Rest(m: Memory, d: nat, i: nat): set<nat> {
    set t | t in m.tableAt && m.tableAt[t].d == d && m.tableAt[t].i >= i
  }

  lemma RestAll(m: Memory, d: nat)
    requires Formed(m) && d in m.dir
    ensures m.dir.Keys + m.tableAt.Keys == Closed(m, d).dir.Keys + Closed(m, d).tableAt.Keys + {d} + Rest(m, d, 0)
  {
  }

  lemma RestNext(m: Memory, d: nat, i: nat)
    requires Formed(m) && d in m.dir && i < NUM && m.dir.Keys !! m.tableAt.Keys
    ensures m.dir[d][i].Table? ==> var t := m.dir[d][i].t;
      t in Rest(m, d, i) && t != d && t !in m.dir && t !in Closed(m, d).tableAt &&
        Rest(m, d, i + 1) == Rest(m, d, i) - {t}
    ensures m.dir[d][i].NoTable? ==> Rest(m, d, i + 1) == Rest(m, d, i)
  {
    forall t | t in Rest(m, d, i) && t !in Rest(m, d, i + 1) ensures m.dir[d][i] == Table(t) { }
  }

  lemma RestNone(m: Memory, d: nat)
    requires Formed(m) && d in m.dir
    ensures Rest(m, d, NUM) == {}
  {
  }

  lemma EmptyFlat(m: Memory, flat: map<nat, seq<Mapping>>, d: nat)
    requires Formed(m) && AllFlat(m, flat) && d in m.dir && flat[d] == []
    ensures forall q: nat | q < PAGES :: Lookup(m, d, q) == Absent
  {
    hide Lookup, Formed;
    assert Flat(m, d, flat[d]);
    forall q: nat | q < PAGES ensures Lookup(m, d, q) == Absent { assert Lookup(m, d, q) == FlatAt(flat[d], q); }
  }

  lemma CloseFlat(m: Memory, flat: map<nat, seq<Mapping>>, d: nat)
    requires Sound(m) && AllFlat(m, flat) && d in m.dir && flat[d] == []
    ensures Sound(Closed(m, d)) && AllFlat(Closed(m, d), flat - {d})
  {
    hide Lookup, Formed, FramesOnce;
    EmptyFlat(m, flat, d);
    CloseSound(m, d);
    var m' := Closed(m, d);
    forall d' | d' in m'.dir ensures Flat(m', d', flat[d']) { assert Flat(m, d', flat[d']); }
  }

  /** Emptying one address space frees exactly its frames. */
  lemma EmptiedFrames(m0: Memory, flat0: map<nat, seq<Mapping>>, m: Memory, flat: map<nat, seq<Mapping>>, d: nat)
    requires Sound(m0) && AllFlat(m0, flat0) && Sound(m) && AllFlat(m, flat) && d in m0.dir && m.dir.Keys == m0.dir.Keys
    requires flat == flat0[d := []]
    ensures m.frameAt.Keys == m0.frameAt.Keys - FramesOf(flat0[d])
  {
    hide Lookup, Formed, FramesOnce, FramesOf;
    forall f: nat ensures f in m.frameAt <==> f in m0.frameAt && f !in FramesOf(flat0[d]) {
      FrameIn(m0, flat0, f);
      FrameIn(m, flat, f);
      if f in m0.frameAt { FramesOfIs(m0, flat0, f, d); }
    }
  }

  ghost predicate InFlat(flat: map<nat, seq<Mapping>>, f: nat, d: nat, q: nat) {
    d in flat && q < |flat[d]| && flat[d][q].frame == f
  }

  lemma FrameIn(m: Memory, flat: map<nat, seq<Mapping>>, f: nat)
    requires Sound(m) && AllFlat(m, flat)
    ensures f in m.frameAt ==> InFlat(flat, f, m.frameAt[f].d, m.frameAt[f].i)
    ensures forall d: nat, q: nat :: InFlat(flat, f, d, q) ==> f in m.frameAt && m.frameAt[f] == Place(d, q)
  {
    if f in m.frameAt {
      assert Flat(m, m.frameAt[f].d, flat[m.frameAt[f].d]);
      assert Lookup(m, m.frameAt[f].d, m.frameAt[f].i) == FlatAt(flat[m.frameAt[f].d], m.frameAt[f].i);
    }
    hide Lookup, Formed;
    forall d: nat, q: nat | InFlat(flat, f, d, q) ensures f in m.frameAt && m.frameAt[f] == Place(d, q) {
      assert Flat(m, d, flat[d]);
      assert Lookup(m, d, q) == FlatAt(flat[d], q);
    }
  }

  lemma FramesOfIs(m: Memory, flat: map<nat, seq<Mapping>>, f: nat, d: nat)
    requires Sound(m) && AllFlat(m, flat) && f in m.frameAt && d in m.dir
    ensures f in FramesOf(flat[d]) <==> m.frameAt[f].d == d
  {
    hide Lookup, Formed, FramesOnce;
    FrameIn(m, flat, f);
    if f in FramesOf(flat[d]) {
      var q :| 0 <= q < |flat[d]| && flat[d][q].frame == f;
      assert InFlat(flat, f, d, q);
    }
  }

  /** An address space on its way from `flat0` to `a` pages. */
  ghost predicate Growing(flat0: map<nat, seq<Mapping>>, flat: map<nat, seq<Mapping>>, d: nat, a: nat, keys: set<nat>,
                          page0: map<nat, Page>, page: map<nat, Page>)
  {
    && d in flat0 && d in flat && flat == flat0[d := flat[d]] && flat0[d] <= flat[d] && |flat[d]| == a
    && GrownTo(flat0[d], flat, d, a, page) && SamePages(keys, page0, page)
  }

  lemma GrowingStart(flat: map<nat, seq<Mapping>>, d: nat, keys: set<nat>, page: map<nat, Page>)
    requires d in flat
    ensures Growing(flat, flat, d, |flat[d]|, keys, page, page)
  {
    SameSelf(keys, page);
    GrownStart(flat, d, page);
  }

  lemma GrowingLength(flat0: map<nat, seq<Mapping>>, flat: map<nat, seq<Mapping>>, d: nat, a: nat, keys: set<nat>,
                      page0: map<nat, Page>, page: map<nat, Page>)
    requires Growing(flat0, flat, d, a, keys, page0, page)
    ensures d in flat && |flat[d]| == a
  {
  }

  lemma GrowingPages(flat0: map<nat, seq<Mapping>>, flat: map<nat, seq<Mapping>>, d: nat, a: nat, keys: set<nat>,
                     page0: map<nat, Page>, page: map<nat, Page>)
    requires Growing(flat0, flat, d, a, keys, page0, page)
    ensures SamePages(keys, page0, page) && d in flat0 && d in flat && flat == flat0[d := flat[d]]
    ensures GrownTo(flat0[d], flat, d, a, page)
  {
  }

  lemma GrowingNext(flat0: map<nat, seq<Mapping>>, flat: map<nat, seq<Mapping>>, d: nat, a: nat, keys: set<nat>,
                    page0: map<nat, Page>, page: map<nat, Page>, f: nat)
    requires Growing(flat0, flat, d, a, keys, page0, page) && f !in keys
    ensures Growing(flat0, flat[d := flat[d] + [Mapping(f, AP_KU)]], d, a + 1, keys, page0, page[f := ZeroPage()])
  {
    hide GrownTo, SamePages, ZeroPage;
    GrownNext(flat0[d], flat, d, a, page, f);
    SameNext(keys, page0, page, f, ZeroPage());
    Update(flat0, flat, d, flat[d] + [Mapping(f, AP_KU)]);
  }

  /** The frames of `keys` have the same contents. */
  ghost predicate SamePages(keys: set<nat>, page: map<nat, Page>, page': map<nat, Page>) {
    forall f | f in keys && f in page :: f in page' && page'[f] == page[f]
  }

  lemma SameSelf(keys: set<nat>, page: map<nat, Page>)
    ensures SamePages(keys, page, page)
  {
  }

  lemma SameNext(keys: set<nat>, page: map<nat, Page>, page': map<nat, Page>, f: nat, content: Page)
    requires SamePages(keys, page, page') && f !in keys
    ensures SamePages(keys, page, page'[f := content])
  {
  }

  /** The first pages as before, the others zeroed and open to the user. */
  ghost predicate GrownTo(fl: seq<Mapping>, flat: map<nat, seq<Mapping>>, d: nat, n: nat, page: map<nat, Page>) {
    && d in flat && |flat[d]| == n && fl <= flat[d]
    && forall q | |fl| <= q < n ::
        flat[d][q].ap == AP_KU && flat[d][q].frame in page && page[flat[d][q].frame] == ZeroPage()
  }

  lemma CutBack(flat: map<nat, seq<Mapping>>, flat': map<nat, seq<Mapping>>, d: nat, n: nat)
    requires d in flat && d in flat' && flat' == flat[d := flat'[d]] && flat[d] <= flat'[d] && |flat[d]| == n
    ensures flat'[d := Cut(flat'[d], n)] == flat
  {
    assert Cut(flat'[d], n) == flat[d];
  }

  lemma Update(flat: map<nat, seq<Mapping>>, flat': map<nat, seq<Mapping>>, d: nat, fl: seq<Mapping>)
    requires d in flat' && flat' == flat[d := flat'[d]]
    ensures flat'[d := fl] == flat[d := fl]
  {
  }

  lemma GrownStart(flat: map<nat, seq<Mapping>>, d: nat, page: map<nat, Page>)
    requires d in flat
    ensures GrownTo(flat[d], flat, d, |flat[d]|, page)
  {
  }

  lemma GrownNext(fl: seq<Mapping>, flat: map<nat, seq<Mapping>>, d: nat, n: nat, page: map<nat, Page>, f: nat)
    requires GrownTo(fl, flat, d, n, page)
    ensures GrownTo(fl, flat[d := flat[d] + [Mapping(f, AP_KU)]], d, n + 1, page[f := ZeroPage()])
  {
  }

  lemma FlatHas(m: Memory, flat: map<nat, seq<Mapping>>, d: nat)
    requires Formed(m) && AllFlat(m, flat) && d in m.dir
    ensures d in flat && |flat[d]| <= PAGES
  {
    assert Flat(m, d, flat[d]);
  }

  lemma FramesDeterminedByFlat(m: Memory, m': Memory, flat: map<nat, seq<Mapping>>)
    requires Sound(m) && Sound(m') && AllFlat(m, flat) && AllFlat(m', flat)
    ensures m'.frameAt == m.frameAt
  {
    hide Formed, FramesOnce, Lookup;
    forall d, q: nat | d in m.dir && q < PAGES ensures Lookup(m', d, q) == Lookup(m, d, q) {
      assert Flat(m, d, flat[d]) && Flat(m', d, flat[d]);
      assert Lookup(m, d, q) == FlatAt(flat[d], q) == Lookup(m', d, q);
    }
    FramesDetermined(m, m');
  }

  lemma PagesOrder(a: nat, b: nat)
    requires a <= b
    ensures Pages(a) <= Pages(b) && (b < UADDR_SZ ==> Pages(b) <= PAGES)
  {
  }

  lemma PagesReach(sz: nat, a: nat)
    requires a * PTE_SZ < sz < UADDR_SZ
    ensures a < Pages(sz) <= PAGES
  {
  }

  lemma PagesDone(sz: nat, a: nat)
    requires a <= Pages(sz) && a * PTE_SZ >= sz
    ensures a == Pages(sz)
  {
  }

  function Least(a: nat, b: nat): nat { if a < b then a else b }

  lemma NotSkipped(dd: seq<Pde>, s: nat, a: nat)
    requires |dd| == NUM && a < PAGES
    ensures a <= s ==> !Skipped(dd, s, a)
    ensures dd[a / NUM].Table? && a + 1 < PAGES ==> !Skipped(dd, s, a + 1)
    ensures var b := (a + NUM - 1) / NUM * NUM + 1; b < PAGES ==> !Skipped(dd, s, b)
  {
  }

  lemma FrameKnown(m: Memory, d: nat, q: nat)
    requires Sound(m) && d in m.dir && q < PAGES && Lookup(m, d, q).Present?
    ensures Lookup(m, d, q).frame in m.frameAt
  {
  }

  /** What the entry of a page holds. */
  lemma Entry(m: Memory, d: nat, q: nat)
    requires Formed(m) && d in m.dir && q < PAGES
    ensures |m.dir[d]| == NUM
    ensures m.dir[d][q / NUM].Table? ==>
      var t := m.dir[d][q / NUM].t; t in m.tab && |m.tab[t]| == NUM && m.tab[t][q % NUM] == Lookup(m, d, q)
    ensures m.dir[d][q / NUM].NoTable? ==> Lookup(m, d, q) == Absent
  {
  }

  lemma PageAfter(m: Memory, d: nat, flat: map<nat, seq<Mapping>>)
    requires Formed(m) && AllFlat(m, flat) && d in m.dir && |flat[d]| < PAGES
    ensures d in flat && Lookup(m, d, |flat[d]|) == Absent
  {
    assert Flat(m, d, flat[d]);
    assert Lookup(m, d, |flat[d]|) == FlatAt(flat[d], |flat[d]|);
  }
}
