/** Two-level page tables as one map from pages to frames. */
module PageTable {

  /** Entries of a directory, and of a page table. */
  const NUM: nat := 256
  /** Pages of the user part of an address space. */
  const PAGES: nat := 65536

  datatype Pde = NoTable | Table(t: nat)
  datatype Pte = Absent | Present(frame: nat, ap: nat)

  /** Entry `i` of directory, or page `i` of address space, `d`. */
  datatype Place = Place(d: nat, i: nat)

  /** Directories and tables by address, and for every table and frame in use
      the one place that refers to it. */
  datatype Memory = Memory(dir: map<nat, seq<Pde>>, tab: map<nat, seq<Pte>>, tableAt: map<nat, Place>,
    frameAt: map<nat, Place>)

  ghost predicate Shape(m: Memory) {
    && (forall d | d in m.dir :: |m.dir[d]| == NUM)
    && (forall t | t in m.tab :: |m.tab[t]| == NUM)
  }

  /** Every table belongs to one entry of one directory. */
  ghost predicate TablesOnce(m: Memory)
    requires Shape(m)
  {
    && (forall d, i: nat | d in m.dir && i < NUM && m.dir[d][i].Table? ::
          m.dir[d][i].t in m.tab && m.dir[d][i].t in m.tableAt && m.tableAt[m.dir[d][i].t] == Place(d, i))
    && (forall t | t in m.tableAt ::
          m.tableAt[t].d in m.dir && m.tableAt[t].i < NUM && m.dir[m.tableAt[t].d][m.tableAt[t].i] == Table(t))
  }

  ghost predicate Formed(m: Memory) { Shape(m) && TablesOnce(m) }

  ghost function Lookup(m: Memory, d: nat, q: nat): Pte
    requires Formed(m) && d in m.dir && q < PAGES
  {
    if m.dir[d][q / NUM].NoTable? then Absent else m.tab[m.dir[d][q / NUM].t][q % NUM]
  }

  /** How the processor finds the page of an address: bits 20 and up pick the page table,
      bits 12 to 19 its entry. */
  lemma Walk(m: Memory, d: nat, va: nat)
    requires Formed(m) && d in m.dir && va < 0x1000_0000
    ensures |m.dir[d]| == 256
    ensures Lookup(m, d, va / 0x1000) ==
      if m.dir[d][va / 0x10_0000].NoTable? then Absent else m.tab[m.dir[d][va / 0x10_0000].t][va / 0x1000 % 0x100]
  {
    assert va / 0x1000 / 0x100 == va / 0x10_0000;
  }

  /** Every frame is mapped at one page of one address space. */
  ghost predicate FramesOnce(m: Memory)
    requires Formed(m)
  {
    && (forall d, q: nat | d in m.dir && q < PAGES && Lookup(m, d, q).Present? ::
          Lookup(m, d, q).frame in m.frameAt && m.frameAt[Lookup(m, d, q).frame] == Place(d, q))
    && (forall f | f in m.frameAt ::
          m.frameAt[f].d in m.dir && m.frameAt[f].i < PAGES
          && Lookup(m, m.frameAt[f].d, m.frameAt[f].i).Present? && Lookup(m, m.frameAt[f].d, m.frameAt[f].i).frame == f)
  }

  ghost predicate Sound(m: Memory) { Formed(m) && FramesOnce(m) }

  // ---- one entry changes -------------------------------------------------------------

  ghost function SetPte(m: Memory, d: nat, q: nat, pte: Pte): Memory
    requires Formed(m) && d in m.dir && q < PAGES && m.dir[d][q / NUM].Table?
  {
    var t := m.dir[d][q / NUM].t;
    m.(tab := m.tab[t := m.tab[t][q % NUM := pte]])
  }

  lemma SetFormed(m: Memory, d: nat, q: nat, pte: Pte)
    requires Formed(m) && d in m.dir && q < PAGES && m.dir[d][q / NUM].Table?
    ensures Formed(SetPte(m, d, q, pte))
  {
  }

  /** Writing one entry changes the mapping of that page and of no other, in any
      address space. */
  lemma SetLookup(m: Memory, d: nat, q: nat, pte: Pte, d': nat, q': nat)
    requires Formed(m) && d in m.dir && q < PAGES && m.dir[d][q / NUM].Table? && d' in m.dir && q' < PAGES
    ensures Formed(SetPte(m, d, q, pte))
    ensures Lookup(SetPte(m, d, q, pte), d', q') == if d' == d && q' == q then pte else Lookup(m, d', q')
  {
    SetFormed(m, d, q, pte);
    assert q == q / NUM * NUM + q % NUM && q' == q' / NUM * NUM + q' % NUM;
    hide Shape;
    if m.dir[d'][q' / NUM].Table? && m.dir[d'][q' / NUM].t == m.dir[d][q / NUM].t {
      assert Place(d', q' / NUM) == Place(d, q / NUM);
    }
  }

  /** Mapping a frame that is mapped nowhere. */
  ghost function Mapped(m: Memory, d: nat, q: nat, f: nat, ap: nat): Memory
    requires Formed(m) && d in m.dir && q < PAGES && m.dir[d][q / NUM].Table?
  {
    SetPte(m, d, q, Present(f, ap)).(frameAt := m.frameAt[f := Place(d, q)])
  }

  lemma MapSound(m: Memory, d: nat, q: nat, f: nat, ap: nat)
    requires Sound(m) && d in m.dir && q < PAGES && m.dir[d][q / NUM].Table? && f !in m.frameAt
    requires Lookup(m, d, q).Absent?
    ensures Sound(Mapped(m, d, q, f, ap))
  {
    hide Lookup, Formed;
    var m' := Mapped(m, d, q, f, ap);
    EntryOf(m, d, q, Present(f, ap), m');
  }

  ghost function Unmapped(m: Memory, d: nat, q: nat): Memory
    requires Formed(m) && d in m.dir && q < PAGES && m.dir[d][q / NUM].Table? && Lookup(m, d, q).Present?
  {
    SetPte(m, d, q, Absent).(frameAt := m.frameAt - {Lookup(m, d, q).frame})
  }

  lemma UnmapSound(m: Memory, d: nat, q: nat)
    requires Sound(m) && d in m.dir && q < PAGES && m.dir[d][q / NUM].Table? && Lookup(m, d, q).Present?
    ensures Sound(Unmapped(m, d, q))
  {
    hide Lookup, Formed;
    var m' := Unmapped(m, d, q);
    EntryOf(m, d, q, Absent, m');
  }

  /** `SetLookup` for all pages, whatever is recorded about frames. */
  lemma EntryOf(m: Memory, d: nat, q: nat, pte: Pte, m': Memory)
    requires Formed(m) && d in m.dir && q < PAGES && m.dir[d][q / NUM].Table?
    requires m' == SetPte(m, d, q, pte).(frameAt := m'.frameAt)
    ensures Formed(m') && forall d', q': nat | d' in m.dir && q' < PAGES ::
      Lookup(m', d', q') == if d' == d && q' == q then pte else Lookup(m, d', q')
  {
    SetFormed(m, d, q, pte);
    forall d', q': nat | d' in m.dir && q' < PAGES
      ensures Lookup(m', d', q') == if d' == d && q' == q then pte else Lookup(m, d', q')
    {
      SetLookup(m, d, q, pte, d', q');
    }
  }

  // ---- tables and directories come and go ----------------------------------------------

  function EmptyTable(): (r: seq<Pte>)
    ensures |r| == NUM && forall j | 0 <= j < NUM :: r[j] == Absent
  {
    seq(NUM, _ => Absent)
  }

  function EmptyDirectory(): (r: seq<Pde>)
    ensures |r| == NUM && forall j | 0 <= j < NUM :: r[j] == NoTable
  {
    seq(NUM, _ => NoTable)
  }

  ghost function Tabled(m: Memory, d: nat, i: nat, t: nat): Memory
    requires Formed(m) && d in m.dir && i < NUM
  {
    Memory(m.dir[d := m.dir[d][i := Table(t)]], m.tab[t := EmptyTable()], m.tableAt[t := Place(d, i)], m.frameAt)
  }

  /** An empty table changes no mapping. */
  lemma TableSound(m: Memory, d: nat, i: nat, t: nat)
    requires Sound(m) && d in m.dir && i < NUM && m.dir[d][i].NoTable? && t !in m.tableAt
    ensures Sound(Tabled(m, d, i, t)) && SameMapping(m, Tabled(m, d, i, t))
  {
    hide FramesOnce, Lookup, Formed;
    var m' := Tabled(m, d, i, t);
    TableFormed(m, d, i, t);
    forall d', q: nat | d' in m.dir && q < PAGES ensures Lookup(m', d', q) == Lookup(m, d', q) {
      TableLookup(m, d, i, t, d', q);
    }
    FramesCarry(m, m');
  }

  lemma TableFormed(m: Memory, d: nat, i: nat, t: nat)
    requires Formed(m) && d in m.dir && i < NUM && m.dir[d][i].NoTable? && t !in m.tableAt
    ensures Formed(Tabled(m, d, i, t))
  {
    hide EmptyTable;
    var m' := Tabled(m, d, i, t);
    assert Shape(m');
    forall d', j: nat | d' in m.dir && j < NUM && m'.dir[d'][j].Table?
      ensures m'.dir[d'][j].t in m'.tab && m'.dir[d'][j].t in m'.tableAt && m'.tableAt[m'.dir[d'][j].t] == Place(d', j)
    {
      assert !(d' == d && j == i) ==> m'.dir[d'][j] == m.dir[d'][j];
    }
  }

  lemma TableLookup(m: Memory, d: nat, i: nat, t: nat, d': nat, q: nat)
    requires Formed(m) && d in m.dir && i < NUM && m.dir[d][i].NoTable? && t !in m.tableAt && d' in m.dir && q < PAGES
    requires Formed(Tabled(m, d, i, t))
    ensures Lookup(Tabled(m, d, i, t), d', q) == Lookup(m, d', q)
  {
    if m.dir[d'][q / NUM].Table? { assert m.dir[d'][q / NUM].t in m.tableAt; }
  }

  /** The address spaces of `m` are mapped in `m'` as before; others are empty. */
  ghost predicate SameMapping(m: Memory, m': Memory)
    requires Formed(m)
  {
    && Formed(m') && m.dir.Keys <= m'.dir.Keys
    && (forall d, q: nat | d in m.dir && q < PAGES :: Lookup(m', d, q) == Lookup(m, d, q))
    && (forall d, q: nat | d in m'.dir && d !in m.dir && q < PAGES :: Lookup(m', d, q) == Absent)
  }

  lemma FramesCarry(m: Memory, m': Memory)
    requires Sound(m) && SameMapping(m, m') && m'.frameAt == m.frameAt
    ensures Sound(m')
  {
    hide Lookup, Formed;
  }

  ghost function Opened(m: Memory, d: nat): Memory { Memory(m.dir[d := EmptyDirectory()], m.tab, m.tableAt, m.frameAt) }

  lemma OpenSound(m: Memory, d: nat)
    requires Sound(m) && d !in m.dir
    ensures Sound(Opened(m, d)) && SameMapping(m, Opened(m, d))
  {
    hide FramesOnce;
    var m' := Opened(m, d);
    OpenFormed(m, d);
    FramesCarry(m, m');
  }

  lemma OpenFormed(m: Memory, d: nat)
    requires Formed(m) && d !in m.dir
    ensures Formed(Opened(m, d))
  {
  }

  /** A directory without mapped pages goes, with its claim on its tables. */
  ghost function Closed(m: Memory, d: nat): Memory {
    Memory(m.dir - {d}, m.tab, map t | t in m.tableAt && m.tableAt[t].d != d :: m.tableAt[t], m.frameAt)
  }

  lemma CloseSound(m: Memory, d: nat)
    requires Sound(m) && d in m.dir && forall q: nat | q < PAGES :: Lookup(m, d, q) == Absent
    ensures Sound(Closed(m, d))
    ensures forall d', q: nat | d' in Closed(m, d).dir && q < PAGES :: Lookup(Closed(m, d), d', q) == Lookup(m, d', q)
  {
    hide FramesOnce;
    var m' := Closed(m, d);
    CloseFormed(m, d);
    assert FramesOnce(m') by { CloseFrames(m, d); }
  }

  lemma CloseFormed(m: Memory, d: nat)
    requires Formed(m) && d in m.dir
    ensures Formed(Closed(m, d))
  {
  }

  lemma CloseFrames(m: Memory, d: nat)
    requires Sound(m) && d in m.dir && forall q: nat | q < PAGES :: Lookup(m, d, q) == Absent
    requires Formed(Closed(m, d))
    requires forall d', q: nat | d' in Closed(m, d).dir && q < PAGES :: Lookup(Closed(m, d), d', q) == Lookup(m, d', q)
    ensures FramesOnce(Closed(m, d))
  {
    hide Lookup, Formed;
  }

  /** Which frames are in use where is determined by the mapping. */
  lemma FramesDetermined(m: Memory, m': Memory)
    requires Sound(m) && Sound(m') && m.dir.Keys == m'.dir.Keys
    requires forall d, q: nat | d in m.dir && q < PAGES :: Lookup(m', d, q) == Lookup(m, d, q)
    ensures m'.frameAt == m.frameAt
  {
    hide Lookup, Formed;
  }

  // ---- flat address spaces ---------------------------------------------------------------

  datatype Mapping = Mapping(frame: nat, ap: nat)

  function FlatAt(fl: seq<Mapping>, q: nat): Pte { if q < |fl| then Present(fl[q].frame, fl[q].ap) else Absent }

  ghost predicate Prefix(dd: seq<Pde>) { forall i, j | 0 <= i < j < |dd| && dd[j].Table? :: dd[i].Table? }

  /** The mapped pages of `d` are exactly the first ones, and so are its tables. */
  ghost predicate Flat(m: Memory, d: nat, fl: seq<Mapping>)
    requires Formed(m) && d in m.dir
  {
    |fl| <= PAGES && Prefix(m.dir[d]) && forall q: nat | q < PAGES :: Lookup(m, d, q) == FlatAt(fl, q)
  }

  ghost predicate AllFlat(m: Memory, flat: map<nat, seq<Mapping>>)
    requires Formed(m)
  {
    flat.Keys == m.dir.Keys && forall d | d in m.dir :: Flat(m, d, flat[d])
  }

  /** Room for the page after the last: earlier entries all have tables. */
  lemma NextEntry(m: Memory, d: nat, fl: seq<Mapping>)
    requires Formed(m) && d in m.dir && Flat(m, d, fl) && |fl| < PAGES
    ensures |m.dir[d]| == NUM && forall i | 0 <= i < |fl| / NUM :: m.dir[d][i].Table?
  {
    if |fl| >= NUM {
      var q := |fl| / NUM * NUM - 1;
      assert q / NUM == |fl| / NUM - 1 && q < |fl|;
      assert Lookup(m, d, q) == FlatAt(fl, q);
    }
  }

  lemma TableKeepsFlat(m: Memory, d: nat, t: nat, flat: map<nat, seq<Mapping>>)
    requires Sound(m) && d in m.dir && AllFlat(m, flat) && |flat[d]| < PAGES
    requires m.dir[d][|flat[d]| / NUM].NoTable? && t !in m.tableAt
    ensures var m' := Tabled(m, d, |flat[d]| / NUM, t); Sound(m') && AllFlat(m', flat)
  {
    hide FramesOnce, Lookup, Formed;
    var i := |flat[d]| / NUM;
    TableSound(m, d, i, t);
    NextEntry(m, d, flat[d]);
    var m' := Tabled(m, d, i, t);
    assert Prefix(m'.dir[d]) by { assert m'.dir[d] == m.dir[d][i := Table(t)]; }
  }

  lemma MapExtendsFlat(m: Memory, d: nat, f: nat, ap: nat, flat: map<nat, seq<Mapping>>)
    requires Sound(m) && d in m.dir && AllFlat(m, flat) && |flat[d]| < PAGES && f !in m.frameAt
    requires m.dir[d][|flat[d]| / NUM].Table?
    ensures var m' := Mapped(m, d, |flat[d]|, f, ap); Sound(m') && AllFlat(m', flat[d := flat[d] + [Mapping(f, ap)]])
  {
    hide FramesOnce, Lookup, Formed;
    var q := |flat[d]|;
    assert Lookup(m, d, q) == FlatAt(flat[d], q) == Absent;
    MapSound(m, d, q, f, ap);
    EntryOf(m, d, q, Present(f, ap), Mapped(m, d, q, f, ap));
  }
}
