/** Transactions that log sectors of the log itself.

    On a full disk the block allocator hands out the log's own sectors, its header
    first.  What a crash then leaves depends on where the logged sectors lie. */
module LogRegion {
  import opened Params
  import opened Collections
  import opened Sector
  import opened LogMachine

  /** A transaction: sectors, none twice, and the blocks in their slots. */
  ghost predicate Logs(g: Geometry, d: Disk, xs: seq<nat>, bs: seq<Sector>) {
    && Fits(g, d) && |xs| == |bs| <= LOGSIZE && |xs| < g.size && Distinct(xs)
    && forall i | 0 <= i < |xs| :: xs[i] < |d|
  }

  function SlotAt(g: Geometry, i: nat): nat { g.start + 1 + i }

  /** The disk with the blocks in their slots. */
  function InSlots(g: Geometry, d: Disk, bs: seq<Sector>): (r: Disk)
    requires Fits(g, d) && |bs| < g.size
    ensures |r| == |d| && (forall i: nat | i < |bs| :: r[SlotAt(g, i)] == bs[i])
    ensures forall x | 0 <= x < |d| && !(g.start < x <= g.start + |bs|) :: r[x] == d[x]
  {
    d[..g.start + 1] + bs + d[g.start + 1 + |bs|..]
  }

  /** Every logged sector has this block. */
  ghost predicate Have(d: Disk, xs: seq<nat>, bs: seq<Sector>) {
    |xs| == |bs| && forall j | 0 <= j < |xs| :: xs[j] < |d| && d[xs[j]] == bs[j]
  }

  // ---- a header of the wrong kind ----------------------------------------

  /** The header lists sectors of the disk, with a slot for each. */
  predicate Readable(g: Geometry, d: Disk) {
    && Fits(g, d) && HeadCount(d[g.start]) <= LOGSIZE && HeadCount(d[g.start]) < g.size
    && forall i | 0 <= i < HeadCount(d[g.start]) :: HeadAt(d[g.start], i) < |d|
  }

  /** The first `k` slots copied to the listed sectors, wherever those are. */
  function Copied(g: Geometry, d: Disk, xs: seq<nat>, k: nat): (r: Disk)
    requires k <= |xs| < g.size && Fits(g, d) && forall i | 0 <= i < |xs| :: xs[i] < |d|
    ensures |r| == |d|
  {
    if k == 0 then d
    else
      var r := Copied(g, d, xs, k - 1);
      r[xs[k - 1] := r[SlotAt(g, k - 1)]]
  }

  /** A recovery that crashes after `k` copies. */
  function Interrupted(g: Geometry, d: Disk, k: nat): (r: Disk)
    ensures |r| == |d|
  {
    if Readable(g, d) && k <= HeadCount(d[g.start]) then Copied(g, d, HeadSectors(d[g.start]), k) else d
  }

  function Replayed(g: Geometry, d: Disk, ks: seq<nat>): (r: Disk)
    ensures |r| == |d|
  {
    if ks == [] then d else Interrupted(g, Replayed(g, d, ks[..|ks| - 1]), ks[|ks| - 1])
  }

  /** A complete recovery. */
  function Finished(g: Geometry, d: Disk): Disk {
    if Readable(g, d) then
      var r := Copied(g, d, HeadSectors(d[g.start]), HeadCount(d[g.start]));
      Erase(g, r)
    else d
  }

  /** For logged home sectors that is the recovery of the log machine. */
  lemma FinishedIsRecovered(g: Geometry, d: Disk)
    requires Recoverable(g, d)
    ensures Readable(g, d) && Finished(g, d) == Recovered(g, d)
  {
    hide HeadCount, HeadSectors, WithHead;
    var xs := HeadSectors(d[g.start]);
    assert forall i | 0 <= i < |xs| :: xs[i] == HeadAt(d[g.start], i) && xs[i] in xs;
    CopiedIsInstall(g, d, xs, |xs|);
  }

  lemma {:induction false} CopiedIsInstall(g: Geometry, d: Disk, xs: seq<nat>, k: nat)
    requires k <= |xs| < g.size && Fits(g, d) && AllHome(g, d, xs) && forall i | 0 <= i < |xs| :: xs[i] < |d|
    ensures Copied(g, d, xs, k) == Install(g, d, xs, k)
  {
    if k > 0 { CopiedIsInstall(g, d, xs, k - 1); }
  }

  /** However often recovery is interrupted, and wherever, it ends with every block in
      its sector. */
  ghost predicate Survives(g: Geometry, d: Disk, xs: seq<nat>, bs: seq<Sector>) {
    forall ks: seq<nat> :: Have(Finished(g, Replayed(g, d, ks)), xs, bs)
  }

  // ---- before the commit -------------------------------------------------

  lemma PutSame(h: Sector)
    ensures PutWord(h, 0, 0) == h <==> GetWord(h, 0) == 0
  {
    GetPut(h, 0, 0, 0);
    var t := PutWord(h, 0, 0);
    if GetWord(h, 0) == 0 {
      assert h[0] == 0 && h[1] == 0 && h[2] == 0 && h[3] == 0;
      forall i | 0 <= i < SECTOR_SIZE ensures t[i] == h[i] {}
    }
  }

  /** A crash before the commit leaves every logged sector as it was if and only if
      none of them is the slot of a different block.  The header is not affected. */
  lemma UncommittedUnseen(g: Geometry, d: Disk, xs: seq<nat>, bs: seq<Sector>)
    requires Logs(g, d, xs, bs) && HeadCount(d[g.start]) == 0
    ensures var r := Finished(g, InSlots(g, d, bs));
      (forall j | 0 <= j < |xs| :: r[xs[j]] == d[xs[j]])
      <==> (forall j, i: nat | 0 <= j < |xs| && i < |xs| && xs[j] == SlotAt(g, i) :: bs[i] == d[xs[j]])
  {
    hide GetWord, PutWord;
    var s := InSlots(g, d, bs);
    PutSame(d[g.start]);
    assert Copied(g, s, HeadSectors(s[g.start]), 0) == s;
    assert s[g.start] == d[g.start];
    var r := Finished(g, s);
    assert r == Erase(g, s);
    assert r == s;
    forall j | 0 <= j < |xs| ensures r[xs[j]] == d[xs[j]] || exists i: nat :: i < |xs| && xs[j] == SlotAt(g, i) {
      if g.start < xs[j] <= g.start + |xs| { assert xs[j] == SlotAt(g, xs[j] - g.start - 1); }
    }
  }

  // ---- after the commit --------------------------------------------------

  lemma {:induction false} CopiedElse(g: Geometry, d: Disk, xs: seq<nat>, k: nat, x: nat)
    requires k <= |xs| < g.size && Fits(g, d) && (forall i | 0 <= i < |xs| :: xs[i] < |d|) && x < |d|
    requires forall i | 0 <= i < k :: xs[i] != x
    ensures Copied(g, d, xs, k)[x] == d[x]
  {
    if k > 0 { CopiedElse(g, d, xs, k - 1, x); }
  }

  /** A sector gets what its slot holds when its turn comes, and keeps it. */
  lemma {:induction false} CopiedAt(g: Geometry, d: Disk, xs: seq<nat>, k: nat, i: nat)
    requires i < k <= |xs| < g.size && Fits(g, d) && (forall i | 0 <= i < |xs| :: xs[i] < |d|) && Distinct(xs)
    ensures Copied(g, d, xs, k)[xs[i]] == Copied(g, d, xs, i)[SlotAt(g, i)]
  {
    if i < k - 1 { CopiedAt(g, d, xs, k - 1, i); }
  }

  /** The committed disk: a header that lists the sectors, and the blocks in the slots. */
  ghost predicate Committed(g: Geometry, d: Disk, xs: seq<nat>, bs: seq<Sector>) {
    && Logs(g, d, xs, bs) && HeadCount(d[g.start]) <= LOGSIZE && HeadSectors(d[g.start]) == xs
    && forall i: nat | i < |xs| :: d[SlotAt(g, i)] == bs[i]
  }

  /** No logged sector is the slot of a different block. */
  ghost predicate Separate(g: Geometry, xs: seq<nat>, bs: seq<Sector>)
    requires |xs| == |bs|
  {
    forall i: nat, j: nat | i < |xs| && j < |xs| && xs[j] == SlotAt(g, i) :: bs[i] == bs[j]
  }

  /** A block logged for the header reads as an empty header, and whatever is copied
      after it is in place already. */
  ghost predicate HeaderLast(g: Geometry, d: Disk, xs: seq<nat>, bs: seq<Sector>)
    requires Logs(g, d, xs, bs)
  {
    forall j: nat | j < |xs| && xs[j] == g.start ::
      HeadCount(bs[j]) == 0 && forall i | j < i < |xs| :: d[xs[i]] == bs[i]
  }

  /** Where recovery may be: the blocks are in their slots, and the header is either
      still the commit's or the logged block for it, with everything in place. */
  ghost predicate Midway(g: Geometry, d: Disk, h: Sector, xs: seq<nat>, bs: seq<Sector>) {
    && Logs(g, d, xs, bs) && (forall i: nat | i < |xs| :: d[SlotAt(g, i)] == bs[i])
    && (d[g.start] == h || (HeadCount(d[g.start]) == 0 && Have(d, xs, bs)))
    && HeaderLast(g, d, xs, bs)
  }

  /** One more copy. */
  lemma MidwayStep(g: Geometry, d: Disk, xs: seq<nat>, bs: seq<Sector>, t: nat)
    requires Logs(g, d, xs, bs) && (forall i: nat | i < |xs| :: d[SlotAt(g, i)] == bs[i]) && Separate(g, xs, bs)
    requires t < |xs|
    requires HeaderLast(g, d, xs, bs)
    ensures var e := d[xs[t] := d[SlotAt(g, t)]];
      && Logs(g, e, xs, bs) && (forall i: nat | i < |xs| :: e[SlotAt(g, i)] == bs[i])
      && HeaderLast(g, e, xs, bs)
  {
    hide HeadCount;
    var e := d[xs[t] := d[SlotAt(g, t)]];
    assert forall i: nat | i < |xs| && xs[t] == SlotAt(g, i) :: bs[i] == bs[t];
    forall j: nat, i | j < i < |xs| && xs[j] == g.start ensures e[xs[i]] == bs[i] {
      assert d[xs[i]] == bs[i];
    }
  }

  lemma {:induction false} MidwayCopied(g: Geometry, d: Disk, xs: seq<nat>, bs: seq<Sector>, k: nat)
    requires Logs(g, d, xs, bs) && (forall i: nat | i < |xs| :: d[SlotAt(g, i)] == bs[i]) && Separate(g, xs, bs)
    requires k <= |xs|
    requires HeaderLast(g, d, xs, bs)
    ensures var e := Copied(g, d, xs, k);
      && Logs(g, e, xs, bs) && (forall i: nat | i < |xs| :: e[SlotAt(g, i)] == bs[i])
      && HeaderLast(g, e, xs, bs) && forall i | 0 <= i < k :: e[xs[i]] == bs[i]
  {
    hide HeaderLast, Separate, HeadCount;
    if k > 0 {
      MidwayCopied(g, d, xs, bs, k - 1);
      MidwayStep(g, Copied(g, d, xs, k - 1), xs, bs, k - 1);
    }
  }

  /** Copying on from any midway disk ends midway, with the first `k` blocks in place. */
  lemma MidwayGoes(g: Geometry, d: Disk, h: Sector, xs: seq<nat>, bs: seq<Sector>, k: nat)
    requires HeadCount(h) <= LOGSIZE && HeadSectors(h) == xs && Midway(g, d, h, xs, bs) && Separate(g, xs, bs)
    requires d[g.start] == h && k <= |xs|
    ensures Midway(g, Copied(g, d, xs, k), h, xs, bs) && forall i | 0 <= i < k :: Copied(g, d, xs, k)[xs[i]] == bs[i]
  {
    hide HeadCount, HeadSectors, Separate, Copied;
    MidwayCopied(g, d, xs, bs, k);
    var e := Copied(g, d, xs, k);
    if j: nat :| j < k && xs[j] == g.start {
      assert e[g.start] == bs[j];
      forall i | 0 <= i < |xs| ensures e[xs[i]] == bs[i] {}
    } else {
      CopiedElse(g, d, xs, k, g.start);
    }
  }

  lemma EmptyHeader(g: Geometry, d: Disk, k: nat)
    requires Fits(g, d) && HeadCount(d[g.start]) == 0
    ensures Interrupted(g, d, k) == d && Finished(g, d) == d
  {
    PutSame(d[g.start]);
    assert HeadSectors(d[g.start]) == [];
    assert Copied(g, d, [], 0) == d;
  }

  lemma ListedHeader(g: Geometry, d: Disk, xs: seq<nat>, bs: seq<Sector>, k: nat)
    requires Logs(g, d, xs, bs) && HeadCount(d[g.start]) <= LOGSIZE && HeadSectors(d[g.start]) == xs
    ensures Interrupted(g, d, k) == if k <= |xs| then Copied(g, d, xs, k) else d
    ensures Finished(g, d) == Erase(g, Copied(g, d, xs, |xs|))
  {
    hide Copied, Erase, GetWord;
    forall i | 0 <= i < HeadCount(d[g.start]) ensures HeadAt(d[g.start], i) < |d| {
      assert HeadAt(d[g.start], i) == xs[i];
    }
  }

  lemma {:induction false} MidwayReplayed(g: Geometry, d: Disk, h: Sector, xs: seq<nat>, bs: seq<Sector>, ks: seq<nat>)
    requires HeadCount(h) <= LOGSIZE && HeadSectors(h) == xs && Midway(g, d, h, xs, bs) && Separate(g, xs, bs)
    ensures Midway(g, Replayed(g, d, ks), h, xs, bs)
  {
    hide Midway, Separate, Interrupted, HeadCount, HeadSectors;
    if ks != [] {
      var k, e := ks[|ks| - 1], Replayed(g, d, ks[..|ks| - 1]);
      MidwayReplayed(g, d, h, xs, bs, ks[..|ks| - 1]);
      MidwayInterrupted(g, e, h, xs, bs, k);
    }
  }

  lemma MidwayInterrupted(g: Geometry, d: Disk, h: Sector, xs: seq<nat>, bs: seq<Sector>, k: nat)
    requires HeadCount(h) <= LOGSIZE && HeadSectors(h) == xs && Midway(g, d, h, xs, bs) && Separate(g, xs, bs)
    ensures Midway(g, Interrupted(g, d, k), h, xs, bs)
  {
    hide Separate, HeadCount, HeadSectors, Copied, Interrupted, HeaderLast;
    if d[g.start] == h {
      ListedHeader(g, d, xs, bs, k);
      if k <= |xs| { MidwayGoes(g, d, h, xs, bs, k); }
    } else {
      EmptyHeader(g, d, k);
    }
  }

  lemma MidwayFinished(g: Geometry, d: Disk, h: Sector, xs: seq<nat>, bs: seq<Sector>)
    requires HeadCount(h) <= LOGSIZE && HeadSectors(h) == xs && Midway(g, d, h, xs, bs) && Separate(g, xs, bs)
    ensures Have(Finished(g, d), xs, bs)
  {
    hide Separate, HeadSectors, Copied, Finished, GetWord, PutWord;
    if d[g.start] == h {
      ListedHeader(g, d, xs, bs, 0);
      MidwayGoes(g, d, h, xs, bs, |xs|);
      var e := Copied(g, d, xs, |xs|);
      forall j: nat | j < |xs| ensures Erase(g, e)[xs[j]] == bs[j] {
        if xs[j] == g.start { PutSame(bs[j]); }
      }
    } else {
      EmptyHeader(g, d, 0);
    }
  }

  // ---- what surviving needs ----------------------------------------------

  /** A complete recovery that puts every block in place put `bs[j]` into `xs[j]`. */
  lemma CopiedRight(g: Geometry, d: Disk, xs: seq<nat>, bs: seq<Sector>, j: nat)
    requires Committed(g, d, xs, bs) && Have(Finished(g, d), xs, bs) && j < |xs| && xs[j] != g.start
    ensures Copied(g, d, xs, j + 1)[xs[j]] == Copied(g, d, xs, j)[SlotAt(g, j)] == bs[j]
    ensures Copied(g, d, xs, |xs|)[xs[j]] == bs[j]
  {
    hide Copied, Finished, HeadSectors, HeadCount;
    ListedHeader(g, d, xs, bs, 0);
    CopiedAt(g, d, xs, j + 1, j);
    CopiedAt(g, d, xs, |xs|, j);
  }

  /** Between their copies sectors do not change. */
  lemma {:induction false} CopiedStays(g: Geometry, d: Disk, xs: seq<nat>, k: nat, n: nat, x: nat)
    requires k <= n <= |xs| < g.size && Fits(g, d) && (forall i | 0 <= i < |xs| :: xs[i] < |d|) && x < |d|
    requires forall i | k <= i < n :: xs[i] != x
    ensures Copied(g, d, xs, n)[x] == Copied(g, d, xs, k)[x]
  {
    if k < n { CopiedStays(g, d, xs, k, n - 1, x); }
  }

  /** A block copied into a later slot goes on to that slot's sector. */
  lemma LaterSlot(g: Geometry, d: Disk, xs: seq<nat>, bs: seq<Sector>, i: nat, j: nat)
    requires Committed(g, d, xs, bs) && Have(Finished(g, d), xs, bs) && j < i < |xs| && xs[j] == SlotAt(g, i)
    requires xs[i] != g.start
    ensures bs[i] == bs[j]
  {
    hide Copied, Finished, HeadSectors, HeadCount;
    CopiedRight(g, d, xs, bs, i);
    CopiedRight(g, d, xs, bs, j);
    CopiedStays(g, d, xs, j + 1, i, xs[j]);
  }

  lemma OneReplay(g: Geometry, d: Disk, xs: seq<nat>, bs: seq<Sector>, k: nat)
    requires Survives(g, d, xs, bs)
    ensures Have(Finished(g, d), xs, bs) && Have(Finished(g, Interrupted(g, d, k)), xs, bs)
  {
    hide Interrupted, Finished, Have;
    assert Replayed(g, d, []) == d;
    assert [k][..0] == [];
    assert Replayed(g, d, [k]) == Interrupted(g, d, k);
  }

  /** A block copied into an earlier slot is what a second recovery finds there. */
  lemma EarlierSlot(g: Geometry, d: Disk, xs: seq<nat>, bs: seq<Sector>, i: nat, j: nat)
    requires Committed(g, d, xs, bs) && Survives(g, d, xs, bs) && i < j < |xs| && xs[j] == SlotAt(g, i)
    requires xs[i] != g.start && forall k | 0 <= k <= j :: xs[k] != g.start
    ensures bs[i] == bs[j]
  {
    hide Copied, Finished, HeadSectors, HeadCount, Interrupted, Survives;
    OneReplay(g, d, xs, bs, j + 1);
    ListedHeader(g, d, xs, bs, j + 1);
    CopiedRight(g, d, xs, bs, j);
    var e := Copied(g, d, xs, j + 1);
    CopiedElse(g, d, xs, j + 1, g.start);
    ListedHeader(g, e, xs, bs, 0);
    CopiedAt(g, e, xs, |xs|, i);
    CopiedElse(g, e, xs, i, xs[j]);
    var r := Copied(g, e, xs, |xs|);
    assert Erase(g, r)[xs[i]] == r[xs[i]];
  }

  /** What the header's slot holds when its turn comes: not a block of an earlier entry
      that reads as a header with sectors.  `LookalikeSurvives` shows the need. */
  ghost predicate NoLookalike(g: Geometry, xs: seq<nat>, bs: seq<Sector>)
    requires |xs| == |bs|
  {
    forall k: nat, j: nat | k < j < |xs| && xs[j] == g.start && xs[k] == SlotAt(g, j) :: HeadCount(bs[k]) == 0
  }

  /** The header's block, once copied, and the block that was in its slot. */
  lemma HeaderBlock(g: Geometry, d: Disk, xs: seq<nat>, bs: seq<Sector>, j: nat)
    requires Committed(g, d, xs, bs) && Have(Finished(g, d), xs, bs) && j < |xs| && xs[j] == g.start
    requires NoLookalike(g, xs, bs)
    ensures Copied(g, d, xs, j + 1)[g.start] == bs[j] && HeadCount(bs[j]) == 0
    ensures forall k: nat | k < j && xs[k] == SlotAt(g, j) :: bs[k] == bs[j]
  {
    hide Copied, Finished, HeadSectors, GetWord, PutWord;
    ListedHeader(g, d, xs, bs, 0);
    CopiedAt(g, d, xs, j + 1, j);
    CopiedAt(g, d, xs, |xs|, j);
    var v := Copied(g, d, xs, j)[SlotAt(g, j)];
    assert Erase(g, Copied(g, d, xs, |xs|))[g.start] == bs[j] == PutWord(v, 0, 0);
    GetPut(v, 0, 0, 0);
    PutSame(v);
    if k: nat :| k < j && xs[k] == SlotAt(g, j) {
      CopiedRight(g, d, xs, bs, k);
      CopiedStays(g, d, xs, k + 1, j, xs[k]);
      assert v == bs[k];
    } else {
      CopiedElse(g, d, xs, j, SlotAt(g, j));
      assert v == bs[j];
    }
  }

  /** Once the logged header block is on disk nothing more is copied. */
  lemma AfterHeader(g: Geometry, d: Disk, xs: seq<nat>, bs: seq<Sector>, j: nat)
    requires Committed(g, d, xs, bs) && Survives(g, d, xs, bs) && j < |xs| && xs[j] == g.start && NoLookalike(g, xs, bs)
    ensures HeadCount(bs[j]) == 0 && forall i | j < i < |xs| :: d[xs[i]] == bs[i]
    ensures forall k: nat | k < |xs| && xs[k] == SlotAt(g, j) :: bs[k] == bs[j]
  {
    hide Copied, Finished, HeadSectors, HeadCount, Interrupted, Survives, NoLookalike;
    OneReplay(g, d, xs, bs, j + 1);
    ListedHeader(g, d, xs, bs, j + 1);
    HeaderBlock(g, d, xs, bs, j);
    var e := Copied(g, d, xs, j + 1);
    EmptyHeader(g, e, 0);
    forall i | j < i < |xs| ensures d[xs[i]] == bs[i] { CopiedElse(g, d, xs, j + 1, xs[i]); }
  }

  lemma SurvivesNeeds(g: Geometry, d: Disk, xs: seq<nat>, bs: seq<Sector>)
    requires Committed(g, d, xs, bs) && Survives(g, d, xs, bs) && NoLookalike(g, xs, bs)
    ensures Separate(g, xs, bs) && HeaderLast(g, d, xs, bs)
  {
    hide Survives, HeadSectors, HeadCount, Finished, Interrupted, NoLookalike;
    forall j: nat | j < |xs| && xs[j] == g.start
      ensures HeadCount(bs[j]) == 0 && forall i | j < i < |xs| :: d[xs[i]] == bs[i]
      ensures forall k: nat | k < |xs| && xs[k] == SlotAt(g, j) :: bs[k] == bs[j]
    {
      AfterHeader(g, d, xs, bs, j);
    }
    OneReplay(g, d, xs, bs, 0);
    forall i: nat, j: nat | i < |xs| && j < |xs| && xs[j] == SlotAt(g, i) ensures bs[i] == bs[j] {
      if xs[i] == g.start {
        assert bs[j] == bs[i];
      } else if j < i {
        LaterSlot(g, d, xs, bs, i, j);
      } else if i < j {
        if k: nat :| k < j && xs[k] == g.start {
          assert d[xs[j]] == bs[j];
        } else {
          EarlierSlot(g, d, xs, bs, i, j);
        }
      }
    }
  }

  /** A crash after the commit loses nothing, however often recovery is interrupted, if
      and only if no logged sector is the slot of a different block and a block logged
      for the header reads as an empty one, with everything after it in place already. */
  lemma CommittedSurvives(g: Geometry, d: Disk, xs: seq<nat>, bs: seq<Sector>)
    requires Committed(g, d, xs, bs) && NoLookalike(g, xs, bs)
    ensures Survives(g, d, xs, bs) <==> Separate(g, xs, bs) && HeaderLast(g, d, xs, bs)
  {
    if Survives(g, d, xs, bs) { SurvivesNeeds(g, d, xs, bs); }
    if Separate(g, xs, bs) && HeaderLast(g, d, xs, bs) {
      hide HeadSectors, HeadCount, Finished, Interrupted, Separate, HeaderLast, Have;
      var h := d[g.start];
      assert Midway(g, d, h, xs, bs);
      forall ks: seq<nat> ensures Have(Finished(g, Replayed(g, d, ks)), xs, bs) {
        MidwayReplayed(g, d, h, xs, bs, ks);
        MidwayFinished(g, Replayed(g, d, ks), h, xs, bs);
      }
    }
  }

  /** Sectors outside the log always survive. */
  lemma HomesSurvive(g: Geometry, d: Disk, xs: seq<nat>, bs: seq<Sector>)
    requires Committed(g, d, xs, bs) && AllHome(g, d, xs)
    ensures Survives(g, d, xs, bs)
  {
    hide Survives;
    forall i: nat, j: nat | i < |xs| && j < |xs| ensures xs[j] != SlotAt(g, i) && xs[j] != g.start {
      assert IsHome(g, d, xs[j]);
    }
    CommittedSurvives(g, d, xs, bs);
  }

  /** The committed disk of a transaction. */
  function CommittedDisk(g: Geometry, d: Disk, h: Sector, xs: seq<nat>, bs: seq<Sector>): Disk
    requires Fits(g, d) && |bs| < g.size && |xs| <= LOGSIZE && forall i | 0 <= i < |xs| :: xs[i] < 0x1_0000_0000
  {
    InSlots(g, d, bs)[g.start := WithHead(h, xs)]
  }

  lemma DiskIsCommitted(g: Geometry, d: Disk, h: Sector, xs: seq<nat>, bs: seq<Sector>)
    requires Logs(g, d, xs, bs)
    ensures Committed(g, CommittedDisk(g, d, h, xs, bs), xs, bs)
  {
    hide GetWord, PutWord, WithHead, HeadCount, HeadSectors;
    HeadRoundTrip(h, xs);
  }

  // A disk of ten sectors: bitmap in sector 3, header in sector 4, log from there on, and
  // all the sectors before the log in use.

  const SMALL := Geometry(4, 6)

  /** The small bitmap sector with its first blocks in use. */
  function BitmapBlock(zero: Sector, b: byte): Sector { zero[0 := b] }

  /** The transaction of a write that needs one more block: balloc sets the header's bit
      and hands the header out; the data begins with a 1.  That block is lost. */
  lemma FullDiskExample() returns (d: Disk, xs: seq<nat>, bs: seq<Sector>)
    ensures xs == [3, 4] && bs == [BitmapBlock(ZERO_SECTOR, 0x1F), PutWord(ZERO_SECTOR, 0, 1)]
    ensures Committed(SMALL, d, xs, bs) && !Survives(SMALL, d, xs, bs)
  {
    hide GetWord, PutWord, Survives, HeadCount, HeadSectors;
    xs, bs := [3, 4], [BitmapBlock(ZERO_SECTOR, 0x1F), PutWord(ZERO_SECTOR, 0, 1)];
    var disk: Disk := seq(10, _ => ZERO_SECTOR);
    d := CommittedDisk(SMALL, disk, ZERO_SECTOR, xs, bs);
    DiskIsCommitted(SMALL, disk, ZERO_SECTOR, xs, bs);
    GetPut(ZERO_SECTOR, 0, 1, 0);
    CountIs(bs[1]);
    assert xs[1] == SMALL.start && HeadCount(bs[1]) == 1;
    CommittedSurvives(SMALL, d, xs, bs);
  }

  /** The transaction of a write that needs three more blocks, which are the header and the
      two slots after it: even of data that begins with zeros something is lost. */
  lemma ThreeBlocksExample(data: seq<Sector>) returns (d: Disk, xs: seq<nat>, bs: seq<Sector>)
    requires |data| == 3 && data[1] != BitmapBlock(ZERO_SECTOR, 0x7F)
    ensures xs == [3, 4, 5, 6] && bs == [BitmapBlock(ZERO_SECTOR, 0x7F)] + data
    ensures Committed(SMALL, d, xs, bs) && !Survives(SMALL, d, xs, bs)
  {
    hide GetWord, PutWord, Survives, HeadCount, HeadSectors, WithHead, InSlots, HeaderLast, BitmapBlock, Committed;
    xs, bs := [3, 4, 5, 6], [BitmapBlock(ZERO_SECTOR, 0x7F)] + data;
    var disk: Disk := seq(10, _ => ZERO_SECTOR);
    d := CommittedDisk(SMALL, disk, ZERO_SECTOR, xs, bs);
    DiskIsCommitted(SMALL, disk, ZERO_SECTOR, xs, bs);
    CommittedSurvives(SMALL, d, xs, bs);
    assert xs[2] == SlotAt(SMALL, 0) && bs[0] != bs[2];
  }

  /** A block that looks just like the commit's header, logged for the slot of the block
      for the header: recovery puts a header in place of the header, and survives although
      a logged sector is the slot of a different block. */
  lemma LookalikeSurvives() returns (d: Disk, xs: seq<nat>, bs: seq<Sector>)
    ensures Committed(SMALL, d, xs, bs) && Survives(SMALL, d, xs, bs) && !Separate(SMALL, xs, bs)
    ensures !NoLookalike(SMALL, xs, bs)
  {
    hide GetWord, PutWord, HeadSectors, HeadCount;
    xs := [6, 4];
    var h := WithHead(ZERO_SECTOR, xs);
    HeadRoundTrip(ZERO_SECTOR, xs);
    bs := [h, PutWord(h, 0, 0)];
    var disk: Disk := seq(10, _ => ZERO_SECTOR);
    d := CommittedDisk(SMALL, disk, ZERO_SECTOR, xs, bs);
    DiskIsCommitted(SMALL, disk, ZERO_SECTOR, xs, bs);
    PutSame(h);
    assert HeadCount(h) == GetWord(h, 0) by { CountIs(h); }
    assert bs[0] != bs[1] && xs[0] == SlotAt(SMALL, 1);
    forall ks: seq<nat> ensures Have(Finished(SMALL, Replayed(SMALL, d, ks)), xs, bs) {
      LookalikeReplayed(d, h, ks);
      LookalikeFinished(Replayed(SMALL, d, ks), h);
    }
  }

  lemma CountIs(h: Sector)
    ensures HeadCount(h) == GetWord(h, 0)
  {
  }

  /** Where the lookalike's recovery may be. */
  ghost predicate LookalikeMidway(d: Disk, h: Sector) {
    && |d| == 10 && HeadCount(h) == 2 && HeadSectors(h) == [6, 4]
    && d[4] == h && d[5] == h && (d[6] == h || d[6] == PutWord(h, 0, 0))
  }

  lemma LookalikeCopied(d: Disk, h: Sector)
    requires LookalikeMidway(d, h)
    ensures Logs(SMALL, d, [6, 4], [h, h]) && Copied(SMALL, d, [6, 4], 0) == d
    ensures Copied(SMALL, d, [6, 4], 1) == d[6 := h] && Copied(SMALL, d, [6, 4], 2) == d[6 := h][4 := h]
  {
    hide HeadCount, HeadSectors, PutWord;
    assert Copied(SMALL, d, [6, 4], 1) == d[6 := d[SlotAt(SMALL, 0)]];
  }

  lemma {:induction false} LookalikeReplayed(d: Disk, h: Sector, ks: seq<nat>)
    requires LookalikeMidway(d, h)
    ensures LookalikeMidway(Replayed(SMALL, d, ks), h)
    decreases |ks|
  {
    hide HeadCount, HeadSectors, PutWord, Interrupted, Copied;
    if ks != [] {
      var k, e := ks[|ks| - 1], Replayed(SMALL, d, ks[..|ks| - 1]);
      LookalikeReplayed(d, h, ks[..|ks| - 1]);
      LookalikeCopied(e, h);
      ListedHeader(SMALL, e, [6, 4], [h, h], k);
    }
  }

  lemma LookalikeFinished(d: Disk, h: Sector)
    requires LookalikeMidway(d, h)
    ensures Have(Finished(SMALL, d), [6, 4], [h, PutWord(h, 0, 0)])
  {
    hide HeadCount, HeadSectors, PutWord, Finished, Copied;
    LookalikeCopied(d, h);
    ListedHeader(SMALL, d, [6, 4], [h, h], 0);
  }
}
