/** The buffer cache.

    `bufs` are the buffers and `prev`/`next` the links of the ring through all
    of them; index HEAD is the ring's head node.  `order` lists the buffers from
    the most recently released on.  `pending` holds the blocks logged by the
    current transaction and not yet installed: what a buffer shows is the disk
    overlaid with it. */
module BufferCache {
  import opened Params
  import opened Collections
  import opened Sector
  import opened Disk
  import opened Ring

  const HEAD: nat := NBUF
  const NO_DEV: nat := 0xFFFF_FFFF

  datatype Got = Got(b: nat) | Sleeps(b: nat) | Panic

  predicate Matches(b: Buf, dev: nat, sector: nat) { b.dev == dev && b.sector == sector }

  predicate Idle(b: Buf) { !b.busy && !b.dirty }

  // ---- what the buffers hold -------------------------------------------

  function Overlay(disk: seq<Sector>, pending: map<nat, Sector>, x: nat): Sector
    requires x < |disk|
  {
    if x in pending then pending[x] else disk[x]
  }

  ghost predicate Unique(bufs: seq<Buf>) {
    forall i, j | 0 <= i < j < |bufs| && bufs[i].dev != NO_DEV :: !Matches(bufs[j], bufs[i].dev, bufs[i].sector)
  }

  /** One buffer agrees with the disk and the pending blocks. */
  ghost predicate Agrees(b: Buf, disk: seq<Sector>, pending: map<nat, Sector>) {
    && (b.valid ==> b.dev == DISK_DEV && b.sector < |disk|)
    && (b.valid && !b.busy ==> b.data == Overlay(disk, pending, b.sector))
    && (b.dirty ==> b.valid && b.sector in pending)
  }

  /** Some buffer keeps the pending block of sector `x`. */
  ghost predicate Kept(bufs: seq<Buf>, x: nat) {
    exists i | 0 <= i < |bufs| :: bufs[i].dirty && Matches(bufs[i], DISK_DEV, x)
  }

  ghost predicate Coherent(bufs: seq<Buf>, disk: seq<Sector>, pending: map<nat, Sector>) {
    && |bufs| == NBUF
    && Unique(bufs)
    && (forall i | 0 <= i < |bufs| :: Agrees(bufs[i], disk, pending))
    && (forall x | x in pending :: x < |disk| && Kept(bufs, x))
  }

  /** A buffer changes while the disk and the pending blocks stay. */
  lemma SetKeeps(bufs: seq<Buf>, disk: seq<Sector>, pending: map<nat, Sector>, b: nat, v: Buf)
    requires Coherent(bufs, disk, pending) && b < |bufs| && Agrees(v, disk, pending)
    requires Matches(v, bufs[b].dev, bufs[b].sector) || forall i | 0 <= i < |bufs| :: !Matches(bufs[i], v.dev, v.sector)
    requires bufs[b].dirty ==> v.dirty && Matches(v, bufs[b].dev, bufs[b].sector)
    ensures Coherent(bufs[b := v], disk, pending)
  {
    var bufs' := bufs[b := v];
    forall x | x in pending ensures Kept(bufs', x) {
      var i :| 0 <= i < |bufs| && bufs[i].dirty && Matches(bufs[i], DISK_DEV, x);
      assert bufs'[i].dirty && Matches(bufs'[i], DISK_DEV, x);
    }
  }

  /** A busy buffer is written through: its sector is no longer pending. */
  lemma WriteKeeps(bufs: seq<Buf>, disk: seq<Sector>, pending: map<nat, Sector>, b: nat)
    requires Coherent(bufs, disk, pending) && b < |bufs| && bufs[b].busy && bufs[b].dev == DISK_DEV
    requires bufs[b].sector < |disk|
    ensures var v := bufs[b];
      Coherent(bufs[b := v.(dirty := false, valid := true)], disk[v.sector := v.data], pending - {v.sector})
  {
    var v := bufs[b];
    var bufs', disk', pending' := bufs[b := v.(dirty := false, valid := true)], disk[v.sector := v.data],
      pending - {v.sector};
    forall i | 0 <= i < |bufs'| ensures Agrees(bufs'[i], disk', pending') {
      assert Agrees(bufs[i], disk, pending);
      if i < b { assert bufs[i].dev != NO_DEV ==> !Matches(v, bufs[i].dev, bufs[i].sector); }
      if b < i { assert !Matches(bufs[i], v.dev, v.sector); }
    }
    forall x | x in pending' ensures Kept(bufs', x) {
      var i :| 0 <= i < |bufs| && bufs[i].dirty && Matches(bufs[i], DISK_DEV, x);
      assert bufs'[i].dirty && Matches(bufs'[i], DISK_DEV, x);
    }
  }

  /** A busy buffer's block becomes pending and the buffer is kept for it. */
  lemma PendKeeps(bufs: seq<Buf>, disk: seq<Sector>, pending: map<nat, Sector>, b: nat)
    requires Coherent(bufs, disk, pending) && b < |bufs| && bufs[b].busy && bufs[b].valid
    ensures var v := bufs[b]; Coherent(bufs[b := v.(dirty := true)], disk, pending[v.sector := v.data])
  {
    var v := bufs[b];
    var bufs', pending' := bufs[b := v.(dirty := true)], pending[v.sector := v.data];
    assert Agrees(v, disk, pending);
    forall i | 0 <= i < |bufs'| ensures Agrees(bufs'[i], disk, pending') {
      assert Agrees(bufs[i], disk, pending);
      if i < b { assert bufs[i].dev != NO_DEV ==> !Matches(v, bufs[i].dev, bufs[i].sector); }
      if b < i { assert !Matches(bufs[i], v.dev, v.sector); }
    }
    assert bufs'[b].dirty && Matches(bufs'[b], DISK_DEV, v.sector);
    forall x | x in pending' ensures x < |disk| && Kept(bufs', x) {
      if x != v.sector {
        var i :| 0 <= i < |bufs| && bufs[i].dirty && Matches(bufs[i], DISK_DEV, x);
        assert bufs'[i].dirty && Matches(bufs'[i], DISK_DEV, x);
      }
    }
  }

  // ---- the ring of all buffers -------------------------------------------

  ghost function RingOf(order: seq<nat>): seq<nat> { [HEAD] + order }

  /** Every buffer is in the order exactly once. */
  ghost predicate Permutation(order: seq<nat>) {
    |order| == NBUF && forall i | 0 <= i < NBUF :: i in order
  }

  /** Following the links either way visits the buffers in order. */
  lemma WalkRing(prev: seq<nat>, next: seq<nat>, order: seq<nat>, p: nat)
    requires IsRing(prev, next, RingOf(order)) && |next| == NBUF + 1 && Permutation(order) && p < NBUF
    ensures next[HEAD] == order[0] && prev[HEAD] == order[NBUF - 1]
    ensures order[p] < NBUF
    ensures next[order[p]] == if p == NBUF - 1 then HEAD else order[p + 1]
    ensures prev[order[p]] == if p == 0 then HEAD else order[p - 1]
  {
    var c := RingOf(order);
    assert next[c[0]] == After(c, 0) && prev[c[0]] == Before(c, 0);
    assert c[p + 1] == order[p] && c[0] != c[p + 1];
    assert next[c[p + 1]] == After(c, p + 1) && prev[c[p + 1]] == Before(c, p + 1);
  }

  /** `b` is the buffer released longest ago among those that may be recycled. */
  ghost predicate LeastRecent(order: seq<nat>, bufs: seq<Buf>, b: nat) {
    b < |bufs| && Idle(bufs[b]) && exists k :: IsLastIdle(order, bufs, b, k)
  }

  ghost predicate IsLastIdle(order: seq<nat>, bufs: seq<Buf>, b: nat, k: int) {
    0 <= k < |order| && order[k] == b && forall j | k < j < |order| :: order[j] < |bufs| && !Idle(bufs[order[j]])
  }

  /** What keeps `bget` from panicking: with the busy and dirty buffers among those of
      the sectors `s`, which together with `x` are no more than there are buffers,
      sector `x` is cached or some buffer is idle. */
  lemma BuffersSuffice(bufs: seq<Buf>, s: set<nat>, x: nat)
    requires |bufs| == NBUF && Unique(bufs) && |s + {x}| <= NBUF
    requires forall i | 0 <= i < NBUF && !Idle(bufs[i]) :: bufs[i].dev == DISK_DEV && bufs[i].sector in s
    ensures exists i | 0 <= i < NBUF :: Matches(bufs[i], DISK_DEV, x) || Idle(bufs[i])
  {
    if forall i | 0 <= i < NBUF :: !Matches(bufs[i], DISK_DEV, x) && !Idle(bufs[i]) {
      var taken := seq<nat>(NBUF, i requires 0 <= i < NBUF => bufs[i].sector);
      assert (s - {x}) + {x} == s + {x};
      DistinctCard(taken, s - {x});
      assert false;
    }
  }

  /** So eight busy or dirty buffers are never too many. */
  lemma EightAreFine(bufs: seq<Buf>, s: set<nat>, x: nat)
    requires |bufs| == NBUF && Unique(bufs) && |s| <= 8
    requires forall i | 0 <= i < NBUF && !Idle(bufs[i]) :: bufs[i].dev == DISK_DEV && bufs[i].sector in s
    ensures exists i | 0 <= i < NBUF :: Matches(bufs[i], DISK_DEV, x) || Idle(bufs[i])
  {
    CardUnion(s, {x});
    BuffersSuffice(bufs, s, x);
  }

  /** But for `b`, a buffer is as it was or has become idle. */
  ghost predicate OthersIdle(s: seq<Buf>, t: seq<Buf>, b: nat) {
    |s| == |t| && forall i | 0 <= i < |s| && i != b :: t[i] == s[i] || Idle(t[i])
  }

  class Cache {
    const disk: Image
    const bufs: array<Buf>
    const prev: array<nat>
    const next: array<nat>
    ghost var order: seq<nat>
    ghost var pending: map<nat, Sector>

    ghost predicate Linked()
      reads this`order, prev, next
    {
      && prev != next && prev.Length == next.Length == NBUF + 1
      && Permutation(order)
      && IsRing(prev[..], next[..], RingOf(order))
    }

    ghost predicate Valid()
      reads this, bufs, prev, next, disk, disk.sectors
    {
      bufs.Length == NBUF && Linked() && disk.Valid() && Coherent(bufs[..], disk.sectors[..], pending)
    }

    lemma Parts()
      requires Valid()
      ensures disk.Valid() && bufs.Length == NBUF
    {
    }

    /** What the system reads in sector `x`. */
    ghost function View(x: nat): Sector
      requires x < disk.sectors.Length
      reads this`pending, disk.sectors
    {
      Overlay(disk.sectors[..], pending, x)
    }

    /** `binit`: every buffer is put in front of the ring and holds nothing. */
    constructor (image: Image)
      requires image.Valid()
      ensures Valid() && disk == image && pending == map[] && order == [9, 8, 7, 6, 5, 4, 3, 2, 1, 0]
      ensures fresh(bufs) && fresh(prev) && fresh(next)
      ensures forall i | 0 <= i < NBUF :: bufs[i].dev == NO_DEV && Idle(bufs[i])
    {
      disk := image;
      bufs := new Buf[NBUF](_ => Buf(NO_DEV, 0, false, false, false, ZERO_SECTOR));
      prev := new nat[NBUF + 1](_ => HEAD);
      next := new nat[NBUF + 1](_ => HEAD);
      order, pending := [], map[];
      new;
      assert IsRing(prev[..], next[..], RingOf(order));
      var b := 0;
      while b < NBUF
        modifies prev, next, this`order
        invariant 0 <= b <= NBUF
        invariant IsRing(prev[..], next[..], RingOf(order))
        invariant |order| == b && forall i | 0 <= i < b :: order[i] == b - 1 - i
      {
        PushFront(b);
        b := b + 1;
      }
      forall i | 0 <= i < NBUF ensures i in order {
        assert order[NBUF - 1 - i] == i;
      }
    }

    /** Four link writes put a buffer in front of the ring. */
    method PushFront(b: nat)
      requires prev != next && prev.Length == next.Length == NBUF + 1
      requires IsRing(prev[..], next[..], RingOf(order)) && b < NBUF && b !in order
      modifies prev, next, this`order
      ensures order == [b] + old(order) && IsRing(prev[..], next[..], RingOf(order))
    {
      hide IsRing;
      ghost var p: seq<nat>, n: seq<nat>, c := prev[..], next[..], RingOf(order);
      Push(p, n, c, b);
      RingNode(p, n, c, 0);
      var first := next[HEAD];
      next[b] := first;
      prev[b] := HEAD;
      prev[first] := b;
      next[HEAD] := b;
      ghost var n': seq<nat>, p': seq<nat> := n[b := first], p[b := HEAD];
      assert next[..] == n'[HEAD := b];
      assert prev[..] == p'[first := b];
      order := [b] + order;
      assert RingOf(order) == Pushed(c, b);
    }

    lemma RingNode(p: seq<nat>, n: seq<nat>, c: seq<nat>, k: nat)
      requires IsRing(p, n, c) && k < |c|
      ensures c[k] < |p| == |n| && p[c[k]] < |p| && n[c[k]] < |n|
    {
      assert n[c[k]] == After(c, k) && p[c[k]] == Before(c, k);
    }

    /** `brelse`: two link writes take the buffer out of the ring, four put it in
        front; then it is no longer busy. */
    method Brelse(b: nat)
      requires Valid() && b < NBUF
      requires bufs[b].busy    // otherwise it panics
      requires bufs[b].valid && bufs[b].data == View(bufs[b].sector)    // changes were logged or written
      modifies bufs, prev, next, this`order
      ensures Valid()
      ensures exists k | 0 <= k < NBUF :: old(order)[k] == b && order == [b] + old(order)[..k] + old(order)[k + 1..]
      ensures bufs[..] == old(bufs[..])[b := old(bufs[b]).(busy := false)]
    {
      Unlink(b);
      PushFront(b);
      assert Linked();
      SetBuf(b, bufs[b].(busy := false));
    }

    method Unlink(b: nat)
      requires Linked() && b < NBUF
      modifies prev, next, this`order
      ensures IsRing(prev[..], next[..], RingOf(order))
      ensures exists k | 0 <= k < NBUF :: old(order)[k] == b && order == old(order)[..k] + old(order)[k + 1..]
      ensures forall x :: x in order <==> x in old(order) && x != b
    {
      ghost var p: seq<nat>, n: seq<nat>, c := prev[..], next[..], RingOf(order);
      assert b in order;
      ghost var k :| 0 <= k < |order| && order[k] == b;
      hide IsRing, Linked, Without, Distinct;
      assert c[k + 1] == b;
      Remove(p, n, c, k + 1);
      RingNode(p, n, c, k + 1);
      ghost var p': seq<nat>, n': seq<nat> := p[n[b] := p[b]], n[p[b] := n[b]];
      NotSelf(p, n, c, k + 1);
      prev[next[b]] := prev[b];
      next[prev[b]] := next[b];
      assert prev[..] == p';
      assert next[..] == n';
      order := order[..k] + order[k + 1..];
      RingWithout(p, n, old(order), k);
    }

    lemma NotSelf(p: seq<nat>, n: seq<nat>, c: seq<nat>, k: nat)
      requires IsRing(p, n, c) && 0 < k < |c|
      ensures n[c[k]] != c[k]
    {
      assert n[c[k]] == After(c, k);
    }

    lemma RingWithout(p: seq<nat>, n: seq<nat>, o: seq<nat>, k: nat)
      requires IsRing(p, n, RingOf(o)) && k < |o|
      ensures RingOf(o[..k] + o[k + 1..]) == Without(RingOf(o), k + 1)
      ensures forall x :: x in o[..k] + o[k + 1..] <==> x in o && x != o[k]
    {
      hide IsRing;
      var o' := o[..k] + o[k + 1..];
      assert RingOf(o') == Without(RingOf(o), k + 1);
      OrderDistinct(p, n, o);
      Members(o, k);
    }

    lemma OrderDistinct(p: seq<nat>, n: seq<nat>, o: seq<nat>)
      requires IsRing(p, n, RingOf(o))
      ensures Distinct(o)
    {
      var c := RingOf(o);
      forall i, j | 0 <= i < j < |o| ensures o[i] != o[j] {
        assert c[i + 1] == o[i] && c[j + 1] == o[j];
      }
    }

    lemma Members(o: seq<nat>, k: nat)
      requires Distinct(o) && k < |o|
      ensures forall x :: x in o[..k] + o[k + 1..] <==> x in o && x != o[k]
    {
      var o' := o[..k] + o[k + 1..];
      forall x | x in o && x != o[k] ensures x in o' {
        var j :| 0 <= j < |o| && o[j] == x;
        assert o'[if j < k then j else j - 1] == x;
      }
    }

    /** The forward scan: the cached buffer of a sector, or HEAD. */
    method Lookup(dev: nat, sector: nat) returns (b: nat)
      requires Linked() && bufs.Length == NBUF
      ensures b <= NBUF
      ensures b < NBUF ==> Matches(bufs[b], dev, sector)
      ensures b == HEAD ==> forall i | 0 <= i < NBUF :: !Matches(bufs[i], dev, sector)
    {
      hide IsRing;
      WalkRing(prev[..], next[..], order, 0);
      b := next[HEAD];
      ghost var p := 0;
      while b != HEAD
        invariant 0 <= p <= NBUF && b == if p < NBUF then order[p] else HEAD
        invariant forall q | 0 <= q < p :: order[q] < NBUF && !Matches(bufs[order[q]], dev, sector)
        decreases NBUF - p
      {
        WalkRing(prev[..], next[..], order, p);
        if Matches(bufs[b], dev, sector) {
          return;
        }
        b := next[b];
        p := p + 1;
      }
      assert p == NBUF by { if p < NBUF { WalkRing(prev[..], next[..], order, p); } }
      forall i | 0 <= i < NBUF ensures !Matches(bufs[i], dev, sector) {
        assert i in order;
        var k :| 0 <= k < |order| && order[k] == i;
      }
    }

    /** The backward scan: the least recently released buffer that is neither
        busy nor dirty, or HEAD. */
    method FindIdle() returns (b: nat)
      requires Linked() && bufs.Length == NBUF
      ensures b <= NBUF
      ensures b < NBUF ==> LeastRecent(order, bufs[..], b)
      ensures b == HEAD ==> forall i | 0 <= i < NBUF :: !Idle(bufs[i])
    {
      hide IsRing;
      WalkRing(prev[..], next[..], order, 0);
      b := prev[HEAD];
      ghost var p := NBUF - 1;
      while b != HEAD
        invariant -1 <= p < NBUF && b == if p >= 0 then order[p] else HEAD
        invariant forall q | p < q < NBUF :: order[q] < NBUF && !Idle(bufs[order[q]])
        decreases p
      {
        WalkRing(prev[..], next[..], order, p);
        if Idle(bufs[b]) {
          assert IsLastIdle(order, bufs[..], b, p);
          return;
        }
        b := prev[b];
        p := p - 1;
      }
      assert p == -1 by { if 0 <= p { WalkRing(prev[..], next[..], order, p); } }
      forall i | 0 <= i < NBUF ensures !Idle(bufs[i]) {
        assert i in order;
        var k :| 0 <= k < |order| && order[k] == i;
      }
    }

    /** `bget`, up to the point where it returns, sleeps or panics.  It sleeps on the busy
        buffer of the sector, on whose release brelse wakes it. */
    method Bget(dev: nat, sector: nat) returns (r: Got)
      requires Valid() && dev != NO_DEV
      modifies bufs
      ensures Valid()
      ensures r.Sleeps? <==> exists i | 0 <= i < NBUF :: Matches(old(bufs[i]), dev, sector) && old(bufs[i]).busy
      ensures r.Sleeps? ==> r.b < NBUF && Matches(old(bufs[r.b]), dev, sector) && old(bufs[r.b]).busy
      ensures r.Panic? <==> forall i | 0 <= i < NBUF :: !Matches(old(bufs[i]), dev, sector) && !Idle(old(bufs[i]))
      ensures !r.Got? ==> bufs[..] == old(bufs[..])
      ensures r.Got? ==> r.b < NBUF && bufs[r.b].dev == dev && bufs[r.b].sector == sector && bufs[r.b].busy
      ensures r.Got? && Matches(old(bufs[r.b]), dev, sector) ==>
        bufs[..] == old(bufs[..])[r.b := old(bufs[r.b]).(busy := true)]
      ensures r.Got? && !Matches(old(bufs[r.b]), dev, sector) ==>
        && (forall i | 0 <= i < NBUF :: !Matches(old(bufs[i]), dev, sector))
        && LeastRecent(order, old(bufs[..]), r.b)
        && bufs[..] == old(bufs[..])[r.b := Buf(dev, sector, true, false, false, old(bufs[r.b]).data)]
    {
      HasLength();
      ghost var s := bufs[..];
      var b := Lookup(dev, sector);
      if b != HEAD {
        UniqueMatch(s, dev, sector, b);
        if bufs[b].busy {
          return Sleeps(b);
        }
        SetBuf(b, bufs[b].(busy := true));
        return Got(b);
      }
      b := FindIdle();
      if b != HEAD {
        SetBuf(b, bufs[b].(dev := dev, sector := sector, busy := true, valid := false));
        return Got(b);
      }
      return Panic;
    }

    /** One buffer changes in a way that keeps the cache coherent. */
    method SetBuf(b: nat, v: Buf)
      requires Valid() && b < bufs.Length && Agrees(v, disk.sectors[..], pending)
      requires Matches(v, bufs[b].dev, bufs[b].sector) || forall i | 0 <= i < bufs.Length ::
        !Matches(bufs[i], v.dev, v.sector)
      requires bufs[b].dirty ==> v.dirty && Matches(v, bufs[b].dev, bufs[b].sector)
      modifies bufs
      ensures Valid() && bufs[..] == old(bufs[..])[b := v]
    {
      hide Linked, Agrees;
      ghost var s := bufs[..];
      SetKeeps(s, disk.sectors[..], pending, b, v);
      hide Coherent;
      bufs[b] := v;
      assert bufs[..] == s[b := v];
    }

    /** A read of sector `x` neither sleeps nor runs out of buffers. */
    ghost predicate CanRead(x: nat)
      reads bufs
    {
      && (forall i | 0 <= i < bufs.Length && Matches(bufs[i], DISK_DEV, x) :: !bufs[i].busy)
      && exists i | 0 <= i < bufs.Length :: Matches(bufs[i], DISK_DEV, x) || Idle(bufs[i])
    }

    /** No buffer is in use and one can be recycled. */
    ghost predicate Calm()
      reads bufs
    {
      && (forall i | 0 <= i < bufs.Length :: !bufs[i].busy)
      && exists i | 0 <= i < bufs.Length :: Idle(bufs[i])
    }

    /** Reads a sector and lets go of it, as read-only users do. */
    method ReadSector(x: nat) returns (data: Sector)
      requires Valid() && x < disk.sectors.Length && Calm()
      modifies bufs, prev, next, disk, disk.sectors, this`order
      ensures Valid() && Calm()
      ensures data == View(x) && disk.sectors[..] == old(disk.sectors[..]) && disk.trace == old(disk.trace)
    {
      hide Linked, Coherent;
      HasLength();
      ghost var s := bufs[..];
      var b := Bread(x);
      data := bufs[b].data;
      Brelse(b);
      assert bufs[..] == s[b := bufs[b]];
      StaysCalm(s, bufs[..], b);
    }

    /** One round of installing: both sectors are held, the block is copied and
        written. */
    method CopySector(from: nat, to: nat)
      requires Valid() && from < disk.sectors.Length && to < disk.sectors.Length && Calm()
      requires from != to && (to in pending || pending == map[])
      modifies bufs, prev, next, disk, disk.sectors, this`order, this`pending
      ensures Valid() && Calm()
      ensures disk.sectors[..] == old(disk.sectors[..])[to := old(View(from))]
      ensures disk.trace == old(disk.trace) + [disk.sectors[..]]
      ensures pending == old(pending) - {to}
    {
      ghost var s := bufs[..];
      var lbuf := Bread(from);
      SecondRead(s, lbuf, from, to);
      CopyHeld(lbuf, to);
      assert forall i | 0 <= i < NBUF && i != lbuf :: !s[i].busy;
    }

    method CopyHeld(lbuf: nat, to: nat)
      requires Valid() && lbuf < NBUF && bufs[lbuf].busy && bufs[lbuf].valid && bufs[lbuf].sector != to
      requires bufs[lbuf].sector < disk.sectors.Length && bufs[lbuf].data == View(bufs[lbuf].sector)
      requires forall i | 0 <= i < NBUF && i != lbuf :: !bufs[i].busy
      requires to < disk.sectors.Length && CanRead(to)
      modifies bufs, prev, next, disk, disk.sectors, this`order, this`pending
      ensures Valid() && Calm()
      ensures disk.sectors[..] == old(disk.sectors[..])[to := old(bufs[lbuf].data)]
      ensures disk.trace == old(disk.trace) + [disk.sectors[..]]
      ensures pending == old(pending) - {to}
    {
      hide Linked, Coherent, Calm, CanRead;
      ghost var s := bufs[..];
      var dbuf := Bread(to);
      WriteFrom(dbuf, lbuf);
      Brelse(lbuf);
      Brelse(dbuf);
      assert bufs[..] == s[lbuf := bufs[lbuf]][dbuf := bufs[dbuf]];
      CalmAfter(s, lbuf, dbuf);
    }

    /** Writes a copy of a held buffer's block to another sector. */
    method WriteCopy(x: nat, b: nat)
      requires Valid() && b < NBUF && bufs[b].busy && bufs[b].sector != x && x < disk.sectors.Length && CanRead(x)
      modifies bufs, prev, next, disk, disk.sectors, this`order, this`pending
      ensures Valid() && bufs[b] == old(bufs[b])
      ensures disk.sectors[..] == old(disk.sectors[..])[x := bufs[b].data]
      ensures disk.trace == old(disk.trace) + [disk.sectors[..]]
      ensures pending == old(pending) - {x}
      ensures OthersIdle(old(bufs[..]), bufs[..], b)
    {
      hide Linked, Coherent, CanRead;
      var lbuf := Bread(x);
      WriteFrom(lbuf, b);
      Brelse(lbuf);
    }

    method WriteFrom(d: nat, l: nat)
      requires Valid() && d < NBUF && l < NBUF && bufs[d].valid && bufs[d].busy
      modifies bufs, disk, disk.sectors, this`pending
      ensures Valid()
      ensures var v, data := old(bufs[d]), old(bufs[l]).data;
        && disk.sectors[..] == old(disk.sectors[..])[v.sector := data]
        && disk.trace == old(disk.trace) + [disk.sectors[..]]
        && pending == old(pending) - {v.sector}
        && bufs[..] == old(bufs[..])[d := v.(data := data, dirty := false)]
    {
      hide Linked, Coherent;
      Edit(d, bufs[l].data);
      Bwrite(d);
    }

    lemma CalmAfter(s: seq<Buf>, l: nat, d: nat)
      requires |s| == NBUF == bufs.Length && l < NBUF && d < NBUF && bufs[..] == s[l := bufs[l]][d := bufs[d]]
      requires forall i | 0 <= i < |s| && i != l :: !s[i].busy
      requires !bufs[l].busy && Idle(bufs[d])
      ensures Calm()
    {
      forall i | 0 <= i < NBUF ensures !bufs[i].busy {
        assert bufs[i] == bufs[..][i];
      }
    }

    lemma SecondRead(s: seq<Buf>, b: nat, from: nat, to: nat)
      requires |s| == NBUF == bufs.Length && b < NBUF && bufs[..] == s[b := bufs[b]] && Matches(bufs[b], DISK_DEV, from)
      requires from != to
      requires forall i | 0 <= i < |s| :: !s[i].busy
      requires Coherent(bufs[..], disk.sectors[..], pending)
      requires to in pending || pending == map[]
      ensures CanRead(to)
    {
      var t := bufs[..];
      if to in pending {
        assert Kept(t, to);
        var i :| 0 <= i < |t| && t[i].dirty && Matches(t[i], DISK_DEV, to);
        assert Matches(bufs[i], DISK_DEV, to);
      } else {
        var i := if b == 0 then 1 else 0;
        assert Agrees(t[i], disk.sectors[..], pending);
        assert t[i] == s[i];
        assert Idle(bufs[i]);
      }
      forall i | 0 <= i < bufs.Length && Matches(bufs[i], DISK_DEV, to) ensures !bufs[i].busy {
        assert bufs[i] == t[i] == s[i];
      }
    }

    lemma StaysCalm(s: seq<Buf>, t: seq<Buf>, b: nat)
      requires b < |s| == |t| && t == s[b := t[b]] && !t[b].busy
      requires (forall i | 0 <= i < |s| :: !s[i].busy) && exists i | 0 <= i < |s| :: Idle(s[i])
      requires t[b].dirty ==> s[b].dirty
      ensures (forall i | 0 <= i < |t| :: !t[i].busy) && exists i | 0 <= i < |t| :: Idle(t[i])
    {
      var i :| 0 <= i < |s| && Idle(s[i]);
      assert Idle(t[i]);
    }

    /** `bread`: a busy buffer that shows the disk overlaid with the pending
        blocks.  The buffer was idle, or cached the sector. */
    method Bread(x: nat) returns (b: nat)
      requires Valid() && x < disk.sectors.Length && CanRead(x)
      modifies bufs, disk, disk.sectors
      ensures Valid() && b < NBUF
      ensures disk.sectors[..] == old(disk.sectors[..]) && disk.trace == old(disk.trace)
      ensures !old(bufs[b]).busy && (Matches(old(bufs[b]), DISK_DEV, x) || Idle(old(bufs[b])))
      ensures bufs[b] == Buf(DISK_DEV, x, true, true, old(bufs[b]).dirty, View(x))
      ensures bufs[..] == old(bufs[..])[b := bufs[b]]
    {
      var r := Bget(DISK_DEV, x);
      b := r.b;
      ghost var s := bufs[..];
      if !bufs[b].valid {
        PendingCached(s, x, b);
        var v := disk.Iderw(bufs[b]);
        SetBuf(b, v);
      }
    }

    /** The owner of a busy buffer changes its data. */
    method Edit(b: nat, data: Sector)
      requires Valid() && b < NBUF && bufs[b].busy && bufs[b].valid
      modifies bufs
      ensures Valid() && bufs[..] == old(bufs[..])[b := old(bufs[b]).(data := data)]
    {
      SetBuf(b, bufs[b].(data := data));
    }

    /** `bwrite`: the disk gets the buffer's data; the sector is not pending. */
    method Bwrite(b: nat)
      requires Valid() && b < NBUF && bufs[b].valid
      requires bufs[b].busy    // otherwise it panics
      modifies bufs, disk, disk.sectors, this`pending
      ensures Valid()
      ensures var v := old(bufs[b]);
        && disk.sectors[..] == old(disk.sectors[..])[v.sector := v.data]
        && disk.trace == old(disk.trace) + [disk.sectors[..]]
        && pending == old(pending) - {v.sector}
        && bufs[..] == old(bufs[..])[b := v.(dirty := false)]
    {
      ghost var s, d, v := bufs[..], disk.sectors[..], bufs[b];
      assert Agrees(s[b], d, pending);
      WriteKeeps(s, d, pending, b);
      hide Coherent, Linked;
      bufs[b] := bufs[b].(dirty := true);
      var w := disk.Iderw(bufs[b]);
      bufs[b] := w;
      pending := pending - {v.sector};
      assert bufs[..] == s[b := v.(dirty := false, valid := true)];
    }

    /** `log_write`'s last line: the buffer is marked dirty, so that it is not
        recycled before its block is installed. */
    method MarkDirty(b: nat)
      requires Valid() && b < NBUF && bufs[b].busy && bufs[b].valid
      modifies bufs, this`pending
      ensures Valid()
      ensures pending == old(pending)[bufs[b].sector := bufs[b].data]
      ensures bufs[..] == old(bufs[..])[b := old(bufs[b]).(dirty := true)]
    {
      ghost var s := bufs[..];
      PendKeeps(s, disk.sectors[..], pending, b);
      hide Coherent, Linked;
      bufs[b] := bufs[b].(dirty := true);
      pending := pending[bufs[b].sector := bufs[b].data];
      assert bufs[..] == s[b := s[b].(dirty := true)];
    }

    /** The pending block of a sector is cached, in a valid buffer. */
    lemma PendingCached(s: seq<Buf>, x: nat, b: nat)
      requires Coherent(s, disk.sectors[..], pending) && b < |s| && Matches(s[b], DISK_DEV, x) && !s[b].valid
      ensures x !in pending
    {
      UniqueMatch(s, DISK_DEV, x, b);
      assert x in pending ==> Kept(s, x);
    }

    lemma UniqueMatch(s: seq<Buf>, dev: nat, sector: nat, b: nat)
      requires Unique(s) && b < |s| && Matches(s[b], dev, sector) && dev != NO_DEV
      ensures forall i | 0 <= i < |s| && Matches(s[i], dev, sector) :: i == b
    {
      forall i | 0 <= i < |s| && i != b ensures !Matches(s[i], dev, sector) {
        if i < b { assert s[i].dev != NO_DEV ==> !Matches(s[b], s[i].dev, s[i].sector); }
      }
    }

    lemma HasLength()
      requires Coherent(bufs[..], disk.sectors[..], pending)
      ensures bufs.Length == NBUF
    {
    }
  }
}
