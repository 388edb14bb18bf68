/** Blocks and inodes of the file system.

    `blocks` are the sectors as the buffer cache shows them, `bitmap` the bytes of
    the bitmap sectors and `dinodes` the inodes of the inode sectors.  `nodes`
    records the current inodes, those in memory where one is being changed.
    The log takes the last `logSize` sectors; the bitmap does not mark them.

    For the current transaction `logged` and `held` are the sectors logged and
    those in busy buffers, `peak` the largest number of buffers it kept busy or
    dirty at once, and `plan` the sectors it may log, at most `limit`.  `image0` is
    the disk as it began and `writes` what it has logged since, in order; `history`
    has the writes of the transactions that are over. */
module Fs {
  import opened Params
  import opened Collections
  import opened Bits
  import opened Sector
  import opened FsImage
  import opened FsWrite
  import opened FsTrunc
  import opened FsBitmap
  import opened FsDisk

  /** How a read or write ends: in a device driver, with a block in the log that
      the next commit overwrites, or with a result. */
  datatype Io = Device | InLog | Ret(r: int)

  /** A 32-bit sum that wraps around. */
  predicate Wraps(off: Word, n: Word) { (off + n) % 0x1_0000_0000 < off }

  /** The requests `writei` refuses. */
  predicate Refused(size: nat, off: Word, n: Word) {
    off > size || Wraps(off, n) || off + n > MAXFILE * BSIZE
  }

  /** The in-memory copy of an inode. */
  class Inode {
    const inum: nat
    var info: Info
    var size: Word
    const addrs: array<Word>

    constructor (inum: nat, nd: Node)
      requires Shaped(nd)
      ensures this.inum == inum && Value() == nd && fresh(addrs)
    {
      this.inum, info, size := inum, nd.info, nd.size;
      addrs := new Word[NDIRECT + 1](i requires 0 <= i < |nd.addrs| => nd.addrs[i]);
      new;
      assert addrs[..] == nd.addrs;
    }

    function Value(): Node
      reads this, addrs
    {
      Node(info, size, addrs[..])
    }
  }

  class FileSystem {
    const size: nat
    const logSize: nat
    const ninodes: nat
    const blocks: array<Sector>
    const bitmap: array<byte>
    const dinodes: array<Node>
    ghost var nodes: map<nat, Node>
    ghost var logged: set<nat>
    ghost var held: set<nat>
    ghost var peak: nat
    ghost var plan: set<nat>
    ghost var limit: nat
    ghost var image0: seq<Sector>
    ghost var writes: seq<(nat, Sector)>
    ghost var history: seq<seq<(nat, Sector)>>

    function Iblock(i: nat): nat { InodeSector(i) }
    function Bblock(b: nat): nat { b / BPB + BitmapStart(ninodes) }

    /** The first block that is not metadata. */
    ghost function Data(): nat { BitmapStart(ninodes) + size / BPB + 1 }

    /** Where the log begins: its header. */
    function LogStart(): int { size - logSize }

    ghost predicate Layout() {
      && blocks.Length == size <= 0x1_0000_0000 && 0 < logSize && Data() <= LogStart()
      && bitmap.Length == (size / BPB + 1) * SECTOR_SIZE
      && dinodes.Length == ninodes
    }

    ghost function Used(): set<nat>
      reads bitmap
    {
      UsedSet(bitmap[..], size)
    }

    /** The free blocks before the log. */
    ghost function Free(): set<nat>
      reads bitmap
    {
      FreeIn(Used())
    }

    ghost function FreeIn(used: set<nat>): set<nat> { set x: nat | x < size && x < LogStart() && x !in used }

    /** The transaction's books.  It logs only sectors of its plan, which the log has
        room for; besides those at most one buffer is busy or dirty at a time. */
    ghost predicate Books()
      reads this`logged, this`held, this`peak, this`plan, this`limit
    {
      && logged <= plan && |plan| <= limit && |held - plan| <= 1
      && peak <= limit + 1 <= NBUF && limit < LOGSIZE && limit < logSize - 1
    }

    /** The disk as the cache shows it. */
    ghost function Image(): seq<Sector>
      reads blocks, bitmap, dinodes
    {
      ImageOf(blocks[..], bitmap[..], dinodes[..])
    }

    /** What was logged since the transaction began makes the disk what it is now. */
    ghost predicate Ahead()
      reads this`logged, this`image0, this`writes, blocks, bitmap, dinodes
    {
      Image() == Applied(image0, writes) && forall k | 0 <= k < |writes| :: writes[k].0 in logged
    }

    /** A mounted image. */
    constructor (blocks: array<Sector>, bitmap: array<byte>, dinodes: array<Node>, logSize: nat)
      requires blocks.Length <= 0x1_0000_0000 && bitmap.Length == (blocks.Length / BPB + 1) * SECTOR_SIZE
      requires 1 < logSize && dinodes.Length / IPB + 3 + blocks.Length / BPB + 1 <= blocks.Length - logSize
      ensures Layout() && Books() && Ahead() && held == {}
      ensures this.blocks == blocks && this.bitmap == bitmap && this.dinodes == dinodes && this.logSize == logSize
      ensures nodes == map i: nat | 0 <= i < dinodes.Length :: dinodes[i]
    {
      this.blocks, this.bitmap, this.dinodes, this.logSize := blocks, bitmap, dinodes, logSize;
      size, ninodes := blocks.Length, dinodes.Length;
      nodes := map i: nat | 0 <= i < dinodes.Length :: dinodes[i];
      logged, held, plan, peak, limit, writes, history := {}, {}, {}, 0, 0, [], [];
      image0 := ImageOf(blocks[..], bitmap[..], dinodes[..]);
    }

    // ---- the transaction's view of the cache and the log -----------------

    /** A new transaction has logged and used nothing; it means to log at most `most`
        sectors, for which log and cache have room. */
    ghost method BeginTrans(most: nat)
      requires Valid() && most + 1 <= NBUF && most < LOGSIZE && most < logSize - 1
      modifies this`logged, this`plan, this`limit, this`peak, this`image0, this`writes
      ensures Valid() && logged == {} && plan == {} && peak == 0 && limit == most && image0 == Image() && writes == []
    {
      hide Owned, WholeAt, UsedSet, Rested, ImageOf, FreeIn;
      logged, plan, peak, limit, image0, writes := {}, {}, 0, most, Image(), [];
    }

    /** The transaction is over. */
    ghost method CommitTrans()
      requires Valid()
      modifies this`history
      ensures Valid() && history == old(history) + [writes]
    {
      history := history + [writes];
    }

    /** More sectors to log. */
    ghost method Plan(s: set<nat>)
      requires Books() && |plan + s| <= limit
      modifies this`plan
      ensures Books() && plan == old(plan) + s
      ensures old(Base()) && (forall x | x in s :: x < LogStart()) ==> Base()
    {
      plan := plan + s;
      CardSubset(held - plan, held - old(plan));
    }

    /** The buffers busy or dirty once sector `x` is held too. */
    lemma Busy(x: nat)
      requires Books() && (x in plan || held <= plan)
      ensures |held + logged + {x}| <= limit + 1 <= NBUF
    {
      var rest := (held + {x}) - plan;
      assert |rest| <= 1 by {
        if x in plan { assert rest == held - plan; } else { CardSubset(rest, {x}); }
      }
      CardSubset(held + logged + {x}, plan + rest);
      CardUnion(plan, rest);
    }

    /** Room in the log for one more sector, and for the buffer of its slot. */
    lemma Room()
      requires Books() && held <= plan
      ensures |logged| < LOGSIZE && |logged| < logSize - 1 && |held + logged| + 1 <= limit + 1 <= NBUF
    {
      CardSubset(logged, plan);
      CardSubset(held + logged, plan);
    }

    /** A buffer of the sector, busy until it is released. */
    ghost method Bread(x: nat)
      requires Books() && (x in plan || held <= plan)
      requires x !in held                       // otherwise bget sleeps on the caller's own buffer
      requires |held + logged + {x}| <= NBUF    // otherwise bget may panic: "no buffers"
      modifies this`held, this`peak
      ensures Books() && held == old(held) + {x} && (old(Base()) ==> Base())
    {
      Busy(x);
      assert (held + {x}) - plan == if x in plan then held - plan else {x};
      held := held + {x};
      assert held + logged == old(held) + logged + {x};
      peak := if |held + logged| > peak then |held + logged| else peak;
    }

    ghost method Brelse(x: nat)
      requires Books()
      modifies this`held
      ensures Books() && held == old(held) - {x} && (old(Base()) ==> Base())
    {
      CardSubset((held - {x}) - plan, held - plan);
      held := held - {x};
    }

    /** While log_write copies the block to the log it holds one more buffer. */
    ghost method LogWrite(x: nat)
      requires Layout() && Books() && x in held && held <= plan && x < size
      requires |logged| < LOGSIZE && |logged| < logSize - 1    // otherwise it panics: "too big a transaction"
      requires |held + logged| + 1 <= NBUF                     // otherwise bget may panic: "no buffers"
      modifies this`logged, this`writes, this`peak
      ensures Books() && logged == old(logged) + {x} && writes == old(writes) + [(x, Image()[x])]
    {
      Room();
      peak := if |held + logged| + 1 > peak then |held + logged| + 1 else peak;
      logged, writes := logged + {x}, writes + [(x, Image()[x])];
    }

    /** `readsb`: the superblock is held and let go. */
    ghost method Readsb()
      requires Books() && held <= plan && |held + logged| + 1 <= NBUF
      modifies this`peak
      ensures Books()
    {
      Room();
      peak := if |held + logged| + 1 > peak then |held + logged| + 1 else peak;
    }

    // ---- blocks ----------------------------------------------------------

    /** The sectors a scan of the bitmap may read. */
    ghost function Bitmaps(): set<nat> {
      set k: nat | 0 <= k < size && k * BPB < size :: k + BitmapStart(ninodes)
    }

    /** `bzero`. */
    method Bzero(b: nat)
      requires Layout() && Books() && Ahead() && b < size && b in plan && held <= plan && b !in held
      modifies blocks, this`logged, this`writes, this`held, this`peak
      ensures Books() && Ahead() && held == old(held) - {b} && logged == old(logged) + {b}
      ensures blocks[..] == old(blocks[..])[b := ZERO_SECTOR] && Logs(old(writes), writes, [b])
    {
      hide Books, ImageOf, Applied, Base;
      Busy(b);
      Bread(b);
      ghost var was: seq<Sector> := blocks[..];
      BlockChanges(was, bitmap[..], dinodes[..], b, ZERO_SECTOR);
      blocks[b] := ZERO_SECTOR;
      assert blocks[..] == was[b := ZERO_SECTOR];
      Room();
      LogOne(b);
      Brelse(b);
    }

    /** The scan of one bitmap sector: the first clear bit in it. */
    method Scan(b: nat) returns (bi: nat)
      requires Layout() && b % BPB == 0 && b < size
      ensures bi <= BPB
      ensures forall x: nat | b <= x < b + bi :: IsUsed(bitmap[..], x)
      ensures bi < BPB && b + bi < size ==> !IsUsed(bitmap[..], b + bi)
      ensures bi == BPB || b + bi <= size
    {
      hide Bit, Base;
      bi := 0;
      while bi < BPB && b + bi < size
        invariant bi <= BPB && (bi == BPB || b + bi <= size)
        invariant forall x: nat | b <= x < b + bi :: IsUsed(bitmap[..], x)
      {
        SameBit(b, bi);
        if !Bit(bitmap[b / 8 + bi / 8], bi % 8) {    // is the block free?
          return;
        }
        bi := bi + 1;
      }
    }

    lemma SameBit(b: nat, bi: nat)
      requires Layout() && b % BPB == 0 && bi < BPB && b + bi < size
      ensures (b + bi) / 8 == b / 8 + bi / 8 < bitmap.Length && (b + bi) % 8 == bi % 8
    {
      var k := b / BPB;
      assert b == BPB * k && b / 8 == 512 * k;
      assert k <= size / BPB;
    }

    /** The found block's bit is set and logged; the block is zeroed. */
    method Take(b: nat)
      requires Layout() && Books() && Ahead() && b < size && b !in Used() && Bblock(b) in held && b !in held
      requires held <= plan && b in plan
      modifies blocks, bitmap, this`logged, this`writes, this`held, this`peak
      ensures Books() && Ahead() && held == old(held) - {Bblock(b)}
      ensures Used() == old(Used()) + {b} && blocks[..] == old(blocks[..])[b := ZERO_SECTOR]
      ensures logged == old(logged) + {Bblock(b), b} && Logs(old(writes), writes, [Bblock(b), b])
    {
      hide SetBit, IsUsed, Books, UsedSet, Ahead, Base, Logs;
      InBitmap(b);
      ghost var bm: seq<byte> := bitmap[..];
      ByteBits(bitmap[b / 8], b % 8);
      MarkUsed(bm, size, b);
      PutByte(b, SetBit(bitmap[b / 8], b % 8));
      Brelse(Bblock(b));
      ghost var w := writes;
      Bzero(b);
      LogsTwo(old(writes), w, writes, Bblock(b), b);
    }

    /** The byte of a block's bit is written and its sector logged. */
    method PutByte(b: nat, v: byte)
      requires Layout() && Books() && Ahead() && b < size && b / 8 < bitmap.Length && Bblock(b) in held && held <= plan
      modifies bitmap, this`logged, this`writes, this`peak
      ensures Books() && Ahead() && bitmap[..] == old(bitmap[..])[b / 8 := v] && logged == old(logged) + {Bblock(b)}
      ensures Logs(old(writes), writes, [Bblock(b)])
    {
      hide Books, ImageOf, Applied, Base;
      ghost var bm: seq<byte> := bitmap[..];
      ByteSector(b);
      ByteChanges(blocks[..], bm, dinodes[..], b / 8, v);
      bitmap[b / 8] := v;
      assert bitmap[..] == bm[b / 8 := v];
      Room();
      LogOne(Bblock(b));
    }

    lemma ByteSector(b: nat)
      requires Layout() && b < size
      ensures BitmapStart(ninodes) + b / 8 / SECTOR_SIZE == Bblock(b) < size
    {
    }

    /** The one sector that has changed since everything was logged is logged. */
    ghost method LogOne(x: nat)
      requires Layout() && Books() && x in held && held <= plan && x < size
      requires |logged| < LOGSIZE && |logged| < logSize - 1 && |held + logged| + 1 <= NBUF
      requires Except(Applied(image0, writes), Image(), x) && forall k | 0 <= k < |writes| :: writes[k].0 in logged
      modifies this`logged, this`writes, this`peak
      ensures Books() && Ahead() && logged == old(logged) + {x} && writes == old(writes) + [(x, Image()[x])]
    {
      hide Books, ImageOf, Applied, Except, Base;
      AppliedMore(image0, writes, Image(), x);
      LogWrite(x);
    }

    /** A sector of the plan is read. */
    ghost method Hold(x: nat)
      requires Books() && held == {} && x in plan
      modifies this`held, this`peak
      ensures Books() && held == {x}
    {
      hide Books, Base;
      Busy(x);
      Bread(x);
    }

    /** And logged, once it is changed, and released. */
    ghost method LogHeld(x: nat)
      requires Layout() && Books() && held == {x} && x in plan && x < size
      requires Except(Applied(image0, writes), Image(), x) && forall k | 0 <= k < |writes| :: writes[k].0 in logged
      modifies this`logged, this`writes, this`held, this`peak
      ensures Books() && Ahead() && held == {} && logged == old(logged) + {x}
    {
      hide Books, ImageOf, Applied, Except, Base;
      Room();
      LogOne(x);
      Brelse(x);
    }

    lemma InBitmap(b: nat)
      requires Layout() && b < size
      ensures b / 8 < bitmap.Length
    {
    }

    /** `balloc`: the first free block, marked in use and zeroed.  Without one it
        panics (`ok` is false).  It lies before the log exactly when a block is free
        there. */
    method Balloc() returns (ok: bool, b: nat)
      requires Layout() && Books() && Ahead() && held !! Bitmaps() && held + Bitmaps() <= Used()
      requires held + Bitmaps() <= plan && |plan| < limit
      modifies blocks, bitmap, this`logged, this`writes, this`held, this`peak, this`plan
      ensures Books() && Ahead() && held == old(held) && (ok ==> plan == old(plan) + {b}) && old(plan) <= plan
      ensures !ok ==> (forall x: nat | x < size :: x in Used()) && blocks[..] == old(blocks[..])
      ensures !ok ==> bitmap[..] == old(bitmap[..])
      ensures ok ==> b < size && b !in old(Used()) && (forall x: nat | x < b :: x in old(Used()))
      ensures ok ==> Used() == old(Used()) + {b} && blocks[..] == old(blocks[..])[b := ZERO_SECTOR]
      ensures ok ==> logged == old(logged) + {Bblock(b), b} && Logs(old(writes), writes, [Bblock(b), b])
      ensures ok && b < LogStart() <==> old(Free()) != {}
      ensures ok && b < LogStart() ==> Free() == old(Free()) - {b} && b in old(Free())
    {
      hide UsedSet, Books, Bitmaps, Bblock, Ahead, Base, FreeIn, Logs;
      Room();
      Readsb();
      ok, b := FindFree();
      ghost var u := Used();
      if ok {
        LowestFree(b);
        PlanOne(b);
        Take(b);
      } else {
        NoneFree(u);
      }
    }

    lemma NoneFree(u: set<nat>)
      requires forall x: nat | x < size :: x in u
      ensures FreeIn(u) == {}
    {
    }

    lemma LowestFree(b: nat)
      requires b < size && b !in Used() && forall x: nat | x < b :: x in Used()
      ensures b < LogStart() <==> Free() != {}
      ensures b < LogStart() <==> b in Free()
      ensures b < LogStart() ==> FreeIn(Used() + {b}) == Free() - {b}
    {
      hide UsedSet;
      if b < LogStart() { assert b in Free(); }
    }

    /** One more sector fits the plan. */
    ghost method PlanOne(b: nat)
      requires Books() && |plan| < limit && held <= plan
      modifies this`plan
      ensures Books() && plan == old(plan) + {b} && held <= plan
    {
      Plan({b});
    }

    /** The scan of the bitmap; a sector with a clear bit stays held. */
    method FindFree() returns (ok: bool, b: nat)
      requires Layout() && Books() && held !! Bitmaps() && held + Bitmaps() <= plan
      modifies this`held, this`peak
      ensures Books() && held <= plan
      ensures !ok ==> held == old(held) && forall x: nat | x < size :: x in Used()
      ensures ok ==> b < size && b !in Used() && (forall x: nat | x < b :: x in Used())
      ensures ok ==> held == old(held) + {Bblock(b)} && Bblock(b) in Bitmaps()
    {
      hide IsUsed, UsedSet, Books, Bitmaps, Bblock, Base;
      UsedIs(bitmap[..]);
      b := 0;
      while b < size
        invariant b % BPB == 0 && (forall x: nat | x < b && x < size :: IsUsed(bitmap[..], x))
        invariant Books() && held == old(held)
      {
        SectorOf(b);
        Busy(Bblock(b));
        Bread(Bblock(b));
        var bi := Scan(b);
        if bi < BPB && b + bi < size {
          SameSector(b, bi);
          return true, b + bi;
        }
        assert bi == BPB || b + bi == size;
        Brelse(Bblock(b));
        b := b + BPB;
      }
      ok := false;
    }

    lemma UsedIs(bm: seq<byte>)
      ensures forall x: nat :: x in UsedSet(bm, size) <==> x < size && IsUsed(bm, x)
    {
    }

    lemma SectorOf(b: nat)
      requires b < size
      ensures Bblock(b) in Bitmaps()
    {
      var k := b / BPB;
      assert k * BPB <= b && k < size;
    }

    lemma SameSector(b: nat, bi: nat)
      requires b % BPB == 0 && bi < BPB
      ensures Bblock(b + bi) == Bblock(b)
    {
    }

    /** `bfree`. */
    method Bfree(b: nat)
      requires Layout() && Books() && Ahead() && b < size && Bblock(b) !in held && held + {Bblock(b)} <= plan
      requires b in Used()    // otherwise it panics: "freeing free block"
      modifies bitmap, this`logged, this`writes, this`held, this`peak
      ensures Books() && Ahead() && held == old(held)
      ensures Used() == old(Used()) - {b}
      ensures logged == old(logged) + {Bblock(b)}
    {
      hide ClearBit, IsUsed, Books, UsedSet, Ahead, Base;
      Room();
      Readsb();
      Busy(Bblock(b));
      Bread(Bblock(b));
      InBitmap(b);
      ghost var bm: seq<byte> := bitmap[..];
      ByteBits(bitmap[b / 8], b % 8);
      MarkUsed(bm, size, b);
      PutByte(b, ClearBit(bitmap[b / 8], b % 8));
      Brelse(Bblock(b));
    }

    // ---- inode contents --------------------------------------------------

    /** The image is in order, whatever inode is being changed: every block in use
        lies before the log and has one owner. */
    ghost predicate Base()
      reads this, blocks, bitmap, dinodes
    {
      Layout() && Books() && Ahead() && Intact()
    }

    ghost predicate Intact()
      reads this`nodes, this`plan, blocks, bitmap
    {
      && Owned(Data(), blocks[..], nodes, Used())
      && (forall i :: i in nodes <==> 0 <= i < ninodes)
      && (forall x | x in Used() :: x < LogStart()) && (forall x | x in plan :: x < LogStart())
    }

    /** `ip` is the in-memory copy of its inode. */
    ghost predicate Current(ip: Inode)
      reads this`nodes, ip, ip.addrs
    {
      ip.inum in nodes && nodes[ip.inum] == ip.Value() && ip.addrs.Length == NDIRECT + 1
    }

    lemma BitmapsInUse()
      requires Base()
      ensures Bitmaps() <= Used() && forall b | b in Bitmaps() :: b < Data()
    {
    }

    /** The bitmap, the inodes and every block a slot names lie before the log. */
    lemma MetaHome(i: nat)
      requires Base() && i in nodes
      ensures Iblock(i) < LogStart() && forall b | b in Bitmaps() :: b < LogStart()
    {
      BitmapsInUse();
    }

    lemma SlotHome(i: nat, k: nat)
      requires Base() && i in nodes && k <= LAST_SLOT
      ensures Shaped(nodes[i]) && At(blocks[..], nodes[i], k) < LogStart()
    {
      hide At, UsedSet;
      var a := SlotAddr(blocks[..], nodes, Slot(i, k));
      if a != 0 { assert InUse(Data(), blocks[..], Used(), a); }
    }

    lemma ExistingHome(i: nat, lo: nat, hi: nat)
      requires Base() && i in nodes && hi <= MAXFILE
      ensures Shaped(nodes[i]) && forall a | a in Existing(blocks[..], nodes[i], lo, hi) :: a < LogStart()
    {
      hide Base, At, DataBlocks;
      SlotHome(i, NDIRECT);
      DataBlocksAre(blocks[..], nodes[i], lo, hi);
      DirectSlot(blocks[..], nodes[i], NDIRECT);
      forall c: nat | c < hi ensures Addr(blocks[..], nodes[i], c) < LogStart() { SlotHome(i, SlotOf(c)); }
    }

    /** With every block before the log in use, the next one handed out is the log's
        header. */
    lemma HeaderIsFree()
      requires Base()
      ensures 0 <= LogStart() < size && LogStart() !in Used()
    {
    }

    /** A block for a slot: one before the log, if there is one (`ok`).  Otherwise balloc
        hands out the log's header, and what follows is not the file system's. */
    method Obtain() returns (ok: bool, a: nat)
      requires Base() && held !! Bitmaps() && held <= Used() && held + Bitmaps() <= plan && |plan| < limit
      modifies blocks, bitmap, this`logged, this`writes, this`held, this`peak, this`plan
      ensures Books() && Ahead() && held == old(held) && old(plan) <= plan == old(plan) + {a}
      ensures ok <==> old(Free()) != {}
      ensures !ok ==> a == LogStart() && LogStart() in logged && Logs(old(writes), writes, [Bblock(a), a])
      ensures ok ==> a < size && a < LogStart() && a !in old(Used()) && Used() == old(Used()) + {a}
      ensures ok ==> blocks[..] == old(blocks[..])[a := ZERO_SECTOR]
      ensures ok ==> a in old(Free()) && Free() == old(Free()) - {a}
    {
      hide UsedSet, Books, Bitmaps, Ahead, Owned, Free;
      BitmapsInUse();
      HeaderIsFree();
      ghost var u := Used();
      var found;
      found, a := Balloc();
      assert !found ==> Used() == u;
      ok := a < LogStart();
    }

    /** An empty slot of the inode itself gets a block. */
    method AllocSlot(ip: Inode, k: nat) returns (ok: bool, a: nat)
      requires Base() && Current(ip) && held == {} && k <= NDIRECT && ip.addrs[k] == 0
      requires Bitmaps() <= plan && |plan| < limit
      modifies blocks, bitmap, ip.addrs, this`nodes, this`logged, this`writes, this`held, this`peak, this`plan
      ensures held == {} && Books() && plan == old(plan) + {a}
      ensures ok <==> old(Free()) != {}
      ensures !ok ==> LogStart() in logged
      ensures ok ==> a in old(Free()) && Free() == old(Free()) - {a}
      ensures ok ==> Base() && Current(ip) && ip.addrs[k] == a && 0 < a < size && a !in old(Used())
      ensures ok ==> blocks[a] == ZERO_SECTOR
      ensures ok ==> Kept(old(blocks[..]), old(nodes), blocks[..], nodes)
      ensures ok ==> nodes == old(nodes)[ip.inum := nodes[ip.inum]]
      ensures ok ==> SlotSet(old(blocks[..]), old(nodes), blocks[..], nodes, Slot(ip.inum, k), a)
    {
      hide Owned, Kept, SlotSet, UsedSet, Bitmaps, Books, Ahead, Free;
      ok, a := Obtain();
      if ok {
        AllocInNode(Data(), old(blocks[..]), nodes, old(Used()), ip.inum, k, a);
        ghost var addrs: seq<Word> := ip.addrs[..];
        ip.addrs[k] := a;
        assert ip.addrs[..] == addrs[k := a];
        nodes := nodes[ip.inum := SetAddr(nodes[ip.inum], k, a)];
      }
    }

    /** An empty entry of the indirect block, which is held, gets a block. */
    method AllocEntry(ip: Inode, j: nat) returns (ok: bool, a: nat)
      requires Base() && Current(ip) && j < NINDIRECT && ip.addrs[NDIRECT] != 0 && held == {ip.addrs[NDIRECT]}
      requires Entry(blocks[..], ip.addrs[NDIRECT], j) == 0
      requires held + Bitmaps() <= plan && |plan| < limit
      modifies blocks, bitmap, this`logged, this`writes, this`held, this`peak, this`plan
      ensures held == old(held) && Books() && plan == old(plan) + {a}
      ensures ok <==> old(Free()) != {}
      ensures !ok ==> LogStart() in logged
      ensures ok ==> a in old(Free()) && Free() == old(Free()) - {a}
      ensures ok ==> Base() && 0 < a < size && a !in old(Used()) && blocks[a] == ZERO_SECTOR
      ensures ok ==> Kept(old(blocks[..]), nodes, blocks[..], nodes)
      ensures ok ==> SlotSet(old(blocks[..]), nodes, blocks[..], nodes, Slot(ip.inum, NDIRECT + 1 + j), a)
    {
      hide Owned, Kept, SlotSet, UsedSet, Bitmaps, PutWord, GetWord, Books, Free, Ahead;
      var ind := ip.addrs[NDIRECT];
      IndirectInUse(ip);
      ok, a := Obtain();
      if ok {
        AllocInEntry(Data(), old(blocks[..]), nodes, old(Used()), ip.inum, j, a);
        PutEntry(ind, j, a);
      }
    }

    /** The entry is written and its block logged. */
    method PutEntry(ind: nat, j: nat, a: Word)
      requires Layout() && Books() && Ahead() && ind < size && j < NINDIRECT && ind in held && held <= plan
      modifies blocks, this`logged, this`writes, this`peak
      ensures Books() && Ahead() && blocks[..] == old(blocks[..])[ind := PutWord(old(blocks[..])[ind], j, a)]
    {
      hide Books, PutWord, ImageOf, Applied, Base;
      ghost var was: seq<Sector> := blocks[..];
      BlockChanges(was, bitmap[..], dinodes[..], ind, PutWord(was[ind], j, a));
      blocks[ind] := PutWord(blocks[ind], j, a);
      assert blocks[..] == was[ind := PutWord(was[ind], j, a)];
      Room();
      LogOne(ind);
    }

    lemma IndirectInUse(ip: Inode)
      requires Base() && Current(ip) && ip.addrs[NDIRECT] != 0
      ensures Data() <= ip.addrs[NDIRECT] < size && ip.addrs[NDIRECT] in Used() && ip.addrs[NDIRECT] !in Bitmaps()
    {
      OwnSlot(blocks[..], nodes, ip.inum, NDIRECT);
      assert InUse(Data(), blocks[..], Used(), SlotAddr(blocks[..], nodes, Slot(ip.inum, NDIRECT)));
    }

    /** There is room to log what block `bn` of the file takes: either it exists, or
        new blocks and the indirect block are in the plan. */
    ghost predicate MayGrow(ip: Inode, bn: nat)
      requires ip.inum in nodes && Shaped(nodes[ip.inum]) && bn < MAXFILE
      reads this`nodes, this`plan, this`limit, blocks
    {
      var nd := nodes[ip.inum];
      Addr(blocks[..], nd, bn) != 0 ||
      (&& Bitmaps() <= plan && (bn < NDIRECT || nd.addrs[NDIRECT] == 0 || nd.addrs[NDIRECT] in plan)
       && |plan| + Fresh(blocks[..], nd, bn) <= limit)
    }

    /** `bmap`: the block that holds block `bn` of the file.  If there was none, a
        zeroed one is allocated, with an indirect block if need be; everything
        that was there stays.  That works exactly when enough blocks before the log
        are free (`ok`). */
    method Bmap(ip: Inode, bn: nat) returns (ok: bool, addr: nat)
      requires Base() && Current(ip) && held == {}
      requires bn < MAXFILE    // otherwise it panics: "out of range"
      requires MayGrow(ip, bn)
      modifies blocks, bitmap, ip.addrs, this`nodes, this`logged, this`writes, this`held, this`peak, this`plan
      ensures held == {} && Books() && old(plan) <= plan
      ensures ok <==> old(Fresh(blocks[..], nodes[ip.inum], bn)) <= |old(Free())|
      ensures !ok ==> LogStart() in logged
      ensures ok ==> |Free()| == |old(Free())| - old(Fresh(blocks[..], nodes[ip.inum], bn))
      ensures |plan| <= |old(plan)| + old(Fresh(blocks[..], nodes[ip.inum], bn))
      ensures ok ==> Base() && Current(ip) && addr == Addr(blocks[..], nodes[ip.inum], bn) && 0 < addr < size
      ensures ok && bn < NDIRECT ==> addr == ip.addrs[bn]
      ensures ok && NDIRECT <= bn ==>
        0 < ip.addrs[NDIRECT] < size && addr == GetWord(blocks[ip.addrs[NDIRECT]], bn - NDIRECT)
      ensures ok ==> Kept(old(blocks[..]), old(nodes), blocks[..], nodes)
      ensures ok ==> nodes == old(nodes)[ip.inum := nodes[ip.inum]]
      ensures ok ==> OnlyNew(old(blocks[..]), old(nodes), blocks[..], nodes, ip.inum, bn)
      ensures ok && old(Addr(blocks[..], nodes[ip.inum], bn)) == 0 ==> blocks[addr] == ZERO_SECTOR && addr in plan
      ensures old(Addr(blocks[..], nodes[ip.inum], bn)) != 0 ==>
        && ok && blocks[..] == old(blocks[..]) && bitmap[..] == old(bitmap[..])
        && nodes == old(nodes) && logged == old(logged)
      ensures ok && NDIRECT <= bn && old(Addr(blocks[..], nodes[ip.inum], bn)) == 0 ==>
        nodes[ip.inum].addrs[NDIRECT] in plan
    {
      hide Owned, Kept, OnlyNew, UsedSet, Bitmaps, Books, Ahead, Free, GetWord;
      if bn < NDIRECT {
        ok, addr := BmapDirect(ip, bn);
      } else {
        ok, addr := BmapIndirect(ip, bn - NDIRECT);
      }
    }

    method BmapDirect(ip: Inode, bn: nat) returns (ok: bool, addr: nat)
      requires Base() && Current(ip) && held == {} && bn < NDIRECT && MayGrow(ip, bn)
      modifies blocks, bitmap, ip.addrs, this`nodes, this`logged, this`writes, this`held, this`peak, this`plan
      ensures held == {} && Books() && old(plan) <= plan
      ensures ok <==> old(Fresh(blocks[..], nodes[ip.inum], bn)) <= |old(Free())|
      ensures !ok ==> LogStart() in logged
      ensures ok ==> |Free()| == |old(Free())| - old(Fresh(blocks[..], nodes[ip.inum], bn))
      ensures |plan| <= |old(plan)| + old(Fresh(blocks[..], nodes[ip.inum], bn))
      ensures ok ==> Base() && Current(ip) && addr == Addr(blocks[..], nodes[ip.inum], bn) && 0 < addr < size
      ensures ok ==> Kept(old(blocks[..]), old(nodes), blocks[..], nodes)
      ensures ok ==> nodes == old(nodes)[ip.inum := nodes[ip.inum]]
      ensures ok ==> OnlyNew(old(blocks[..]), old(nodes), blocks[..], nodes, ip.inum, bn)
      ensures ok && old(Addr(blocks[..], nodes[ip.inum], bn)) == 0 ==> blocks[addr] == ZERO_SECTOR && addr in plan
      ensures old(Addr(blocks[..], nodes[ip.inum], bn)) != 0 ==>
        && ok && blocks[..] == old(blocks[..]) && bitmap[..] == old(bitmap[..])
        && nodes == old(nodes) && logged == old(logged)
    {
      hide UsedSet, Bitmaps, Books, SlotAddr, HasOwner, Ahead, Free;
      ok, addr := true, ip.addrs[bn];
      if addr == 0 {
        ghost var b0, n0 := blocks[..], nodes;
        ok, addr := AllocSlot(ip, bn);
        if ok {
          SetIsNew(b0, n0, blocks[..], nodes, ip.inum, bn, bn, addr);
        }
      } else {
        SlotInUse(ip, bn);
        KeptRefl(Data(), blocks[..], nodes, Used(), ip.inum, bn);
      }
    }

    lemma SlotInUse(ip: Inode, bn: nat)
      requires Base() && Current(ip) && bn < MAXFILE && Addr(blocks[..], nodes[ip.inum], bn) != 0
      ensures Data() <= Addr(blocks[..], nodes[ip.inum], bn) < size && Addr(blocks[..], nodes[ip.inum], bn) in Used()
    {
      hide At;
      var s := Slot(ip.inum, SlotOf(bn));
      assert SlotAddr(blocks[..], nodes, s) == Addr(blocks[..], nodes[ip.inum], bn);
      assert InUse(Data(), blocks[..], Used(), SlotAddr(blocks[..], nodes, s));
    }

    /** The indirect block is there, allocated if need be; a new one is zeroed. */
    method EnsureIndirect(ip: Inode, ghost bn: nat) returns (ok: bool, ind: nat)
      requires Base() && Current(ip) && held == {} && NDIRECT <= bn < MAXFILE
      requires ip.addrs[NDIRECT] != 0 || (Bitmaps() <= plan && |plan| < limit)
      modifies blocks, bitmap, ip.addrs, this`nodes, this`logged, this`writes, this`held, this`peak, this`plan
      ensures held == {} && Books() && old(plan) <= plan
      ensures ok <==> old(ip.addrs[NDIRECT]) != 0 || old(Free()) != {}
      ensures !ok ==> LogStart() in logged
      ensures ok && old(ip.addrs[NDIRECT]) == 0 ==> |Free()| == |old(Free())| - 1 && ind in plan
      ensures |plan| <= |old(plan)| + if old(ip.addrs[NDIRECT]) == 0 then 1 else 0
      ensures ok ==> Base() && Current(ip) && ip.addrs[NDIRECT] == ind && Data() <= ind < size
      ensures ok ==> Kept(old(blocks[..]), old(nodes), blocks[..], nodes)
      ensures ok ==> nodes == old(nodes)[ip.inum := nodes[ip.inum]]
      ensures ok ==> OnlyNew(old(blocks[..]), old(nodes), blocks[..], nodes, ip.inum, bn)
      ensures var at := Slot(ip.inum, SlotOf(bn));
        ok ==> SlotAddr(blocks[..], nodes, at) == old(SlotAddr(blocks[..], nodes, at))
      ensures old(ip.addrs[NDIRECT]) != 0 ==>
        && ok && blocks[..] == old(blocks[..]) && bitmap[..] == old(bitmap[..])
        && nodes == old(nodes) && logged == old(logged)
        && plan == old(plan) && Free() == old(Free())
      ensures old(ip.addrs[NDIRECT]) == 0 ==> old(SlotAddr(blocks[..], nodes, Slot(ip.inum, SlotOf(bn)))) == 0
    {
      hide UsedSet, Bitmaps, Books, SlotAddr, Kept, OnlyNew, HasOwner, Ahead, Free;
      ok, ind := true, ip.addrs[NDIRECT];
      NoEntries(blocks[..], nodes, ip.inum, SlotOf(bn));
      if ind == 0 {
        ghost var b0, n0 := blocks[..], nodes;
        ok, ind := AllocSlot(ip, NDIRECT);
        if ok {
          SetIsNew(b0, n0, blocks[..], nodes, ip.inum, bn, NDIRECT, ind);
          IndirectInUse(ip);
        }
      } else {
        IndirectInUse(ip);
        KeptRefl(Data(), blocks[..], nodes, Used(), ip.inum, bn);
      }
    }

    lemma NoEntries(b: Blocks, n: map<nat, Node>, i: nat, k: nat)
      requires AllShaped(n) && i in n && NDIRECT < k
      ensures n[i].addrs[NDIRECT] == 0 ==> SlotAddr(b, n, Slot(i, k)) == 0
    {
    }

    method BmapIndirect(ip: Inode, j: nat) returns (ok: bool, addr: nat)
      requires Base() && Current(ip) && held == {} && j < NINDIRECT && MayGrow(ip, NDIRECT + j)
      modifies blocks, bitmap, ip.addrs, this`nodes, this`logged, this`writes, this`held, this`peak, this`plan
      ensures held == {} && Books() && old(plan) <= plan
      ensures ok <==> old(Fresh(blocks[..], nodes[ip.inum], NDIRECT + j)) <= |old(Free())|
      ensures !ok ==> LogStart() in logged
      ensures ok ==> |Free()| == |old(Free())| - old(Fresh(blocks[..], nodes[ip.inum], NDIRECT + j))
      ensures |plan| <= |old(plan)| + old(Fresh(blocks[..], nodes[ip.inum], NDIRECT + j))
      ensures ok ==> Base() && Current(ip) && addr == Addr(blocks[..], nodes[ip.inum], NDIRECT + j) && 0 < addr < size
      ensures ok ==> Kept(old(blocks[..]), old(nodes), blocks[..], nodes)
      ensures ok ==> nodes == old(nodes)[ip.inum := nodes[ip.inum]]
      ensures ok ==> OnlyNew(old(blocks[..]), old(nodes), blocks[..], nodes, ip.inum, NDIRECT + j)
      ensures ok && old(Addr(blocks[..], nodes[ip.inum], NDIRECT + j)) == 0 ==> blocks[addr] == ZERO_SECTOR
      ensures ok && old(Addr(blocks[..], nodes[ip.inum], NDIRECT + j)) == 0 ==> addr in plan
      ensures old(Addr(blocks[..], nodes[ip.inum], NDIRECT + j)) != 0 ==>
        && ok && blocks[..] == old(blocks[..]) && bitmap[..] == old(bitmap[..])
        && nodes == old(nodes) && logged == old(logged)
      ensures ok && old(Addr(blocks[..], nodes[ip.inum], NDIRECT + j)) == 0 ==> nodes[ip.inum].addrs[NDIRECT] in plan
    {
      hide UsedSet, Bitmaps, Books, SlotAddr, Kept, OnlyNew, Owned, Addr, SlotSet, Entry, Ahead, Free;
      BaseShaped();
      ghost var bn := NDIRECT + j;
      ghost var b0, n0 := blocks[..], nodes;
      AddrIsSlot(b0, n0, ip.inum, bn);
      FreshIs(b0, n0[ip.inum], bn);
      var ind;
      ok, ind := EnsureIndirect(ip, bn);
      addr := 0;
      if !ok {
        return;
      }
      ghost var b1, n1 := blocks[..], nodes;
      BaseShaped();
      AddrIsSlot(b1, n1, ip.inum, bn);
      ok, addr := BmapEntry(ip, j);
      if ok {
        KeptTrans(b0, n0, b1, n1, blocks[..], nodes, ip.inum, bn);
      }
    }

    /** Entry `j` of the indirect block, filled if it is empty. */
    method BmapEntry(ip: Inode, j: nat) returns (ok: bool, addr: nat)
      requires Base() && Current(ip) && held == {} && j < NINDIRECT && 0 < ip.addrs[NDIRECT] < size
      requires Addr(blocks[..], nodes[ip.inum], NDIRECT + j) != 0
               || (Bitmaps() + {ip.addrs[NDIRECT]} <= plan && |plan| < limit)
      modifies blocks, bitmap, this`logged, this`writes, this`held, this`peak, this`plan
      ensures held == {} && Books() && old(plan) <= plan
      ensures !ok ==> LogStart() in logged
      ensures var empty := old(Addr(blocks[..], nodes[ip.inum], NDIRECT + j)) == 0;
        && (ok <==> !empty || old(Free()) != {}) && |plan| <= |old(plan)| + (if empty then 1 else 0)
        && (ok && empty ==> |Free()| == |old(Free())| - 1 && addr in plan && addr < size && blocks[addr] == ZERO_SECTOR)
        && (!empty ==> blocks[..] == old(blocks[..]) && bitmap[..] == old(bitmap[..]))
        && (!empty ==> logged == old(logged) && Free() == old(Free()))
      ensures ok ==> Base() && addr == Addr(blocks[..], nodes[ip.inum], NDIRECT + j) && 0 < addr < size
      ensures ok ==> Kept(old(blocks[..]), nodes, blocks[..], nodes)
      ensures ok ==> OnlyNew(old(blocks[..]), nodes, blocks[..], nodes, ip.inum, NDIRECT + j)
    {
      hide Intact, Bitmaps, Books, SlotAddr, Kept, OnlyNew, Addr, SlotSet, Entry, Ahead, Free, Owned, GetWord;
      BaseShaped();
      var ind := ip.addrs[NDIRECT];
      Busy(ind);
      Bread(ind);
      addr := GetWord(blocks[ind], j);
      EntryIsAddr(blocks[..], nodes[ip.inum], j);
      ok := true;
      if addr == 0 {
        ok, addr := FillEntry(ip, j);
      } else {
        SlotInUse(ip, NDIRECT + j);
        BaseOwned();
        KeptRefl(Data(), blocks[..], nodes, Used(), ip.inum, NDIRECT + j);
      }
      Brelse(ind);
    }

    /** The empty entry filled, seen from the file. */
    method FillEntry(ip: Inode, j: nat) returns (ok: bool, addr: nat)
      requires Base() && Current(ip) && j < NINDIRECT && ip.addrs[NDIRECT] != 0 && held == {ip.addrs[NDIRECT]}
      requires Entry(blocks[..], ip.addrs[NDIRECT], j) == 0 == Addr(blocks[..], nodes[ip.inum], NDIRECT + j)
      requires held + Bitmaps() <= plan && |plan| < limit
      modifies blocks, bitmap, this`logged, this`writes, this`held, this`peak, this`plan
      ensures held == old(held) && Books() && plan == old(plan) + {addr}
      ensures ok <==> old(Free()) != {}
      ensures !ok ==> LogStart() in logged
      ensures ok ==> |Free()| == |old(Free())| - 1 && 0 < addr < size && blocks[addr] == ZERO_SECTOR
      ensures ok ==> Base() && addr == Addr(blocks[..], nodes[ip.inum], NDIRECT + j)
      ensures ok ==> Kept(old(blocks[..]), nodes, blocks[..], nodes)
      ensures ok ==> OnlyNew(old(blocks[..]), nodes, blocks[..], nodes, ip.inum, NDIRECT + j)
    {
      hide Intact, Bitmaps, Books, SlotAddr, Kept, OnlyNew, Addr, SlotSet, Entry, Ahead, Free, Owned;
      BaseShaped();
      ghost var bn, b1 := NDIRECT + j, blocks[..];
      AddrIsSlot(b1, nodes, ip.inum, bn);
      ok, addr := AllocEntry(ip, j);
      if ok {
        SetAddrIs(b1, nodes, blocks[..], nodes, Slot(ip.inum, SlotOf(bn)), addr);
        SetIsNew(b1, nodes, blocks[..], nodes, ip.inum, bn, SlotOf(bn), addr);
        AddrIsSlot(blocks[..], nodes, ip.inum, bn);
      }
    }

    lemma FreshIs(b: Blocks, nd: Node, bn: nat)
      requires Shaped(nd) && NDIRECT <= bn < MAXFILE
      ensures Fresh(b, nd, bn) == (if Addr(b, nd, bn) == 0 then 1 else 0) + (if nd.addrs[NDIRECT] == 0 then 1 else 0)
      ensures Addr(b, nd, bn) != 0 ==> nd.addrs[NDIRECT] != 0
    {
    }

    lemma BaseShaped()
      requires Base()
      ensures AllShaped(nodes)
    {
    }

    lemma BaseOwned()
      requires Base()
      ensures Owned(Data(), blocks[..], nodes, Used())
    {
    }

    lemma SetAddrIs(b0: Blocks, n0: map<nat, Node>, b1: Blocks, n1: map<nat, Node>, key: Slot, a: nat)
      requires AllShaped(n0) && AllShaped(n1) && SlotSet(b0, n0, b1, n1, key, a)
      ensures SlotAddr(b1, n1, key) == a
    {
    }

    lemma EntryIsAddr(b: Blocks, nd: Node, j: nat)
      requires Shaped(nd) && j < NINDIRECT && 0 < nd.addrs[NDIRECT] < |b|
      ensures Entry(b, nd.addrs[NDIRECT], j) == GetWord(b[nd.addrs[NDIRECT]], j) == Addr(b, nd, NDIRECT + j)
    {
      hide GetWord;
    }

    /** The file system between operations: every file is whole, and the inodes
        on disk are up to date. */
    ghost predicate Valid()
      reads this, blocks, bitmap, dinodes
    {
      Base() && held == {} && Rested()
    }

    ghost predicate Rested()
      requires Layout() && forall i :: i in nodes <==> 0 <= i < ninodes
      reads this`nodes, blocks, dinodes
    {
      && (forall i | i in nodes :: WholeAt(blocks[..], nodes[i]))
      && (forall i: nat | i in nodes :: dinodes[i] == nodes[i])
    }

    /** The bytes of a file. */
    ghost function File(i: nat): seq<byte>
      requires i in nodes && Shaped(nodes[i]) && nodes[i].size <= MAXFILE * BSIZE
      reads this`nodes, blocks
    {
      Content(blocks[..], nodes[i])
    }

    /** `readi`: the requested bytes, as far as the file has them.  It never
        allocates a block. */
    method Readi(ip: Inode, dst: array<byte>, off: Word, n: Word) returns (r: Io)
      requires Valid() && Current(ip) && n <= dst.Length && dst != bitmap
      modifies dst, blocks, bitmap, ip.addrs, this`nodes, this`logged, this`writes, this`held, this`peak, this`plan
      ensures Valid() && Current(ip) && blocks[..] == old(blocks[..]) && bitmap[..] == old(bitmap[..])
      ensures nodes == old(nodes) && logged == old(logged) && |plan| <= |old(plan)|
      ensures Free() == old(Free())
      ensures r == if ip.info.kind == T_DEV then Device
                   else if off > ip.size || off + n >= 0x1_0000_0000 then Ret(-1)
                   else Ret(if off + n > ip.size then ip.size - off else n)
      ensures !r.Ret? || r.r == -1 ==> dst[..] == old(dst[..])
      ensures r.Ret? && r.r != -1 ==> dst[..] == File(ip.inum)[off..off + r.r] + old(dst[..])[r.r..]
      ensures r.Ret? ==> forall x: nat | x < r.r :: StoredAt(blocks[..], ip.addrs[..], off + x, dst[x])
    {
      hide Valid, UsedSet, Content, StoredAt;
      if ip.info.kind == T_DEV {
        return Device;
      }
      if off > ip.size || Wraps(off, n) {
        return Ret(-1);
      }
      var m := if off + n > ip.size then ip.size - off else n;
      Copy(ip, dst, off, m);
      r := Ret(m);
      forall x: nat | x < m ensures StoredAt(blocks[..], ip.addrs[..], off + x, dst[x]) {
        FileStored(ip, off + x);
        assert dst[x] == dst[..][x] == File(ip.inum)[off + x];
      }
    }

    /** The bytes of a file lie where its inode says. */
    lemma FileStored(ip: Inode, y: nat)
      requires Valid() && Current(ip) && y < ip.size
      ensures Shaped(nodes[ip.inum]) && nodes[ip.inum].size <= MAXFILE * BSIZE
      ensures StoredAt(blocks[..], ip.addrs[..], y, File(ip.inum)[y])
    {
      hide Owned, StoredAt, Content, Addr, UsedSet, Books, Ahead;
      WholeShaped(ip.inum);
      SlotInUse(ip, y / BSIZE);
      ContentStored(blocks[..], nodes[ip.inum], y);
    }

    /** The loop of `readi`, one block at a time. */
    method Copy(ip: Inode, dst: array<byte>, off: nat, n: nat)
      requires Valid() && Current(ip) && n <= dst.Length && dst != bitmap && off + n <= ip.size
      modifies dst, blocks, bitmap, ip.addrs, this`nodes, this`logged, this`writes, this`held, this`peak, this`plan
      ensures Valid() && Current(ip) && blocks[..] == old(blocks[..]) && bitmap[..] == old(bitmap[..])
      ensures nodes == old(nodes) && logged == old(logged) && |plan| <= |old(plan)|
      ensures |File(ip.inum)| == ip.size && dst[..] == Filling(File(ip.inum), off, n, old(dst[..]))
    {
      hide Valid, Content, Filling;
      WholeShaped(ip.inum);
      ghost var file, first := File(ip.inum), dst[..];
      var tot := 0;
      FillingStart(file, off, first);
      while tot < n
        invariant 0 <= tot <= n
        invariant Valid() && Current(ip) && blocks[..] == old(blocks[..]) && bitmap[..] == old(bitmap[..])
        invariant nodes == old(nodes) && logged == old(logged) && |plan| <= |old(plan)|
        invariant dst[..] == Filling(file, off, tot, first)
      {
        var m := CopyBlock(ip, dst, off, n, tot, file);
        Appended(file, off, tot, m, first);
        tot := tot + m;
      }
    }

    /** The buffer with the first `tot` bytes from `off` on copied in. */
    ghost function Filling(file: seq<byte>, off: nat, tot: nat, first: seq<byte>): seq<byte>
      requires off + tot <= |file| && tot <= |first|
    {
      file[off..off + tot] + first[tot..]
    }

    lemma FillingStart(file: seq<byte>, off: nat, first: seq<byte>)
      requires off <= |file|
      ensures Filling(file, off, 0, first) == first
    {
    }

    lemma Appended(file: seq<byte>, off: nat, tot: nat, m: nat, first: seq<byte>)
      requires off + tot + m <= |file| && tot + m <= |first|
      ensures var was := Filling(file, off, tot, first);
        was[..tot] + file[off + tot..off + tot + m] + was[tot + m..] == Filling(file, off, tot + m, first)
    {
    }

    lemma WholeShaped(i: nat)
      requires Valid() && i in nodes
      ensures Shaped(nodes[i]) && nodes[i].size <= MAXFILE * BSIZE
      ensures forall x: nat | x < nodes[i].size :: Addr(blocks[..], nodes[i], x / BSIZE) != 0
    {
      hide Addr, Owned;
      assert WholeAt(blocks[..], nodes[i]);
    }

    method CopyBlock(ip: Inode, dst: array<byte>, off: nat, n: nat, tot: nat, ghost file: seq<byte>) returns (m: nat)
      requires Valid() && Current(ip) && tot < n <= dst.Length && dst != bitmap && off + n <= ip.size == |file|
      requires Shaped(nodes[ip.inum]) && ip.size <= MAXFILE * BSIZE && file == File(ip.inum)
      modifies dst, blocks, bitmap, ip.addrs, this`nodes, this`logged, this`writes, this`held, this`peak, this`plan
      ensures Valid() && Current(ip) && blocks[..] == old(blocks[..]) && bitmap[..] == old(bitmap[..])
      ensures nodes == old(nodes) && logged == old(logged) && |plan| <= |old(plan)|
      ensures 0 < m && tot + m <= n
      ensures dst[..] == old(dst[..])[..tot] + file[off + tot..off + tot + m] + old(dst[..])[tot + m..]
    {
      hide Valid, Addr, Content;
      var o := off + tot;
      WholeShaped(ip.inum);
      m := if n - tot < BSIZE - o % BSIZE then n - tot else BSIZE - o % BSIZE;
      var data := ReadBlock(ip, o / BSIZE);
      SliceOfBlock(blocks[..], nodes[ip.inum], o, m);
      Memmove(dst, tot, data[o % BSIZE..o % BSIZE + m]);
    }

    /** An existing block of the file is found, read and let go. */
    method ReadBlock(ip: Inode, bn: nat) returns (data: Sector)
      requires Valid() && Current(ip) && Shaped(nodes[ip.inum]) && bn < MAXFILE
      requires Addr(blocks[..], nodes[ip.inum], bn) != 0
      modifies blocks, bitmap, ip.addrs, this`nodes, this`logged, this`writes, this`held, this`peak, this`plan
      ensures Valid() && Current(ip) && blocks[..] == old(blocks[..]) && bitmap[..] == old(bitmap[..])
      ensures nodes == old(nodes) && logged == old(logged) && |plan| <= |old(plan)|
      ensures var a := Addr(blocks[..], nodes[ip.inum], bn); a < size && data == blocks[a] && a < |blocks[..]|
    {
      hide Owned, Kept, OnlyNew, Filled, Bitmaps, UsedSet, Addr, Books, Ahead, Free, WholeAt;
      var ok, a := Bmap(ip, bn);
      Busy(a);
      Bread(a);
      data := blocks[a];
      Brelse(a);
    }

    /** `iupdate`: the inode's sector gets the in-memory copy. */
    method Iupdate(ip: Inode)
      requires Layout() && Books() && Ahead() && ip.inum < ninodes && held == {} && Iblock(ip.inum) in plan
      modifies dinodes, this`logged, this`writes, this`held, this`peak
      ensures Books() && Ahead() && held == {} && logged == old(logged) + {Iblock(ip.inum)}
      ensures dinodes[..] == old(dinodes[..])[ip.inum := ip.Value()]
    {
      hide Books, ImageOf, Applied, Base;
      var nd := Node(ip.info, ip.size, ip.addrs[..]);
      ghost var was: seq<Node> := dinodes[..];
      NodeChanges(blocks[..], bitmap[..], was, ip.inum, nd);
      Hold(Iblock(ip.inum));
      dinodes[ip.inum] := nd;
      assert dinodes[..] == was[ip.inum := nd];
      LogHeld(Iblock(ip.inum));
    }

    /** `writei`: the bytes go to the file at `off`, which grows if need be.  All
        other files stay as they are, and the inode on disk is up to date.  That works
        exactly when enough blocks before the log are free. */
    method Writei(ip: Inode, src: seq<byte>, off: Word) returns (r: Io)
      requires Valid() && Current(ip) && |src| < 0x1_0000_0000
      requires Refused(ip.size, off, |src|) || |plan| + |Bitmaps()| + Takes(off, |src|) <= limit
      modifies blocks, bitmap, dinodes, ip, ip.addrs, this`nodes, this`logged, this`writes, this`held, this`peak,
        this`plan
      ensures Books() && held == {} && limit == old(limit)
      ensures r.Device? <==> old(ip.info.kind) == T_DEV
      ensures r == Ret(-1) <==> (old(ip.info.kind) != T_DEV && Refused(old(ip.size), off, |src|))
      ensures r == Ret(-1) <==> old(ip.info.kind) != T_DEV && (off > old(ip.size) || off + |src| > 140 * 512)
      ensures r.Device? || r == Ret(-1) ==>
        Valid() && Current(ip) && blocks[..] == old(blocks[..]) && bitmap[..] == old(bitmap[..]) && nodes == old(nodes)
        && dinodes[..] == old(dinodes[..]) && logged == old(logged) && Free() == old(Free())
      ensures r.InLog? <==> old(ip.info.kind) != T_DEV && !Refused(old(ip.size), off, |src|)
                            && NewBlocks(old(ip.size), off + |src|) > |old(Free())|
      ensures r.InLog? ==> LogStart() in logged
      ensures r.Ret? && r.r != -1 ==> r.r == |src| && off <= old(ip.size) && Valid() && Current(ip)
      ensures r.Ret? && r.r != -1 ==> File(ip.inum) == Spliced(old(File(ip.inum)), off, src) && ip.info == old(ip.info)
      ensures r.Ret? && r.r != -1 ==> OthersSame(old(blocks[..]), old(nodes), blocks[..], nodes, ip.inum)
      ensures r.Ret? && r.r != -1 ==> |Free()| == |old(Free())| - NewBlocks(old(ip.size), off + |src|)
    {
      hide Base, Rested, Content, Filled, Progress, OthersSame, Bitmaps, UsedSet, Books, Free, WholeAt;
      ValidShaped(ip.inum);
      if ip.info.kind == T_DEV {
        return Device;
      }
      if off > ip.size || Wraps(off, |src|) {
        return Ret(-1);
      }
      if off + |src| > MAXFILE * BSIZE {
        return Ret(-1);
      }
      PlanWrite(ip, off, |src|);
      var ok := WriteAll(ip, src, off);
      if !ok {
        return InLog;
      }
      Finish(ip, src, off, old(blocks[..]), old(nodes));
      r := Ret(|src|);
    }

    /** The sectors the write will log, as far as they exist, join the plan. */
    ghost method PlanWrite(ip: Inode, off: nat, n: nat)
      requires Valid() && Current(ip) && off <= ip.size && off + n <= MAXFILE * BSIZE
      requires |plan| + |Bitmaps()| + Takes(off, n) <= limit
      modifies this`plan
      ensures Valid() && Bitmaps() + {Iblock(ip.inum)} <= plan
      ensures BlocksFor(off + n) <= MAXFILE && Shaped(nodes[ip.inum])
      ensures Reserved(blocks[..], nodes[ip.inum], off / BSIZE, BlocksFor(off + n), plan)
      ensures |plan| + NewBlocks(ip.size, off + n) <= limit
    {
      hide Rested, Filled, Bitmaps, UsedSet, Intact, Ahead, WholeAt, Addr;
      ValidWhole(ip.inum);
      var nd, hi := nodes[ip.inum], BlocksFor(off + n);
      var s := Existing(blocks[..], nd, off / BSIZE, hi);
      PlanSize(blocks[..], nd, off, n, Bitmaps(), Iblock(ip.inum));
      CardUnion(plan, Bitmaps() + {Iblock(ip.inum)} + s);
      MetaHome(ip.inum);
      ExistingHome(ip.inum, off / BSIZE, hi);
      Plan(Bitmaps() + {Iblock(ip.inum)} + s);
    }

    /** The end of `writei`: a file that grew gets its size, and its inode goes to
        disk.  Otherwise the inode did not change. */
    method Finish(ip: Inode, src: seq<byte>, off: nat, ghost b0: Blocks, ghost n0: map<nat, Node>)
      requires Base() && Current(ip) && held == {} && off + |src| <= MAXFILE * BSIZE && Iblock(ip.inum) in plan
      requires Progress(b0, n0, blocks[..], nodes, ip.inum, off, src, |src|)
      requires off + |src| <= n0[ip.inum].size ==> nodes == n0
      requires forall j: nat | j in n0 :: j < dinodes.Length && dinodes[j] == n0[j]
      modifies ip, dinodes, this`nodes, this`logged, this`writes, this`held, this`peak
      ensures Valid() && Books() && Current(ip) && ip.info == old(ip.info)
      ensures Shaped(nodes[ip.inum]) && nodes[ip.inum].size <= MAXFILE * BSIZE
      ensures File(ip.inum) == Spliced(Content(b0, n0[ip.inum]), off, src)
      ensures OthersSame(b0, n0, blocks[..], nodes, ip.inum)
    {
      hide Owned, Content, Filled, UsedSet, OthersSame, WholeAt, Books, Ahead;
      ProgressDone(b0, n0, blocks[..], nodes, ip.inum, off, src);
      ghost var nd := nodes[ip.inum].(size := if off + |src| > ip.size then off + |src| else ip.size);
      assert OthersSame(b0, n0, blocks[..], nodes, ip.inum) && ip.size == n0[ip.inum].size;
      AllWhole(b0, n0, blocks[..], nodes, ip.inum, nd);
      OthersNodes(b0, n0, blocks[..], nodes, ip.inum);
      ResizeOwned(Data(), blocks[..], nodes, Used(), ip.inum, nd);
      if |src| > 0 && off + |src| > ip.size {
        ip.size := off + |src|;
        nodes := nodes[ip.inum := nd];
        Iupdate(ip);
      } else {
        assert nodes[ip.inum := nd] == nodes;
      }
    }

    /** The loop of `writei`. */
    method WriteAll(ip: Inode, src: seq<byte>, off: nat) returns (ok: bool)
      requires Valid() && Current(ip) && off <= ip.size && off + |src| <= MAXFILE * BSIZE && Shaped(nodes[ip.inum])
      requires Bitmaps() <= plan && Reserved(blocks[..], nodes[ip.inum], off / BSIZE, BlocksFor(off + |src|), plan)
      requires |plan| + NewBlocks(ip.size, off + |src|) <= limit
      modifies blocks, bitmap, ip.addrs, this`nodes, this`logged, this`writes, this`held, this`peak, this`plan
      ensures Books() && held == {} && old(plan) <= plan
      ensures ok <==> NewBlocks(ip.size, off + |src|) <= |old(Free())|
      ensures !ok ==> LogStart() in logged
      ensures ok ==> |Free()| == |old(Free())| - NewBlocks(ip.size, off + |src|)
      ensures ok ==> Base() && Current(ip)
      ensures ok ==> Progress(old(blocks[..]), old(nodes), blocks[..], nodes, ip.inum, off, src, |src|)
      ensures ok && off + |src| <= ip.size ==> nodes == old(nodes)
    {
      hide Base, Rested, Filled, Progress, WholeAt, Bitmaps, UsedSet, Books, Free, Reserved, NewBlocks, Portion, Addr;
      ValidWhole(ip.inum);
      ProgressStart(blocks[..], nodes, ip.inum, off, src);
      ghost var b0, n0 := blocks[..], nodes;
      ghost var hi, fr := BlocksFor(off + |src|), |Free()|;
      var tot := 0;
      CountStart(ip.size, off);
      while tot < |src|
        invariant 0 <= tot <= |src| && hi <= MAXFILE && Base() && Books() && held == {} && old(plan) <= plan
        invariant Current(ip) && Shaped(nodes[ip.inum])
        invariant Progress(b0, n0, blocks[..], nodes, ip.inum, off, src, tot)
        invariant off + tot <= ip.size ==> nodes == n0
        invariant Bitmaps() <= plan && Reserved(blocks[..], nodes[ip.inum], off / BSIZE, hi, plan)
        invariant |Free()| == fr - NewBlocks(ip.size, off + tot)
        invariant |plan| + NewBlocks(ip.size, off + |src|) - NewBlocks(ip.size, off + tot) <= limit
      {
        var m := Portion(|src| - tot, off + tot);
        RoundNext(|src| - tot, off + tot);
        NewBlocksMono(ip.size, off + tot, off + tot + m, off + |src|);
        ok := Round(ip, src, off, tot, m, hi, b0, n0);
        if !ok {
          return;
        }
        tot := tot + m;
      }
      ok := true;
    }

    /** One round: the part of the source that goes into one block. */
    method Round(ip: Inode, src: seq<byte>, off: nat, tot: nat, m: nat, ghost hi: nat, ghost b0: Blocks,
                 ghost n0: map<nat, Node>)
      returns (ok: bool)
      requires Base() && Current(ip) && held == {} && tot < |src| && off + |src| <= MAXFILE * BSIZE
      requires m == Portion(|src| - tot, off + tot) && Progress(b0, n0, blocks[..], nodes, ip.inum, off, src, tot)
      requires hi == BlocksFor(off + |src|) <= MAXFILE && Bitmaps() <= plan
      requires Reserved(blocks[..], nodes[ip.inum], off / BSIZE, hi, plan)
      requires |plan| + NewBlocks(ip.size, off + tot + m) - NewBlocks(ip.size, off + tot) <= limit
      modifies blocks, bitmap, ip.addrs, this`nodes, this`logged, this`writes, this`held, this`peak, this`plan
      ensures Books() && held == {} && old(plan) <= plan
      ensures !ok ==> LogStart() in logged
      ensures var more := NewBlocks(ip.size, off + tot + m) - NewBlocks(ip.size, off + tot);
        && (ok <==> more <= |old(Free())|) && |plan| <= |old(plan)| + more
        && (ok ==> |Free()| == |old(Free())| - more)
      ensures ok ==> Base() && Current(ip) && Shaped(nodes[ip.inum])
      ensures ok ==> Progress(b0, n0, blocks[..], nodes, ip.inum, off, src, tot + m)
      ensures ok && off + tot < ip.size ==> nodes == old(nodes)
      ensures ok ==> Reserved(blocks[..], nodes[ip.inum], off / BSIZE, hi, plan)
    {
      hide Base, Filled, WholeAt, Bitmaps, UsedSet, Chunk, ByteAt, SameBelow, BlocksFor, Books, Free, Reserved, Span;
      var p := off + tot;
      ghost var b, n, c := blocks[..], nodes, Count(n0[ip.inum].size, p);
      RoundNext(|src| - tot, p);
      RoundBlocks(n0[ip.inum].size, p, m);
      BlockWithin(off, tot, |src|);
      ReservedOne(b, n[ip.inum], off / BSIZE, hi, p / BSIZE, plan);
      assert OthersSame(b0, n0, b, n, ip.inum);
      ok := WriteBlock(ip, p / BSIZE, p % BSIZE, src[tot..tot + m], c);
      if ok {
        ProgressStep(b0, n0, b, n, blocks[..], nodes, ip.inum, off, src, tot, m);
        ReservedGrow(b, n[ip.inum], blocks[..], nodes[ip.inum], c, p / BSIZE, off / BSIZE, hi, old(plan), plan);
        if p < ip.size { BelowCount(n0[ip.inum].size, p, p); }
      }
    }

    lemma ValidShaped(i: nat)
      requires Valid() && i in nodes
      ensures Layout() && Books() && AllShaped(nodes) && Shaped(nodes[i]) && nodes[i].size <= MAXFILE * BSIZE
      ensures forall j: nat | j in nodes :: j < dinodes.Length && dinodes[j] == nodes[j]
    {
      assert WholeAt(blocks[..], nodes[i]);
    }

    lemma ValidWhole(i: nat)
      requires Valid() && i in nodes
      ensures Layout() && Books() && AllShaped(nodes) && Shaped(nodes[i])
      ensures Filled(blocks[..], nodes[i], BlocksFor(nodes[i].size))
      ensures nodes[i].size <= MAXFILE * BSIZE && forall j | j in nodes :: WholeAt(blocks[..], nodes[j])
    {
      assert WholeAt(blocks[..], nodes[i]);
    }

    /** Block `bn` is found or allocated, the chunk is moved in and logged. */
    method WriteBlock(ip: Inode, bn: nat, o: nat, chunk: seq<byte>, ghost m: nat) returns (ok: bool)
      requires Base() && Current(ip) && held == {} && bn < MAXFILE && o + |chunk| <= BSIZE
      requires Filled(blocks[..], nodes[ip.inum], m) && bn <= m
      requires forall j | j in nodes && j != ip.inum :: WholeAt(blocks[..], nodes[j])
      requires Bitmaps() <= plan && Reserved(blocks[..], nodes[ip.inum], bn, bn + 1, plan)
      requires |plan| + Span(if bn == m then m + 1 else m) - Span(m) <= limit
      modifies blocks, bitmap, ip.addrs, this`nodes, this`logged, this`writes, this`held, this`peak, this`plan
      ensures Books() && held == {} && old(plan) <= plan
      ensures !ok ==> LogStart() in logged
      ensures var more := Span(if bn == m then m + 1 else m) - Span(m);
        && (ok <==> more <= |old(Free())|) && |plan| <= |old(plan)| + more
        && (ok ==> |Free()| == |old(Free())| - more)
      ensures ok ==> Base() && Current(ip) && AllShaped(old(nodes)) && AllShaped(nodes)
      ensures ok ==> OthersSame(old(blocks[..]), old(nodes), blocks[..], nodes, ip.inum)
      ensures ok ==> Filled(blocks[..], nodes[ip.inum], if bn == m then m + 1 else m)
      ensures ok ==> Chunk(old(blocks[..]), old(nodes[ip.inum]), blocks[..], nodes[ip.inum], bn, o, chunk, m)
      ensures ok ==> nodes[ip.inum].size == old(nodes[ip.inum].size) && nodes[ip.inum].info == old(nodes[ip.inum].info)
      ensures ok ==> SameBelow(old(blocks[..]), old(nodes[ip.inum]), blocks[..], nodes[ip.inum], m)
      ensures ok ==> Reserved(blocks[..], nodes[ip.inum], bn, bn + 1, plan)
      ensures ok && bn < m ==> nodes == old(nodes)
    {
      hide Owned, Kept, OnlyNew, Filled, Bitmaps, UsedSet, Addr, WholeAt, Chunk, OthersSame, Books, Moved, AllShaped,
        Free, Ahead;
      ghost var b0, n0 := blocks[..], nodes;
      BaseShaped();
      FilledHas(b0, n0[ip.inum], m, bn);
      FreshFilled(b0, n0[ip.inum], m, bn);
      var addr;
      ok, addr := Bmap(ip, bn);
      if !ok {
        return;
      }
      BaseShaped();
      WriteEffect(Data(), b0, n0, blocks[..], nodes, Used(), ip.inum, bn, o, chunk, m);
      ghost var b1 := blocks[..];
      PutChunk(addr, o, chunk);
      ReservedWrite(b0, n0[ip.inum], b1, blocks[..], nodes[ip.inum], bn, old(plan), plan);
    }

    method PutChunk(addr: nat, o: nat, chunk: seq<byte>)
      requires Layout() && Books() && Ahead() && held == {} && addr < size && o + |chunk| <= BSIZE && addr in plan
      modifies blocks, this`logged, this`writes, this`held, this`peak
      ensures Books() && Ahead() && held == {} && logged == old(logged) + {addr}
      ensures blocks[..] == old(blocks[..])[addr := Moved(old(blocks[addr]), o, chunk)]
    {
      hide Books, ImageOf, Applied, Moved, Base;
      ghost var was: seq<Sector> := blocks[..];
      BlockChanges(was, bitmap[..], dinodes[..], addr, Moved(was[addr], o, chunk));
      Hold(addr);
      blocks[addr] := Moved(blocks[addr], o, chunk);
      assert blocks[..] == was[addr := Moved(was[addr], o, chunk)];
      LogHeld(addr);
    }

    /** `itrunc`: the file is empty, exactly the blocks it named are free again,
        each freed once, and no other file changes. */
    method Itrunc(ip: Inode)
      requires Valid() && Current(ip) && |plan| + |Bitmaps()| + 2 <= limit
      modifies bitmap, dinodes, ip, ip.addrs, this`nodes, this`logged, this`writes, this`held, this`peak, this`plan
      ensures Valid() && Current(ip) && ip.info == old(ip.info) && File(ip.inum) == []
      ensures Used() == old(Used()) - Named(blocks[..], old(nodes[ip.inum]), 0, LAST_SLOT + 1)
      ensures OthersSame(blocks[..], old(nodes), blocks[..], nodes, ip.inum)
    {
      hide Owned, UsedSet, Named, WholeAt, Bitmaps, Content, Books, Ahead;
      ghost var u, nd := Used(), nodes[ip.inum];
      PlanTrunc(ip);
      FreeAll(ip, u);
      Emptied(Data(), blocks[..], nodes, u, ip.inum);
      EmptyIsWhole(blocks[..], nd);
      nodes := nodes[ip.inum := Empty(nd)];
      ip.size := 0;
      Iupdate(ip);
    }

    /** The bitmap, the inode and the indirect block join the plan. */
    ghost method PlanTrunc(ip: Inode)
      requires Valid() && Current(ip) && |plan| + |Bitmaps()| + 2 <= limit
      modifies this`plan
      ensures Valid() && Bitmaps() + {Iblock(ip.inum), ip.addrs[NDIRECT]} <= plan
    {
      hide Bitmaps, Rested;
      var s := {Iblock(ip.inum), ip.addrs[NDIRECT]};
      MetaHome(ip.inum);
      SlotHome(ip.inum, NDIRECT);
      CardUnion(Bitmaps(), s);
      CardUnion(plan, Bitmaps() + s);
      Plan(Bitmaps() + s);
    }

    method FreeAll(ip: Inode, ghost u: set<nat>)
      requires Base() && Current(ip) && held == {} && u == Used() && Bitmaps() + {ip.addrs[NDIRECT]} <= plan
      modifies bitmap, ip.addrs, this`logged, this`writes, this`held, this`peak
      ensures Layout() && Books() && Ahead() && held == {} && AllShaped(nodes)
      ensures Used() == u - Named(blocks[..], nodes[ip.inum], 0, LAST_SLOT + 1)
      ensures ip.addrs[..] == Empty(nodes[ip.inum]).addrs
    {
      hide UsedSet, Named, Bitmaps, Books, SlotAddr, Ahead;
      FreeDirect(ip, u);
      FreeIndirect(ip, u);
      NamedSplit(blocks[..], nodes[ip.inum]);
    }

    /** The direct blocks are freed and their slots cleared. */
    method FreeDirect(ip: Inode, ghost u: set<nat>)
      requires Base() && Current(ip) && held == {} && u == Used() && Bitmaps() <= plan
      modifies bitmap, ip.addrs, this`logged, this`writes, this`held, this`peak
      ensures Layout() && Books() && Ahead() && held == {} && ip.addrs.Length == NDIRECT + 1
      ensures Used() == u - Named(blocks[..], nodes[ip.inum], 0, NDIRECT)
      ensures forall k | 0 <= k < NDIRECT :: ip.addrs[k] == 0
      ensures ip.addrs[NDIRECT] == nodes[ip.inum].addrs[NDIRECT]
    {
      hide Owned, UsedSet, Named, Bitmaps, At, Books, Bblock, Ahead;
      BaseShaped();
      ghost var b, nd := blocks[..], nodes[ip.inum];
      NamedNone(b, nd, 0);
      var i := 0;
      while i < NDIRECT
        invariant 0 <= i <= NDIRECT && Books() && Ahead() && held == {}
        invariant Used() == u - Named(b, nd, 0, i)
        invariant forall k | 0 <= k < i :: ip.addrs[k] == 0
        invariant forall k | i <= k <= NDIRECT :: ip.addrs[k] == nd.addrs[k]
      {
        NextNamed(Data(), b, nodes, u, ip.inum, i);
        NamedStep(b, nd, 0, i);
        assert At(b, nd, i) == nd.addrs[i] by { DirectSlot(b, nd, i); }
        var a := ip.addrs[i];
        if a != 0 {
          SectorOf(a);
          Bfree(a);
          ip.addrs[i] := 0;
        }
        i := i + 1;
      }
    }

    lemma NamedNone(b: Blocks, nd: Node, k: nat)
      requires Shaped(nd) && k <= LAST_SLOT
      ensures Named(b, nd, k, k) == {}
    {
    }

    lemma DirectSlot(b: Blocks, nd: Node, k: nat)
      requires Shaped(nd) && k <= NDIRECT
      ensures At(b, nd, k) == nd.addrs[k]
    {
    }

    /** The blocks in the indirect block are freed, then the block itself. */
    method FreeIndirect(ip: Inode, ghost u: set<nat>)
      requires Layout() && Books() && held == {} && ip.addrs.Length == NDIRECT + 1
      requires ip.inum in nodes && AllShaped(nodes) && ip.addrs[NDIRECT] == nodes[ip.inum].addrs[NDIRECT]
      requires Owned(Data(), blocks[..], nodes, u) && Used() == u - Named(blocks[..], nodes[ip.inum], 0, NDIRECT)
      requires Ahead() && Bitmaps() + {ip.addrs[NDIRECT]} <= plan
      modifies bitmap, ip.addrs, this`logged, this`writes, this`held, this`peak
      ensures Books() && Ahead() && held == {} && ip.addrs[..] == old(ip.addrs[..])[NDIRECT := 0]
      ensures var b, nd := blocks[..], nodes[ip.inum];
        Used() == u - Named(b, nd, 0, NDIRECT) - Named(b, nd, NDIRECT + 1, LAST_SLOT + 1)
                  - (if nd.addrs[NDIRECT] == 0 then {} else {nd.addrs[NDIRECT]})
    {
      hide Owned, UsedSet, Named, Bitmaps, At, Books, Ahead, Base;
      ghost var b, nd := blocks[..], nodes[ip.inum];
      if ip.addrs[NDIRECT] != 0 {
        FreeBlocks(ip, ip.addrs[NDIRECT], u);
        ip.addrs[NDIRECT] := 0;
      } else {
        OwnedShaped(u);
        NoEntriesNamed(b, nd);
      }
    }

    method FreeBlocks(ip: Inode, ind: nat, ghost u: set<nat>)
      requires Layout() && Books() && held == {} && ip.inum in nodes && AllShaped(nodes)
      requires ind == nodes[ip.inum].addrs[NDIRECT] != 0
      requires Owned(Data(), blocks[..], nodes, u) && Used() == u - Named(blocks[..], nodes[ip.inum], 0, NDIRECT)
      requires Ahead() && Bitmaps() + {ind} <= plan
      modifies bitmap, this`logged, this`writes, this`held, this`peak
      ensures Books() && Ahead() && held == {}
      ensures var b, nd := blocks[..], nodes[ip.inum];
        Used() == u - Named(b, nd, 0, NDIRECT) - Named(b, nd, NDIRECT + 1, LAST_SLOT + 1) - {ind}
    {
      hide Owned, UsedSet, Named, Bitmaps, At, Books, Ahead, Base;
      ghost var b, nd := blocks[..], nodes[ip.inum];
      OwnedShaped(u);
      NextNamed(Data(), b, nodes, u, ip.inum, NDIRECT);
      DirectSlot(b, nd, NDIRECT);
      Hold(ind);
      FreeEntries(ip, ind, u);
      Brelse(ind);
      SectorOf(ind);
      Bfree(ind);
    }

    lemma OwnedShaped(u: set<nat>)
      requires Owned(Data(), blocks[..], nodes, u)
      ensures AllShaped(nodes)
    {
    }

    lemma BblockIsMeta(x: nat)
      requires x < size
      ensures Bblock(x) < Data()
    {
      assert x / BPB <= size / BPB;
    }

    method FreeEntries(ip: Inode, ind: nat, ghost u: set<nat>)
      requires Layout() && Books() && held == {ind} && ip.inum in nodes && AllShaped(nodes)
      requires ind == nodes[ip.inum].addrs[NDIRECT] != 0 && Data() <= ind < size
      requires Owned(Data(), blocks[..], nodes, u) && Used() == u - Named(blocks[..], nodes[ip.inum], 0, NDIRECT)
      requires Ahead() && Bitmaps() + {ind} <= plan
      modifies bitmap, this`logged, this`writes, this`held, this`peak
      ensures Books() && Ahead() && held == {ind}
      ensures var b, nd := blocks[..], nodes[ip.inum];
        Used() == u - Named(b, nd, 0, NDIRECT) - Named(b, nd, NDIRECT + 1, LAST_SLOT + 1)
    {
      hide Owned, UsedSet, Named, Bitmaps, At, GetWord, Books, Ahead, Base;
      ghost var b, nd := blocks[..], nodes[ip.inum];
      NamedNone(b, nd, NDIRECT + 1);
      var j := 0;
      while j < NINDIRECT
        invariant 0 <= j <= NINDIRECT && Books() && Ahead() && held == {ind}
        invariant Used() == u - Named(b, nd, 0, NDIRECT) - Named(b, nd, NDIRECT + 1, NDIRECT + 1 + j)
      {
        NextNamed(Data(), b, nodes, u, ip.inum, NDIRECT + 1 + j);
        NamedStep(b, nd, NDIRECT + 1, NDIRECT + 1 + j);
        var a := GetWord(blocks[ind], j);
        EntrySlot(b, nd, j);
        if a != 0 {
          BblockIsMeta(a);
          SectorOf(a);
          Bfree(a);
        }
        j := j + 1;
      }
    }

    lemma EntrySlot(b: Blocks, nd: Node, j: nat)
      requires Shaped(nd) && j < NINDIRECT && 0 < nd.addrs[NDIRECT] < |b|
      ensures At(b, nd, NDIRECT + 1 + j) == GetWord(b[nd.addrs[NDIRECT]], j)
    {
      hide GetWord;
    }
  }

  /** Sectors `xs` have been logged, in this order. */
  ghost predicate Logs(w0: seq<(nat, Sector)>, w1: seq<(nat, Sector)>, xs: seq<nat>) {
    w0 <= w1 && |w1| == |w0| + |xs| && forall k | 0 <= k < |xs| :: w1[|w0| + k].0 == xs[k]
  }

  lemma LogsTwo(w0: seq<(nat, Sector)>, w1: seq<(nat, Sector)>, w2: seq<(nat, Sector)>, x: nat, y: nat)
    requires Logs(w0, w1, [x]) && Logs(w1, w2, [y])
    ensures Logs(w0, w2, [x, y])
  {
    assert w1[|w0| + 0].0 == [x][0] && w2[|w1| + 0].0 == [y][0];
    assert w2[|w0|] == w1[|w0|];
  }

  /** How many blocks getting block `bn` of the file takes: one if it is missing, and
      one if its indirect block is. */
  ghost function Fresh(b: Blocks, nd: Node, bn: nat): nat
    requires Shaped(nd) && bn < MAXFILE
  {
    if Addr(b, nd, bn) != 0 then 0 else if NDIRECT <= bn && nd.addrs[NDIRECT] == 0 then 2 else 1
  }

  lemma WriteEffect(data: nat, b0: Blocks, n0: map<nat, Node>, b1: Blocks, n1: map<nat, Node>, used: set<nat>,
                    i: nat, bn: nat, o: nat, chunk: seq<byte>, m: nat)
    requires AllShaped(n0) && AllShaped(n1) && Kept(b0, n0, b1, n1) && OnlyNew(b0, n0, b1, n1, i, bn)
    requires i in n0 && i in n1 && n1 == n0[i := n1[i]] && Filled(b0, n0[i], m) && bn <= m
    requires Owned(data, b1, n1, used) && bn < MAXFILE && Addr(b1, n1[i], bn) != 0 && o + |chunk| <= BSIZE
    requires forall j | j in n0 && j != i :: WholeAt(b0, n0[j])
    ensures Addr(b1, n1[i], bn) < |b1|
    ensures var x := Addr(b1, n1[i], bn);
      var b2 := b1[x := Moved(b1[x], o, chunk)];
      && Owned(data, b2, n1, used)
      && OthersSame(b0, n0, b2, n1, i)
      && Filled(b2, n1[i], if bn == m then m + 1 else m)
      && Chunk(b0, n0[i], b2, n1[i], bn, o, chunk, m)
      && Addr(b2, n1[i], bn) == x
      && n1[i].size == n0[i].size && n1[i].info == n0[i].info
      && SameBelow(b0, n0[i], b2, n1[i], m)
  {
    hide Addr, OnlyNew, Owned, Chunk, SlotAddr;
    ChunkWritten(data, b0, n0, b1, n1, used, i, bn, o, chunk, m);
    var x := Addr(b1, n1[i], bn);
    var v := Moved(b1[x], o, chunk);
    var b2 := b1[x := v];
    OthersGrow(b0, n0, b1, n1, i, bn);
    OthersWrite(data, b1, n1, used, i, bn, v);
    OthersTrans(b0, n0, b1, n1, b2, n1, i);
    FilledGrows(b0, n0, b1, n1, i, bn, m);
    DataWriteSlots(data, b1, n1, used, i, bn, v);
    SameFilled(b1, b2, n1, i, if bn == m then m + 1 else m);
    SameAddrs(b1, b2, n1, i, bn);
    forall c: nat | c < m ensures Addr(b2, n1[i], c) == Addr(b0, n0[i], c) {
      KeptAddr(b0, n0, b1, n1, i, c);
      SameAddrs(b1, b2, n1, i, c);
    }
    OwnSlot(b0, n0, i, NDIRECT);
    OwnSlot(b1, n1, i, NDIRECT);
  }

  /** The file's first `m` blocks, and an indirect block among them, stay where
      they are. */
  ghost predicate SameBelow(b0: Blocks, nd0: Node, b1: Blocks, nd1: Node, m: nat)
    requires Shaped(nd0) && Shaped(nd1)
  {
    && m <= MAXFILE && (forall c: nat | c < m :: Addr(b1, nd1, c) == Addr(b0, nd0, c))
    && (nd0.addrs[NDIRECT] != 0 ==> nd1.addrs[NDIRECT] == nd0.addrs[NDIRECT])
  }

  // ---- counting blocks -------------------------------------------------------

  /** The blocks a file of `m` data blocks takes, with its indirect block. */
  function Span(m: nat): nat { if m <= NDIRECT then m else m + 1 }

  /** The blocks a file of `size` bytes needs in addition to reach `end`. */
  function NewBlocks(size: nat, end: nat): nat { Span(Count(size, end)) - Span(BlocksFor(size)) }

  /** An upper bound on the sectors besides the bitmap that writing `n` bytes at `off`
      logs: its blocks, the indirect block and the inode. */
  function Takes(off: nat, n: nat): nat { BlocksFor(off + n) - off / BSIZE + 2 }

  lemma FreshFilled(b: Blocks, nd: Node, m: nat, bn: nat)
    requires Filled(b, nd, m) && bn <= m && bn < MAXFILE
    ensures Fresh(b, nd, bn) == Span(if bn == m then m + 1 else m) - Span(m)
  {
    hide Addr;
  }

  lemma CountStart(size: nat, off: nat)
    requires off <= size
    ensures NewBlocks(size, off) == 0
  {
    BlocksMono(off, size);
  }

  lemma NewBlocksMono(size: nat, a: nat, b: nat, c: nat)
    requires a <= b <= c
    ensures NewBlocks(size, a) <= NewBlocks(size, b) <= NewBlocks(size, c)
  {
    BlocksMono(a, b);
    BlocksMono(b, c);
  }

  lemma BlockWithin(off: nat, tot: nat, n: nat)
    requires tot < n
    ensures off / BSIZE <= (off + tot) / BSIZE < BlocksFor(off + n)
  {
  }

  // ---- the plan of a write ---------------------------------------------------

  /** The blocks `lo` to `hi` of the file that exist, with the indirect one, are planned. */
  ghost predicate Reserved(b: Blocks, nd: Node, lo: nat, hi: nat, plan: set<nat>)
    requires Shaped(nd) && hi <= MAXFILE
  {
    && (forall c: nat | lo <= c < hi && Addr(b, nd, c) != 0 :: Addr(b, nd, c) in plan)
    && (NDIRECT < hi && nd.addrs[NDIRECT] != 0 ==> nd.addrs[NDIRECT] in plan)
  }

  lemma ReservedOne(b: Blocks, nd: Node, lo: nat, hi: nat, bn: nat, plan: set<nat>)
    requires Shaped(nd) && hi <= MAXFILE && Reserved(b, nd, lo, hi, plan) && lo <= bn < hi
    ensures Reserved(b, nd, bn, bn + 1, plan)
  {
    hide Addr;
  }

  /** After a block was written everything needed is still planned. */
  lemma ReservedGrow(b0: Blocks, nd0: Node, b1: Blocks, nd1: Node, m: nat, bn: nat, lo: nat, hi: nat, plan0: set<nat>,
                     plan1: set<nat>)
    requires Shaped(nd0) && Shaped(nd1) && SameBelow(b0, nd0, b1, nd1, m) && bn <= m && lo <= bn < hi <= MAXFILE
    requires Filled(b0, nd0, m) && Filled(b1, nd1, if bn == m then m + 1 else m)
    requires Reserved(b0, nd0, lo, hi, plan0) && Reserved(b1, nd1, bn, bn + 1, plan1) && plan0 <= plan1
    ensures Reserved(b1, nd1, lo, hi, plan1)
  {
    hide Addr;
    forall c: nat | lo <= c < hi && Addr(b1, nd1, c) != 0 ensures Addr(b1, nd1, c) in plan1 {
      if c < m { assert Addr(b1, nd1, c) == Addr(b0, nd0, c); }
    }
  }

  /** The block itself: it was planned, or it is new. */
  lemma ReservedWrite(b0: Blocks, nd0: Node, b1: Blocks, b2: Blocks, nd1: Node, bn: nat, plan0: set<nat>,
                      plan1: set<nat>)
    requires Shaped(nd0) && Shaped(nd1) && bn < MAXFILE && Reserved(b0, nd0, bn, bn + 1, plan0) && plan0 <= plan1
    requires Addr(b2, nd1, bn) == Addr(b1, nd1, bn)
    requires if Addr(b0, nd0, bn) != 0 then nd1 == nd0 && Addr(b1, nd1, bn) == Addr(b0, nd0, bn)
             else Addr(b1, nd1, bn) in plan1 && (NDIRECT <= bn ==> nd1.addrs[NDIRECT] in plan1)
    ensures Reserved(b2, nd1, bn, bn + 1, plan1)
  {
    hide Addr;
  }

  /** Those blocks of `lo` to `hi` that exist. */
  ghost function DataBlocks(b: Blocks, nd: Node, lo: nat, hi: nat): set<nat>
    requires Shaped(nd) && hi <= MAXFILE
    decreases hi
  {
    if hi <= lo then {}
    else DataBlocks(b, nd, lo, hi - 1) + (if Addr(b, nd, hi - 1) != 0 then {Addr(b, nd, hi - 1)} else {})
  }

  lemma {:induction false} CardData(b: Blocks, nd: Node, m: nat, lo: nat, hi: nat)
    requires Filled(b, nd, m) && lo <= hi <= MAXFILE && lo <= m
    ensures |DataBlocks(b, nd, lo, hi)| <= (if hi < m then hi else m) - lo
    decreases hi
  {
    hide Addr, Filled;
    if lo < hi {
      CardData(b, nd, m, lo, hi - 1);
      FilledHas(b, nd, m, hi - 1);
      var d, a := DataBlocks(b, nd, lo, hi - 1), Addr(b, nd, hi - 1);
      if a != 0 {
        assert DataBlocks(b, nd, lo, hi) == d + {a};
        CardUnion(d, {a});
      } else {
        assert DataBlocks(b, nd, lo, hi) == d;
      }
    }
  }

  lemma {:induction false} DataBlocksAre(b: Blocks, nd: Node, lo: nat, hi: nat)
    requires Shaped(nd) && hi <= MAXFILE
    ensures forall c: nat | lo <= c < hi && Addr(b, nd, c) != 0 :: Addr(b, nd, c) in DataBlocks(b, nd, lo, hi)
    ensures forall a | a in DataBlocks(b, nd, lo, hi) :: a != 0 && exists c: nat :: lo <= c < hi && Addr(b, nd, c) == a
    decreases hi
  {
    hide Addr;
    if lo < hi { DataBlocksAre(b, nd, lo, hi - 1); }
  }

  /** With the indirect block. */
  ghost function Existing(b: Blocks, nd: Node, lo: nat, hi: nat): set<nat>
    requires Shaped(nd) && hi <= MAXFILE
  {
    DataBlocks(b, nd, lo, hi) + (if NDIRECT < hi && nd.addrs[NDIRECT] != 0 then {nd.addrs[NDIRECT]} else {})
  }

  /** What exists and what will be new together fit the bound. */
  lemma PlanSize(b: Blocks, nd: Node, off: nat, n: nat, bitmaps: set<nat>, inode: nat)
    requires Filled(b, nd, BlocksFor(nd.size)) && off <= nd.size && off + n <= MAXFILE * BSIZE
    ensures BlocksFor(off + n) <= MAXFILE
    ensures var s := Existing(b, nd, off / BSIZE, BlocksFor(off + n));
      |bitmaps + {inode} + s| + NewBlocks(nd.size, off + n) <= |bitmaps| + Takes(off, n)
    ensures Reserved(b, nd, off / BSIZE, BlocksFor(off + n), Existing(b, nd, off / BSIZE, BlocksFor(off + n)))
  {
    hide Addr, DataBlocks, Filled;
    var lo, hi, m := off / BSIZE, BlocksFor(off + n), BlocksFor(nd.size);
    assert lo <= hi && lo <= m;
    FilledHas(b, nd, m, 0);
    CardData(b, nd, m, lo, hi);
    DataBlocksAre(b, nd, lo, hi);
    var d := DataBlocks(b, nd, lo, hi);
    FilledIndirect(b, nd, m);
    var ind := if NDIRECT < hi && nd.addrs[NDIRECT] != 0 then {nd.addrs[NDIRECT]} else {};
    CardUnion(d, ind);
    CardUnion(bitmaps, {inode});
    CardUnion(bitmaps + {inode}, d + ind);
  }

  lemma FilledHas(b: Blocks, nd: Node, m: nat, bn: nat)
    requires Filled(b, nd, m) && bn < MAXFILE
    ensures Shaped(nd) && (Addr(b, nd, bn) != 0 <==> bn < m)
  {
  }

  lemma FilledIndirect(b: Blocks, nd: Node, m: nat)
    requires Filled(b, nd, m)
    ensures NDIRECT < m <==> nd.addrs[NDIRECT] != 0
  {
  }

  /** `memmove` into a buffer. */
  method Memmove(dst: array<byte>, at: nat, src: seq<byte>)
    requires at + |src| <= dst.Length
    modifies dst
    ensures dst[..] == old(dst[..])[..at] + src + old(dst[..])[at + |src|..]
  {
    forall k | at <= k < at + |src| {
      dst[k] := src[k - at];
    }
  }
}
