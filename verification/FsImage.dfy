/** What is on a file system's disk: which block each inode slot names, which
    slot owns each block, and the bytes of each file. */
module FsImage {
  import opened Sector

  const BSIZE := SECTOR_SIZE
  const NDIRECT := 12
  const NINDIRECT := 128
  const MAXFILE := NDIRECT + NINDIRECT
  const LAST_SLOT := MAXFILE    // slots 0 to 11 direct, 12 the indirect block, 13 on its entries

  type Short = x: int | -0x8000 <= x < 0x8000

  datatype Info = Info(kind: Short, major: Short, minor: Short, nlink: Short)

  /** An inode's contents; `addrs` has the direct blocks and the indirect one. */
  datatype Node = Node(info: Info, size: Word, addrs: seq<Word>)

  /** A place that can hold a block number. */
  datatype Slot = Slot(inum: nat, k: nat)

  type Blocks = seq<Sector>

  predicate Shaped(nd: Node) { |nd.addrs| == NDIRECT + 1 }

  function Entry(blocks: Blocks, ind: nat, j: nat): Word
    requires j < NINDIRECT
  {
    if ind == 0 || ind >= |blocks| then 0 else GetWord(blocks[ind], j)
  }

  /** The block number in slot `k` of an inode; 0 if there is none. */
  function At(blocks: Blocks, nd: Node, k: nat): Word
    requires Shaped(nd) && k <= LAST_SLOT
  {
    if k <= NDIRECT then nd.addrs[k] else Entry(blocks, nd.addrs[NDIRECT], k - NDIRECT - 1)
  }

  function SlotOf(bn: nat): nat { if bn < NDIRECT then bn else bn + 1 }

  /** The block that holds block `bn` of the file. */
  function Addr(blocks: Blocks, nd: Node, bn: nat): Word
    requires Shaped(nd) && bn < MAXFILE
  {
    At(blocks, nd, SlotOf(bn))
  }

  ghost predicate AllShaped(nodes: map<nat, Node>) {
    forall i | i in nodes :: Shaped(nodes[i])
  }

  ghost function SlotAddr(blocks: Blocks, nodes: map<nat, Node>, s: Slot): Word
    requires AllShaped(nodes)
  {
    if s.inum in nodes && s.k <= LAST_SLOT then At(blocks, nodes[s.inum], s.k) else 0
  }

  // ---- ownership ---------------------------------------------------------

  /** Every block number in a slot is a used data block, no two slots share one,
      and every used data block is in a slot.  Blocks before `data` hold the
      boot sector, superblock, inodes and bitmap; they are always in use. */
  ghost predicate Owned(data: nat, blocks: Blocks, nodes: map<nat, Node>, used: set<nat>) {
    && 0 < data && AllShaped(nodes)
    && (forall s: Slot :: SlotAddr(blocks, nodes, s) != 0 ==> InUse(data, blocks, used, SlotAddr(blocks, nodes, s)))
    && (forall s: Slot, t: Slot :: SlotAddr(blocks, nodes, s) == SlotAddr(blocks, nodes, t) != 0 ==> s == t)
    && (forall b | b in used && data <= b :: HasOwner(blocks, nodes, b))
    && (forall b | 0 <= b < data :: b in used)
  }

  predicate InUse(data: nat, blocks: Blocks, used: set<nat>, a: nat) { data <= a < |blocks| && a in used }

  ghost predicate HasOwner(blocks: Blocks, nodes: map<nat, Node>, b: nat)
    requires AllShaped(nodes)
  {
    exists s: Slot :: SlotAddr(blocks, nodes, s) == b
  }

  /** From one image to another, only the slot `key` changes, to `a`. */
  ghost predicate SlotSet(b0: Blocks, n0: map<nat, Node>, b1: Blocks, n1: map<nat, Node>, key: Slot, a: nat)
    requires AllShaped(n0) && AllShaped(n1)
  {
    forall s: Slot :: SlotAddr(b1, n1, s) == if s == key then a else SlotAddr(b0, n0, s)
  }

  /** An empty slot gets a block that was not in use. */
  lemma AllocOwned(data: nat, b0: Blocks, n0: map<nat, Node>, used: set<nat>, b1: Blocks, n1: map<nat, Node>, key: Slot,
                   a: nat)
    requires Owned(data, b0, n0, used) && |b0| == |b1| && AllShaped(n1)
    requires SlotSet(b0, n0, b1, n1, key, a) && SlotAddr(b0, n0, key) == 0
    requires a !in used && a < |b0| && a != 0
    ensures Owned(data, b1, n1, used + {a})
  {
    hide SlotAddr;
    assert data <= a;
    forall b | b in used + {a} && data <= b ensures HasOwner(b1, n1, b) {
      if b == a {
        assert SlotAddr(b1, n1, key) == a;
      } else {
        assert HasOwner(b0, n0, b);
        var s: Slot :| SlotAddr(b0, n0, s) == b;
        assert SlotAddr(b1, n1, s) == b;
      }
    }
  }

  // ---- what each write does to the slots ---------------------------------

  ghost predicate NoIndirect(nodes: map<nat, Node>, x: nat)
    requires AllShaped(nodes)
  {
    forall i | i in nodes :: nodes[i].addrs[NDIRECT] != x
  }

  /** Writing a block that is no indirect block leaves all slots as they are. */
  lemma WriteKeepsSlots(blocks: Blocks, nodes: map<nat, Node>, x: nat, v: Sector, s: Slot)
    requires AllShaped(nodes) && x < |blocks| && NoIndirect(nodes, x)
    ensures SlotAddr(blocks[x := v], nodes, s) == SlotAddr(blocks, nodes, s)
  {
    hide GetWord;
  }

  /** A block in use under a slot other than an indirect one, and a block not in
      use, are no indirect blocks. */
  lemma NotIndirect(data: nat, blocks: Blocks, nodes: map<nat, Node>, used: set<nat>, x: nat)
    requires Owned(data, blocks, nodes, used) && x != 0
    requires x !in used || exists s: Slot :: s.k != NDIRECT && SlotAddr(blocks, nodes, s) == x
    ensures NoIndirect(nodes, x)
  {
    forall i | i in nodes ensures nodes[i].addrs[NDIRECT] != x {
      assert SlotAddr(blocks, nodes, Slot(i, NDIRECT)) == nodes[i].addrs[NDIRECT];
    }
  }

  function SetAddr(nd: Node, k: nat, a: Word): Node
    requires Shaped(nd) && k <= NDIRECT
  {
    nd.(addrs := nd.addrs[k := a])
  }

  /** A direct slot of inode `i` is set. */
  lemma SetDirect(blocks: Blocks, nodes: map<nat, Node>, i: nat, k: nat, a: Word)
    requires AllShaped(nodes) && i in nodes && k < NDIRECT
    ensures AllShaped(nodes[i := SetAddr(nodes[i], k, a)])
    ensures SlotSet(blocks, nodes, blocks, nodes[i := SetAddr(nodes[i], k, a)], Slot(i, k), a)
  {
    hide GetWord;
  }

  /** Inode `i` gets a zeroed indirect block: its entries are all empty. */
  lemma SetIndirect(blocks: Blocks, nodes: map<nat, Node>, i: nat, a: Word)
    requires AllShaped(nodes) && i in nodes && nodes[i].addrs[NDIRECT] == 0
    requires a < |blocks| && blocks[a] == ZERO_SECTOR
    ensures AllShaped(nodes[i := SetAddr(nodes[i], NDIRECT, a)])
    ensures SlotSet(blocks, nodes, blocks, nodes[i := SetAddr(nodes[i], NDIRECT, a)], Slot(i, NDIRECT), a)
  {
    hide GetWord;
    forall j: nat | j < NINDIRECT { ZeroWords(j); }
  }

  /** An entry of inode `i`'s indirect block is set. */
  lemma SetEntry(data: nat, blocks: Blocks, nodes: map<nat, Node>, used: set<nat>, i: nat, j: nat, a: Word)
    requires Owned(data, blocks, nodes, used) && i in nodes && j < NINDIRECT
    requires 0 != nodes[i].addrs[NDIRECT] < |blocks|
    ensures var ind := nodes[i].addrs[NDIRECT];
      SlotSet(blocks, nodes, blocks[ind := PutWord(blocks[ind], j, a)], nodes, Slot(i, NDIRECT + 1 + j), a)
  {
    hide GetWord, PutWord;
    var ind := nodes[i].addrs[NDIRECT];
    var b1 := blocks[ind := PutWord(blocks[ind], j, a)];
    forall s: Slot
      ensures SlotAddr(b1, nodes, s) == if s == Slot(i, NDIRECT + 1 + j) then a else SlotAddr(blocks, nodes, s)
    {
      if s.inum in nodes && NDIRECT < s.k <= LAST_SLOT {
        assert SlotAddr(blocks, nodes, Slot(s.inum, NDIRECT)) == nodes[s.inum].addrs[NDIRECT];
        assert SlotAddr(blocks, nodes, Slot(i, NDIRECT)) == ind;
        GetPut(blocks[ind], j, a, s.k - NDIRECT - 1);
      }
    }
  }

  // ---- file contents -------------------------------------------------------

  /** Exactly the first `n` blocks of the file exist. */
  ghost predicate Filled(blocks: Blocks, nd: Node, n: nat) {
    && Shaped(nd) && n <= MAXFILE
    && (forall bn: nat | bn < MAXFILE :: Addr(blocks, nd, bn) != 0 <==> bn < n)
    && (nd.addrs[NDIRECT] != 0 <==> NDIRECT < n)
  }

  function BlocksFor(size: nat): nat { (size + BSIZE - 1) / BSIZE }

  function ByteAt(blocks: Blocks, nd: Node, x: nat): byte
    requires Shaped(nd) && x < MAXFILE * BSIZE
  {
    var a := Addr(blocks, nd, x / BSIZE);
    if a < |blocks| then blocks[a][x % BSIZE] else 0
  }

  /** The bytes of a file. */
  function Content(blocks: Blocks, nd: Node): (c: seq<byte>)
    requires Shaped(nd) && nd.size <= MAXFILE * BSIZE
    ensures |c| == nd.size && forall x | 0 <= x < nd.size :: c[x] == ByteAt(blocks, nd, x)
  {
    seq(nd.size, x requires 0 <= x < MAXFILE * BSIZE => ByteAt(blocks, nd, x))
  }

  /** Byte `x` of a file with these addresses is `c`: it lies in the block of the direct
      address, or in that of the entry of the indirect block. */
  ghost predicate StoredAt(blocks: Blocks, addrs: seq<Word>, x: nat, c: byte)
    requires |addrs| == 13
  {
    var bn := x / 512;
    if bn < 12 then addrs[bn] < |blocks| && blocks[addrs[bn]][x % 512] == c
    else
      && bn - 12 < 128 && addrs[12] < |blocks| && GetWord(blocks[addrs[12]], bn - 12) < |blocks|
      && blocks[GetWord(blocks[addrs[12]], bn - 12)][x % 512] == c
  }

  /** Where the bytes of a file lie. */
  lemma ContentStored(blocks: Blocks, nd: Node, x: nat)
    requires Shaped(nd) && x < nd.size <= MAXFILE * BSIZE && 0 < Addr(blocks, nd, x / BSIZE) < |blocks|
    ensures StoredAt(blocks, nd.addrs, x, Content(blocks, nd)[x])
  {
    hide GetWord;
  }

  // ---- growing a file --------------------------------------------------------

  /** Slots in use keep their block, and data blocks keep their bytes. */
  ghost predicate Kept(b0: Blocks, n0: map<nat, Node>, b1: Blocks, n1: map<nat, Node>)
    requires AllShaped(n0) && AllShaped(n1)
  {
    && |b0| == |b1| && n0.Keys == n1.Keys
    && (forall i | i in n0 :: n1[i].size == n0[i].size && n1[i].info == n0[i].info)
    && (forall s: Slot :: SlotAddr(b0, n0, s) != 0 ==> SlotAddr(b1, n1, s) == SlotAddr(b0, n0, s))
    && (forall s: Slot :: SlotAddr(b0, n0, s) != 0 && s.k != NDIRECT ==> SameBlock(b0, b1, SlotAddr(b0, n0, s)))
  }

  predicate SameBlock(b0: Blocks, b1: Blocks, a: nat) { a < |b0| && a < |b1| && b0[a] == b1[a] }

  /** Only the slots that block `bn` of inode `i` needs have become used. */
  ghost predicate OnlyNew(b0: Blocks, n0: map<nat, Node>, b1: Blocks, n1: map<nat, Node>, i: nat, bn: nat)
    requires AllShaped(n0) && AllShaped(n1)
  {
    forall s: Slot :: SlotAddr(b0, n0, s) == 0 && SlotAddr(b1, n1, s) != 0 ==>
      s.inum == i && (s.k == SlotOf(bn) || (s.k == NDIRECT && NDIRECT <= bn))
  }

  lemma KeptTrans(b0: Blocks, n0: map<nat, Node>, b1: Blocks, n1: map<nat, Node>, b2: Blocks, n2: map<nat, Node>,
                  i: nat, bn: nat)
    requires AllShaped(n0) && AllShaped(n1) && AllShaped(n2)
    requires Kept(b0, n0, b1, n1) && Kept(b1, n1, b2, n2) && OnlyNew(b0, n0, b1, n1, i, bn)
    requires OnlyNew(b1, n1, b2, n2, i, bn)
    ensures Kept(b0, n0, b2, n2) && OnlyNew(b0, n0, b2, n2, i, bn)
  {
    hide SlotAddr;
    forall s: Slot ensures SlotAddr(b0, n0, s) != 0 && s.k != NDIRECT ==> SameBlock(b0, b2, SlotAddr(b0, n0, s)) {
      assert SlotAddr(b0, n0, s) != 0 ==> SlotAddr(b1, n1, s) == SlotAddr(b0, n0, s);
    }
  }

  /** Filling an empty slot keeps everything else, if the blocks written are no
      data blocks in use. */
  lemma SetKeeps(data: nat, b0: Blocks, n0: map<nat, Node>, used: set<nat>, b1: Blocks, n1: map<nat, Node>, key: Slot,
                 a: nat, ind: nat)
    requires Owned(data, b0, n0, used) && |b0| == |b1| && AllShaped(n1) && n0.Keys == n1.Keys
    requires forall i | i in n0 :: n1[i].size == n0[i].size && n1[i].info == n0[i].info
    requires SlotSet(b0, n0, b1, n1, key, a) && SlotAddr(b0, n0, key) == 0 && a !in used
    requires ind in used ==> exists i :: SlotAddr(b0, n0, Slot(i, NDIRECT)) == ind != 0
    requires forall x | 0 <= x < |b0| && x != a && x != ind :: b1[x] == b0[x]
    ensures Kept(b0, n0, b1, n1)
  {
    hide SlotAddr;
    forall s: Slot | SlotAddr(b0, n0, s) != 0 && s.k != NDIRECT ensures SameBlock(b0, b1, SlotAddr(b0, n0, s)) {
      assert InUse(data, b0, used, SlotAddr(b0, n0, s));
      if ind in used {
        var i :| SlotAddr(b0, n0, Slot(i, NDIRECT)) == ind != 0;
      }
    }
  }

  /** The file has one block more, or as many as before. */
  lemma FilledGrows(b0: Blocks, n0: map<nat, Node>, b1: Blocks, n1: map<nat, Node>, i: nat, bn: nat, n: nat)
    requires AllShaped(n0) && AllShaped(n1) && Kept(b0, n0, b1, n1) && OnlyNew(b0, n0, b1, n1, i, bn)
    requires i in n0 && bn <= n && bn < MAXFILE && Filled(b0, n0[i], n) && Addr(b1, n1[i], bn) != 0
    ensures Filled(b1, n1[i], if bn == n then n + 1 else n)
  {
    hide At;
    forall k: nat | k <= LAST_SLOT
      ensures SlotAddr(b0, n0, Slot(i, k)) == At(b0, n0[i], k) && SlotAddr(b1, n1, Slot(i, k)) == At(b1, n1[i], k) { }
    IndirectSlot(b0, n0[i]);
    IndirectSlot(b1, n1[i]);
    forall c: nat | c < MAXFILE ensures Addr(b1, n1[i], c) != 0 <==> c < if bn == n then n + 1 else n {
      assert SlotAddr(b0, n0, Slot(i, SlotOf(c))) == Addr(b0, n0[i], c);
      assert SlotAddr(b1, n1, Slot(i, SlotOf(c))) == Addr(b1, n1[i], c);
    }
    assert SlotAddr(b1, n1, Slot(i, NDIRECT)) == n1[i].addrs[NDIRECT];
    assert SlotAddr(b0, n0, Slot(i, NDIRECT)) == n0[i].addrs[NDIRECT];
    if NDIRECT <= bn { IndirectNeeded(b1, n1[i], bn); }
  }

  lemma IndirectSlot(blocks: Blocks, nd: Node)
    requires Shaped(nd)
    ensures At(blocks, nd, NDIRECT) == nd.addrs[NDIRECT]
  {
  }

  lemma IndirectNeeded(blocks: Blocks, nd: Node, bn: nat)
    requires Shaped(nd) && NDIRECT <= bn < MAXFILE && Addr(blocks, nd, bn) != 0
    ensures nd.addrs[NDIRECT] != 0
  {
  }

  /** Other files have the blocks and the bytes they had. */
  lemma OthersKept(b0: Blocks, n0: map<nat, Node>, b1: Blocks, n1: map<nat, Node>, i: nat, bn: nat, j: nat, n: nat)
    requires AllShaped(n0) && AllShaped(n1) && Kept(b0, n0, b1, n1) && OnlyNew(b0, n0, b1, n1, i, bn)
    requires j in n0 && j != i && Filled(b0, n0[j], n)
    ensures Filled(b1, n1[j], n)
  {
    hide At;
    forall c: nat | c < MAXFILE ensures Addr(b1, n1[j], c) == Addr(b0, n0[j], c) {
      assert SlotAddr(b0, n0, Slot(j, SlotOf(c))) == Addr(b0, n0[j], c);
      assert SlotAddr(b1, n1, Slot(j, SlotOf(c))) == Addr(b1, n1[j], c);
    }
    IndirectSlot(b0, n0[j]);
    IndirectSlot(b1, n1[j]);
    assert SlotAddr(b0, n0, Slot(j, NDIRECT)) == n0[j].addrs[NDIRECT];
    assert SlotAddr(b1, n1, Slot(j, NDIRECT)) == n1[j].addrs[NDIRECT];
  }

  lemma ByteKept(b0: Blocks, n0: map<nat, Node>, b1: Blocks, n1: map<nat, Node>, j: nat, x: nat)
    requires AllShaped(n0) && AllShaped(n1) && Kept(b0, n0, b1, n1)
    requires j in n0 && x < MAXFILE * BSIZE && Addr(b0, n0[j], x / BSIZE) != 0
    ensures ByteAt(b1, n1[j], x) == ByteAt(b0, n0[j], x)
  {
    hide At;
    var s := Slot(j, SlotOf(x / BSIZE));
    assert SlotAddr(b0, n0, s) == Addr(b0, n0[j], x / BSIZE);
    assert SlotAddr(b1, n1, s) == Addr(b1, n1[j], x / BSIZE);
  }

  /** A block not in use is zeroed and goes into an empty slot of inode `i`'s own
      table. */
  lemma AllocInNode(data: nat, b0: Blocks, n0: map<nat, Node>, used: set<nat>, i: nat, k: nat, a: Word)
    requires Owned(data, b0, n0, used) && i in n0 && k <= NDIRECT && n0[i].addrs[k] == 0
    requires a !in used && a < |b0|
    ensures var b1, n1 := b0[a := ZERO_SECTOR], n0[i := SetAddr(n0[i], k, a)];
      && Owned(data, b1, n1, used + {a}) && Kept(b0, n0, b1, n1)
      && SlotSet(b0, n0, b1, n1, Slot(i, k), a) && a != 0
  {
    hide At, HasOwner;
    var b1, n1 := b0[a := ZERO_SECTOR], n0[i := SetAddr(n0[i], k, a)];
    NotIndirect(data, b0, n0, used, a);
    forall s: Slot { WriteKeepsSlots(b0, n0, a, ZERO_SECTOR, s); }
    if k < NDIRECT { SetDirect(b1, n0, i, k, a); } else { SetIndirect(b1, n0, i, a); }
    OwnSlot(b0, n0, i, k);
    hide SlotAddr;
    AllocOwned(data, b0, n0, used, b1, n1, Slot(i, k), a);
    SetKeeps(data, b0, n0, used, b1, n1, Slot(i, k), a, a);
  }

  lemma OwnSlot(blocks: Blocks, nodes: map<nat, Node>, i: nat, k: nat)
    requires AllShaped(nodes) && i in nodes && k <= NDIRECT
    ensures SlotAddr(blocks, nodes, Slot(i, k)) == nodes[i].addrs[k]
  {
  }

  /** A block not in use is zeroed and goes into an empty entry of inode `i`'s
      indirect block. */
  lemma AllocInEntry(data: nat, b0: Blocks, n0: map<nat, Node>, used: set<nat>, i: nat, j: nat, a: Word)
    requires Owned(data, b0, n0, used) && i in n0 && j < NINDIRECT
    requires n0[i].addrs[NDIRECT] != 0 && Entry(b0, n0[i].addrs[NDIRECT], j) == 0
    requires a !in used && a < |b0|
    ensures var ind := n0[i].addrs[NDIRECT];
      && ind < |b0| && ind != a && ind in used && data <= ind
      && var b1 := b0[a := ZERO_SECTOR][ind := PutWord(b0[ind], j, a)];
      && Owned(data, b1, n0, used + {a}) && Kept(b0, n0, b1, n0)
      && SlotSet(b0, n0, b1, n0, Slot(i, NDIRECT + 1 + j), a) && a != 0
  {
    hide HasOwner, GetWord, PutWord;
    var ind, key := n0[i].addrs[NDIRECT], Slot(i, NDIRECT + 1 + j);
    OwnSlot(b0, n0, i, NDIRECT);
    assert InUse(data, b0, used, SlotAddr(b0, n0, Slot(i, NDIRECT)));
    var bz := b0[a := ZERO_SECTOR];
    var b1 := bz[ind := PutWord(b0[ind], j, a)];
    NotIndirect(data, b0, n0, used, a);
    forall s: Slot { WriteKeepsSlots(b0, n0, a, ZERO_SECTOR, s); }
    assert SlotAddr(b0, n0, key) == 0;
    SameSlotsOwned(data, b0, bz, n0, used);
    SetEntry(data, bz, n0, used, i, j, a);
    EntryWrite(data, b0, n0, used, b1, i, j, a);
  }

  lemma SameSlotsOwned(data: nat, b0: Blocks, b1: Blocks, nodes: map<nat, Node>, used: set<nat>)
    requires Owned(data, b0, nodes, used) && |b0| == |b1|
    requires forall s: Slot :: SlotAddr(b1, nodes, s) == SlotAddr(b0, nodes, s)
    ensures Owned(data, b1, nodes, used)
  {
    hide SlotAddr;
    forall b | b in used && data <= b ensures HasOwner(b1, nodes, b) {
      assert HasOwner(b0, nodes, b);
      var s: Slot :| SlotAddr(b0, nodes, s) == b;
      assert SlotAddr(b1, nodes, s) == b;
    }
  }

  lemma EntryWrite(data: nat, b0: Blocks, nodes: map<nat, Node>, used: set<nat>, b1: Blocks, i: nat, j: nat, a: Word)
    requires Owned(data, b0, nodes, used) && |b0| == |b1| && i in nodes && j < NINDIRECT
    requires SlotSet(b0, nodes, b1, nodes, Slot(i, NDIRECT + 1 + j), a)
    requires SlotAddr(b0, nodes, Slot(i, NDIRECT + 1 + j)) == 0
    requires a !in used && a < |b0| && a != 0 && nodes[i].addrs[NDIRECT] != 0
    requires forall x | 0 <= x < |b0| && x != a && x != nodes[i].addrs[NDIRECT] :: b1[x] == b0[x]
    ensures Owned(data, b1, nodes, used + {a}) && Kept(b0, nodes, b1, nodes)
  {
    hide At;
    AllocOwned(data, b0, nodes, used, b1, nodes, Slot(i, NDIRECT + 1 + j), a);
    OwnSlot(b0, nodes, i, NDIRECT);
    SetKeeps(data, b0, nodes, used, b1, nodes, Slot(i, NDIRECT + 1 + j), a, nodes[i].addrs[NDIRECT]);
  }

  lemma KeptRefl(data: nat, b: Blocks, n: map<nat, Node>, used: set<nat>, i: nat, bn: nat)
    requires Owned(data, b, n, used)
    ensures Kept(b, n, b, n) && OnlyNew(b, n, b, n, i, bn)
  {
    hide SlotAddr;
    forall s: Slot ensures SlotAddr(b, n, s) != 0 ==> SameBlock(b, b, SlotAddr(b, n, s)) {
      assert SlotAddr(b, n, s) != 0 ==> InUse(data, b, used, SlotAddr(b, n, s));
    }
  }

  lemma SetIsNew(b0: Blocks, n0: map<nat, Node>, b1: Blocks, n1: map<nat, Node>, i: nat, bn: nat, k: nat, a: nat)
    requires AllShaped(n0) && AllShaped(n1) && SlotSet(b0, n0, b1, n1, Slot(i, k), a)
    requires k == SlotOf(bn) || (k == NDIRECT && NDIRECT <= bn)
    ensures OnlyNew(b0, n0, b1, n1, i, bn)
  {
    hide SlotAddr;
  }

  lemma AddrIsSlot(blocks: Blocks, nodes: map<nat, Node>, i: nat, bn: nat)
    requires AllShaped(nodes) && i in nodes && bn < MAXFILE
    ensures Addr(blocks, nodes[i], bn) == SlotAddr(blocks, nodes, Slot(i, SlotOf(bn)))
  {
    hide At;
  }

  // ---- writing data ----------------------------------------------------------

  /** Writing block `bn` of file `i` leaves every slot as it is. */
  lemma DataWriteSlots(data: nat, b: Blocks, n: map<nat, Node>, used: set<nat>, i: nat, bn: nat, v: Sector)
    requires Owned(data, b, n, used) && i in n && bn < MAXFILE && Addr(b, n[i], bn) != 0
    ensures var x := Addr(b, n[i], bn); x < |b| && Owned(data, b[x := v], n, used)
    ensures var x := Addr(b, n[i], bn); forall s: Slot :: SlotAddr(b[x := v], n, s) == SlotAddr(b, n, s)
  {
    hide At;
    var x, s := Addr(b, n[i], bn), Slot(i, SlotOf(bn));
    AddrIsSlot(b, n, i, bn);
    assert InUse(data, b, used, SlotAddr(b, n, s));
    NotIndirect(data, b, n, used, x);
    forall t: Slot { WriteKeepsSlots(b, n, x, v, t); }
    SameSlotsOwned(data, b, b[x := v], n, used);
  }

  lemma SameAddrs(b0: Blocks, b1: Blocks, n: map<nat, Node>, j: nat, bn: nat)
    requires AllShaped(n) && j in n && bn < MAXFILE
    requires forall s: Slot :: SlotAddr(b1, n, s) == SlotAddr(b0, n, s)
    ensures Addr(b1, n[j], bn) == Addr(b0, n[j], bn)
  {
    hide SlotAddr, At;
    AddrIsSlot(b0, n, j, bn);
    AddrIsSlot(b1, n, j, bn);
  }

  lemma SameFilled(b0: Blocks, b1: Blocks, n: map<nat, Node>, j: nat, m: nat)
    requires AllShaped(n) && j in n && Filled(b0, n[j], m)
    requires forall s: Slot :: SlotAddr(b1, n, s) == SlotAddr(b0, n, s)
    ensures Filled(b1, n[j], m)
  {
    hide SlotAddr, Addr;
    forall bn: nat | bn < MAXFILE { SameAddrs(b0, b1, n, j, bn); }
  }

  /** It changes the bytes of that block of that file and no others. */
  lemma DataWriteByte(data: nat, b: Blocks, n: map<nat, Node>, used: set<nat>, i: nat, bn: nat, v: Sector, j: nat,
                      y: nat)
    requires Owned(data, b, n, used) && i in n && j in n && bn < MAXFILE && y < MAXFILE * BSIZE
    requires Addr(b, n[i], bn) != 0 && Addr(b, n[j], y / BSIZE) != 0
    ensures Addr(b, n[i], bn) < |b|
    ensures ByteAt(b[Addr(b, n[i], bn) := v], n[j], y)
         == if j == i && y / BSIZE == bn then v[y % BSIZE] else ByteAt(b, n[j], y)
  {
    hide At, HasOwner;
    var x, c := Addr(b, n[i], bn), y / BSIZE;
    DataWriteSlots(data, b, n, used, i, bn, v);
    SameAddrs(b, b[x := v], n, j, c);
    AddrIsSlot(b, n, i, bn);
    AddrIsSlot(b, n, j, c);
    assert InUse(data, b, used, SlotAddr(b, n, Slot(j, SlotOf(c))));
    if Addr(b, n[j], c) == x {
      assert Slot(j, SlotOf(c)) == Slot(i, SlotOf(bn));
    }
  }

  /** Within one block, a slice of the file is a slice of the block. */
  lemma SliceOfBlock(b: Blocks, nd: Node, o: nat, m: nat)
    requires Shaped(nd) && nd.size <= MAXFILE * BSIZE && o + m <= nd.size && o % BSIZE + m <= BSIZE && 0 < m
    requires Addr(b, nd, o / BSIZE) < |b|
    ensures Content(b, nd)[o..o + m] == b[Addr(b, nd, o / BSIZE)][o % BSIZE..o % BSIZE + m]
  {
    hide Addr;
    var a := Addr(b, nd, o / BSIZE);
    var c, d := Content(b, nd)[o..o + m], b[a][o % BSIZE..o % BSIZE + m];
    forall k | 0 <= k < m ensures c[k] == d[k] {
      InSameBlock(o, k);
      assert Content(b, nd)[o + k] == ByteAt(b, nd, o + k);
    }
  }

  lemma InSameBlock(o: nat, k: nat)
    requires o % BSIZE + k < BSIZE
    ensures (o + k) / BSIZE == o / BSIZE && (o + k) % BSIZE == o % BSIZE + k
  {
  }

  /** A file's size and information are not part of who owns what. */
  lemma ResizeOwned(data: nat, b: Blocks, n: map<nat, Node>, used: set<nat>, i: nat, nd: Node)
    requires Owned(data, b, n, used) && i in n && nd.addrs == n[i].addrs
    ensures Owned(data, b, n[i := nd], used)
  {
    var n1 := n[i := nd];
    forall s: Slot ensures SlotAddr(b, n1, s) == SlotAddr(b, n, s) { }
    hide SlotAddr;
    forall x | x in used && data <= x ensures HasOwner(b, n1, x) {
      assert HasOwner(b, n, x);
      var s: Slot :| SlotAddr(b, n, s) == x;
      assert SlotAddr(b, n1, s) == x;
    }
  }
}
