/** Directories as files of 16-byte entries, and the elements of a path.

    Names and paths are C strings of bytes, given without their final zero. */
module Directory {
  import opened Params
  import opened Sector
  import opened FsImage
  import opened FsWrite
  import opened Fs

  const DIRSIZ: nat := 14
  const ENTRY: nat := 16
  const SLASH: byte := 47

  // ---- names --------------------------------------------------------------------------

  predicate CString(s: seq<byte>) { 0 !in s }

  function ByteOf(s: seq<byte>, i: nat): byte { if i < |s| then s[i] else 0 }

  /** What of a name counts: its first DIRSIZ bytes. */
  function Key(name: seq<byte>): (r: seq<byte>)
    ensures |r| <= |name| && r == name[..|r|] && (|r| == 14 || (|r| < 14 && r == name))
  {
    if |name| <= DIRSIZ then name else name[..DIRSIZ]
  }

  /** The bytes of a field before its first zero. */
  function Trim(f: seq<byte>): seq<byte> { if f == [] || f[0] == 0 then [] else [f[0]] + Trim(f[1..]) }

  function Zeros(n: nat): (r: seq<byte>)
    ensures |r| == n && forall i | 0 <= i < n :: r[i] == 0
  {
    seq(n, _ => 0)
  }

  function Padded(name: seq<byte>): (r: seq<byte>)
    ensures |r| == DIRSIZ
  {
    Key(name) + Zeros(DIRSIZ - |Key(name)|)
  }

  lemma {:induction false} TrimPrefix(a: seq<byte>, b: seq<byte>)
    requires CString(a) && (b == [] || b[0] == 0)
    ensures Trim(a + b) == a
    decreases |a|
  {
    if a == [] {
      assert a + b == b;
    } else {
      assert (a + b)[1..] == a[1..] + b && (a + b)[0] == a[0] && a[0] in a;
      TrimPrefix(a[1..], b);
    }
  }

  /** A padded name reads back as its key. */
  lemma TrimPadded(name: seq<byte>)
    requires CString(name)
    ensures Trim(Padded(name)) == Key(name) && CString(Key(name))
  {
    assert CString(Key(name));
    TrimPrefix(Key(name), Zeros(DIRSIZ - |Key(name)|));
  }

  /** The strings agree up to `i`, all of it before a zero. */
  ghost predicate AgreeTo(name: seq<byte>, f: seq<byte>, i: nat) {
    i <= |f| && i <= |name| && name[..i] == f[..i] && CString(f[..i])
  }

  lemma TrimAfter(f: seq<byte>, i: nat)
    requires i <= |f| && CString(f[..i])
    ensures Trim(f) == f[..i] + Trim(f[i..])
    decreases i
  {
    if i > 0 {
      assert f[0] == f[..i][0] && f[0] in f[..i];
      assert f[1..][..i - 1] == f[..i][1..] && f[1..][i - 1..] == f[i..];
      TrimAfter(f[1..], i - 1);
      assert f[..i] == [f[0]] + f[1..][..i - 1];
    } else {
      assert f[0..] == f && f[..0] == [];
    }
  }

  /** strncmp of a name and a field of DIRSIZ bytes, as an equality test. */
  method NameCmp(name: seq<byte>, f: seq<byte>) returns (same: bool)
    requires CString(name) && |f| == DIRSIZ
    ensures same <==> Key(name) == Trim(f)
  {
    var i := 0;
    while i < DIRSIZ && ByteOf(name, i) != 0 && ByteOf(name, i) == f[i]
      invariant i <= DIRSIZ && AgreeTo(name, f, i)
    {
      assert i < |name| && name[i] in name;
      assert name[..i + 1] == name[..i] + [name[i]] && f[..i + 1] == f[..i] + [f[i]];
      i := i + 1;
    }
    TrimAfter(f, i);
    if i == DIRSIZ {
      assert f[i..] == [] && f[..i] == f;
      return true;
    }
    same := ByteOf(name, i) == f[i];
    Differ(name, f, i);
  }

  lemma Differ(name: seq<byte>, f: seq<byte>, i: nat)
    requires CString(name) && |f| == DIRSIZ && i < DIRSIZ && AgreeTo(name, f, i) && Trim(f) == f[..i] + Trim(f[i..])
    requires ByteOf(name, i) == 0 || ByteOf(name, i) != f[i]
    ensures ByteOf(name, i) == f[i] <==> Key(name) == Trim(f)
  {
    var k, t := Key(name), Trim(f);
    assert i < |name| ==> name[i] in name;
    assert f[i..][0] == f[i];
    if i == |name| {
      assert k == name == name[..i];
      assert f[i] != 0 ==> |t| > i;
    } else {
      assert |k| > i && k[i] == name[i];
      assert f[i] != 0 ==> t[i] == f[i];
      assert f[i] == 0 ==> |t| == i;
    }
  }

  // ---- entries ----------------------------------------------------------------------------

  function Entry(c: seq<byte>, k: nat): (e: seq<byte>)
    requires ENTRY * (k + 1) <= |c|
    ensures |e| == ENTRY
  {
    c[ENTRY * k..ENTRY * (k + 1)]
  }

  function InumOf(e: seq<byte>): nat
    requires |e| == ENTRY
  {
    e[0] as int + 0x100 * (e[1] as int)
  }

  function FieldOf(e: seq<byte>): (f: seq<byte>)
    requires |e| == ENTRY
    ensures |f| == DIRSIZ
  {
    e[2..]
  }

  /** Entry `k` is in use and binds `key` to `inum`. */
  ghost predicate BoundAt(c: seq<byte>, key: seq<byte>, inum: nat, k: nat) {
    ENTRY * (k + 1) <= |c| && InumOf(Entry(c, k)) == inum != 0 && Trim(FieldOf(Entry(c, k))) == key
  }

  /** What an entry is in bytes: the inode's number as a little-endian short, then the
      name, ended by a zero if it is shorter than its field. */
  lemma EntryBytes(c: seq<byte>, key: seq<byte>, inum: nat, k: nat)
    ensures BoundAt(c, key, inum, k) <==>
      && 16 * (k + 1) <= |c| && inum == (c[16 * k] as int) + 0x100 * (c[16 * k + 1] as int) != 0 && |key| <= 14
      && (forall i | 0 <= i < |key| :: c[16 * k + 2 + i] == key[i] != 0)
      && (|key| < 14 ==> c[16 * k + 2 + |key|] == 0)
  {
    if 16 * (k + 1) <= |c| {
      var f := FieldOf(Entry(c, k));
      assert forall i | 0 <= i < 14 :: f[i] == c[16 * k + 2 + i];
      TrimIs(f, key);
    }
  }

  /** A field holds a key if it begins with it and the key ends there. */
  lemma {:induction false} TrimIs(f: seq<byte>, key: seq<byte>)
    ensures Trim(f) == key <==>
      && |key| <= |f| && (forall i | 0 <= i < |key| :: f[i] == key[i] != 0) && (|key| < |f| ==> f[|key|] == 0)
  {
    if f != [] && f[0] != 0 {
      if key != [] {
        TrimIs(f[1..], key[1..]);
        assert key == [key[0]] + key[1..];
        assert forall i | 0 < i < |key| && i < |f| :: f[i] == f[1..][i - 1] && key[i] == key[1..][i - 1];
        assert forall i | 0 <= i < |key| - 1 && i < |f| - 1 :: f[1..][i] == f[i + 1] && key[1..][i] == key[i + 1];
      }
    }
  }

  /** The directory as a relation between names and inodes. */
  ghost predicate Binds(c: seq<byte>, key: seq<byte>, inum: nat) { exists k: nat :: BoundAt(c, key, inum, k) }

  /** Whole entries, and no name in two of them: the relation is a map. */
  ghost predicate IsDir(c: seq<byte>) {
    && |c| % ENTRY == 0
    && forall j: nat, k: nat, key, a, b :: BoundAt(c, key, a, j) && BoundAt(c, key, b, k) ==> j == k
  }

  function MakeEntry(name: seq<byte>, inum: nat): (e: seq<byte>)
    requires inum < 0x1_0000
    ensures |e| == ENTRY
  {
    [inum % 0x100, inum / 0x100] + Padded(name)
  }

  lemma EntryIs(name: seq<byte>, inum: nat)
    requires CString(name) && inum < 0x1_0000
    ensures InumOf(MakeEntry(name, inum)) == inum && Trim(FieldOf(MakeEntry(name, inum))) == Key(name)
  {
    TrimPadded(name);
    assert MakeEntry(name, inum)[2..] == Padded(name);
  }

  lemma EntryAfter(c: seq<byte>, k: nat, e: seq<byte>, j: nat)
    requires |c| % ENTRY == 0 && ENTRY * k <= |c| && |e| == ENTRY
    ensures var c' := Spliced(c, ENTRY * k, e);
      && |c'| % ENTRY == 0 && (ENTRY * (j + 1) <= |c'| <==> ENTRY * (j + 1) <= |c| || j == k)
      && (ENTRY * (j + 1) <= |c'| ==> Entry(c', j) == if j == k then e else Entry(c, j))
  {
  }

  /** Writing an entry for a new name into an unused slot, or after the last, adds
      that binding to the map and changes no other.  For inode 0 it adds none. */
  lemma LinkBinds(c: seq<byte>, k: nat, name: seq<byte>, inum: nat)
    requires IsDir(c) && CString(name) && inum < 0x1_0000 && ENTRY * k <= |c|
    requires ENTRY * (k + 1) <= |c| ==> InumOf(Entry(c, k)) == 0
    requires forall i: nat :: !Binds(c, Key(name), i)
    ensures var c' := Spliced(c, ENTRY * k, MakeEntry(name, inum));
      IsDir(c') && forall key, i: nat ::
        Binds(c', key, i) <==> Binds(c, key, i) || (key == Key(name) && i == inum != 0)
  {
    hide Trim, Spliced, MakeEntry, Entry, Key;
    var e := MakeEntry(name, inum);
    var c' := Spliced(c, ENTRY * k, e);
    EntryIs(name, inum);
    EntryAfter(c, k, e, k);
    forall j: nat, key, i: nat
      ensures BoundAt(c', key, i, j) <==> if j == k then key == Key(name) && i == inum != 0 else BoundAt(c, key, i, j)
    {
      EntryAfter(c, k, e, j);
    }
    forall key, i: nat ensures Binds(c', key, i) <==> Binds(c, key, i) || (key == Key(name) && i == inum != 0) {
      if j: nat :| BoundAt(c, key, i, j) { assert j != k; assert BoundAt(c', key, i, j); }
      if key == Key(name) && i == inum != 0 { assert BoundAt(c', key, i, k); }
    }
    forall a: nat, j: nat ensures !BoundAt(c, Key(name), a, j) {
      assert BoundAt(c, Key(name), a, j) ==> Binds(c, Key(name), a);
    }
  }

  // ---- looking up and linking -----------------------------------------------------------------

  datatype Found = NotDir | Missing | Found(inum: nat, off: nat)

  /** How linking ends: the name is taken, it was added, the directory cannot grow,
      which panics, or its new block lies in the log. */
  datatype Linked = Exists | Added | TooBig | InLog

  /** A directory at rest. */
  ghost predicate DirAt(fs: FileSystem, dp: Inode)
    reads fs, fs.blocks, fs.bitmap, fs.dinodes, dp, dp.addrs
  {
    fs.Valid() && fs.Current(dp) && dp.info.kind == T_DIR && |Bytes(fs, dp)| == dp.size && IsDir(Bytes(fs, dp))
  }

  ghost function Bytes(fs: FileSystem, dp: Inode): seq<byte>
    reads fs, fs.blocks, dp
  {
    if dp.inum in fs.nodes && Shaped(fs.nodes[dp.inum]) && fs.nodes[dp.inum].size <= MAXFILE * BSIZE
    then fs.File(dp.inum) else []
  }

  /** What reading leaves as it is: the image, and the room in the plan. */
  datatype View = View(blocks: Blocks, nodes: map<nat, Node>, free: set<nat>, limit: nat, planned: nat)

  ghost function Snapshot(fs: FileSystem): View
    reads fs, fs.blocks, fs.bitmap
  {
    View(fs.blocks[..], fs.nodes, fs.Free(), fs.limit, |fs.plan|)
  }

  ghost predicate Same(v: View, w: View) {
    w.blocks == v.blocks && w.nodes == v.nodes && w.free == v.free && w.limit == v.limit && w.planned <= v.planned
  }

  /** One entry, read through the file. */
  method ReadEntry(fs: FileSystem, dp: Inode, off: Word) returns (e: seq<byte>)
    requires DirAt(fs, dp) && off % ENTRY == 0 && off < dp.size
    modifies fs, fs.blocks, fs.bitmap, dp.addrs
    ensures DirAt(fs, dp) && Bytes(fs, dp) == old(Bytes(fs, dp)) && Same(old(Snapshot(fs)), Snapshot(fs))
    ensures ENTRY * (off / ENTRY + 1) <= |Bytes(fs, dp)| && e == Entry(Bytes(fs, dp), off / ENTRY)
  {
    hide FileSystem.Valid, FileSystem.Free, Content, IsDir;
    fs.ValidShaped(dp.inum);
    ghost var c := fs.File(dp.inum);
    EntryFits(c, off);
    var de := new byte[ENTRY];
    var r := fs.Readi(dp, de, off, ENTRY);
    assert fs.File(dp.inum) == c;
    assert r == Ret(ENTRY);
    e := de[..];
    assert e == c[off..off + ENTRY];
  }

  lemma EntryFits(c: seq<byte>, off: nat)
    requires IsDir(c) && off % ENTRY == 0 && off < |c|
    ensures off + ENTRY <= |c| && ENTRY * (off / ENTRY + 1) <= |c| && Entry(c, off / ENTRY) == c[off..off + ENTRY]
  {
  }

  /** The first entries bind nothing to the name. */
  ghost predicate NotBelow(c: seq<byte>, key: seq<byte>, n: nat) {
    forall k: nat, i: nat | k < n :: !BoundAt(c, key, i, k)
  }

  lemma NotBelowNext(c: seq<byte>, key: seq<byte>, n: nat)
    requires NotBelow(c, key, n) && ENTRY * (n + 1) <= |c|
    requires InumOf(Entry(c, n)) == 0 || Trim(FieldOf(Entry(c, n))) != key
    ensures NotBelow(c, key, n + 1)
  {
  }

  lemma NotAtAll(c: seq<byte>, key: seq<byte>, n: nat)
    requires NotBelow(c, key, n) && |c| <= ENTRY * n
    ensures forall i: nat :: !Binds(c, key, i)
  {
  }

  lemma IsBound(c: seq<byte>, key: seq<byte>, k: nat)
    requires ENTRY * (k + 1) <= |c| && InumOf(Entry(c, k)) != 0 && Trim(FieldOf(Entry(c, k))) == key
    ensures BoundAt(c, key, InumOf(Entry(c, k)), k) && Binds(c, key, InumOf(Entry(c, k)))
  {
    assert BoundAt(c, key, InumOf(Entry(c, k)), k);
  }

  /** The inode a name is bound to and where its entry lies, or no binding. */
  method DirLookup(fs: FileSystem, dp: Inode, name: seq<byte>) returns (r: Found)
    requires CString(name) && (DirAt(fs, dp) || dp.info.kind != T_DIR)
    modifies fs, fs.blocks, fs.bitmap, dp.addrs
    ensures r.NotDir? <==> old(dp.info.kind) != T_DIR
    ensures !r.NotDir? ==> DirAt(fs, dp) && Bytes(fs, dp) == old(Bytes(fs, dp))
    ensures Same(old(Snapshot(fs)), Snapshot(fs))
    ensures r.Found? ==> r.off % ENTRY == 0 && BoundAt(Bytes(fs, dp), Key(name), r.inum, r.off / ENTRY)
    ensures r.Missing? ==> forall i: nat :: !Binds(Bytes(fs, dp), Key(name), i)
  {
    hide DirAt, Bytes, BoundAt, NotBelow, Binds, Trim, Key, Entry, InumOf, FieldOf, Snapshot;
    if dp.info.kind != T_DIR { return NotDir; }
    ghost var c := Bytes(fs, dp);
    SizeIs(fs, dp);
    var off: nat := 0;
    NoneBelow(c, Key(name));
    while off < dp.size
      invariant off % ENTRY == 0 && off <= dp.size == |c| && dp.size < 0x1_0000_0000 && |c| % ENTRY == 0
      invariant DirAt(fs, dp) && Bytes(fs, dp) == c && dp.info.kind == T_DIR
      invariant Same(old(Snapshot(fs)), Snapshot(fs))
      invariant NotBelow(c, Key(name), off / ENTRY)
    {
      var e := ReadEntry(fs, dp, off);
      SizeIs(fs, dp);
      var live := InumOf(e) != 0;
      if live {
        var same := NameCmp(name, FieldOf(e));
        if same {
          IsBound(c, Key(name), off / ENTRY);
          return Found(InumOf(e), off);
        }
      }
      NotBelowNext(c, Key(name), off / ENTRY);
      off := off + ENTRY;
    }
    NotAtAll(c, Key(name), off / ENTRY);
    return Missing;
  }

  lemma NoneBelow(c: seq<byte>, key: seq<byte>)
    ensures NotBelow(c, key, 0)
  {
  }

  lemma SizeIs(fs: FileSystem, dp: Inode)
    requires DirAt(fs, dp)
    ensures |Bytes(fs, dp)| == dp.size < 0x1_0000_0000 && IsDir(Bytes(fs, dp)) && |Bytes(fs, dp)| % ENTRY == 0
    ensures dp.info.kind == T_DIR
  {
    fs.ValidShaped(dp.inum);
  }

  /** The first entries are all in use. */
  ghost predicate InUseBelow(c: seq<byte>, n: nat) {
    forall k: nat | k < n && ENTRY * (k + 1) <= |c| :: InumOf(Entry(c, k)) != 0
  }

  /** The first unused entry, or the end of the directory if there is none. */
  method FindSlot(fs: FileSystem, dp: Inode) returns (off: nat)
    requires DirAt(fs, dp)
    modifies fs, fs.blocks, fs.bitmap, dp.addrs
    ensures DirAt(fs, dp) && Bytes(fs, dp) == old(Bytes(fs, dp)) && Same(old(Snapshot(fs)), Snapshot(fs))
    ensures off % ENTRY == 0 && off <= |Bytes(fs, dp)| == dp.size < 0x1_0000_0000
    ensures off < |Bytes(fs, dp)| ==>
      ENTRY * (off / ENTRY + 1) <= |Bytes(fs, dp)| && InumOf(Entry(Bytes(fs, dp), off / ENTRY)) == 0
    ensures InUseBelow(Bytes(fs, dp), off / ENTRY)
  {
    hide DirAt, Bytes, InumOf, Entry, IsDir, Snapshot;
    ghost var c := Bytes(fs, dp);
    SizeIs(fs, dp);
    off := 0;
    while off < dp.size
      invariant off % ENTRY == 0 && off <= dp.size == |c| && dp.size < 0x1_0000_0000 && |c| % ENTRY == 0
      invariant DirAt(fs, dp) && Bytes(fs, dp) == c && Same(old(Snapshot(fs)), Snapshot(fs))
      invariant InUseBelow(c, off / ENTRY)
    {
      var e := ReadEntry(fs, dp, off);
      SizeIs(fs, dp);
      if InumOf(e) == 0 { break; }
      off := off + ENTRY;
    }
  }

  /** No entry is unused, so that the next one goes behind the last. */
  ghost predicate Packed(c: seq<byte>) { InUseBelow(c, |c| / ENTRY) }

  /** A new name is bound to the inode, as a short, and nothing else changes; a name
      in use is refused.  With all entries in use the directory grows, for which it
      must not be of maximal size, and a block before the log must be free if its
      last block is full. */
  method DirLink(fs: FileSystem, dp: Inode, name: seq<byte>, inum: Word) returns (r: Linked)
    requires DirAt(fs, dp) && CString(name) && |fs.plan| + |fs.Bitmaps()| + 3 <= fs.limit
    modifies fs, fs.blocks, fs.bitmap, fs.dinodes, dp, dp.addrs
    ensures r.Exists? <==> exists i: nat :: Binds(old(Bytes(fs, dp)), Key(name), i)
    ensures r.Exists? ==> DirAt(fs, dp) && Bytes(fs, dp) == old(Bytes(fs, dp))
    ensures r.TooBig? <==> !r.Exists? && Packed(old(Bytes(fs, dp))) && |old(Bytes(fs, dp))| + ENTRY > MAXFILE * BSIZE
    ensures r.InLog? <==> !r.Exists? && !r.TooBig? && Packed(old(Bytes(fs, dp)))
                          && NewBlocks(|old(Bytes(fs, dp))|, |old(Bytes(fs, dp))| + ENTRY) > |old(fs.Free())|
    ensures r.Added? ==> DirAt(fs, dp)
    ensures r.Added? ==> OthersSame(old(fs.blocks[..]), old(fs.nodes), fs.blocks[..], fs.nodes, dp.inum)
    ensures r.Added? ==> forall key, i: nat ::
      Binds(Bytes(fs, dp), key, i) <==>
      Binds(old(Bytes(fs, dp)), key, i) || (key == Key(name) && i == inum % 0x1_0000 != 0)
  {
    hide DirAt, Bytes, BoundAt, Binds, Trim, Key, Entry, InumOf, OthersSame, IsDir, Padded, Spliced, FileSystem.Free,
      NewBlocks, FileSystem.Bitmaps, InUseBelow;
    ghost var c := Bytes(fs, dp);
    SizeIs(fs, dp);
    var found := DirLookup(fs, dp, name);
    SizeIs(fs, dp);
    if found.Found? {
      assert Binds(c, Key(name), found.inum) by { BoundIs(c, Key(name), found.inum, found.off / ENTRY); }
      return Exists;
    }
    var off := FindSlot(fs, dp);
    LinkBinds(c, off / ENTRY, name, inum % 0x1_0000);
    SlotRoom(c, off);
    MaxFits(fs, dp);
    r := WriteEntry(fs, dp, off, MakeEntry(name, inum % 0x1_0000));
  }

  lemma MaxFits(fs: FileSystem, dp: Inode)
    requires DirAt(fs, dp)
    ensures dp.size <= MAXFILE * BSIZE
  {
    fs.ValidShaped(dp.inum);
  }

  /** An unused entry needs no room; the end of the directory is used if and only if
      there is none. */
  lemma SlotRoom(c: seq<byte>, off: nat)
    requires IsDir(c) && off % ENTRY == 0 && off <= |c| && InUseBelow(c, off / ENTRY)
    requires off < |c| ==> ENTRY * (off / ENTRY + 1) <= |c| && InumOf(Entry(c, off / ENTRY)) == 0
    ensures off == |c| <==> Packed(c)
    ensures off < |c| ==> off + ENTRY <= |c| && NewBlocks(|c|, off + ENTRY) == 0
  {
    hide InumOf, Entry, NewBlocks;
    if off < |c| { CountStart(|c|, off + ENTRY); }
  }

  lemma BoundIs(c: seq<byte>, key: seq<byte>, inum: nat, k: nat)
    requires BoundAt(c, key, inum, k)
    ensures Binds(c, key, inum)
  {
  }

  /** An entry, written through the file. */
  method WriteEntry(fs: FileSystem, dp: Inode, off: Word, e: seq<byte>) returns (r: Linked)
    requires DirAt(fs, dp) && |e| == ENTRY && off <= dp.size && off <= |Bytes(fs, dp)|
    requires IsDir(Spliced(Bytes(fs, dp), off, e))
    requires off % ENTRY == 0 && |fs.plan| + |fs.Bitmaps()| + 3 <= fs.limit
    modifies fs, fs.blocks, fs.bitmap, fs.dinodes, dp, dp.addrs
    ensures !r.Exists? && (r.TooBig? <==> off + ENTRY > MAXFILE * BSIZE)
    ensures r.InLog? <==> !r.TooBig? && NewBlocks(|old(Bytes(fs, dp))|, off + ENTRY) > |old(fs.Free())|
    ensures r.Added? ==> DirAt(fs, dp) && off <= |old(Bytes(fs, dp))|
    ensures r.Added? ==> Bytes(fs, dp) == Spliced(old(Bytes(fs, dp)), off, e)
    ensures r.Added? ==> OthersSame(old(fs.blocks[..]), old(fs.nodes), fs.blocks[..], fs.nodes, dp.inum)
  {
    hide DirAt, Bytes, FileSystem.Valid, FileSystem.Bitmaps, FileSystem.Free, Content, IsDir, OthersSame, Spliced,
      NewBlocks, Takes;
    DirParts(fs, dp);
    OneBlock(off);
    var io := fs.Writei(dp, e, off);
    if io.InLog? { return Linked.InLog; }
    if io != Ret(ENTRY) { return TooBig; }
    fs.ValidShaped(dp.inum);
    DirFrom(fs, dp);
    return Added;
  }

  /** An entry lies in one block. */
  lemma OneBlock(off: nat)
    requires off % ENTRY == 0
    ensures Takes(off, ENTRY) == 3
  {
    var q := off / BSIZE;
    assert off == q * BSIZE + off % BSIZE;
  }

  lemma DirParts(fs: FileSystem, dp: Inode)
    requires DirAt(fs, dp)
    ensures fs.Valid() && fs.Current(dp) && dp.info.kind == T_DIR
    ensures Shaped(fs.nodes[dp.inum]) && dp.size <= MAXFILE * BSIZE && |fs.File(dp.inum)| == dp.size
    ensures Bytes(fs, dp) == fs.File(dp.inum)
  {
    fs.ValidShaped(dp.inum);
  }

  lemma DirFrom(fs: FileSystem, dp: Inode)
    requires fs.Valid() && fs.Current(dp) && dp.info.kind == T_DIR
    requires Shaped(fs.nodes[dp.inum]) && dp.size <= MAXFILE * BSIZE && IsDir(fs.File(dp.inum))
    ensures DirAt(fs, dp) && Bytes(fs, dp) == fs.File(dp.inum)
  {
    hide FileSystem.Valid, Content, IsDir;
  }

  // ---- path elements ----------------------------------------------------------------------------

  /** The bytes of a path before its first slash. */
  function Run(p: seq<byte>): (r: seq<byte>)
    ensures |r| <= |p| && r == p[..|r|] && SLASH !in r && (|r| < |p| ==> p[|r|] == SLASH)
  {
    if p == [] || p[0] == SLASH then [] else [p[0]] + Run(p[1..])
  }

  /** The elements of a path: its runs of bytes other than the slash. */
  function Elements(p: seq<byte>): seq<seq<byte>>
    decreases |p|
  {
    if p == [] then []
    else if p[0] == SLASH then Elements(p[1..])
    else [Run(p)] + Elements(p[|Run(p)|..])
  }

  /** A path with the elements in order, a slash before each. */
  function PathOf(es: seq<seq<byte>>): seq<byte> { if es == [] then [] else [SLASH] + es[0] + PathOf(es[1..]) }

  /** The elements of a path are the names it is made of, with or without the first
      slash. */
  lemma {:induction false} ElementsOfPath(es: seq<seq<byte>>)
    requires forall i | 0 <= i < |es| :: es[i] != [] && SLASH !in es[i]
    ensures Elements(PathOf(es)) == es && (es != [] ==> Elements(PathOf(es)[1..]) == es)
  {
    hide Elements, Run;
    if es == [] {
      NoneIn([]);
    } else {
      var e, rest := es[0], PathOf(es[1..]);
      ElementsOfPath(es[1..]);
      assert PathOf(es) == [SLASH] + (e + rest) && PathOf(es)[1..] == e + rest;
      assert rest != [] ==> rest[0] == SLASH;
      FirstIn(e, rest);
      AfterSlash(PathOf(es));
      assert es == [e] + es[1..];
    }
  }

  lemma NoneIn(p: seq<byte>)
    requires p == []
    ensures Elements(p) == []
  {
  }

  lemma AfterSlash(p: seq<byte>)
    requires p != [] && p[0] == SLASH
    ensures Elements(p) == Elements(p[1..])
  {
  }

  lemma FirstIn(e: seq<byte>, rest: seq<byte>)
    requires e != [] && SLASH !in e && (rest != [] ==> rest[0] == SLASH)
    ensures Elements(e + rest) == [e] + Elements(rest)
  {
    hide Run;
    var p := e + rest;
    assert p[0] == e[0] && e[0] in e;
    RunIs(p, |e|);
    assert p[..|e|] == e && p[|e|..] == rest;
  }

  datatype Rest = NoElement | Rest(pos: nat)

  lemma {:induction false} SkipSlashes(p: seq<byte>, n: nat)
    requires n <= |p| && forall i | 0 <= i < n :: p[i] == SLASH
    ensures Elements(p[n..]) == Elements(p)
    decreases n
  {
    if n == 0 {
      assert p[0..] == p;
    } else {
      SkipSlashes(p[1..], n - 1);
      assert p[1..][n - 1..] == p[n..];
    }
  }

  lemma {:induction false} RunIs(p: seq<byte>, n: nat)
    requires n <= |p| && (forall i | 0 <= i < n :: p[i] != SLASH) && (n < |p| ==> p[n] == SLASH)
    ensures Run(p) == p[..n]
    decreases n
  {
    if n > 0 {
      RunIs(p[1..], n - 1);
      assert p[..n] == [p[0]] + p[1..][..n - 1];
    }
  }

  /** Takes the first element off a path: its key goes to `name`, ended by a zero if
      there is room, and the rest of the path has the remaining elements and no
      leading slash. */
  method SkipElem(path: seq<byte>, name: array<byte>) returns (r: Rest)
    requires CString(path) && name.Length == DIRSIZ
    modifies name
    ensures r.NoElement? <==> Elements(path) == []
    ensures r.NoElement? ==> name[..] == old(name[..])
    ensures r.Rest? ==> r.pos <= |path| && ByteOf(path, r.pos) != SLASH
    ensures r.Rest? ==> Elements(path) != [] && Elements(path)[1..] == Elements(path[r.pos..])
    ensures r.Rest? ==> Trim(name[..]) == Key(Elements(path)[0])
  {
    hide Elements, Trim, Key;
    var s := PastSlashes(path, 0);
    NoZero(path, s);
    if ByteOf(path, s) == 0 {
      NoElements(path);
      return NoElement;
    }
    var p := PastElement(path, s);
    PutName(path[s..p], name);
    var q := PastSlashes(path, p);
    FirstElement(path, s, p, q);
    return Rest(q);
  }

  method PastSlashes(path: seq<byte>, i: nat) returns (p: nat)
    requires CString(path) && i <= |path|
    ensures i <= p <= |path| && ByteOf(path, p) != SLASH && forall k | i <= k < p :: path[k] == SLASH
  {
    p := i;
    while ByteOf(path, p) == SLASH
      invariant i <= p <= |path| && forall k | i <= k < p :: path[k] == SLASH
      decreases |path| - p
    {
      p := p + 1;
    }
  }

  method PastElement(path: seq<byte>, i: nat) returns (p: nat)
    requires CString(path) && i <= |path|
    ensures i <= p <= |path| && (forall k | i <= k < p :: path[k] != SLASH) && (p < |path| ==> path[p] == SLASH)
  {
    p := i;
    while ByteOf(path, p) != SLASH && ByteOf(path, p) != 0
      invariant i <= p <= |path| && forall k | i <= k < p :: path[k] != SLASH
      decreases |path| - p
    {
      p := p + 1;
    }
    assert p < |path| ==> path[p] in path;
  }

  lemma NoZero(path: seq<byte>, s: nat)
    requires CString(path) && s <= |path|
    ensures ByteOf(path, s) == 0 <==> s == |path|
  {
    if s < |path| { assert path[s] in path; }
  }

  lemma NoElements(path: seq<byte>)
    requires forall k | 0 <= k < |path| :: path[k] == SLASH
    ensures Elements(path) == []
  {
    SkipSlashes(path, |path|);
  }

  lemma ElementsRun(t: seq<byte>, n: nat)
    requires t != [] && t[0] != SLASH && n <= |t| && Run(t) == t[..n]
    ensures Elements(t) == [t[..n]] + Elements(t[n..])
  {
  }

  lemma RunFrom(path: seq<byte>, s: nat, p: nat)
    requires s <= p <= |path| && (forall k | s <= k < p :: path[k] != SLASH) && (p < |path| ==> path[p] == SLASH)
    ensures Run(path[s..]) == path[s..p]
  {
    hide Run;
    var t := path[s..];
    assert forall i | 0 <= i < p - s :: t[i] == path[s + i];
    RunIs(t, p - s);
    assert t[..p - s] == path[s..p];
  }

  lemma SlashesFrom(path: seq<byte>, p: nat, q: nat)
    requires p <= q <= |path| && forall k | p <= k < q :: path[k] == SLASH
    ensures Elements(path[q..]) == Elements(path[p..])
  {
    hide Elements;
    var u := path[p..];
    assert forall i | 0 <= i < q - p :: u[i] == path[p + i];
    SkipSlashes(u, q - p);
    assert u[q - p..] == path[q..];
  }

  lemma FirstElement(path: seq<byte>, s: nat, p: nat, q: nat)
    requires s <= p <= q <= |path| && s < |path| && path[s] != SLASH
    requires (forall k | 0 <= k < s :: path[k] == SLASH) && (forall k | p <= k < q :: path[k] == SLASH)
    requires (forall k | s <= k < p :: path[k] != SLASH) && (p < |path| ==> path[p] == SLASH)
    ensures Elements(path) == [path[s..p]] + Elements(path[q..])
  {
    hide Elements, Run;
    SkipSlashes(path, s);
    var t, u := path[s..], path[p..];
    assert t[..p - s] == path[s..p] && t[p - s..] == u;
    RunFrom(path, s, p);
    ElementsRun(t, p - s);
    SlashesFrom(path, p, q);
  }

  /** The copy of skipelem: all of the name, or its first DIRSIZ bytes. */
  method PutName(e: seq<byte>, name: array<byte>)
    requires name.Length == DIRSIZ && CString(e)
    modifies name
    ensures Trim(name[..]) == Key(e)
  {
    if |e| >= DIRSIZ {
      forall i | 0 <= i < DIRSIZ { name[i] := e[i]; }
      assert name[..] == Key(e) + [];
      TrimPrefix(Key(e), []);
    } else {
      forall i | 0 <= i < |e| { name[i] := e[i]; }
      name[|e|] := 0;
      assert name[..] == e + name[|e|..];
      TrimPrefix(e, name[|e|..]);
    }
  }
}
