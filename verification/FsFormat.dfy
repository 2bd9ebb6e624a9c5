/** Where each number, name and byte lies on the disk. */
module FsFormat {
  import opened Bytes
  import opened FsBlocks
  import opened FsLayout
  import opened FsPersist

  /** The `int` at byte `p`, low byte first. */
  function WordAt(b: seq<byte>, p: nat): (w: int)
    requires p + 4 <= |b|
    ensures -0x8000_0000 <= w < 0x8000_0000
    ensures var u := b[p] as int + 256 * b[p + 1] as int + 65536 * b[p + 2] as int + 16777216 * b[p + 3] as int;
      w == u || w == u - 0x1_0000_0000
  {
    BytesInt(b[p..p + 4])
  }

  lemma WordOf(b: seq<byte>, p: nat, x: int)
    requires p + 4 <= |b| && IsInt32(x) && b[p..p + 4] == IntBytes(x)
    ensures WordAt(b, p) == x
  {
    IntRoundTrip(x);
  }

  lemma PartOfPart(b: seq<byte>, p: nat, n: nat, lo: nat, hi: nat)
    requires p + n <= |b| && lo <= hi <= n
    ensures b[p..p + n][lo..hi] == b[p + lo..p + hi]
  {
    var part := b[p..p + n];
    assert forall x :: 0 <= x < n ==> part[x] == b[p + x];
  }

  lemma PartAfter(b: seq<byte>, p: nat, lo: nat, hi: nat)
    requires p <= |b| && lo <= hi <= |b| - p
    ensures b[p..][lo..hi] == b[p + lo..p + hi]
  {
    assert b[p..] == b[p..p + (|b| - p)];
    PartOfPart(b, p, |b| - p, lo, hi);
  }

  lemma WordAfter(b: seq<byte>, p: nat, k: nat)
    requires p <= |b| && k + 4 <= |b| - p
    ensures WordAt(b[p..], k) == WordAt(b, p + k)
  {
    PartAfter(b, p, k, k + 4);
  }

  /** A number `k` bytes into a part. */
  lemma WordIn(b: seq<byte>, p: nat, n: nat, k: nat)
    requires p + n <= |b| && k + 4 <= n
    ensures WordAt(b[p..p + n], k) == WordAt(b, p + k)
  {
    PartOfPart(b, p, n, k, k + 4);
  }

  lemma {:induction false} IntsAt(b: seq<byte>, k: nat)
    requires |b| % 4 == 0 && 4 * k + 4 <= |b|
    ensures DecodeInts(b)[k] == WordAt(b, 4 * k)
    decreases k
  {
    if k == 0 {
      assert b[0..4] == b[..4];
    } else {
      IntsAt(b[4..], k - 1);
      assert b[4..][4 * (k - 1)..4 * k] == b[4 * k..4 * k + 4];
    }
  }

  /** Entry `k` of a block of block numbers. */
  lemma TableAt(b: Block, k: nat)
    requires k < 1024
    ensures BlockTable(b)[k] == WordAt(b, 4 * k)
  {
    IntsAt(b, k);
  }

  /** Byte `x` of a file: its inode leads to the second-level block, that to the
      first-level block for each 4 MiB, and that to the data block for each 4 KiB. */
  lemma ByteAt(v: Volume, s: Shape, i: int, x: nat)
    requires Owned(v, s) && UsedFile(v, i) && x < |BytesOf(v, s, i)|
    ensures |v.disk| == 12288 && |v.table| == 64 && x / 4194304 < 1024
    ensures var two := v.table[i].twoOffset;
      && 6 <= two < 12288 && |v.disk[two]| == 4096
      && var first := WordAt(v.disk[two], 4 * (x / 4194304));
      && 6 <= first < 12288 && |v.disk[first]| == 4096
      && var data := WordAt(v.disk[first], 4 * (x / 4096 % 1024));
      && 6 <= data < 12288 && |v.disk[data]| == 4096 && BytesOf(v, s, i)[x] == v.disk[data][x % 4096]
  {
    DataAt(v, s, i, x / 4096);
    var l := s.files[i];
    assert BytesOf(v, s, i)[x] == v.disk[l.data[x / 4096]][x % 4096];
    assert x / 4096 / 1024 == x / 4194304;
    hide Owned, BytesOf, WordAt;
    TableAt(v.disk[l.second], x / 4194304);
    TableAt(v.disk[l.firsts[x / 4194304]], x / 4096 % 1024);
  }

  lemma DataAt(v: Volume, s: Shape, i: int, k: nat)
    requires Owned(v, s) && UsedFile(v, i) && |s.files| == MAX_FILES && k < |s.files[i].data|
    ensures Sized(v) && InData(v.table[i].twoOffset) && s.files[i].second == v.table[i].twoOffset
    ensures var l, n := s.files[i], k / 1024;
      && n < |l.firsts| <= 1024 && InData(l.firsts[n]) && InData(l.data[k])
      && BlockTable(v.disk[l.second])[n] == l.firsts[n] && BlockTable(v.disk[l.firsts[n]])[k % 1024] == l.data[k]
  {
    assert FileOwned(v, s, i);
    var l := s.files[i];
    assert FirstOn(BlockTable(v.disk[l.firsts[k / 1024]]), l, k / 1024);
  }

  // ---- The metadata

  lemma {:induction false} InodeBytes(table: seq<Inode>, i: nat)
    requires InodesFit(table) && i < |table|
    ensures EncodeInodes(table)[8 * i..8 * i + 4] == IntBytes(table[i].twoOffset)
    ensures EncodeInodes(table)[8 * i + 4..8 * i + 8] == IntBytes(table[i].size)
    decreases i
  {
    var b := EncodeInodes(table);
    if i == 0 {
      assert b[0..4] == IntBytes(table[0].twoOffset) && b[4..8] == IntBytes(table[0].size);
    } else {
      InodeBytes(table[1..], i - 1);
      assert b[8..] == EncodeInodes(table[1..]);
      PartAfter(b, 8, 8 * (i - 1), 8 * (i - 1) + 4);
      PartAfter(b, 8, 8 * (i - 1) + 4, 8 * i);
    }
  }

  lemma {:induction false} EntryBytes(dir: seq<DEntry>, i: nat)
    requires DirFits(dir) && i < |dir|
    ensures EncodeDir(dir)[28 * i..28 * i + 28] == EncodeEntry(dir[i])
    decreases i
  {
    var b := EncodeDir(dir);
    if i == 0 {
      assert b[0..28] == EncodeEntry(dir[0]);
    } else {
      EntryBytes(dir[1..], i - 1);
      assert b[28..] == EncodeDir(dir[1..]);
      PartAfter(b, 28, 28 * (i - 1), 28 * i);
    }
  }

  /** Block 0 holds the inode, directory, data and bitmap offsets and the number of
      bitmap blocks. */
  lemma SuperAt(v: Volume)
    requires Fits(v)
    ensures var b := Persisted(v)[0];
      && WordAt(b, 0) == 2 && WordAt(b, 4) == 1 && WordAt(b, 8) == 6 && WordAt(b, 12) == 3 && WordAt(b, 16) == 3
      && forall y :: 20 <= y < 4096 ==> b[y] == 0
  {
    var head := [2, 1, 6, 3, 3];
    var b, ints := Persisted(v)[0], EncodeInts([2, 1, 6, 3, 3]);
    IntsRoundTrip(head);
    assert b == Padded(ints, BLOCK_SIZE);
    assert b[0..0 + 20] == ints;
    hide *;
    forall k | 0 <= k < 5 ensures WordAt(b, 4 * k) == head[k] {
      IntsAt(ints, k);
      WordIn(b, 0, 20, 4 * k);
    }
    assert WordAt(b, 4 * 0) == 2 && WordAt(b, 4 * 1) == 1 && WordAt(b, 4 * 2) == 6 && WordAt(b, 4 * 3) == 3
           && WordAt(b, 4 * 4) == 3;
    ZerosAfter(b, ints);
  }

  lemma ZerosAfter(b: seq<byte>, front: seq<byte>)
    requires |front| <= |b| && b == Padded(front, |b|)
    ensures forall y :: |front| <= y < |b| ==> b[y] == 0
  {
  }

  /** Block 2 holds the inodes, eight bytes each. */
  lemma InodeAt(v: Volume, i: nat)
    requires Fits(v) && i < 64
    ensures |v.table| == 64
    ensures WordAt(Persisted(v)[2], 8 * i) == v.table[i].twoOffset
    ensures WordAt(Persisted(v)[2], 8 * i + 4) == v.table[i].size
  {
    var b, e := Persisted(v)[2], EncodeInodes(v.table);
    InodeBytes(v.table, i);
    assert b[..512] == e;
    assert b[8 * i..8 * i + 4] == e[8 * i..8 * i + 4] && b[8 * i + 4..8 * i + 8] == e[8 * i + 4..8 * i + 8];
    WordOf(b, 8 * i, v.table[i].twoOffset);
    WordOf(b, 8 * i + 4, v.table[i].size);
  }

  /** Block 1 holds the directory, 28 bytes an entry: whether it is used, the inode
      number, the name with its NUL, and the reference count. */
  lemma EntryAt(v: Volume, i: nat)
    requires Fits(v) && i < 64
    ensures |v.dir| == 64 && |v.dir[i].name| <= 15
    ensures var b, e, p := Persisted(v)[1], v.dir[i], 28 * i;
      && b[p] == (if e.used then 1 else 0) && WordAt(b, p + 4) == e.inodeNum
      && b[p + 8..p + 8 + |e.name|] == e.name && b[p + 8 + |e.name|] == 0
      && WordAt(b, p + 24) == e.refCnt
  {
    var b, e, p := Persisted(v)[1], EncodeEntry(v.dir[i]), 28 * i;
    DirBytes(v, i);
    EntryIs(v.dir[i]);
    hide Fits, Persisted, EncodeEntry, WordAt;
    WordIn(b, p, 28, 4);
    WordIn(b, p, 28, 24);
    PartOfPart(b, p, 28, 8, 8 + |v.dir[i].name|);
  }

  lemma DirBytes(v: Volume, i: nat)
    requires Fits(v) && i < 64
    ensures |v.dir| == 64 && EntryFits(v.dir[i]) && Persisted(v)[1][28 * i..28 * i + 28] == EncodeEntry(v.dir[i])
  {
    var b, d := Persisted(v)[1], EncodeDir(v.dir);
    EntryBytes(v.dir, i);
    assert b == Padded(d, BLOCK_SIZE);
    hide EncodeDir, EncodeEntry, Padded, EntryFits;
    assert b[..1792] == d;
    PartOfPart(b, 0, 1792, 28 * i, 28 * i + 28);
  }

  lemma EntryIs(e: DEntry)
    requires EntryFits(e)
    ensures var b := EncodeEntry(e);
      && b[0] == (if e.used then 1 else 0) && WordAt(b, 4) == e.inodeNum && WordAt(b, 24) == e.refCnt
      && b[8..8 + |e.name|] == e.name && b[8 + |e.name|] == 0
  {
    var b := EncodeEntry(e);
    assert b[4..8] == IntBytes(e.inodeNum) && b[24..28] == IntBytes(e.refCnt);
    WordOf(b, 4, e.inodeNum);
    WordOf(b, 24, e.refCnt);
    hide IntBytes, WordAt;
  }

  /** Blocks 3 to 5 hold the bitmap, and the data area is as it was. */
  lemma RestAt(v: Volume)
    requires Fits(v)
    ensures |Persisted(v)| == |v.disk| == |v.bitmap| == 12288
    ensures forall b :: 0 <= b < 12288 ==> Persisted(v)[3 + b / 4096][b % 4096] == v.bitmap[b]
    ensures forall b :: 6 <= b < 12288 ==> Persisted(v)[b] == v.disk[b]
  {
    forall b | 0 <= b < 12288 ensures Persisted(v)[3 + b / 4096][b % 4096] == v.bitmap[b] {
      assert Persisted(v)[3 + b / 4096] == Slice(v.bitmap, b / 4096);
    }
  }

  /** A new disk: 12288 blocks of 4096 bytes, no file, and all of the data area free
      and zero. */
  lemma MadeDisk()
    ensures Fits(Blank())
    ensures var v, disk := Blank(), Persisted(Blank());
      && |disk| == 12288 && |v.dir| == |v.table| == 64
      && (forall i :: 0 <= i < 64 ==> v.dir[i] == DEntry(false, -1, [], 0) && v.table[i] == Inode(-1, 0))
      && (forall b :: 0 <= b < 12288 ==> disk[3 + b / 4096][b % 4096] == 48)
      && (forall b, y :: 6 <= b < 12288 && 0 <= y < 4096 ==> disk[b][y] == 0)
  {
    BlankFits();
    BlankIs();
    RestAt(Blank());
    hide Fits, Persisted, Blank;
    forall b | 0 <= b < 12288 ensures Persisted(Blank())[3 + b / 4096][b % 4096] == 48 {
      assert Blank().bitmap[b] == 48;
    }
  }

  lemma BlankIs()
    ensures var v := Blank();
      && |v.dir| == |v.table| == 64 && |v.disk| == |v.bitmap| == 12288
      && (forall i :: 0 <= i < 64 ==> v.dir[i] == DEntry(false, -1, [], 0) && v.table[i] == Inode(-1, 0))
      && (forall b :: 0 <= b < 12288 ==> v.bitmap[b] == 48)
      && (forall b, y :: 0 <= b < 12288 && 0 <= y < 4096 ==> v.disk[b][y] == 0)
  {
  }

  // ---- Read back

  /** What mounting gives, by the numbers in block 0. */
  lemma MountAt(b: Block)
    ensures var s := DecodeSuper(b);
      && s.inodeOffset == WordAt(b, 0) && s.dirOffset == WordAt(b, 4) && s.bitmapOffset == WordAt(b, 12)
      && s.bitmapUsed == WordAt(b, 16)
    ensures var inodes, dir, map_, used := WordAt(b, 0), WordAt(b, 4), WordAt(b, 12), WordAt(b, 16);
      MountResult(DecodeSuper(b))
        == if !(0 <= dir < 12288 && 0 <= inodes < 12288) then Returned(-1)
           else if used <= 0 then Returned(0)
           else if !(0 <= map_ && map_ + (if used > 3 then 4 else used) <= 12288) then Returned(-1)
           else if used > 3 then Undefined else Returned(0)
  {
    var ints := b[..20];
    forall k | 0 <= k < 5 ensures DecodeInts(ints)[k] == WordAt(b, 4 * k) {
      IntsAt(ints, k);
      assert ints[4 * k..4 * k + 4] == b[4 * k..4 * k + 4];
    }
    hide WordAt;
    assert DecodeInts(ints)[0] == WordAt(b, 4 * 0) && DecodeInts(ints)[1] == WordAt(b, 4 * 1)
           && DecodeInts(ints)[3] == WordAt(b, 4 * 3) && DecodeInts(ints)[4] == WordAt(b, 4 * 4);
  }

  lemma {:induction false} DecodedInode(b: seq<byte>, i: nat)
    requires |b| % 8 == 0 && 8 * i + 8 <= |b|
    ensures DecodeInodes(b)[i] == Inode(WordAt(b, 8 * i), WordAt(b, 8 * i + 4))
    decreases i
  {
    if i == 0 {
      assert b[0..4] == b[..4];
    } else {
      DecodedInode(b[8..], i - 1);
      WordAfter(b, 8, 8 * (i - 1));
      WordAfter(b, 8, 8 * (i - 1) + 4);
    }
  }

  lemma {:induction false} DecodedEntry(b: seq<byte>, i: nat)
    requires |b| % 28 == 0 && 28 * i + 28 <= |b|
    ensures DecodeDir(b)[i] == DecodeEntry(b[28 * i..28 * i + 28])
    decreases i
  {
    if i == 0 {
      assert b[0..28] == b[..28];
    } else {
      DecodedEntry(b[28..], i - 1);
      PartAfter(b, 28, 28 * (i - 1), 28 * i);
    }
  }

  /** A name ends at the first NUL of its 16 bytes. */
  lemma {:induction false} NameEnds(b: seq<byte>)
    ensures CString(b) <= b && (|CString(b)| < |b| ==> b[|CString(b)|] == 0)
    ensures forall x :: 0 <= x < |CString(b)| ==> b[x] != 0
  {
    if b != [] && b[0] != 0 { NameEnds(b[1..]); }
  }

  /** Where mounting finds the inodes, the directory and the bitmap: any superblock may
      lead to them, and what it names too few blocks for stays as it was. */
  lemma LoadedAt(s: SuperBlock, disk: seq<Block>, bitmap: seq<byte>, i: nat)
    requires |disk| == |bitmap| == 12288 && MountResult(s) == Returned(0) && i < 64
    ensures 0 <= s.inodeOffset < 12288 && 0 <= s.dirOffset < 12288
    ensures var v, ib := LoadedBy(s, disk, bitmap), disk[s.inodeOffset];
      v.disk == disk && |v.table| == 64 && v.table[i] == Inode(WordAt(ib, 8 * i), WordAt(ib, 8 * i + 4))
    ensures var v, b, p := LoadedBy(s, disk, bitmap), disk[s.dirOffset], 28 * i;
      && |v.dir| == 64
      && var e := v.dir[i];
      && (e.used <==> b[p] != 0) && e.inodeNum == WordAt(b, p + 4) && e.refCnt == WordAt(b, p + 24)
      && |e.name| <= 16 && b[p + 8..p + 8 + |e.name|] == e.name && 0 !in e.name
      && (|e.name| < 16 ==> b[p + 8 + |e.name|] == 0)
  {
    var ib, db, p := disk[s.inodeOffset], disk[s.dirOffset], 28 * i;
    LoadedInode(ib, i);
    LoadedEntry(db, i);
    hide DecodeInodes, DecodeDir, BitmapBy, WordAt, CString;
  }

  lemma LoadedInode(b: Block, i: nat)
    requires i < 64
    ensures DecodeInodes(b[..512])[i] == Inode(WordAt(b, 8 * i), WordAt(b, 8 * i + 4))
  {
    var t := b[..512];
    DecodedInode(t, i);
    assert t[8 * i..8 * i + 4] == b[8 * i..8 * i + 4] && t[8 * i + 4..8 * i + 8] == b[8 * i + 4..8 * i + 8];
    hide DecodeInodes;
  }

  lemma LoadedEntry(b: Block, i: nat)
    requires i < 64
    ensures var e, p := DecodeDir(b[..1792])[i], 28 * i;
      && (e.used <==> b[p] != 0) && e.inodeNum == WordAt(b, p + 4) && e.refCnt == WordAt(b, p + 24)
      && |e.name| <= 16 && b[p + 8..p + 8 + |e.name|] == e.name && 0 !in e.name
      && (|e.name| < 16 ==> b[p + 8 + |e.name|] == 0)
  {
    var t, p := b[..1792], 28 * i;
    DecodedEntry(t, i);
    var c := b[p..p + 28];
    assert t[p..p + 28] == c;
    DecodedFields(c);
    hide DecodeDir, DecodeEntry, WordAt;
    WordIn(b, p, 28, 4);
    WordIn(b, p, 28, 24);
    PartOfPart(b, p, 28, 8, 8 + |DecodeEntry(c).name|);
  }

  lemma DecodedFields(c: seq<byte>)
    requires |c| == 28
    ensures var e := DecodeEntry(c);
      && (e.used <==> c[0] != 0) && e.inodeNum == WordAt(c, 4) && e.refCnt == WordAt(c, 24)
      && |e.name| <= 16 && c[8..8 + |e.name|] == e.name && 0 !in e.name && (|e.name| < 16 ==> c[8 + |e.name|] == 0)
  {
    var n := c[8..24];
    NameEnds(n);
    hide CString, BytesInt;
    var name := CString(n);
    assert c[8..8 + |name|] == n[..|name|];
  }

  /** Entry `b` of the bitmap after mounting. */
  lemma LoadedBitmap(s: SuperBlock, disk: seq<Block>, bitmap: seq<byte>, b: nat)
    requires |disk| == |bitmap| == 12288 && MountResult(s) == Returned(0) && b < 12288
    ensures |LoadedBy(s, disk, bitmap).bitmap| == 12288
    ensures if b / 4096 < s.bitmapUsed then
        && 0 <= s.bitmapOffset && s.bitmapOffset + b / 4096 < 12288
        && LoadedBy(s, disk, bitmap).bitmap[b] == disk[s.bitmapOffset + b / 4096][b % 4096]
      else LoadedBy(s, disk, bitmap).bitmap[b] == bitmap[b]
  {
    BitmapAt(s, disk, bitmap, if s.bitmapUsed > 0 then s.bitmapUsed else 0, b);
    hide DecodeInodes, DecodeDir, BitmapBy;
  }

  lemma {:induction false} BitmapAt(s: SuperBlock, disk: seq<Block>, bitmap: seq<byte>, n: nat, b: nat)
    requires |disk| == |bitmap| == 12288 && n <= 3 && AreBlocks(s.bitmapOffset, n) && b < 12288
    ensures if b / 4096 < n then
        && 0 <= s.bitmapOffset && s.bitmapOffset + b / 4096 < 12288
        && BitmapBy(s, disk, bitmap, n)[b] == disk[s.bitmapOffset + b / 4096][b % 4096]
      else BitmapBy(s, disk, bitmap, n)[b] == bitmap[b]
    decreases n
  {
    if n > 0 { BitmapAt(s, disk, bitmap, n - 1, b); }
  }
}
