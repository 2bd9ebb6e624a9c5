/** The metadata blocks: how the tables kept in memory are laid out on disk. */
module FsPersist {
  import opened Bytes
  import opened FsBlocks
  import opened FsLayout

  datatype SuperBlock = SuperBlock(inodeOffset: int, dirOffset: int, dataOffset: int, bitmapOffset: int,
                                   bitmapUsed: int)

  const MADE_SUPER := SuperBlock(2, 1, DATA_OFFSET, 3, 3)

  const ENTRY_BYTES := 28     // sizeof(D_Entry): a bool, an int, 16 chars, an int

  function Padded(b: seq<byte>, n: nat): (r: seq<byte>)
    requires |b| <= n
    ensures |r| == n && r[..|b|] == b
  {
    b + Zeros(n - |b|)
  }

  // ---- Superblock

  function EncodeSuper(s: SuperBlock): Block
    requires IsInt32(s.inodeOffset) && IsInt32(s.dirOffset) && IsInt32(s.dataOffset)
    requires IsInt32(s.bitmapOffset) && IsInt32(s.bitmapUsed)
  {
    Padded(EncodeInts([s.inodeOffset, s.dirOffset, s.dataOffset, s.bitmapOffset, s.bitmapUsed]), BLOCK_SIZE)
  }

  function DecodeSuper(b: Block): SuperBlock {
    var t := DecodeInts(b[..20]);
    SuperBlock(t[0], t[1], t[2], t[3], t[4])
  }

  lemma SuperRoundTrip(s: SuperBlock)
    requires IsInt32(s.inodeOffset) && IsInt32(s.dirOffset) && IsInt32(s.dataOffset)
    requires IsInt32(s.bitmapOffset) && IsInt32(s.bitmapUsed)
    ensures DecodeSuper(EncodeSuper(s)) == s
  {
    var t := [s.inodeOffset, s.dirOffset, s.dataOffset, s.bitmapOffset, s.bitmapUsed];
    IntsRoundTrip(t);
    assert EncodeSuper(s)[..20] == EncodeInts(t);
  }

  // ---- Inodes

  predicate InodesFit(table: seq<Inode>) {
    forall i :: 0 <= i < |table| ==> IsInt32(table[i].twoOffset) && IsInt32(table[i].size)
  }

  function EncodeInodes(table: seq<Inode>): (b: seq<byte>)
    requires InodesFit(table)
    ensures |b| == 8 * |table|
  {
    if table == [] then []
    else IntBytes(table[0].twoOffset) + IntBytes(table[0].size) + EncodeInodes(table[1..])
  }

  function DecodeInodes(b: seq<byte>): (table: seq<Inode>)
    requires |b| % 8 == 0
    ensures 8 * |table| == |b|
  {
    if b == [] then []
    else [Inode(BytesInt(b[..4]), BytesInt(b[4..8]))] + DecodeInodes(b[8..])
  }

  lemma {:induction false} InodesRoundTrip(table: seq<Inode>)
    requires InodesFit(table)
    ensures DecodeInodes(EncodeInodes(table)) == table
  {
    if table != [] {
      InodesRoundTrip(table[1..]);
      IntRoundTrip(table[0].twoOffset);
      IntRoundTrip(table[0].size);
      var b := EncodeInodes(table);
      assert b[..4] == IntBytes(table[0].twoOffset);
      assert b[4..8] == IntBytes(table[0].size);
      assert b[8..] == EncodeInodes(table[1..]);
      assert table == [table[0]] + table[1..];
    }
  }

  // ---- Directory

  predicate EntryFits(e: DEntry) {
    && IsInt32(e.inodeNum) && IsInt32(e.refCnt)
    && |e.name| <= MAX_NAME && 0 !in e.name
  }

  predicate DirFits(dir: seq<DEntry>) {
    forall i :: 0 <= i < |dir| ==> EntryFits(dir[i])
  }

  /** The string held in a char array. */
  function CString(b: seq<byte>): (s: seq<byte>) {
    if b == [] || b[0] == 0 then [] else [b[0]] + CString(b[1..])
  }

  lemma {:induction false} CStringPadded(s: seq<byte>, n: nat)
    requires |s| < n && 0 !in s
    ensures CString(Padded(s, n)) == s
  {
    var p := Padded(s, n);
    if s == [] {
      assert p[0] == 0;
    } else {
      assert p[0] == s[0];
      assert p[1..] == Padded(s[1..], n - 1);
      CStringPadded(s[1..], n - 1);
    }
  }

  function EncodeEntry(e: DEntry): (b: seq<byte>)
    requires EntryFits(e)
    ensures |b| == ENTRY_BYTES
  {
    [if e.used then 1 else 0, 0, 0, 0] + IntBytes(e.inodeNum) + Padded(e.name, MAX_NAME + 1) + IntBytes(e.refCnt)
  }

  function DecodeEntry(b: seq<byte>): DEntry
    requires |b| == ENTRY_BYTES
  {
    DEntry(b[0] != 0, BytesInt(b[4..8]), CString(b[8..24]), BytesInt(b[24..28]))
  }

  lemma EntryRoundTrip(e: DEntry)
    requires EntryFits(e)
    ensures DecodeEntry(EncodeEntry(e)) == e
  {
    var b := EncodeEntry(e);
    IntRoundTrip(e.inodeNum);
    IntRoundTrip(e.refCnt);
    CStringPadded(e.name, MAX_NAME + 1);
    assert b[4..8] == IntBytes(e.inodeNum);
    assert b[8..24] == Padded(e.name, MAX_NAME + 1);
    assert b[24..28] == IntBytes(e.refCnt);
  }

  function EncodeDir(dir: seq<DEntry>): (b: seq<byte>)
    requires DirFits(dir)
    ensures |b| == ENTRY_BYTES * |dir|
  {
    if dir == [] then [] else EncodeEntry(dir[0]) + EncodeDir(dir[1..])
  }

  function DecodeDir(b: seq<byte>): (dir: seq<DEntry>)
    requires |b| % ENTRY_BYTES == 0
    ensures ENTRY_BYTES * |dir| == |b|
  {
    if b == [] then [] else [DecodeEntry(b[..ENTRY_BYTES])] + DecodeDir(b[ENTRY_BYTES..])
  }

  lemma {:induction false} DirRoundTrip(dir: seq<DEntry>)
    requires DirFits(dir)
    ensures DecodeDir(EncodeDir(dir)) == dir
  {
    if dir != [] {
      DirRoundTrip(dir[1..]);
      EntryRoundTrip(dir[0]);
      var b := EncodeDir(dir);
      assert b[..ENTRY_BYTES] == EncodeEntry(dir[0]);
      assert b[ENTRY_BYTES..] == EncodeDir(dir[1..]);
      assert dir == [dir[0]] + dir[1..];
    }
  }

  // ---- The whole metadata area

  const FREE_BLOCK: Block := seq(BLOCK_SIZE, _ => FREE)

  ghost predicate Fits(v: Volume) {
    && Sized(v) && InodesFit(v.table) && DirFits(v.dir)
  }

  /** The disk after the tables of `v` have been written over blocks 0 to 5. */
  ghost function Persisted(v: Volume): (disk: seq<Block>)
    requires Fits(v)
    ensures |disk| == DISK_BLOCKS
  {
    v.disk[0 := EncodeSuper(MADE_SUPER)]
          [1 := Padded(EncodeDir(v.dir), BLOCK_SIZE)]
          [2 := Padded(EncodeInodes(v.table), BLOCK_SIZE)]
          [3 := Slice(v.bitmap, 0)][4 := Slice(v.bitmap, 1)][5 := Slice(v.bitmap, 2)]
  }

  /** The part of the bitmap kept in its `k`-th block. */
  function Slice(bitmap: seq<byte>, k: int): Block
    requires |bitmap| == DISK_BLOCKS && 0 <= k < 3
  {
    bitmap[k * BLOCK_SIZE..(k + 1) * BLOCK_SIZE]
  }

  lemma PersistedIs(v: Volume, disk: seq<Block>)
    requires Fits(v) && |disk| == DISK_BLOCKS
    requires disk[0] == EncodeSuper(MADE_SUPER)
    requires disk[1] == Padded(EncodeDir(v.dir), BLOCK_SIZE)
    requires disk[2] == Padded(EncodeInodes(v.table), BLOCK_SIZE)
    requires forall b :: 3 <= b < DATA_OFFSET ==> disk[b] == Slice(v.bitmap, b - 3)
    requires forall b :: DATA_OFFSET <= b < DISK_BLOCKS ==> disk[b] == v.disk[b]
    ensures disk == Persisted(v)
  {
  }

  function Joined(a: seq<byte>, b: seq<byte>, c: seq<byte>): seq<byte> {
    a + b + c
  }

  /** The tables read back from a disk. */
  ghost function Loaded(disk: seq<Block>): (v: Volume)
    requires |disk| == DISK_BLOCKS
  {
    Volume(disk,
           DecodeInodes(disk[2][..8 * MAX_FILES]),
           DecodeDir(disk[1][..ENTRY_BYTES * MAX_FILES]),
           Joined(disk[3], disk[4], disk[5]))
  }

  predicate AreBlocks(b: int, n: int) {
    n <= 0 || (0 <= b && b + n <= DISK_BLOCKS)
  }

  /** What mounting gives, going by the superblock alone: each block it names has to
      be on the disk, and a fourth of the bitmap is laid past its end in memory. */
  ghost function MountResult(s: SuperBlock): Outcome {
    if !IsBlock(s.dirOffset) || !IsBlock(s.inodeOffset) then Returned(-1)
    else if !AreBlocks(s.bitmapOffset, if s.bitmapUsed > 3 then 4 else s.bitmapUsed) then Returned(-1)
    else if s.bitmapUsed > 3 then Undefined
    else Returned(0)
  }

  /** The tables read by way of any superblock; the rest of the bitmap is kept. */
  ghost function LoadedBy(s: SuperBlock, disk: seq<Block>, bitmap: seq<byte>): (v: Volume)
    requires |disk| == |bitmap| == DISK_BLOCKS && MountResult(s) == Returned(0)
  {
    Volume(disk,
           DecodeInodes(disk[s.inodeOffset][..8 * MAX_FILES]),
           DecodeDir(disk[s.dirOffset][..ENTRY_BYTES * MAX_FILES]),
           BitmapBy(s, disk, bitmap, if s.bitmapUsed > 0 then s.bitmapUsed else 0))
  }

  /** The bitmap after `n` of its blocks. */
  ghost function BitmapBy(s: SuperBlock, disk: seq<Block>, bitmap: seq<byte>, n: nat): (b: seq<byte>)
    requires |disk| == |bitmap| == DISK_BLOCKS && n <= 3 && AreBlocks(s.bitmapOffset, n)
    ensures |b| == DISK_BLOCKS
  {
    if n == 0 then bitmap
    else
      var before := BitmapBy(s, disk, bitmap, n - 1);
      before[..(n - 1) * BLOCK_SIZE] + disk[s.bitmapOffset + (n - 1)] + before[n * BLOCK_SIZE..]
  }

  /** A superblock as made leads to the tables as written. */
  lemma LoadedByMade(disk: seq<Block>, bitmap: seq<byte>)
    requires |disk| == |bitmap| == DISK_BLOCKS
    ensures MountResult(MADE_SUPER) == Returned(0) && LoadedBy(MADE_SUPER, disk, bitmap) == Loaded(disk)
  {
    hide DecodeInodes, DecodeDir;
    var one := BitmapBy(MADE_SUPER, disk, bitmap, 1);
    var two := BitmapBy(MADE_SUPER, disk, bitmap, 2);
    assert one[..BLOCK_SIZE] == disk[3];
    assert two[..2 * BLOCK_SIZE] == Joined(disk[3], disk[4], []);
    assert BitmapBy(MADE_SUPER, disk, bitmap, 3) == Joined(disk[3], disk[4], disk[5]);
  }

  /** Writing the tables and reading them back changes no table and no block of
      the data area. */
  lemma LoadedPersisted(v: Volume)
    requires Fits(v)
    ensures DecodeSuper(Persisted(v)[0]) == MADE_SUPER
    ensures Loaded(Persisted(v)) == v.(disk := Persisted(v))
    ensures forall b :: DATA_OFFSET <= b < DISK_BLOCKS ==> Persisted(v)[b] == v.disk[b]
  {
    SuperRoundTrip(MADE_SUPER);
    DirRoundTrip(v.dir);
    InodesRoundTrip(v.table);
    PersistedAt(v);
    PaddedFront(EncodeDir(v.dir), BLOCK_SIZE);
    PaddedFront(EncodeInodes(v.table), BLOCK_SIZE);
    SlicesJoin(v.bitmap);
    hide Persisted, EncodeSuper, EncodeDir, EncodeInodes, DecodeSuper, DecodeDir, DecodeInodes, Padded, Slice, Joined;
  }

  lemma PersistedAt(v: Volume)
    requires Fits(v)
    ensures var disk := Persisted(v);
      && disk[0] == EncodeSuper(MADE_SUPER) && disk[1] == Padded(EncodeDir(v.dir), BLOCK_SIZE)
      && disk[2] == Padded(EncodeInodes(v.table), BLOCK_SIZE)
      && disk[3] == Slice(v.bitmap, 0) && disk[4] == Slice(v.bitmap, 1) && disk[5] == Slice(v.bitmap, 2)
      && forall b :: DATA_OFFSET <= b < DISK_BLOCKS ==> disk[b] == v.disk[b]
  {
  }

  lemma PaddedFront(b: seq<byte>, n: nat)
    requires |b| <= n
    ensures Padded(b, n)[..|b|] == b
  {
  }

  lemma SlicesJoin(bitmap: seq<byte>)
    requires |bitmap| == DISK_BLOCKS
    ensures Joined(Slice(bitmap, 0), Slice(bitmap, 1), Slice(bitmap, 2)) == bitmap
  {
  }

  /** A mounted copy of what was written holds the same files with the same bytes. */
  lemma RemountKeepsFiles(v: Volume, s: Shape)
    requires Owned(v, s) && Fits(v)
    ensures var v' := Loaded(Persisted(v));
            && Owned(v', s) && v'.dir == v.dir && v'.table == v.table && v'.bitmap == v.bitmap
            && forall i :: UsedFile(v, i) ==> BytesOf(v', s, i) == BytesOf(v, s, i)
  {
    LoadedPersisted(v);
    hide Loaded, Persisted, Fits, FileOwned;
    DataUntouched(v, s, Persisted(v));
  }

  /** Only the blocks before the data area differ. */
  lemma DataUntouched(v: Volume, s: Shape, disk: seq<Block>)
    requires Owned(v, s) && |disk| == DISK_BLOCKS && forall b :: DATA_OFFSET <= b < DISK_BLOCKS ==> disk[b] == v.disk[b]
    ensures var v' := v.(disk := disk);
            Owned(v', s) && forall i :: UsedFile(v, i) ==> BytesOf(v', s, i) == BytesOf(v, s, i)
  {
    var v' := v.(disk := disk);
    forall i | 0 <= i < MAX_FILES && v.dir[i].used ensures FileOwned(v', s, i) {
      FileFrame(v, s, v', s, i);
    }
    forall i | UsedFile(v, i) ensures BytesOf(v', s, i) == BytesOf(v, s, i) {
      assert FileOwned(v, s, i) && FileOwned(v', s, i);
    }
  }

  /** Valid tables fit their blocks, unless a reference count has left the range
      of an int. */
  lemma ValidFits(v: Volume, s: Shape, fds: seq<FileDescriptor>)
    requires Owned(v, s) && SizesOK(v, s) && DirOK(v.dir, fds)
    requires forall i :: 0 <= i < MAX_FILES ==> v.dir[i].refCnt < 0x8000_0000
    ensures Fits(v)
  {
  }

  /** Closing all descriptors keeps the directory consistent, but as the counts
      are not lowered they stay exact only if nothing was open. */
  lemma DropDescriptors(dir: seq<DEntry>, fds: seq<FileDescriptor>, fds': seq<FileDescriptor>)
    requires DirOK(dir, fds) && |fds'| == |fds| && forall d :: 0 <= d < |fds'| ==> !fds'[d].used
    ensures DirOK(dir, fds')
    ensures RefsExact(dir, fds) ==>
              (RefsExact(dir, fds') <==> forall d :: 0 <= d < |fds| ==> !fds[d].used)
  {
    forall i ensures OpenCount(fds', i) == 0 { NothingOpen(fds', i); }
    if d :| 0 <= d < |fds| && fds[d].used {
      OpenCounted(fds, d);
    } else {
      forall i ensures OpenCount(fds, i) == 0 { NothingOpen(fds, i); }
    }
  }

  // ---- A new file system

  function EmptyDir(n: nat): (dir: seq<DEntry>)
    ensures |dir| == n && forall i :: 0 <= i < n ==> dir[i] == DEntry(false, -1, [], 0)
  {
    seq(n, _ => DEntry(false, -1, [], 0))
  }

  function EmptyTable(n: nat): (table: seq<Inode>)
    ensures |table| == n && forall i :: 0 <= i < n ==> table[i] == Inode(-1, 0)
  {
    seq(n, _ => Inode(-1, 0))
  }

  /** A zeroed disk with empty tables. */
  ghost function Blank(): Volume {
    Volume(seq(DISK_BLOCKS, _ => ZERO_BLOCK), EmptyTable(MAX_FILES), EmptyDir(MAX_FILES), seq(DISK_BLOCKS, _ => FREE))
  }

  ghost function NoOwners(): Shape {
    Shape(seq(MAX_FILES, _ => Layout(0, [], [])), map[])
  }

  lemma BlankFits()
    ensures Owned(Blank(), NoOwners()) && SizesOK(Blank(), NoOwners())
    ensures Fits(Blank())
  {
  }

  lemma BlankOwned()
    ensures Owned(Blank(), NoOwners()) && SizesOK(Blank(), NoOwners()) && Fits(Blank())
    ensures Owned(FreshVolume(), NoOwners()) && SizesOK(FreshVolume(), NoOwners())
  {
    BlankFits();
    var v := FreshVolume();
    assert v == Loaded(Persisted(Blank()));
    hide Blank, FreshVolume, NoOwners, Persisted, Loaded, Owned, SizesOK, Fits;
    RemountKeepsFiles(Blank(), NoOwners());
    SizedOwned(v, NoOwners());
    SameSizes(Blank(), v, NoOwners());
  }

  /** The volume that is mounted after making a file system. */
  ghost function FreshVolume(): Volume {
    BlankFits();
    Loaded(Persisted(Blank()))
  }

  lemma SameSizes(v: Volume, v': Volume, s: Shape)
    requires SizesOK(v, s) && Sized(v') && v'.dir == v.dir && v'.table == v.table
    ensures SizesOK(v', s)
  {
  }

  /** Reference counts do not matter to the files. */
  lemma SameFiles(v: Volume, v': Volume, s: Shape)
    requires Owned(v, s) && SizesOK(v, s) && v' == v.(dir := v'.dir) && |v'.dir| == MAX_FILES
    requires forall i :: 0 <= i < MAX_FILES ==> v'.dir[i].used == v.dir[i].used
    ensures Owned(v', s) && SizesOK(v', s)
  {
  }

  lemma BlankDir(fds: seq<FileDescriptor>)
    requires |fds| == MAX_FDS && forall d :: 0 <= d < MAX_FDS ==> !fds[d].used
    ensures DirOK(Blank().dir, fds) && RefsExact(Blank().dir, fds)
    ensures forall i :: 0 <= i < MAX_FILES ==> !Blank().dir[i].used && Blank().table[i].size == 0
    ensures |FreeBlocks(Blank().bitmap)| == DISK_BLOCKS - DATA_OFFSET
  {
    forall i ensures OpenCount(fds, i) == 0 { NothingOpen(fds, i); }
    BlankFree();
    hide FreeBlocks, OpenCount;
  }

  ghost predicate AllFree(v: Volume) {
    && Sized(v)
    && (forall i :: 0 <= i < MAX_FILES ==> !v.dir[i].used && v.table[i].size == 0)
    && |FreeBlocks(v.bitmap)| == DISK_BLOCKS - DATA_OFFSET
  }

  /** What a new file system that has been mounted looks like. */
  lemma FreshFacts(fds: seq<FileDescriptor>)
    requires |fds| == MAX_FDS && forall d :: 0 <= d < MAX_FDS ==> !fds[d].used
    ensures var v := FreshVolume();
      && Owned(v, NoOwners()) && SizesOK(v, NoOwners()) && DirOK(v.dir, fds) && RefsExact(v.dir, fds)
      && AllFree(v)
  {
    BlankFits();
    assert FreshVolume() == Loaded(Persisted(Blank()));
    hide Owned, SizesOK, DirOK, RefsExact, Persisted, Loaded, Blank, FreshVolume, NoOwners, FreeBlocks, Fits;
    BlankOwned();
    BlankDir(fds);
    LoadedPersisted(Blank());
    SizedOwned(FreshVolume(), NoOwners());
  }

  lemma FreshIs()
    ensures Fits(Blank()) && DecodeSuper(Persisted(Blank())[0]) == MADE_SUPER
    ensures Loaded(Persisted(Blank())) == FreshVolume()
  {
    BlankFits();
    LoadedPersisted(Blank());
  }

  lemma BlankFree()
    ensures |FreeBlocks(Blank().bitmap)| == DISK_BLOCKS - DATA_OFFSET
  {
    assert FreeBlocks(Blank().bitmap) == Range(DATA_OFFSET, DISK_BLOCKS);
  }

  lemma BlankFacts()
    ensures Fits(Blank()) && Blank().dir == EmptyDir(MAX_FILES) && Blank().table == EmptyTable(MAX_FILES)
    ensures Blank().disk == seq(DISK_BLOCKS, _ => ZERO_BLOCK)
    ensures forall k :: 0 <= k < 3 ==> Slice(Blank().bitmap, k) == FREE_BLOCK
  {
  }
}
