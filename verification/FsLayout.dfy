/** What a consistent volume looks like: every file's chain of blocks, and who
    owns each block of the data area. */
module FsLayout {
  import opened Bytes
  import opened FsBlocks
  import opened Sets

  const MAX_FILES := 64
  const MAX_FDS := 32
  const MAX_NAME := 15
  const DATA_OFFSET := 6      // first block of the data area
  const LEVEL_BYTES := 4194304 // bytes reached through one first-level block
  const FREE: byte := 48      // '0'
  const USED: byte := 49      // '1'

  datatype Inode = Inode(twoOffset: int, size: int)

  /** A directory entry. The name is a C string without its terminator. */
  datatype DEntry = DEntry(used: bool, inodeNum: int, name: seq<byte>, refCnt: int)

  datatype FileDescriptor = FileDescriptor(used: bool, inodeNum: int, offset: int)

  /** The disk and the tables cached in memory while it is mounted. */
  datatype Volume = Volume(disk: seq<Block>, table: seq<Inode>, dir: seq<DEntry>, bitmap: seq<byte>)

  /** The blocks of one file: its second-level block, first-level blocks and
      data blocks, the last two in file order. */
  datatype Layout = Layout(second: int, firsts: seq<int>, data: seq<int>)

  /** The one place where a block is referred to. */
  datatype Role = SecondR(file: int) | FirstR(file: int, k: int) | DataR(file: int, k: int)

  datatype Shape = Shape(files: seq<Layout>, owner: map<int, Role>)

  ghost predicate Sized(v: Volume) {
    && |v.disk| == DISK_BLOCKS && |v.bitmap| == DISK_BLOCKS
    && |v.table| == MAX_FILES && |v.dir| == MAX_FILES
  }

  ghost predicate UsedFile(v: Volume, i: int)
    requires |v.dir| == MAX_FILES
  {
    0 <= i < MAX_FILES && v.dir[i].used
  }

  predicate InData(b: int) {
    DATA_OFFSET <= b < DISK_BLOCKS
  }

  /** Table `t` lists the first-level blocks of `l`, then only -1. */
  ghost predicate SecondOn(t: seq<int>, l: Layout) {
    && |t| == FAN_OUT
    && forall k :: 0 <= k < FAN_OUT ==> t[k] == if k < |l.firsts| then l.firsts[k] else -1
  }

  /** Table `t` lists the `k`-th group of 1024 data blocks of `l`, then only -1. */
  ghost predicate FirstOn(t: seq<int>, l: Layout, k: nat) {
    && |t| == FAN_OUT
    && forall j :: 0 <= j < FAN_OUT ==>
         t[j] == if k * FAN_OUT + j < |l.data| then l.data[k * FAN_OUT + j] else -1
  }

  ghost predicate WellShaped(l: Layout) {
    && 1 <= |l.data|
    && |l.firsts| == (|l.data| + FAN_OUT - 1) / FAN_OUT
    && |l.firsts| <= FAN_OUT
  }

  ghost predicate InRange(l: Layout) {
    && InData(l.second)
    && (forall k :: 0 <= k < |l.firsts| ==> InData(l.firsts[k]))
    && (forall k :: 0 <= k < |l.data| ==> InData(l.data[k]))
  }

  /** The tables stored on disk describe layout `l`. */
  ghost predicate Described(disk: seq<Block>, l: Layout)
    requires |disk| == DISK_BLOCKS
  {
    && InRange(l)
    && SecondOn(BlockTable(disk[l.second]), l)
    && forall k :: 0 <= k < |l.firsts| ==> FirstOn(BlockTable(disk[l.firsts[k]]), l, k)
  }

  /** The owner map names each block of file `i` by its only place in `l`. */
  ghost predicate Claims(owner: map<int, Role>, i: int, l: Layout) {
    && (l.second in owner && owner[l.second] == SecondR(i))
    && (forall k :: 0 <= k < |l.firsts| ==> l.firsts[k] in owner && owner[l.firsts[k]] == FirstR(i, k))
    && (forall k :: 0 <= k < |l.data| ==> l.data[k] in owner && owner[l.data[k]] == DataR(i, k))
  }

  /** Block `b` is found at place `r`. */
  ghost predicate At(files: seq<Layout>, r: Role, b: int) {
    && 0 <= r.file < |files|
    && var l := files[r.file];
       match r
       case SecondR(_) => l.second == b
       case FirstR(_, k) => 0 <= k < |l.firsts| && l.firsts[k] == b
       case DataR(_, k) => 0 <= k < |l.data| && l.data[k] == b
  }

  ghost predicate FileOwned(v: Volume, s: Shape, i: int)
    requires Sized(v) && |s.files| == MAX_FILES && 0 <= i < MAX_FILES
  {
    && s.files[i].second == v.table[i].twoOffset
    && WellShaped(s.files[i])
    && Described(v.disk, s.files[i])
    && Claims(s.owner, i, s.files[i])
  }

  /** A block of the data area is marked used exactly when it is reachable,
      in one role and at one position, from one used inode; a free block
      holds zeros; nothing below the data area is reachable. */
  ghost predicate Owned(v: Volume, s: Shape) {
    && Sized(v)
    && |s.files| == MAX_FILES
    && (forall i :: 0 <= i < MAX_FILES && v.dir[i].used ==> FileOwned(v, s, i))
    && (forall b :: b in s.owner ==>
          InData(b) && UsedFile(v, s.owner[b].file) && At(s.files, s.owner[b], b))
    && (forall b :: InData(b) ==>
          v.bitmap[b] == if b in s.owner then USED else FREE)
    && (forall b :: InData(b) && b !in s.owner ==> v.disk[b] == ZERO_BLOCK)
  }

  /** All bytes in the data blocks of a file, including those past its size. */
  ghost function FileBytes(disk: seq<Block>, l: Layout): (bytes: seq<byte>)
    requires |disk| == DISK_BLOCKS && forall k :: 0 <= k < |l.data| ==> 0 <= l.data[k] < DISK_BLOCKS
    ensures |bytes| == |l.data| * BLOCK_SIZE
  {
    seq(|l.data| * BLOCK_SIZE,
        x requires 0 <= x < |l.data| * BLOCK_SIZE => disk[l.data[x / BLOCK_SIZE]][x % BLOCK_SIZE])
  }

  /** The bytes of file `i`. */
  ghost function BytesOf(v: Volume, s: Shape, i: int): seq<byte>
    requires Owned(v, s) && UsedFile(v, i)
  {
    assert FileOwned(v, s, i);
    FileBytes(v.disk, s.files[i])
  }

  /** The number of open descriptors on file `i`. */
  function OpenCount(fds: seq<FileDescriptor>, i: int): (n: nat)
  {
    if fds == [] then 0
    else OpenCount(fds[..|fds| - 1], i)
         + if fds[|fds| - 1].used && fds[|fds| - 1].inodeNum == i then 1 else 0
  }

  /** Block number size / 4096 of each file is present, even when the size is a
      whole number of blocks. */
  ghost predicate SizesOK(v: Volume, s: Shape) {
    && Sized(v) && |s.files| == MAX_FILES
    && (forall i :: 0 <= i < MAX_FILES ==> 0 <= v.table[i].size < 0x8000_0000 && IsInt32(v.table[i].twoOffset))
    && (forall i :: 0 <= i < MAX_FILES && v.dir[i].used ==> v.table[i].size / BLOCK_SIZE < |s.files[i].data|)
  }

  /** Used names are proper and pairwise distinct, unused entries have the empty
      name, an entry's reference count covers its open descriptors, and open
      descriptors name used entries. */
  ghost predicate DirOK(dir: seq<DEntry>, fds: seq<FileDescriptor>) {
    && |dir| == MAX_FILES && |fds| == MAX_FDS
    && (forall i :: 0 <= i < MAX_FILES && dir[i].used ==>
          && dir[i].name != [] && |dir[i].name| <= MAX_NAME && 0 !in dir[i].name
          && dir[i].inodeNum == i)
    && (forall i :: 0 <= i < MAX_FILES && !dir[i].used ==>
          dir[i].name == [] && dir[i].refCnt == 0 && dir[i].inodeNum == -1)
    && (forall i, j :: 0 <= i < j < MAX_FILES && dir[i].used && dir[j].used ==> dir[i].name != dir[j].name)
    && (forall i :: 0 <= i < MAX_FILES ==> OpenCount(fds, i) <= dir[i].refCnt)
    && (forall d :: 0 <= d < MAX_FDS && fds[d].used ==>
          && 0 <= fds[d].inodeNum < MAX_FILES && dir[fds[d].inodeNum].used
          && 0 <= fds[d].offset < 0x8000_0000)
  }

  lemma {:induction false} OpenCounted(fds: seq<FileDescriptor>, d: int)
    requires 0 <= d < |fds| && fds[d].used
    ensures OpenCount(fds, fds[d].inodeNum) >= 1
  {
    if d < |fds| - 1 { OpenCounted(fds[..|fds| - 1], d); }
  }

  lemma {:induction false} NothingOpen(fds: seq<FileDescriptor>, i: int)
    requires forall d :: 0 <= d < |fds| ==> !fds[d].used
    ensures OpenCount(fds, i) == 0
  {
    if fds != [] { NothingOpen(fds[..|fds| - 1], i); }
  }

  /** Each entry's reference count is the number of descriptors open on it. */
  ghost predicate RefsExact(dir: seq<DEntry>, fds: seq<FileDescriptor>) {
    forall i :: 0 <= i < |dir| ==> dir[i].refCnt == OpenCount(fds, i)
  }

  function OneIf(fd: FileDescriptor, i: int): nat {
    if fd.used && fd.inodeNum == i then 1 else 0
  }

  /** Changing one descriptor changes the counts by just that descriptor. */
  lemma {:induction false} OpenCountUpdate(fds: seq<FileDescriptor>, d: int, fd: FileDescriptor, i: int)
    requires 0 <= d < |fds|
    ensures OpenCount(fds[d := fd], i) + OneIf(fds[d], i) == OpenCount(fds, i) + OneIf(fd, i)
  {
    var last := |fds| - 1;
    if d < last {
      assert fds[d := fd][..last] == fds[..last][d := fd];
      OpenCountUpdate(fds[..last], d, fd, i);
    } else {
      assert fds[d := fd][..last] == fds[..last];
    }
  }

  /** Opening entry `i` on the free descriptor `d`. */
  lemma OpenDir(dir: seq<DEntry>, fds: seq<FileDescriptor>, d: int, i: int)
    requires DirOK(dir, fds) && 0 <= d < MAX_FDS && !fds[d].used && 0 <= i < MAX_FILES
    ensures var dir', fds' := dir[i := dir[i].(refCnt := dir[i].refCnt + 1)], fds[d := FileDescriptor(true, i, 0)];
            && (DirOK(dir', fds') <==> dir[i].used)
            && (RefsExact(dir, fds) ==> RefsExact(dir', fds'))
  {
    forall k ensures OpenCount(fds[d := FileDescriptor(true, i, 0)], k) == OpenCount(fds, k) + if k == i then 1 else 0 {
      OpenCountUpdate(fds, d, FileDescriptor(true, i, 0), k);
    }
    if !dir[i].used { assert fds[d := FileDescriptor(true, i, 0)][d].used; }
  }

  lemma CloseDir(dir: seq<DEntry>, fds: seq<FileDescriptor>, d: int)
    requires DirOK(dir, fds) && 0 <= d < MAX_FDS && fds[d].used
    ensures var i := fds[d].inodeNum;
            var dir', fds' := dir[i := dir[i].(refCnt := dir[i].refCnt - 1)], fds[d := FileDescriptor(false, -1, 0)];
            && DirOK(dir', fds')
            && (RefsExact(dir, fds) ==> RefsExact(dir', fds'))
  {
    var i := fds[d].inodeNum;
    forall k
      ensures OpenCount(fds[d := FileDescriptor(false, -1, 0)], k) == OpenCount(fds, k) - if k == i then 1 else 0
    {
      OpenCountUpdate(fds, d, FileDescriptor(false, -1, 0), k);
    }
  }

  /** Moving offsets does not change how often a file is open. */
  lemma {:induction false} SameOpenCount(fds: seq<FileDescriptor>, fds': seq<FileDescriptor>, i: int)
    requires |fds| == |fds'|
    requires forall d :: 0 <= d < |fds| ==> fds[d].used == fds'[d].used && fds[d].inodeNum == fds'[d].inodeNum
    ensures OpenCount(fds, i) == OpenCount(fds', i)
  {
    if fds != [] { SameOpenCount(fds[..|fds| - 1], fds'[..|fds| - 1], i); }
  }

  lemma MoveOffset(dir: seq<DEntry>, fds: seq<FileDescriptor>, d: int, offset: int)
    requires DirOK(dir, fds) && 0 <= d < MAX_FDS && fds[d].used && 0 <= offset < 0x8000_0000
    ensures DirOK(dir, fds[d := fds[d].(offset := offset)])
  {
    forall i | 0 <= i < MAX_FILES ensures OpenCount(fds[d := fds[d].(offset := offset)], i) <= dir[i].refCnt {
      SameOpenCount(fds, fds[d := fds[d].(offset := offset)], i);
    }
  }

  lemma DirRange(dir: seq<DEntry>, fds: seq<FileDescriptor>)
    requires DirOK(dir, fds)
    ensures |dir| == MAX_FILES && |fds| == MAX_FDS
  {
  }

  lemma OpenRange(dir: seq<DEntry>, fds: seq<FileDescriptor>, d: int)
    requires DirOK(dir, fds) && 0 <= d < MAX_FDS && fds[d].used
    ensures |dir| == MAX_FILES && 0 <= fds[d].inodeNum < MAX_FILES && dir[fds[d].inodeNum].used
    ensures 0 <= fds[d].offset < 0x8000_0000
  {
  }

  lemma FileRange(v: Volume, s: Shape, i: int)
    requires Owned(v, s) && SizesOK(v, s) && UsedFile(v, i)
    ensures Sized(v) && |s.files| == MAX_FILES && 0 <= v.table[i].size < 0x8000_0000
    ensures InData(v.table[i].twoOffset) && s.files[i].second == v.table[i].twoOffset
    ensures |s.files[i].firsts| == (|s.files[i].data| + FAN_OUT - 1) / FAN_OUT
  {
  }

  /** A change of a file's size leaves ownership and bytes alone. */
  lemma Resized(v: Volume, s: Shape, i: int, size: int)
    requires Owned(v, s) && UsedFile(v, i)
    ensures var v' := v.(table := v.table[i := v.table[i].(size := size)]);
            Owned(v', s) && forall k :: UsedFile(v, k) ==> BytesOf(v', s, k) == BytesOf(v, s, k)
  {
  }

  ghost function FreeBlocks(bitmap: seq<byte>): set<int>
    requires |bitmap| == DISK_BLOCKS
  {
    set b | DATA_OFFSET <= b < DISK_BLOCKS && bitmap[b] == FREE
  }

  lemma FreeBlocksMark(bitmap: seq<byte>, b: int)
    requires |bitmap| == DISK_BLOCKS && InData(b) && bitmap[b] == FREE
    ensures |FreeBlocks(bitmap[b := USED])| == |FreeBlocks(bitmap)| - 1
  {
    assert FreeBlocks(bitmap[b := USED]) == FreeBlocks(bitmap) - {b};
  }

  /** No block of the data area is in two places. */
  lemma OnePlacePerBlock(v: Volume, s: Shape, r1: Role, r2: Role, b: int)
    requires Owned(v, s)
    requires UsedFile(v, r1.file) && At(s.files, r1, b)
    requires UsedFile(v, r2.file) && At(s.files, r2, b)
    ensures r1 == r2
  {
  }

  // ---- Steps that keep ownership

  /** A file keeps its layout when its blocks keep their owner and its tables
      keep their contents. */
  lemma FileFrame(v: Volume, s: Shape, v': Volume, s': Shape, i: int)
    requires Sized(v) && Sized(v') && |s.files| == |s'.files| == MAX_FILES && 0 <= i < MAX_FILES
    requires FileOwned(v, s, i)
    requires s'.files[i] == s.files[i] && v'.table[i].twoOffset == v.table[i].twoOffset
    requires forall b :: b in s.owner && s.owner[b].file == i ==>
               && b in s'.owner && s'.owner[b] == s.owner[b]
               && (InData(b) && !s.owner[b].DataR? ==> v'.disk[b] == v.disk[b])
    ensures FileOwned(v', s', i)
  {
  }

  /** Writing into a data block disturbs no table. */
  lemma StoreData(v: Volume, s: Shape, b: int, x: Block)
    requires Owned(v, s) && b in s.owner && s.owner[b].DataR?
    ensures Owned(v.(disk := v.disk[b := x]), s)
  {
    var v' := v.(disk := v.disk[b := x]);
    forall i | 0 <= i < MAX_FILES && v.dir[i].used ensures FileOwned(v', s, i) {
      FileFrame(v, s, v', s, i);
    }
  }

  ghost function Grown(s: Shape, i: int, b: int): Shape
    requires 0 <= i < |s.files|
  {
    var l := s.files[i];
    Shape(s.files[i := l.(data := l.data + [b])], s.owner[b := DataR(i, |l.data|)])
  }

  lemma GrowTable(l: Layout, b: int, first: seq<int>)
    requires WellShaped(l) && InRange(l) && InData(b) && |l.data| < FAN_OUT && FirstOn(first, l, 0)
    ensures |l.firsts| == 1
    ensures IsTable(first[|l.data| := b])
    ensures FirstOn(first[|l.data| := b], l.(data := l.data + [b]), 0)
    ensures InRange(l.(data := l.data + [b])) && WellShaped(l.(data := l.data + [b]))
  {
  }

  ghost function GrownVolume(v: Volume, s: Shape, i: int, b: int, first: seq<int>): Volume
    requires Owned(v, s) && UsedFile(v, i) && |s.files[i].firsts| == 1
    requires InData(b) && |s.files[i].data| < FAN_OUT <= |first|
    requires IsTable(first[|s.files[i].data| := b])
  {
    assert FileOwned(v, s, i);
    v.(disk := v.disk[s.files[i].firsts[0] := TableBlock(first[|s.files[i].data| := b])],
       bitmap := v.bitmap[b := USED])
  }

  /** A free block appended to the first group of a file's data blocks. */
  lemma GrowFile(v: Volume, s: Shape, i: int, b: int, first: seq<int>)
    requires Owned(v, s) && UsedFile(v, i)
    requires InData(b) && b !in s.owner
    requires |s.files[i].data| < FAN_OUT
    requires FirstOn(first, s.files[i], 0)
    ensures |s.files[i].firsts| == 1
    ensures IsTable(first[|s.files[i].data| := b])
    ensures FirstOn(first[|s.files[i].data| := b], Grown(s, i, b).files[i], 0)
    ensures Owned(GrownVolume(v, s, i, b, first), Grown(s, i, b))
  {
    assert FileOwned(v, s, i);
    var l := s.files[i];
    var t := first[|l.data| := b];
    GrowTable(l, b, first);
    TableRoundTrip(t);
    var f := l.firsts[0];
    var v' := GrownVolume(v, s, i, b, first);
    var s' := Grown(s, i, b);
    assert s.owner[f] == FirstR(i, 0);
    forall i' | 0 <= i' < MAX_FILES && v.dir[i'].used ensures FileOwned(v', s', i') {
      assert FileOwned(v, s, i');
      if i' != i {
        FileFrame(v, s, v', s', i');
      } else {
        GrownOwned(v, s, i, b, first);
      }
    }
    forall c | c in s'.owner
      ensures InData(c) && UsedFile(v', s'.owner[c].file) && At(s'.files, s'.owner[c], c)
    {
      if c != b { assert At(s.files, s.owner[c], c); }
    }
  }

  lemma GrownOwned(v: Volume, s: Shape, i: int, b: int, first: seq<int>)
    requires Owned(v, s) && UsedFile(v, i)
    requires InData(b) && b !in s.owner
    requires |s.files[i].data| < FAN_OUT && |s.files[i].firsts| == 1
    requires FirstOn(first, s.files[i], 0)
    requires IsTable(first[|s.files[i].data| := b])
    ensures FileOwned(GrownVolume(v, s, i, b, first), Grown(s, i, b), i)
  {
    assert FileOwned(v, s, i);
    var l := s.files[i];
    GrowTable(l, b, first);
    TableRoundTrip(first[|l.data| := b]);
    var v' := GrownVolume(v, s, i, b, first);
    var l' := l.(data := l.data + [b]);
    assert s.owner[l.firsts[0]] == FirstR(i, 0);
    assert s.owner[l.second] == SecondR(i);
    assert Described(v'.disk, l');
    forall k | 0 <= k < |l'.data|
      ensures var o := Grown(s, i, b).owner; l'.data[k] in o && o[l'.data[k]] == DataR(i, k)
    {
      if k < |l.data| { assert s.owner[l.data[k]] == DataR(i, k); }
    }
  }

  lemma BytesAt(v: Volume, s: Shape, i: int, x: int)
    requires Owned(v, s) && UsedFile(v, i) && 0 <= x < |s.files[i].data| * BLOCK_SIZE
    ensures InData(s.files[i].data[x / BLOCK_SIZE])
    ensures |BytesOf(v, s, i)| == |s.files[i].data| * BLOCK_SIZE
    ensures BytesOf(v, s, i)[x] == v.disk[s.files[i].data[x / BLOCK_SIZE]][x % BLOCK_SIZE]
  {
  }

  lemma SizedOwned(v: Volume, s: Shape)
    requires Owned(v, s)
    ensures Sized(v) && |s.files| == MAX_FILES
  {
  }

  /** The first unused directory entry at `k` or later. */
  function FreeSlotFrom(dir: seq<DEntry>, k: nat): nat
    requires k <= |dir|
    decreases |dir| - k
  {
    if k == |dir| || !dir[k].used then k else FreeSlotFrom(dir, k + 1)
  }

  function FreeSlot(dir: seq<DEntry>): nat {
    FreeSlotFrom(dir, 0)
  }

  lemma FreeSlotIs(dir: seq<DEntry>, k: nat)
    requires k < |dir| && !dir[k].used && forall j :: 0 <= j < k ==> dir[j].used
    ensures FreeSlot(dir) == k
  {
    var j := k;
    while j > 0
      invariant 0 <= j <= k && FreeSlotFrom(dir, j) == k
    {
      j := j - 1;
    }
  }

  /** A name that `fs_create` does not turn down. */
  ghost predicate Creatable(dir: seq<DEntry>, name: seq<byte>) {
    && |name| <= MAX_NAME
    && (forall k :: 0 <= k < |dir| && dir[k].used ==> dir[k].name != name)
    && (exists k :: 0 <= k < |dir| && !dir[k].used)
  }

  /** The tables on disk determine a file's layout, so two shapes that explain
      the same volume agree on every file. */
  lemma LayoutIsUnique(v: Volume, s: Shape, s': Shape, i: int)
    requires Owned(v, s) && Owned(v, s') && UsedFile(v, i)
    ensures s.files[i] == s'.files[i]
  {
    assert FileOwned(v, s, i) && FileOwned(v, s', i);
    SameFirsts(v, s, s', i);
    SameData(v, s, s', i, |s.files[i].data|);
    SameData(v, s, s', i, |s'.files[i].data|);
    forall j | 0 <= j < |s.files[i].data| ensures s.files[i].data[j] == s'.files[i].data[j] {
      SameData(v, s, s', i, j);
    }
  }

  lemma SameFirsts(v: Volume, s: Shape, s': Shape, i: int)
    requires Owned(v, s) && Owned(v, s') && UsedFile(v, i)
    ensures s.files[i].firsts == s'.files[i].firsts && s.files[i].second == s'.files[i].second
  {
    assert FileOwned(v, s, i) && FileOwned(v, s', i);
    var t, a, b := BlockTable(v.disk[s.files[i].second]), s.files[i].firsts, s'.files[i].firsts;
    assert |a| < FAN_OUT ==> t[|a|] == -1;
    assert |b| < FAN_OUT ==> t[|b|] == -1;
    assert forall k :: 0 <= k < |a| ==> t[k] == a[k] != -1;
    assert forall k :: 0 <= k < |b| ==> t[k] == b[k] != -1;
  }

  /** Where the tables say data block `j` of a file is, if anywhere. */
  lemma DataEntry(v: Volume, s: Shape, i: int, j: nat)
    requires Owned(v, s) && UsedFile(v, i)
    ensures var l, k := s.files[i], j / FAN_OUT;
            if k < |l.firsts|
            then InData(l.firsts[k])
                 && BlockTable(v.disk[l.firsts[k]])[j % FAN_OUT] == (if j < |l.data| then l.data[j] else -1)
                 && (j < |l.data| ==> InData(l.data[j]))
            else j >= |l.data|
  {
  }

  lemma SameData(v: Volume, s: Shape, s': Shape, i: int, j: nat)
    requires Owned(v, s) && Owned(v, s') && UsedFile(v, i)
    ensures j < |s.files[i].data| <==> j < |s'.files[i].data|
    ensures j < |s.files[i].data| ==> s.files[i].data[j] == s'.files[i].data[j]
  {
    hide FileOwned;
    SameFirsts(v, s, s', i);
    DataEntry(v, s, i, j);
    DataEntry(v, s', i, j);
  }

  /** The first entry at `k` or later whose name is `name`, used or not. */
  function LookupFrom(dir: seq<DEntry>, name: seq<byte>, k: nat): nat
    requires k <= |dir|
    decreases |dir| - k
  {
    if k == |dir| || dir[k].name == name then k else LookupFrom(dir, name, k + 1)
  }

  function Lookup(dir: seq<DEntry>, name: seq<byte>): nat {
    LookupFrom(dir, name, 0)
  }

  lemma LookupIs(dir: seq<DEntry>, name: seq<byte>, k: nat)
    requires k <= |dir| && (k < |dir| ==> dir[k].name == name)
    requires forall j :: 0 <= j < k ==> dir[j].name != name
    ensures Lookup(dir, name) == k
  {
    var j := k;
    while j > 0
      invariant 0 <= j <= k && LookupFrom(dir, name, j) == k
    {
      j := j - 1;
    }
  }

  function Range(lo: int, hi: int): (r: set<int>)
    requires lo <= hi
    ensures forall x :: x in r <==> lo <= x < hi
    ensures |r| == hi - lo
    decreases hi - lo
  {
    if lo == hi then {} else Range(lo, hi - 1) + {hi - 1}
  }

  lemma SubsetSize(a: set<int>, b: set<int>)
    requires a <= b
    ensures |a| <= |b|
  {
    assert |b| == |a| + |b - a| by { assert b == a + (b - a); }
  }

  /** Distinct owned blocks cannot outnumber the data area, so a file never needs
      more than 12 of the 1024 entries of its second-level block. */
  lemma CapacityBound(v: Volume, s: Shape, i: int)
    requires Owned(v, s) && UsedFile(v, i)
    ensures |s.files[i].data| <= DISK_BLOCKS - DATA_OFFSET
    ensures |s.files[i].firsts| <= 12
  {
    assert FileOwned(v, s, i);
    var d := s.files[i].data;
    forall j, k | 0 <= j < k < |d| ensures d[j] != d[k] {
      assert s.owner[d[j]] == DataR(i, j) && s.owner[d[k]] == DataR(i, k);
    }
    SetSize(d);
    SubsetSize(AsSet(d), Range(DATA_OFFSET, DISK_BLOCKS));
  }

  lemma SizeRange(v: Volume, s: Shape, i: int)
    requires SizesOK(v, s) && UsedFile(v, i)
    ensures 0 <= v.table[i].size && v.table[i].size / BLOCK_SIZE < |s.files[i].data|
  {
  }

  lemma FirstTableAt(v: Volume, s: Shape, i: int)
    requires Owned(v, s) && UsedFile(v, i)
    ensures |s.files[i].firsts| >= 1 && InData(v.table[i].twoOffset)
    ensures InData(s.files[i].firsts[0])
    ensures BlockTable(v.disk[v.table[i].twoOffset])[0] == s.files[i].firsts[0]
  {
  }

  /** The number of bytes `fs_read` sets out to read: the comparison of the bytes
      left with `nbyte` is unsigned. */
  function ReadCount(size: int, offset: int, nbyte: nat): int {
    if offset > size then nbyte
    else if size - offset >= nbyte then nbyte
    else size - offset
  }

  /** A read or write on a descriptor that is not open: number 32 passes the range
      test, and is one past the table. */
  function BadDescriptor(fildes: int): Outcome {
    if fildes == MAX_FDS then Undefined else Returned(-1)
  }
}
