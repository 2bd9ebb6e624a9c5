/** Creating, deleting and truncating files: what each does to the volume. */
module FsFiles {
  import opened Bytes
  import opened FsBlocks
  import opened FsLayout

  // ---- Delete

  /** Block `b` is one of the first `firsts` first-level blocks or the first
      `data` data blocks of file `i`. */
  ghost predicate Released(s: Shape, i: int, firsts: int, data: int, b: int) {
    b in s.owner &&
    match s.owner[b]
    case DataR(f, k) => f == i && k < data
    case FirstR(f, k) => f == i && k < firsts
    case SecondR(_) => false
  }

  /** A deletion in progress. */
  ghost predicate Deleting(v0: Volume, s: Shape, v: Volume, i: int, firsts: int, data: int) {
    && Owned(v0, s) && UsedFile(v0, i) && Sized(v)
    && v.table == v0.table && v.dir == v0.dir
    && (forall b :: 0 <= b < DISK_BLOCKS ==>
          && v.disk[b] == (if Released(s, i, firsts, data, b) then ZERO_BLOCK else v0.disk[b])
          && v.bitmap[b] == if Released(s, i, firsts, data, b) then FREE else v0.bitmap[b])
  }

  ghost function Freed(v: Volume, b: int): Volume
    requires Sized(v) && 0 <= b < DISK_BLOCKS
  {
    v.(disk := v.disk[b := ZERO_BLOCK], bitmap := v.bitmap[b := FREE])
  }

  lemma DeleteData(v0: Volume, s: Shape, v: Volume, i: int, firsts: int, data: int)
    requires Deleting(v0, s, v, i, firsts, data) && 0 <= data < |s.files[i].data|
    ensures InData(s.files[i].data[data])
    ensures Deleting(v0, s, Freed(v, s.files[i].data[data]), i, firsts, data + 1)
  {
  }

  lemma DeleteFirst(v0: Volume, s: Shape, v: Volume, i: int, firsts: int, data: int)
    requires Deleting(v0, s, v, i, firsts, data) && 0 <= firsts < |s.files[i].firsts|
    ensures InData(s.files[i].firsts[firsts])
    ensures Deleting(v0, s, Freed(v, s.files[i].firsts[firsts]), i, firsts + 1, data)
  {
    assert FileOwned(v0, s, i);
    var d := s.files[i].firsts[firsts];
    assert s.owner[d] == FirstR(i, firsts);
    forall b | 0 <= b < DISK_BLOCKS && b != d
      ensures Released(s, i, firsts + 1, data, b) == Released(s, i, firsts, data, b)
    {
    }
  }

  /** The tables still to be visited are as they were. */
  lemma DeleteTables(v0: Volume, s: Shape, v: Volume, i: int, k: nat)
    requires Deleting(v0, s, v, i, k, k * FAN_OUT)
    ensures |s.files[i].firsts| <= 12 && 1 <= |s.files[i].data|
    ensures InData(v.table[i].twoOffset) && s.files[i].second == v.table[i].twoOffset
    ensures v.disk[v.table[i].twoOffset] == v0.disk[v.table[i].twoOffset]
    ensures SecondOn(BlockTable(v0.disk[v.table[i].twoOffset]), s.files[i])
    ensures |s.files[i].firsts| == (|s.files[i].data| + FAN_OUT - 1) / FAN_OUT
    ensures k < |s.files[i].firsts| ==>
              && k * FAN_OUT < |s.files[i].data|
              && InData(s.files[i].firsts[k])
              && FirstOn(BlockTable(v.disk[s.files[i].firsts[k]]), s.files[i], k)
  {
    CapacityBound(v0, s, i);
    assert FileOwned(v0, s, i);
    assert s.owner[s.files[i].second] == SecondR(i);
    if k < |s.files[i].firsts| { assert s.owner[s.files[i].firsts[k]] == FirstR(i, k); }
  }

  ghost function Without(s: Shape, i: int): Shape {
    Shape(s.files, map b | b in s.owner && s.owner[b].file != i :: s.owner[b])
  }

  /** What deleting file `i` does: exactly its blocks become free and zero. */
  ghost predicate DeleteEffect(v0: Volume, s0: Shape, v: Volume, s: Shape, i: int) {
    && Owned(v0, s0) && UsedFile(v0, i) && Owned(v, s)
    && v.table == v0.table
    && v.dir == v0.dir[i := DEntry(false, -1, [], v0.dir[i].refCnt)]
    && (forall b :: 0 <= b < DISK_BLOCKS ==>
          if b in s0.owner && s0.owner[b].file == i
          then v.disk[b] == ZERO_BLOCK && v.bitmap[b] == FREE
          else v.disk[b] == v0.disk[b] && v.bitmap[b] == v0.bitmap[b])
    && (forall k :: UsedFile(v0, k) && k != i ==>
          s.files[k] == s0.files[k] && BytesOf(v, s, k) == BytesOf(v0, s0, k))
  }

  lemma DeleteDone(v0: Volume, s: Shape, v: Volume, i: int, v': Volume)
    requires 0 <= i < |s.files| && Deleting(v0, s, v, i, |s.files[i].firsts|, |s.files[i].data|)
    requires 0 <= v0.table[i].twoOffset < DISK_BLOCKS
    requires v' == Freed(v, v0.table[i].twoOffset).(dir := v0.dir[i := DEntry(false, -1, [], v0.dir[i].refCnt)])
    ensures DeleteEffect(v0, s, v', Without(s, i), i)
  {
    assert FileOwned(v0, s, i);
    var s' := Without(s, i);
    var l := s.files[i];
    assert s.owner[l.second] == SecondR(i);
    forall b | 0 <= b < DISK_BLOCKS
      ensures if b in s.owner && s.owner[b].file == i
              then v'.disk[b] == ZERO_BLOCK && v'.bitmap[b] == FREE
              else v'.disk[b] == v0.disk[b] && v'.bitmap[b] == v0.bitmap[b]
    {
      if b in s.owner && s.owner[b].file == i { assert At(s.files, s.owner[b], b); }
    }
    forall k | 0 <= k < MAX_FILES && v'.dir[k].used ensures FileOwned(v', s', k) {
      assert FileOwned(v0, s, k);
      FileFrame(v0, s, v', s', k);
    }
    assert Owned(v', s') by {
      forall b | InData(b) ensures v'.bitmap[b] == if b in s'.owner then USED else FREE {}
    }
    forall k | UsedFile(v0, k) && k != i ensures BytesOf(v', s', k) == BytesOf(v0, s, k) {
      SameBytes(v0, s, v', s', k);
    }
  }

  /** A file's bytes stay when its layout and its data blocks do. */
  lemma SameBytes(v: Volume, s: Shape, v': Volume, s': Shape, i: int)
    requires Owned(v, s) && UsedFile(v, i) && Owned(v', s') && UsedFile(v', i)
    requires s'.files[i] == s.files[i]
    requires forall b :: InData(b) && b in s.owner && s.owner[b].file == i ==> v'.disk[b] == v.disk[b]
    ensures BytesOf(v', s', i) == BytesOf(v, s, i)
  {
  }

  lemma DeletingStart(v: Volume, s: Shape, i: int)
    requires Owned(v, s) && UsedFile(v, i)
    ensures Deleting(v, s, v, i, 0, 0)
  {
  }

  lemma DeletingRange(v0: Volume, s: Shape, v: Volume, i: int, firsts: int, data: int)
    requires Deleting(v0, s, v, i, firsts, data)
    ensures |s.files| == MAX_FILES && InRange(s.files[i])
  {
  }

  lemma SecondEntry(t: seq<int>, l: Layout, k: nat)
    requires SecondOn(t, l) && k < FAN_OUT
    ensures t[k] == if k < |l.firsts| then l.firsts[k] else -1
  {
  }

  lemma DeleteSizes(v: Volume, s: Shape, v': Volume, s': Shape, i: int)
    requires DeleteEffect(v, s, v', s', i) && SizesOK(v, s)
    ensures SizesOK(v', s')
  {
  }

  lemma OpenSlot(dir: seq<DEntry>, fds: seq<FileDescriptor>, i: int)
    requires DirOK(dir, fds) && 0 <= i < MAX_FILES
    ensures |dir| == MAX_FILES && (dir[i].used <==> dir[i].name != [])
  {
  }

  lemma DeleteDir(dir: seq<DEntry>, fds: seq<FileDescriptor>, i: int)
    requires DirOK(dir, fds) && 0 <= i < MAX_FILES && dir[i].used && dir[i].refCnt <= 0
    ensures DirOK(dir[i := DEntry(false, -1, [], dir[i].refCnt)], fds)
  {
    forall d | 0 <= d < MAX_FDS && fds[d].used ensures fds[d].inodeNum != i {
      OpenCounted(fds, d);
    }
  }

  // ---- Create

  /** The tables of a new file with one first-level and one data block. */
  function NewTable(block: int): (t: seq<int>)
    ensures |t| == FAN_OUT
  {
    seq(FAN_OUT, k => if k == 0 then block else -1)
  }

  ghost function WithFile(s: Shape, i: int, a: int, b: int, c: int): Shape
    requires 0 <= i < |s.files|
  {
    Shape(s.files[i := Layout(a, [b], [c])],
          s.owner[a := SecondR(i)][b := FirstR(i, 0)][c := DataR(i, 0)])
  }

  /** What creating file `i` does: three free blocks become its second-level,
      first-level and data block, the last still zero. Its size is whatever the
      inode held. */
  ghost predicate CreateEffect(v0: Volume, s0: Shape, v: Volume, s: Shape, i: int, name: seq<byte>) {
    && Owned(v0, s0) && Owned(v, s) && UsedFile(v, i) && !v0.dir[i].used
    && v.dir == v0.dir[i := v0.dir[i].(used := true, inodeNum := i, name := name)]
    && v.table == v0.table[i := v0.table[i].(twoOffset := v.table[i].twoOffset)]
    && |s.files[i].firsts| == 1 && |s.files[i].data| == 1
    && var a, b, c := s.files[i].second, s.files[i].firsts[0], s.files[i].data[0];
    && InData(a) && InData(b) && InData(c) && a != b && a != c && b != c
    && v0.bitmap[a] == v0.bitmap[b] == v0.bitmap[c] == FREE
    && v.bitmap == v0.bitmap[a := USED][b := USED][c := USED]
    && (forall x :: 0 <= x < DISK_BLOCKS && x != a && x != b ==> v.disk[x] == v0.disk[x])
    && BytesOf(v, s, i) == Zeros(BLOCK_SIZE)
    && (forall k :: UsedFile(v0, k) ==> s.files[k] == s0.files[k] && BytesOf(v, s, k) == BytesOf(v0, s0, k))
    && |FreeBlocks(v.bitmap)| == |FreeBlocks(v0.bitmap)| - 3
  }

  ghost predicate Trio(v: Volume, a: int, b: int, c: int) {
    && Sized(v)
    && InData(a) && InData(b) && InData(c) && a != b && a != c && b != c
    && v.bitmap[a] == FREE && v.bitmap[b] == FREE && v.bitmap[c] == FREE
  }

  lemma NewTableOn(a: int, b: int, c: int)
    requires InData(b) && InData(c)
    ensures IsTable(NewTable(b)) && IsTable(NewTable(c))
    ensures SecondOn(NewTable(b), Layout(a, [b], [c]))
    ensures FirstOn(NewTable(c), Layout(a, [b], [c]), 0)
  {
  }

  ghost function Created(v: Volume, i: int, name: seq<byte>, a: int, b: int, c: int): Volume
    requires Trio(v, a, b, c) && 0 <= i < MAX_FILES
    requires IsTable(NewTable(b)) && IsTable(NewTable(c))
  {
    Volume(v.disk[a := TableBlock(NewTable(b))][b := TableBlock(NewTable(c))],
           v.table[i := v.table[i].(twoOffset := a)],
           v.dir[i := v.dir[i].(used := true, inodeNum := i, name := name)],
           v.bitmap[a := USED][b := USED][c := USED])
  }

  lemma TrioFree(v: Volume, s: Shape, a: int, b: int, c: int)
    requires Owned(v, s) && Trio(v, a, b, c)
    ensures a !in s.owner && b !in s.owner && c !in s.owner && v.disk[c] == ZERO_BLOCK
  {
  }

  lemma NewFileOwned(v: Volume, s: Shape, i: int, name: seq<byte>, a: int, b: int, c: int)
    requires |s.files| == MAX_FILES && 0 <= i < MAX_FILES && Trio(v, a, b, c)
    requires IsTable(NewTable(b)) && IsTable(NewTable(c))
    ensures FileOwned(Created(v, i, name, a, b, c), WithFile(s, i, a, b, c), i)
  {
    NewTableOn(a, b, c);
    TableRoundTrip(NewTable(b));
    TableRoundTrip(NewTable(c));
  }

  lemma CreateOwned(v: Volume, s: Shape, i: int, name: seq<byte>, a: int, b: int, c: int)
    requires Owned(v, s) && 0 <= i < MAX_FILES && !v.dir[i].used && Trio(v, a, b, c)
    requires IsTable(NewTable(b)) && IsTable(NewTable(c))
    ensures Owned(Created(v, i, name, a, b, c), WithFile(s, i, a, b, c))
  {
    var v' := Created(v, i, name, a, b, c);
    var s' := WithFile(s, i, a, b, c);
    TrioFree(v, s, a, b, c);
    NewFileOwned(v, s, i, name, a, b, c);
    forall k | 0 <= k < MAX_FILES && v'.dir[k].used ensures FileOwned(v', s', k) {
      if k != i {
        FileFrame(v, s, v', s', k);
      }
    }
    forall x | x in s'.owner
      ensures InData(x) && UsedFile(v', s'.owner[x].file) && At(s'.files, s'.owner[x], x)
    {
      if x != a && x != b && x != c { assert At(s.files, s.owner[x], x) && s.owner[x].file != i; }
    }
  }

  lemma CreateDone(v: Volume, s: Shape, i: int, name: seq<byte>, a: int, b: int, c: int)
    requires Owned(v, s) && 0 <= i < MAX_FILES && !v.dir[i].used && Trio(v, a, b, c)
    ensures IsTable(NewTable(b)) && IsTable(NewTable(c))
    ensures CreateEffect(v, s, Created(v, i, name, a, b, c), WithFile(s, i, a, b, c), i, name)
  {
    NewTableOn(a, b, c);
    CreateOwned(v, s, i, name, a, b, c);
    var v' := Created(v, i, name, a, b, c);
    var s' := WithFile(s, i, a, b, c);
    TrioFree(v, s, a, b, c);
    BytesOfOne(v', s', i);
    forall k | UsedFile(v, k) ensures BytesOf(v', s', k) == BytesOf(v, s, k) {
      SameBytes(v, s, v', s', k);
    }
    FreeBlocksMark(v.bitmap, a);
    FreeBlocksMark(v.bitmap[a := USED], b);
    FreeBlocksMark(v.bitmap[a := USED][b := USED], c);
  }

  // ---- Whatever number of blocks is free

  /** The first free block from `k` on, or the number of blocks. */
  ghost function NextFree(bitmap: seq<byte>, k: int): (b: int)
    requires |bitmap| == DISK_BLOCKS && DATA_OFFSET <= k <= DISK_BLOCKS
    ensures k <= b <= DISK_BLOCKS && (b < DISK_BLOCKS ==> bitmap[b] == FREE)
    ensures forall x :: k <= x < b ==> bitmap[x] != FREE
    decreases DISK_BLOCKS - k
  {
    if k == DISK_BLOCKS || bitmap[k] == FREE then k else NextFree(bitmap, k + 1)
  }

  ghost function Marked(bitmap: seq<byte>, b: int): (m: seq<byte>)
    requires |bitmap| == DISK_BLOCKS && DATA_OFFSET <= b <= DISK_BLOCKS
    ensures |m| == DISK_BLOCKS
  {
    if b < DISK_BLOCKS then bitmap[b := USED] else bitmap
  }

  /** A table block with one entry. */
  ghost function OneEntry(b: int): Block
    requires DATA_OFFSET <= b <= DISK_BLOCKS
  {
    TableBlock(NewTable(b))
  }

  ghost function CreateDisk(disk: seq<Block>, a: int, b: int, c: int): seq<Block>
    requires |disk| == DISK_BLOCKS && DATA_OFFSET <= a <= DISK_BLOCKS
    requires DATA_OFFSET <= b <= DISK_BLOCKS && DATA_OFFSET <= c <= DISK_BLOCKS
  {
    if a == DISK_BLOCKS then disk
    else if b == DISK_BLOCKS then disk[a := OneEntry(DISK_BLOCKS)]
    else disk[a := OneEntry(b)][b := OneEntry(c)]
  }

  /** What `fs_create` makes of the volume once the name is accepted. */
  ghost function CreateVolume(v: Volume, i: int, name: seq<byte>): (v': Volume)
    requires Sized(v) && 0 <= i < MAX_FILES
    ensures Sized(v')
  {
    var a := NextFree(v.bitmap, DATA_OFFSET);
    var b := NextFree(Marked(v.bitmap, a), DATA_OFFSET);
    var c := NextFree(Marked(Marked(v.bitmap, a), b), DATA_OFFSET);
    Volume(CreateDisk(v.disk, a, b, c),
           v.table[i := v.table[i].(twoOffset := a)],
           v.dir[i := v.dir[i].(used := true, inodeNum := i, name := name)],
           Marked(Marked(Marked(v.bitmap, a), b), c))
  }

  lemma CreateTables(v: Volume, i: int, name: seq<byte>)
    requires Sized(v) && 0 <= i < MAX_FILES
    ensures CreateVolume(v, i, name).table == v.table[i := v.table[i].(twoOffset := NextFree(v.bitmap, DATA_OFFSET))]
    ensures CreateVolume(v, i, name).dir == v.dir[i := v.dir[i].(used := true, inodeNum := i, name := name)]
  {
  }

  lemma NextCount(bitmap: seq<byte>)
    requires |bitmap| == DISK_BLOCKS
    ensures var b := NextFree(bitmap, DATA_OFFSET);
      && (b == DISK_BLOCKS <==> |FreeBlocks(bitmap)| == 0)
      && |FreeBlocks(Marked(bitmap, b))| == if b == DISK_BLOCKS then 0 else |FreeBlocks(bitmap)| - 1
  {
    var b := NextFree(bitmap, DATA_OFFSET);
    if b < DISK_BLOCKS {
      FreeBlocksMark(bitmap, b);
      assert b in FreeBlocks(bitmap);
    } else {
      assert FreeBlocks(bitmap) == {};
    }
  }

  /** With three free blocks the file is there, whatever size the inode keeps. */
  lemma CreateThree(v: Volume, s: Shape, i: int, name: seq<byte>) returns (s': Shape)
    requires Owned(v, s) && 0 <= i < MAX_FILES && !v.dir[i].used && |FreeBlocks(v.bitmap)| >= 3
    ensures CreateEffect(v, s, CreateVolume(v, i, name), s', i, name)
  {
    var a := NextFree(v.bitmap, DATA_OFFSET);
    NextCount(v.bitmap);
    var b := NextFree(Marked(v.bitmap, a), DATA_OFFSET);
    NextCount(Marked(v.bitmap, a));
    var c := NextFree(Marked(Marked(v.bitmap, a), b), DATA_OFFSET);
    NextCount(Marked(Marked(v.bitmap, a), b));
    CreateNumbers(v.bitmap);
    hide CreateEffect, Owned, FreeBlocks;
    SizedOwned(v, s);
    CreateDone(v, s, i, name, a, b, c);
    s' := WithFile(s, i, a, b, c);
  }

  /** Only free blocks have been marked. */
  ghost predicate OnlyMarked(bitmap: seq<byte>, m: seq<byte>) {
    && |m| == |bitmap| == DISK_BLOCKS
    && forall x :: 0 <= x < DISK_BLOCKS ==>
         m[x] == bitmap[x] || (x >= DATA_OFFSET && bitmap[x] == FREE && m[x] == USED)
  }

  lemma MarkedNext(bitmap: seq<byte>, m: seq<byte>)
    requires OnlyMarked(bitmap, m)
    ensures OnlyMarked(bitmap, Marked(m, NextFree(m, DATA_OFFSET)))
  {
  }

  lemma AllMarked(bitmap: seq<byte>, m: seq<byte>)
    requires OnlyMarked(bitmap, m) && |FreeBlocks(m)| == 0
    ensures forall x :: 0 <= x < 12288 ==> m[x] == if x >= 6 && bitmap[x] == 48 then 49 else bitmap[x]
  {
    assert FreeBlocks(m) == {};
    forall x | 6 <= x < 12288 ensures m[x] != 48 { assert x !in FreeBlocks(m); }
  }

  /** With fewer, the entry and the inode are as with three and all blocks are taken,
      but the first-level or data block that is missing is entered as block 12288. */
  lemma CreateFew(v: Volume, i: int, name: seq<byte>)
    requires Sized(v) && 0 <= i < 64 && |FreeBlocks(v.bitmap)| < 3
    ensures |v.dir| == |v.table| == 64 && |v.disk| == |v.bitmap| == 12288
    ensures var v' := CreateVolume(v, i, name);
      && v'.dir == v.dir[i := DEntry(true, i, name, v.dir[i].refCnt)]
      && v'.table == v.table[i := Inode(v'.table[i].twoOffset, v.table[i].size)]
      && |v'.bitmap| == 12288
      && forall x :: 0 <= x < 12288 ==> v'.bitmap[x] == if x >= 6 && v.bitmap[x] == 48 then 49 else v.bitmap[x]
  {
    var m0 := v.bitmap;
    var m1 := Marked(m0, NextFree(m0, DATA_OFFSET));
    var m2 := Marked(m1, NextFree(m1, DATA_OFFSET));
    NextCount(m0);
    NextCount(m1);
    NextCount(m2);
    MarkedNext(m0, m0);
    MarkedNext(m0, m1);
    MarkedNext(m0, m2);
    hide FreeBlocks, OnlyMarked, NextFree, Marked, OneEntry;
    AllMarked(m0, CreateVolume(v, i, name).bitmap);
  }

  /** And what is on the disk then: nothing, one table or two. */
  lemma CreateFewDisk(v: Volume, i: int, name: seq<byte>, v': Volume, n: nat)
    requires Sized(v) && 0 <= i < 64 && n == |FreeBlocks(v.bitmap)|
    requires Sized(v') && v' == CreateVolume(v, i, name)
    ensures n == 0 ==> v'.table[i].twoOffset == 12288 && v'.disk == v.disk
    ensures n == 1 ==>
      var a := v'.table[i].twoOffset;
      && InData(a) && v.bitmap[a] == 48 && v'.disk == v.disk[a := v'.disk[a]] && BlockTable(v'.disk[a])[0] == 12288
    ensures n == 2 ==>
      var a := v'.table[i].twoOffset;
      && InData(a) && v.bitmap[a] == 48
      && var b := BlockTable(v'.disk[a])[0];
      && InData(b) && b != a && v.bitmap[b] == 48 && v'.disk == v.disk[a := v'.disk[a]][b := v'.disk[b]]
      && BlockTable(v'.disk[b])[0] == 12288
  {
    CreateNumbers(v.bitmap);
    CreateTables(v, i, name);
    var a := NextFree(v.bitmap, DATA_OFFSET);
    var b := NextFree(Marked(v.bitmap, a), DATA_OFFSET);
    var c := NextFree(Marked(Marked(v.bitmap, a), b), DATA_OFFSET);
    EntryIs(b);
    EntryIs(DISK_BLOCKS);
    assert v'.disk == CreateDisk(v.disk, a, b, c);
    hide FreeBlocks, OneEntry, BlockTable, CreateVolume, NextFree, Marked;
    if a < DISK_BLOCKS && b < DISK_BLOCKS { TwoTables(v.disk, a, OneEntry(b), b, OneEntry(c)); }
  }

  /** Which blocks are taken. */
  lemma CreateNumbers(bitmap: seq<byte>)
    requires |bitmap| == DISK_BLOCKS
    ensures var a := NextFree(bitmap, DATA_OFFSET);
      var b := NextFree(Marked(bitmap, a), DATA_OFFSET);
      var c, n := NextFree(Marked(Marked(bitmap, a), b), DATA_OFFSET), |FreeBlocks(bitmap)|;
      && (n == 0 ==> a == DISK_BLOCKS)
      && (n >= 1 ==> InData(a) && bitmap[a] == FREE && (n == 1 ==> b == DISK_BLOCKS))
      && (n >= 2 ==> InData(b) && b != a && bitmap[b] == FREE && (n == 2 ==> c == DISK_BLOCKS))
  {
    var a := NextFree(bitmap, DATA_OFFSET);
    var m1 := Marked(bitmap, a);
    var b := NextFree(m1, DATA_OFFSET);
    NextCount(bitmap);
    NextCount(m1);
    NextCount(Marked(m1, b));
    hide FreeBlocks;
  }

  lemma TwoTables(disk: seq<Block>, a: int, x: Block, b: int, y: Block)
    requires |disk| == DISK_BLOCKS && InData(a) && InData(b) && a != b
    ensures var d := disk[a := x][b := y]; d[a] == x && d[b] == y && d == disk[a := d[a]][b := d[b]]
  {
  }

  lemma EntryIs(b: int)
    requires DATA_OFFSET <= b <= DISK_BLOCKS
    ensures BlockTable(OneEntry(b)) == NewTable(b)
  {
    TableRoundTrip(NewTable(b));
  }

  /** Two free blocks leave the file without a data block. */
  lemma NotCreatedFew(v: Volume, i: int, name: seq<byte>, s: Shape)
    requires Sized(v) && 0 <= i < MAX_FILES && |FreeBlocks(v.bitmap)| == 2
    ensures !Owned(CreateVolume(v, i, name), s)
  {
    var v' := CreateVolume(v, i, name);
    CreateFewDisk(v, i, name, v', 2);
    CreateFew(v, i, name);
    hide CreateVolume, FreeBlocks, Owned;
    if Owned(v', s) { NoDataBlock(v', s, i); }
  }

  /** The new file is explained by its shape. */
  lemma CreateOwns(v: Volume, s: Shape, v': Volume, s': Shape, i: int, name: seq<byte>)
    requires CreateEffect(v, s, v', s', i, name)
    ensures Owned(v', s') && |v'.dir| == |v.dir| && |v'.table| == |v.table| && 0 <= i < |v.dir| && i < |v.table|
    ensures v'.dir == v.dir[i := v.dir[i].(used := true, inodeNum := i, name := name)]
    ensures v'.table[i].size == v.table[i].size
  {
  }

  lemma CreateSizes(v: Volume, s: Shape, v': Volume, s': Shape, i: int, name: seq<byte>)
    requires CreateEffect(v, s, v', s', i, name) && SizesOK(v, s)
    ensures SizesOK(v', s') <==> v.table[i].size < BLOCK_SIZE
    ensures (exists t :: Owned(v', t) && SizesOK(v', t)) <==> v.table[i].size < BLOCK_SIZE
  {
    if v.table[i].size < BLOCK_SIZE { assert Owned(v', s') && SizesOK(v', s'); }
    forall t | Owned(v', t) && SizesOK(v', t) ensures v.table[i].size < BLOCK_SIZE {
      LayoutIsUnique(v', s', t, i);
    }
  }

  lemma CreateDir(dir: seq<DEntry>, fds: seq<FileDescriptor>, i: int, name: seq<byte>)
    requires DirOK(dir, fds) && 0 <= i < MAX_FILES && !dir[i].used
    requires |name| <= MAX_NAME && 0 !in name && forall k :: 0 <= k < |dir| && dir[k].used ==> dir[k].name != name
    ensures DirOK(dir[i := dir[i].(used := true, inodeNum := i, name := name)], fds) <==> name != []
  {
  }

  /** A file whose only data block lies past the end of the disk. */
  lemma NoDataBlock(v: Volume, s: Shape, i: int)
    requires Owned(v, s) && UsedFile(v, i)
    ensures InData(v.table[i].twoOffset)
    ensures var b := BlockTable(v.disk[v.table[i].twoOffset])[0];
            InData(b) && BlockTable(v.disk[b])[0] != DISK_BLOCKS
  {
  }

  lemma BytesOfOne(v: Volume, s: Shape, i: int)
    requires Owned(v, s) && UsedFile(v, i) && |s.files[i].data| == 1
    ensures InData(s.files[i].data[0])
    ensures BytesOf(v, s, i) == v.disk[s.files[i].data[0]]
  {
  }

  /** The blocks of a one-block file. */
  lemma ThreeBlocks(v: Volume, s: Shape, i: int, x: int)
    requires Owned(v, s) && UsedFile(v, i) && |s.files[i].firsts| == 1 && |s.files[i].data| == 1
    ensures (x in s.owner && s.owner[x].file == i)
            <==> x == s.files[i].second || x == s.files[i].firsts[0] || x == s.files[i].data[0]
  {
  }

  /** Deleting a file right after creating it gives back the disk, the bitmap
      and the name; only the inode's block number stays behind. */
  lemma CreateThenDelete(v0: Volume, s0: Shape, v1: Volume, s1: Shape, v2: Volume, s2: Shape, i: int, name: seq<byte>)
    requires CreateEffect(v0, s0, v1, s1, i, name) && DeleteEffect(v1, s1, v2, s2, i)
    ensures v2.disk == v0.disk && v2.bitmap == v0.bitmap
    ensures v2.dir == v0.dir[i := DEntry(false, -1, [], v0.dir[i].refCnt)]
  {
    hide FileOwned, At, BytesOf;
    forall x | 0 <= x < DISK_BLOCKS ensures v2.disk[x] == v0.disk[x] && v2.bitmap[x] == v0.bitmap[x] {
      ThreeBlocks(v1, s1, i, x);
      if x in s1.owner && s1.owner[x].file == i {
        assert v0.bitmap[x] == if x in s0.owner then USED else FREE;
      }
    }
  }

  // ---- Truncate

  /** A truncation in progress: entries `keep` to `upto - 1` of the first
      first-level block have been cleared. */
  ghost predicate Truncating(v0: Volume, s: Shape, v: Volume, i: int, keep: int, upto: int, first: seq<int>) {
    && Owned(v0, s) && UsedFile(v0, i) && Sized(v)
    && v.table == v0.table && v.dir == v0.dir
    && 1 <= keep <= upto
    && |s.files[i].firsts| >= 1 && 0 <= s.files[i].firsts[0] < DISK_BLOCKS
    && var f := s.files[i].firsts[0];
    && IsTable(first) && BlockTable(v.disk[f]) == first
    && (forall j :: 0 <= j < FAN_OUT ==>
          first[j] == if keep <= j < upto then -1 else BlockTable(v0.disk[f])[j])
    && (forall b :: 0 <= b < DISK_BLOCKS && b != f ==>
          v.disk[b] == if Cut(s, i, keep, upto, b) then ZERO_BLOCK else v0.disk[b])
    && (forall b :: 0 <= b < DISK_BLOCKS ==>
          v.bitmap[b] == if Cut(s, i, keep, upto, b) then FREE else v0.bitmap[b])
  }

  /** Such a truncation, done. */
  ghost predicate CutFrom(v0: Volume, s: Shape, v: Volume, i: int, keep: int) {
    exists first :: Truncating(v0, s, v, i, keep, FAN_OUT, first)
  }

  ghost predicate Cut(s: Shape, i: int, keep: int, upto: int, b: int) {
    b in s.owner && s.owner[b].DataR? && s.owner[b].file == i && keep <= s.owner[b].k < upto
  }

  lemma TruncateStart(v: Volume, s: Shape, i: int, keep: int)
    requires Owned(v, s) && UsedFile(v, i) && 1 <= keep
    ensures |s.files[i].firsts| >= 1 && InData(s.files[i].firsts[0])
    ensures Truncating(v, s, v, i, keep, keep, BlockTable(v.disk[s.files[i].firsts[0]]))
  {
  }

  /** Entry `upto` is already -1. */
  lemma TruncateSkip(v0: Volume, s: Shape, v: Volume, i: int, keep: int, upto: int, first: seq<int>)
    requires Truncating(v0, s, v, i, keep, upto, first) && upto < FAN_OUT && first[upto] == -1
    ensures Truncating(v0, s, v, i, keep, upto + 1, first)
  {
  }

  ghost function CutVolume(v: Volume, b: int, f: int, first: seq<int>): Volume
    requires Sized(v) && 0 <= b < DISK_BLOCKS && 0 <= f < DISK_BLOCKS && IsTable(first)
  {
    v.(disk := v.disk[b := ZERO_BLOCK][f := TableBlock(first)], bitmap := v.bitmap[b := FREE])
  }

  lemma TruncateCut(v0: Volume, s: Shape, v: Volume, i: int, keep: int, upto: int, first: seq<int>)
    requires Truncating(v0, s, v, i, keep, upto, first) && upto < FAN_OUT && first[upto] != -1
    ensures InData(first[upto]) && IsTable(first[upto := -1])
    ensures Truncating(v0, s, CutVolume(v, first[upto], s.files[i].firsts[0], first[upto := -1]), i, keep, upto + 1,
                       first[upto := -1])
  {
    assert FileOwned(v0, s, i);
    var l := s.files[i];
    var f := l.firsts[0];
    assert FirstOn(BlockTable(v0.disk[f]), l, 0);
    var d := first[upto];
    assert d == l.data[upto];
    assert s.owner[d] == DataR(i, upto) && s.owner[f] == FirstR(i, 0);
    TableRoundTrip(first[upto := -1]);
    forall b | b != d ensures Cut(s, i, keep, upto + 1, b) == Cut(s, i, keep, upto, b) {}
  }

  ghost function Shortened(s: Shape, i: int, keep: int): Shape
    requires 0 <= i < |s.files| && 0 <= keep <= |s.files[i].data|
  {
    Shape(s.files[i := s.files[i].(data := s.files[i].data[..keep])],
          map b | b in s.owner && !(s.owner[b].DataR? && s.owner[b].file == i && s.owner[b].k >= keep) :: s.owner[b])
  }

  /** What cutting file `i` back to `keep` blocks and `size` bytes does. */
  ghost predicate TruncateEffect(v0: Volume, s0: Shape, v: Volume, s: Shape, i: int, keep: nat, size: int) {
    && Owned(v0, s0) && UsedFile(v0, i) && Owned(v, s) && 1 <= keep <= |s0.files[i].data|
    && v.table == v0.table[i := v0.table[i].(size := size)] && v.dir == v0.dir
    && s.files[i].data == s0.files[i].data[..keep]
    && keep * BLOCK_SIZE <= |BytesOf(v0, s0, i)|
    && BytesOf(v, s, i) == BytesOf(v0, s0, i)[..keep * BLOCK_SIZE]
    && (forall b :: InData(b) ==>
          v.bitmap[b] == if Cut(s0, i, keep, |s0.files[i].data|, b) then FREE else v0.bitmap[b])
    && (forall b :: 0 <= b < DATA_OFFSET ==> v.disk[b] == v0.disk[b] && v.bitmap[b] == v0.bitmap[b])
    && (forall k :: UsedFile(v0, k) && k != i ==>
          s.files[k] == s0.files[k] && BytesOf(v, s, k) == BytesOf(v0, s0, k))
  }

  lemma TruncatedFile(v0: Volume, s: Shape, v: Volume, i: int, keep: int, first: seq<int>)
    requires Truncating(v0, s, v, i, keep, FAN_OUT, first)
    requires |s.files[i].firsts| == 1 && keep <= |s.files[i].data| <= FAN_OUT
    ensures FileOwned(v, Shortened(s, i, keep), i)
  {
    var s' := Shortened(s, i, keep);
    assert FileOwned(v0, s, i);
    var l := s.files[i];
    assert FirstOn(BlockTable(v0.disk[l.firsts[0]]), l, 0);
    assert s.owner[l.firsts[0]] == FirstR(i, 0) && s.owner[l.second] == SecondR(i);
    assert FirstOn(first, s'.files[i], 0);
    forall k | 0 <= k < keep ensures l.data[k] in s'.owner && s'.owner[l.data[k]] == DataR(i, k) {
      assert s.owner[l.data[k]] == DataR(i, k);
    }
  }

  lemma TruncateOwned(v0: Volume, s: Shape, v: Volume, i: int, keep: int, first: seq<int>)
    requires Truncating(v0, s, v, i, keep, FAN_OUT, first)
    requires |s.files[i].firsts| == 1 && keep <= |s.files[i].data| <= FAN_OUT
    ensures Owned(v, Shortened(s, i, keep))
  {
    var s' := Shortened(s, i, keep);
    TruncatedFile(v0, s, v, i, keep, first);
    forall k | 0 <= k < MAX_FILES && v.dir[k].used ensures FileOwned(v, s', k) {
      if k != i {
        assert FileOwned(v0, s, k);
        FileFrame(v0, s, v, s', k);
      }
    }
    forall x | x in s'.owner
      ensures InData(x) && UsedFile(v, s'.owner[x].file) && At(s'.files, s'.owner[x], x)
    {
      assert At(s.files, s.owner[x], x);
    }
    forall x | x in s.owner && x !in s'.owner ensures Cut(s, i, keep, FAN_OUT, x) {
      assert At(s.files, s.owner[x], x);
    }
  }

  lemma TruncateDone(v00: Volume, v0: Volume, s: Shape, v: Volume, i: int, keep: int, first: seq<int>)
    requires Truncating(v0, s, v, i, keep, FAN_OUT, first)
    requires |s.files[i].firsts| == 1 && keep <= |s.files[i].data| <= FAN_OUT
    requires Owned(v00, s) && UsedFile(v00, i)
    requires |v0.table| == |v00.table| && v0 == v00.(table := v00.table[i := v00.table[i].(size := v0.table[i].size)])
    ensures TruncateEffect(v00, s, v, Shortened(s, i, keep), i, keep, v0.table[i].size)
  {
    var s' := Shortened(s, i, keep);
    TruncateOwned(v0, s, v, i, keep, first);
    assert FileOwned(v0, s, i) && FileOwned(v, s', i) && FileOwned(v00, s, i);
    TruncateBytes(v0, s, v, i, keep, first);
    Resized(v00, s, i, v0.table[i].size);
    forall b | InData(b)
      ensures v.bitmap[b] == if Cut(s, i, keep, |s.files[i].data|, b) then FREE else v00.bitmap[b]
    {
      if Cut(s, i, keep, FAN_OUT, b) { assert At(s.files, s.owner[b], b); }
    }
    forall k | UsedFile(v00, k) && k != i ensures BytesOf(v, s', k) == BytesOf(v00, s, k) {
      KeptByTruncate(v0, s, v, i, keep, first, k);
    }
  }

  lemma KeptByTruncate(v0: Volume, s: Shape, v: Volume, i: int, keep: int, first: seq<int>, k: int)
    requires Truncating(v0, s, v, i, keep, FAN_OUT, first) && UsedFile(v0, k) && k != i
    requires keep <= |s.files[i].data| && Owned(v, Shortened(s, i, keep))
    ensures BytesOf(v, Shortened(s, i, keep), k) == BytesOf(v0, s, k)
  {
  }

  lemma TruncateBytes(v0: Volume, s: Shape, v: Volume, i: int, keep: int, first: seq<int>)
    requires Truncating(v0, s, v, i, keep, FAN_OUT, first)
    requires keep <= |s.files[i].data| && Owned(v, Shortened(s, i, keep))
    ensures keep * BLOCK_SIZE <= |BytesOf(v0, s, i)|
    ensures BytesOf(v, Shortened(s, i, keep), i) == BytesOf(v0, s, i)[..keep * BLOCK_SIZE]
  {
  }

  /** A full first first-level block cut short while others follow it. */
  lemma HoleNotOwned(v0: Volume, s: Shape, v: Volume, i: int, keep: int, first: seq<int>, s': Shape)
    requires Truncating(v0, s, v, i, keep, FAN_OUT, first)
    requires |s.files[i].data| > FAN_OUT && keep < FAN_OUT
    ensures !Owned(v, s')
  {
    assert FileOwned(v0, s, i);
    var l := s.files[i];
    assert s.owner[l.second] == SecondR(i) && s.owner[l.firsts[0]] == FirstR(i, 0);
    var t := BlockTable(v0.disk[l.second]);
    assert t[0] == l.firsts[0] && t[1] == l.firsts[1] != -1;
    assert first[FAN_OUT - 1] == -1;
    if Owned(v, s') { LevelsFull(v, s', i); }
  }

  /** In a consistent volume a second first-level block follows only a full one. */
  lemma LevelsFull(v: Volume, s: Shape, i: int)
    requires Owned(v, s) && UsedFile(v, i)
    ensures InData(v.table[i].twoOffset)
    ensures var t := BlockTable(v.disk[v.table[i].twoOffset]);
            InData(t[0]) && (t[1] != -1 ==> BlockTable(v.disk[t[0]])[FAN_OUT - 1] != -1)
  {
  }

  /** When truncating a file to `length` bytes through a descriptor at `offset`
      leaves the volume consistent: the blocks kept run to the offset, so it must
      not lie in a block before that of the new end; and only the first
      first-level block is ever cut. */
  predicate TruncateFits(blocks: nat, offset: nat, length: nat) {
    || offset / BLOCK_SIZE >= FAN_OUT - 1
    || (blocks <= FAN_OUT && offset / BLOCK_SIZE >= length / BLOCK_SIZE)
  }

  /** The number of blocks such a truncation keeps. */
  function BlocksKept(blocks: nat, offset: nat): nat {
    if offset / BLOCK_SIZE >= FAN_OUT - 1 || blocks <= offset / BLOCK_SIZE then blocks
    else offset / BLOCK_SIZE + 1
  }

  /** What these come to for a file with one first-level block: the blocks up to the
      offset's are kept, and the new end has to lie in one of them. */
  lemma TruncateCounts(blocks: nat, offset: nat, length: nat)
    requires 1 <= blocks <= 1024
    ensures BlocksKept(blocks, offset) == if offset / 4096 + 1 < blocks then offset / 4096 + 1 else blocks
    ensures length / 4096 < blocks ==>
              (TruncateFits(blocks, offset, length) <==> length / 4096 <= offset / 4096 || offset / 4096 >= 1023)
  {
  }

  /** And what is left then. */
  lemma TruncateLeaves(v0: Volume, s0: Shape, v: Volume, s: Shape, i: int, offset: nat, size: int)
    requires Owned(v0, s0) && UsedFile(v0, i) && |s0.files[i].data| <= 1024
    requires TruncateEffect(v0, s0, v, s, i, BlocksKept(|s0.files[i].data|, offset), size)
    ensures var n := if offset / 4096 + 1 < |s0.files[i].data| then offset / 4096 + 1 else |s0.files[i].data|;
      && |BytesOf(v, s, i)| == 4096 * n <= |BytesOf(v0, s0, i)|
      && BytesOf(v, s, i) == BytesOf(v0, s0, i)[..4096 * n]
      && v.table == v0.table[i := Inode(v0.table[i].twoOffset, size)] && v.dir == v0.dir
      && (forall k :: UsedFile(v0, k) && k != i ==> BytesOf(v, s, k) == BytesOf(v0, s0, k))
  {
    assert FileOwned(v0, s0, i);
    TruncateCounts(|s0.files[i].data|, offset, 0);
    hide Owned, BytesOf;
  }

  /** Nothing lies past the offset. */
  lemma TruncateNone(v0: Volume, s: Shape, i: int, size: int)
    requires Owned(v0, s) && UsedFile(v0, i)
    ensures var v := v0.(table := v0.table[i := v0.table[i].(size := size)]);
            TruncateEffect(v0, s, v, s, i, |s.files[i].data|, size)
  {
    assert FileOwned(v0, s, i);
    Resized(v0, s, i, size);
    var d := s.files[i].data;
    assert d[..|d|] == d;
    forall b ensures !Cut(s, i, |d|, |d|, b) {}
  }

  /** Entries past the file's last block were -1 already. */
  lemma TruncateLower(v0: Volume, s: Shape, v: Volume, i: int, keep: int, first: seq<int>)
    requires Truncating(v0, s, v, i, keep, FAN_OUT, first) && |s.files[i].data| <= keep
    ensures Truncating(v0, s, v, i, |s.files[i].data|, FAN_OUT, first)
  {
    assert FileOwned(v0, s, i);
    assert FirstOn(BlockTable(v0.disk[s.files[i].firsts[0]]), s.files[i], 0);
    forall b ensures !Cut(s, i, |s.files[i].data|, FAN_OUT, b) {
      if b in s.owner { assert At(s.files, s.owner[b], b); }
    }
  }

  lemma TruncateSizes(v0: Volume, s0: Shape, v: Volume, s: Shape, i: int, keep: nat, size: int)
    requires TruncateEffect(v0, s0, v, s, i, keep, size) && SizesOK(v0, s0) && 0 <= size < 0x8000_0000
    ensures SizesOK(v, s) <==> size / BLOCK_SIZE < keep
    ensures (exists t :: Owned(v, t) && SizesOK(v, t)) <==> size / BLOCK_SIZE < keep
  {
    hide Owned, BytesOf, Cut;
    SizedOwned(v, s);
    if size / BLOCK_SIZE < keep { assert Owned(v, s) && SizesOK(v, s); }
    forall t | Owned(v, t) && SizesOK(v, t) ensures size / BLOCK_SIZE < keep {
      LayoutIsUnique(v, s, t, i);
    }
  }
}
