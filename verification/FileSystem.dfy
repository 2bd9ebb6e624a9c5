/** The file system calls, over a disk of 12288 blocks. */
module FileSystem {
  import opened Bytes
  import opened FsBlocks
  import opened FsLayout
  import opened FsWriting
  import opened FsFiles
  import opened FsPersist
  import opened FsErase

  class FileSystem {
    var active: bool
    var disk: seq<Block>
    var super: SuperBlock
    var table: seq<Inode>
    var dir: seq<DEntry>
    var bitmap: seq<byte>
    var fds: seq<FileDescriptor>
    var mounted: bool
    ghost var shape: Shape

    /** As the program starts. */
    constructor ()
      ensures !active && !mounted && |fds| == MAX_FDS && |bitmap| == DISK_BLOCKS
    {
      active, mounted := false, false;
      disk, super := [], SuperBlock(0, 0, 0, 0, 0);
      table, dir := seq(MAX_FILES, _ => Inode(0, 0)), seq(MAX_FILES, _ => DEntry(false, 0, [], 0));
      bitmap, fds := Zeros(DISK_BLOCKS), seq(MAX_FDS, _ => FileDescriptor(false, 0, 0));
    }

    ghost function Vol(): Volume
      reads this
    {
      Volume(disk, table, dir, bitmap)
    }

    ghost predicate ValidWith(s: Shape)
      reads this
    {
      && Owned(Vol(), s)
      && SizesOK(Vol(), s)
      && DirOK(dir, fds)
      && super == MADE_SUPER
      && (!active ==> forall d :: 0 <= d < MAX_FDS ==> !fds[d].used)
    }

    ghost predicate Valid()
      reads this
    {
      ValidWith(shape)
    }

    /** Some assignment of blocks to files explains the volume. */
    ghost predicate Consistent()
      reads this
    {
      exists s :: ValidWith(s)
    }

    predicate OpenFd(d: int)
      requires |fds| == MAX_FDS
      reads this
    {
      0 <= d < MAX_FDS && fds[d].used
    }

    /** The bytes of file `i` up to the end of its last block. */
    ghost function Bytes(i: int): seq<byte>
      requires Valid() && UsedFile(Vol(), i)
      reads this
    {
      BytesOf(Vol(), shape, i)
    }

    ghost function Blocks(i: int): nat
      requires Valid() && UsedFile(Vol(), i)
      reads this
    {
      |shape.files[i].data|
    }

    ghost function FreeCount(): nat
      requires |bitmap| == DISK_BLOCKS
      reads this
    {
      |FreeBlocks(bitmap)|
    }

    // ---- Block device

    method BlockWrite(block: int, buf: Block) returns (r: int)
      requires |disk| == DISK_BLOCKS
      modifies this`disk
      ensures r == if active && 0 <= block < DISK_BLOCKS then 0 else -1
      ensures disk == if r == 0 then old(disk)[block := buf] else old(disk)
    {
      if !active { return -1; }
      if block < 0 || block >= DISK_BLOCKS { return -1; }
      disk := disk[block := buf];
      return 0;
    }

    /** On an error the buffer keeps its contents. */
    method BlockRead(block: int, buf: Block) returns (r: int, data: Block)
      requires |disk| == DISK_BLOCKS
      ensures r == if active && 0 <= block < DISK_BLOCKS then 0 else -1
      ensures data == if r == 0 then disk[block] else buf
    {
      if !active { return -1, buf; }
      if block < 0 || block >= DISK_BLOCKS { return -1, buf; }
      return 0, disk[block];
    }

    /** Takes the first free block, or gives the number of blocks if there is none. */
    method FindEmpty() returns (offset: int)
      requires |bitmap| == DISK_BLOCKS && super.dataOffset == DATA_OFFSET
      modifies this`bitmap
      ensures DATA_OFFSET <= offset <= DISK_BLOCKS
      ensures forall b :: DATA_OFFSET <= b < offset ==> old(bitmap)[b] != FREE
      ensures offset < DISK_BLOCKS ==>
        && old(bitmap)[offset] == FREE && bitmap == old(bitmap)[offset := USED]
        && FreeCount() == old(FreeCount()) - 1
      ensures offset == DISK_BLOCKS ==> bitmap == old(bitmap) && FreeCount() == 0
      ensures offset == NextFree(old(bitmap), DATA_OFFSET) && bitmap == Marked(old(bitmap), offset)
    {
      offset := super.dataOffset;
      while offset < DISK_BLOCKS
        invariant DATA_OFFSET <= offset <= DISK_BLOCKS
        invariant bitmap == old(bitmap)
        invariant forall b :: DATA_OFFSET <= b < offset ==> bitmap[b] != FREE
      {
        if bitmap[offset] == FREE {
          FreeBlocksMark(bitmap, offset);
          bitmap := bitmap[offset := USED];
          return;
        }
        offset := offset + 1;
      }
      assert FreeBlocks(bitmap) == {};
    }

    // ---- Reaching a block

    /** Loads the second-level block, a first-level block and a data block. */
    method LoadChain(inode: int, secondIndex: int, fdOffBlk: int)
      returns (r: Outcome, second: seq<int>, first: seq<int>, diskdata: Block)
      requires active && Owned(Vol(), shape) && UsedFile(Vol(), inode)
      requires 0 <= secondIndex < FAN_OUT && 0 <= fdOffBlk
      ensures IsTable(second) && IsTable(first)
      ensures var l := shape.files[inode];
        r == if secondIndex >= |l.firsts| then Returned(-1)
             else if fdOffBlk >= FAN_OUT then Undefined
             else if secondIndex * FAN_OUT + fdOffBlk >= |l.data| then Returned(-1)
             else Returned(0)
      ensures r == Returned(0) ==>
        var l := shape.files[inode];
        && InRange(l) && l.second == table[inode].twoOffset
        && second == BlockTable(disk[l.second]) && SecondOn(second, l)
        && FirstOn(first, l, secondIndex)
        && diskdata == disk[l.data[secondIndex * FAN_OUT + fdOffBlk]]
    {
      assert FileOwned(Vol(), shape, inode);
      second, first, diskdata := BlockTable(ZERO_BLOCK), BlockTable(ZERO_BLOCK), ZERO_BLOCK;
      var rc, block := BlockRead(table[inode].twoOffset, ZERO_BLOCK);
      if rc == -1 { return Returned(-1), second, first, diskdata; }
      second := BlockTable(block);
      rc, block := BlockRead(second[secondIndex], ZERO_BLOCK);
      if rc == -1 { return Returned(-1), second, first, diskdata; }
      first := BlockTable(block);
      if fdOffBlk >= FAN_OUT { return Undefined, second, first, diskdata; }
      assert FirstOn(first, shape.files[inode], secondIndex);
      rc, diskdata := BlockRead(first[fdOffBlk], ZERO_BLOCK);
      if rc == -1 { return Returned(-1), second, first, diskdata; }
      return Returned(0), second, first, diskdata;
    }

    // ---- Reading

    /** Loads the data block after the current one, through the next first-level
        block if need be. */
    method NextRead(inode: int, second: seq<int>, secondIndex: int, first: seq<int>, fdOffBlk: int, diskdata: Block)
      returns (ok: bool, secondIndex': int, first': seq<int>, fdOffBlk': int, diskdata': Block)
      requires active && Owned(Vol(), shape) && UsedFile(Vol(), inode)
      requires 0 <= secondIndex < FAN_OUT - 1 && 0 <= fdOffBlk < FAN_OUT
      requires SecondOn(second, shape.files[inode])
      requires IsTable(first) && FirstOn(first, shape.files[inode], secondIndex)
      requires secondIndex * FAN_OUT + fdOffBlk < |shape.files[inode].data|
      ensures ok == (secondIndex * FAN_OUT + fdOffBlk + 1 < |shape.files[inode].data|)
      ensures ok ==>
        && 0 <= secondIndex' && 0 <= fdOffBlk' < FAN_OUT
        && secondIndex' * FAN_OUT + fdOffBlk' == secondIndex * FAN_OUT + fdOffBlk + 1
        && IsTable(first') && FirstOn(first', shape.files[inode], secondIndex')
        && InData(shape.files[inode].data[secondIndex' * FAN_OUT + fdOffBlk'])
        && diskdata' == disk[shape.files[inode].data[secondIndex' * FAN_OUT + fdOffBlk']]
    {
      assert FileOwned(Vol(), shape, inode);
      ok, secondIndex', first', fdOffBlk', diskdata' := false, secondIndex, first, fdOffBlk, diskdata;
      var rc, block;
      if fdOffBlk == FAN_OUT - 1 {
        secondIndex' := secondIndex' + 1;
        rc, block := BlockRead(second[secondIndex'], TableBlock(first));
        if rc == -1 { return; }
        first' := BlockTable(block);
        fdOffBlk' := 0;
        rc, diskdata' := BlockRead(first'[fdOffBlk'], diskdata');
      } else {
        fdOffBlk' := fdOffBlk' + 1;
        rc, diskdata' := BlockRead(first'[fdOffBlk'], diskdata');
        if rc == -1 { return; }
      }
      ok := true;
    }

    /** Reading does not move the descriptor's offset. */
    method FsRead(fildes: int, buf: array<byte>, nbyte: nat) returns (r: Outcome)
      requires Valid() && nbyte <= buf.Length && nbyte < 0x8000_0000
      modifies buf
      ensures !OpenFd(fildes) ==> r == BadDescriptor(fildes) && buf[..] == old(buf[..])
      ensures OpenFd(fildes) ==>
        var i, offset := fds[fildes].inodeNum, fds[fildes].offset;
        var n := ReadCount(table[i].size, offset, nbyte);
        if offset < LEVEL_BYTES && (offset + n) / BLOCK_SIZE < Blocks(i) then
          r == Returned(n) && offset + n <= |Bytes(i)|
          && buf[..] == Bytes(i)[offset..offset + n] + old(buf[n..])
        else
          r == if offset >= 4194304 && offset / 4194304 < (Blocks(i) + 1023) / 1024 then Undefined else Returned(-1)
    {
      hide Owned, SizesOK, DirOK, FirstOn, SecondOn, BytesOf, BlockTable;
      DirRange(dir, fds);
      if fildes < 0 || fildes > MAX_FDS { return Returned(-1); }
      if fildes == MAX_FDS { return Undefined; }
      if !fds[fildes].used { return Returned(-1); }
      OpenRange(dir, fds, fildes);
      var offset := fds[fildes].offset;
      var fdOffBlk := offset / BLOCK_SIZE;
      var offInblk := offset % BLOCK_SIZE;
      var inode := fds[fildes].inodeNum;
      FileRange(Vol(), shape, inode);
      var secondIndex := TruncDiv(offset, LEVEL_BYTES);
      var second, first, diskdata;
      r, second, first, diskdata := LoadChain(inode, secondIndex, fdOffBlk);
      if r != Returned(0) { return; }
      var toRead := ReadCount(table[inode].size, offset, nbyte);
      var ok := CopyOut(inode, buf, toRead, offset, second, secondIndex, first, fdOffBlk, offInblk, diskdata);
      return if ok then Returned(toRead) else Returned(-1);
    }

    /** The byte loop of `fs_read`. */
    method CopyOut(inode: int, buf: array<byte>, toRead: nat, offset: nat, second: seq<int>, secondIndex0: int,
                   first0: seq<int>, fdOffBlk0: int, offInblk0: int, diskdata0: Block)
      returns (ok: bool)
      requires active && Owned(Vol(), shape) && UsedFile(Vol(), inode)
      requires Sized(Vol()) && |shape.files| == MAX_FILES
      requires toRead <= buf.Length && offset < LEVEL_BYTES && toRead < 0x8000_0000
      requires 0 <= secondIndex0 && 0 <= fdOffBlk0 < FAN_OUT && 0 <= offInblk0 < BLOCK_SIZE
      requires (secondIndex0 * FAN_OUT + fdOffBlk0) * BLOCK_SIZE + offInblk0 == offset
      requires secondIndex0 * FAN_OUT + fdOffBlk0 < |shape.files[inode].data|
      requires SecondOn(second, shape.files[inode])
      requires IsTable(first0) && FirstOn(first0, shape.files[inode], secondIndex0)
      requires InData(shape.files[inode].data[secondIndex0 * FAN_OUT + fdOffBlk0])
      requires diskdata0 == disk[shape.files[inode].data[secondIndex0 * FAN_OUT + fdOffBlk0]]
      modifies buf
      ensures ok == ((offset + toRead) / BLOCK_SIZE < |shape.files[inode].data|)
      ensures ok ==>
        var bytes := BytesOf(Vol(), shape, inode);
        offset + toRead <= |bytes| && buf[..] == bytes[offset..offset + toRead] + old(buf[toRead..])
    {
      hide Owned, FirstOn, SecondOn, BytesOf, BlockTable;
      var secondIndex, first, fdOffBlk, offInblk, diskdata := secondIndex0, first0, fdOffBlk0, offInblk0, diskdata0;
      ghost var l := shape.files[inode];
      ghost var bytes := BytesOf(Vol(), shape, inode);
      BytesAt(Vol(), shape, inode, offset);
      for ii := 0 to toRead
        invariant 0 <= secondIndex && 0 <= fdOffBlk < FAN_OUT && 0 <= offInblk < BLOCK_SIZE
        invariant (secondIndex * FAN_OUT + fdOffBlk) * BLOCK_SIZE + offInblk == offset + ii
        invariant secondIndex * FAN_OUT + fdOffBlk < |l.data|
        invariant IsTable(first) && FirstOn(first, l, secondIndex)
        invariant InData(l.data[secondIndex * FAN_OUT + fdOffBlk])
        invariant diskdata == disk[l.data[secondIndex * FAN_OUT + fdOffBlk]]
        invariant forall k :: 0 <= k < ii ==> buf[k] == bytes[offset + k]
        invariant forall k :: ii <= k < buf.Length ==> buf[k] == old(buf[k])
      {
        BytesAt(Vol(), shape, inode, offset + ii);
        buf[ii] := diskdata[offInblk];
        offInblk := offInblk + 1;
        if offInblk == BLOCK_SIZE {
          ok, secondIndex, first, fdOffBlk, diskdata := NextRead(inode, second, secondIndex, first, fdOffBlk, diskdata);
          if !ok { return; }
          offInblk := 0;
        }
      }
      ok := true;
    }

    // ---- Writing

    /** Stores a full block and moves to the next one of the same first-level
        block, taking a free block if there is none. */
    method AdvanceBlock(ghost job: Job, ghost count: nat, ghost f: int, inode: int,
                        second: seq<int>, secondIndex: int, first: seq<int>, fdOffBlk: int, diskdata: Block)
      returns (ok: bool, first': seq<int>, diskdata': Block)
      requires active && super.dataOffset == DATA_OFFSET && Sized(Vol())
      requires IsTable(first) && IsTable(second) && 0 <= fdOffBlk < FAN_OUT - 1 && 0 <= secondIndex < FAN_OUT
      requires secondIndex == 0 ==>
        && Pending(job, Vol(), shape, count, fdOffBlk, diskdata) && inode == job.file
        && job.pos + count == fdOffBlk * BLOCK_SIZE + BLOCK_SIZE
        && FirstOn(first, shape.files[inode], 0) && second == JobSecond(job)
      requires secondIndex > 0 ==> Torn(Vol(), inode, f, second, first, secondIndex)
      modifies this`disk, this`bitmap, this`shape
      ensures IsTable(first') && Sized(Vol()) && |shape.files| == old(|shape.files|)
      ensures secondIndex == 0 && ok ==>
        && Pending(job, Vol(), shape, count, fdOffBlk + 1, diskdata')
        && FirstOn(first', shape.files[inode], 0)
      ensures secondIndex == 0 && !ok ==>
        && JobOK(job)
        && |FreeBlocks(job.v0.bitmap)| + |job.s0.files[inode].data| <= fdOffBlk + 1
      ensures secondIndex > 0 && ok ==> Torn(Vol(), inode, f, second, first', secondIndex)
    {
      hide Owned, Kept, Settled, BlockHolds, Pending, Torn, FirstOn, JobSecond, WellShaped, InRange;
      first', diskdata' := first, diskdata;
      ghost var v, s := Vol(), shape;
      if secondIndex == 0 {
        PendingFacts(job, v, s, count, fdOffBlk, diskdata, first);
        StoreBlock(job, v, s, count, fdOffBlk, diskdata);
      } else {
        TornFacts(v, inode, f, second, first, secondIndex, fdOffBlk);
        TornFacts(v, inode, f, second, first, secondIndex, fdOffBlk + 1);
        if 0 <= first[fdOffBlk] < DISK_BLOCKS {
          TornStore(v, inode, f, second, first, secondIndex, first[fdOffBlk], diskdata);
        }
      }
      var rc := BlockWrite(first[fdOffBlk], diskdata);
      if rc == -1 { return false, first', diskdata'; }
      ghost var v1 := Vol();
      if first[fdOffBlk + 1] == -1 {
        ok, first', diskdata' := AddBlock(job, v, count, inode, second, secondIndex, first, fdOffBlk, diskdata);
      } else {
        if secondIndex == 0 { NextBlock(job, v, s, count, fdOffBlk, diskdata); }
        rc, diskdata' := BlockRead(first[fdOffBlk + 1], diskdata');
        ok := rc != -1;
      }
    }

    /** Takes a free block for entry `fdOffBlk + 1`, the current one being stored. */
    method AddBlock(ghost job: Job, ghost v: Volume, ghost count: nat, inode: int,
                    second: seq<int>, secondIndex: int, first: seq<int>, fdOffBlk: int, diskdata: Block)
      returns (ok: bool, first': seq<int>, diskdata': Block)
      requires active && super.dataOffset == DATA_OFFSET
      requires IsTable(first) && IsTable(second) && 0 <= fdOffBlk < FAN_OUT - 1 && secondIndex == 0
      requires Pending(job, v, shape, count, fdOffBlk, diskdata) && inode == job.file
      requires Owned(v, shape) && UsedFile(v, inode) && Vol() == Stored(job, v, shape, fdOffBlk, diskdata)
      requires job.pos + count == fdOffBlk * BLOCK_SIZE + BLOCK_SIZE
      requires FirstOn(first, shape.files[inode], 0) && second == JobSecond(job)
      requires first[fdOffBlk + 1] == -1
      modifies this`disk, this`bitmap, this`shape
      ensures IsTable(first') && Sized(Vol()) && |shape.files| == old(|shape.files|)
      ensures ok ==>
        && Pending(job, Vol(), shape, count, fdOffBlk + 1, diskdata')
        && FirstOn(first', shape.files[inode], 0)
      ensures !ok ==>
        && JobOK(job)
        && |FreeBlocks(job.v0.bitmap)| + |job.s0.files[inode].data| <= fdOffBlk + 1
    {
      hide NextFree, Marked;
      hide Owned, Kept, Settled, BlockHolds, Pending, FirstOn, JobSecond, WellShaped, InRange;
      ghost var s := shape;
      PendingFacts(job, v, s, count, fdOffBlk, diskdata, first);
      ghost var v1 := Vol();
      diskdata' := diskdata;
      var e := FindEmpty();
      if e < DISK_BLOCKS {
        NewBlock(job, v, s, count, fdOffBlk, diskdata, e, first);
        shape := Grown(s, inode, e);
      }
      first' := first[fdOffBlk + 1 := e];
      var rc := BlockWrite(second[secondIndex], TableBlock(first'));
      if rc == -1 { return false, first', diskdata'; }
      assert e < DISK_BLOCKS ==> Vol() == GrownVolume(v1, s, inode, e, first);
      rc, diskdata' := BlockRead(first'[fdOffBlk + 1], diskdata');
      ok := rc != -1;
    }

    /** Stores the last block of a first-level block and starts a new one, whose
        other entries keep what the free block held. */
    method CrossLevel(ghost job: Job, ghost count: nat, ghost f: int, inode: int,
                      second: seq<int>, secondIndex: int, first: seq<int>, diskdata: Block)
      returns (ok: bool, second': seq<int>, first': seq<int>, diskdata': Block, ghost f': int)
      requires active && super.dataOffset == DATA_OFFSET && Sized(Vol())
      requires IsTable(first) && IsTable(second) && 0 <= secondIndex < FAN_OUT - 1
      requires secondIndex == 0 ==>
        && Pending(job, Vol(), shape, count, FAN_OUT - 1, diskdata) && inode == job.file
        && FirstOn(first, shape.files[inode], 0) && second == JobSecond(job)
      requires secondIndex > 0 ==> Torn(Vol(), inode, f, second, first, secondIndex)
      modifies this`disk, this`bitmap
      ensures IsTable(first') && IsTable(second') && Sized(Vol())
      ensures ok ==> Torn(Vol(), inode, f', second', first', secondIndex + 1)
    {
      hide Owned, Kept, Settled, BlockHolds, Pending, Torn, FirstOn, JobSecond, WellShaped, InRange;
      second', first', diskdata', f' := second, first, diskdata, f;
      ghost var s := shape;
      if secondIndex == 0 {
        PendingFacts(job, Vol(), s, count, FAN_OUT - 1, diskdata, first);
        StoreBlock(job, Vol(), s, count, FAN_OUT - 1, diskdata);
        KeptFacts(job, Stored(job, Vol(), s, FAN_OUT - 1, diskdata), s);
      } else {
        TornFacts(Vol(), inode, f, second, first, secondIndex, FAN_OUT - 1);
        if 0 <= first[FAN_OUT - 1] < DISK_BLOCKS {
          TornStore(Vol(), inode, f, second, first, secondIndex, first[FAN_OUT - 1], diskdata);
        }
      }
      var rc := BlockWrite(first[FAN_OUT - 1], diskdata);
      if secondIndex == 0 {
        RewriteFirst(Vol(), s, inode, first);
      } else if 0 <= second[secondIndex] < DISK_BLOCKS {
        TornRewrite(Vol(), inode, f, second, first, secondIndex);
      }
      rc := BlockWrite(second[secondIndex], TableBlock(first));
      if rc == -1 { return false, second, first, diskdata, f; }
      ok, second', first', diskdata', f' := StartLevel(f, inode, second, secondIndex, first, diskdata);
    }

    /** Takes a free block for index `secondIndex + 1` of the second-level block
        and a free data block for its entry 0. */
    method StartLevel(ghost f: int, inode: int, second: seq<int>, secondIndex: int, first: seq<int>, diskdata: Block)
      returns (ok: bool, second': seq<int>, first': seq<int>, diskdata': Block, ghost f': int)
      requires active && super.dataOffset == DATA_OFFSET && Sized(Vol())
      requires IsTable(first) && IsTable(second) && 0 <= secondIndex < FAN_OUT - 1
      requires secondIndex == 0 ==>
        && Owned(Vol(), shape) && UsedFile(Vol(), inode) && InData(table[inode].twoOffset)
        && BlockTable(disk[table[inode].twoOffset]) == second
      requires secondIndex > 0 ==> Torn(Vol(), inode, f, second, first, secondIndex)
      modifies this`disk, this`bitmap
      ensures IsTable(first') && IsTable(second') && Sized(Vol())
      ensures ok ==> Torn(Vol(), inode, f', second', first', secondIndex + 1)
    {
      hide NextFree, Marked;
      hide Owned, Torn, FreeBlocks;
      second', first', diskdata', f' := second, first, diskdata, f;
      if secondIndex > 0 {
        TornFacts(Vol(), inode, f, second, first, secondIndex, 0);
      }
      ghost var v := Vol();
      var e := FindEmpty();
      second' := second'[secondIndex + 1 := e];
      var rc := BlockWrite(table[inode].twoOffset, TableBlock(second'));
      if rc == -1 { return false, second', first', diskdata', f'; }
      rc, diskdata' := BlockRead(second'[secondIndex + 1], TableBlock(first));
      if rc == -1 { return false, second', first', diskdata', f'; }
      LevelFree(v, shape, inode, f, second, first, secondIndex, e);
      first' := BlockTable(diskdata');
      diskdata' := diskdata;
      var d := FindEmpty();
      first' := first'[0 := d];
      rc := BlockWrite(second'[secondIndex + 1], TableBlock(first'));
      assert Vol() == NewLevel(v, table[inode].twoOffset, second, BlockTable(ZERO_BLOCK), secondIndex + 1, e, d);
      f' := if secondIndex == 0 then e else f;
      LevelStarts(v, shape, inode, f, second, first, secondIndex, e, d);
      rc, diskdata' := BlockRead(first'[0], diskdata');
      return true, second', first', diskdata', f';
    }

    /** The byte loop of `fs_write` and the store of its last block. */
    method CopyIn(ghost job: Job, inode: int, buf: seq<byte>, second0: seq<int>, first0: seq<int>,
                  fdOffBlk0: int, offInblk0: int, diskdata0: Block)
      returns (ok: bool, bytesCpied: int)
      requires active && super.dataOffset == DATA_OFFSET
      requires inode == job.file && buf == job.buf && Vol() == job.v0 && shape == job.s0 && |buf| < 0x8000_0000
      requires Pending(job, Vol(), shape, 0, fdOffBlk0, diskdata0)
      requires job.pos == fdOffBlk0 * BLOCK_SIZE + offInblk0 && 0 <= offInblk0 < BLOCK_SIZE
      requires IsTable(first0) && FirstOn(first0, shape.files[inode], 0) && second0 == JobSecond(job)
      modifies this`disk, this`bitmap, this`shape
      ensures ok ==> bytesCpied == |buf|
      ensures Sized(Vol())
      ensures LevelFits(job) ==> ok && Wrote(job, Vol(), shape)
      ensures !LevelFits(job) && ok ==> job.pos + |buf| >= LEVEL_BYTES && forall s :: !Owned(Vol(), s)
    {
      hide Owned, Kept, Settled, BlockHolds, Pending, Torn, FirstOn, JobSecond, WellShaped, InRange, Wrote, TableBlock;
      bytesCpied := 0;
      var second, first, fdOffBlk, offInblk, diskdata := second0, first0, fdOffBlk0, offInblk0, diskdata0;
      var secondIndex := 0;
      ghost var f := 0;   // the second first-level block, once there is one
      PendingFacts(job, Vol(), shape, 0, fdOffBlk, diskdata, first);
      for ii := 0 to |buf|
        invariant bytesCpied == ii
        invariant Sized(Vol()) && UsedFile(Vol(), inode) && |shape.files| == MAX_FILES
        invariant IsTable(first) && IsTable(second)
        invariant 0 <= fdOffBlk < FAN_OUT && 0 <= offInblk < BLOCK_SIZE
        invariant 0 <= secondIndex && secondIndex * LEVEL_BYTES <= job.pos + ii
        invariant secondIndex == 0 ==>
          && Pending(job, Vol(), shape, ii, fdOffBlk, diskdata)
          && job.pos + ii == fdOffBlk * BLOCK_SIZE + offInblk
          && FirstOn(first, shape.files[inode], 0)
          && second == JobSecond(job)
        invariant secondIndex > 0 ==>
          Torn(Vol(), inode, f, second, first, secondIndex)
          && secondIndex * LEVEL_BYTES + fdOffBlk * BLOCK_SIZE + offInblk == job.pos + ii
      {
        if secondIndex == 0 { PutByte(job, Vol(), shape, ii, fdOffBlk, diskdata); }
        diskdata := diskdata[offInblk := buf[ii]];
        offInblk := offInblk + 1;
        if fdOffBlk == FAN_OUT - 1 && offInblk == BLOCK_SIZE {
          ok, second, first, diskdata, f := CrossLevel(job, ii + 1, f, inode, second, secondIndex, first, diskdata);
          if !ok { return; }
          secondIndex := secondIndex + 1;
          fdOffBlk := 0;
          offInblk := 0;
        }
        if offInblk == BLOCK_SIZE {
          ok, first, diskdata := AdvanceBlock(job, ii + 1, f, inode, second, secondIndex, first, fdOffBlk, diskdata);
          if !ok { return; }
          fdOffBlk := fdOffBlk + 1;
          offInblk := 0;
        }
        bytesCpied := bytesCpied + 1;
      }
      if secondIndex == 0 { PendingFacts(job, Vol(), shape, |buf|, fdOffBlk, diskdata, first); }
      ok := StoreLast(job, f, inode, second, secondIndex, first, fdOffBlk, diskdata);
    }

    /** Stores the block a write ended in. */
    method StoreLast(ghost job: Job, ghost f: int, inode: int, ghost second: seq<int>, ghost secondIndex: int,
                     first: seq<int>, fdOffBlk: int, diskdata: Block)
      returns (ok: bool)
      requires active && Sized(Vol()) && |shape.files| == MAX_FILES && 0 <= inode < MAX_FILES
      requires IsTable(first) && IsTable(second) && 0 <= fdOffBlk < FAN_OUT
      requires secondIndex == 0 ==>
        && Pending(job, Vol(), shape, |job.buf|, fdOffBlk, diskdata) && inode == job.file
        && job.pos + |job.buf| < fdOffBlk * BLOCK_SIZE + BLOCK_SIZE
        && FirstOn(first, shape.files[inode], 0)
      requires secondIndex != 0 ==> Torn(Vol(), inode, f, second, first, secondIndex)
      modifies this`disk
      ensures Sized(Vol())
      ensures secondIndex == 0 ==> ok && JobOK(job) && Wrote(job, Vol(), shape)
      ensures secondIndex != 0 && ok ==> forall s :: !Owned(Vol(), s)
    {
      hide Owned, Kept, Settled, BlockHolds, Pending, Torn, FirstOn, JobSecond, WellShaped, InRange, Wrote;
      if secondIndex == 0 {
        PendingFacts(job, Vol(), shape, |job.buf|, fdOffBlk, diskdata, first);
        WroteIt(job, Vol(), shape, fdOffBlk, diskdata);
      } else {
        TornFacts(Vol(), inode, f, second, first, secondIndex, fdOffBlk);
        if 0 <= first[fdOffBlk] < DISK_BLOCKS {
          TornStore(Vol(), inode, f, second, first, secondIndex, first[fdOffBlk], diskdata);
          ghost var v' := Vol().(disk := disk[first[fdOffBlk] := diskdata]);
          forall s ensures !Owned(v', s) {
            TornNotOwned(v', inode, f, second, first, secondIndex, s);
          }
        }
      }
      var rc := BlockWrite(first[fdOffBlk], diskdata);
      ok := rc != -1;
    }

    method FsWrite(fildes: int, buf: seq<byte>) returns (r: Outcome)
      requires Valid() && |buf| < 0x8000_0000
      modifies this
      ensures dir == old(dir) && super == old(super) && active == old(active) && mounted == old(mounted)
      ensures !old(OpenFd(fildes)) ==> r == BadDescriptor(fildes) && unchanged(this)
      // the call succeeds and leaves the volume consistent exactly when the write fits
      ensures old(OpenFd(fildes)) ==>
        ((r == Returned(|buf|) && Consistent()) <==> old(Fits(fildes, |buf|)))
      ensures old(OpenFd(fildes) && Fits(fildes, |buf|)) ==>
        var i, offset := old(fds[fildes].inodeNum), old(fds[fildes].offset);
        && Valid()
        && WriteEffect(old(Vol()), old(shape), Vol(), shape, i, offset, buf)
        && fds == old(fds)[fildes := old(fds)[fildes].(offset := offset + |buf|)]
      // the size is raised before anything can fail; a write that does not fit fails below 4 MiB
      ensures old(OpenFd(fildes)) ==>
        var i, offset := old(fds[fildes].inodeNum), old(fds[fildes].offset);
        table == RaisedSize(old(table), i, offset + |buf|)
      ensures old(OpenFd(fildes) && !Fits(fildes, |buf|)) ==>
        var i, offset := old(fds[fildes].inodeNum), old(fds[fildes].offset);
        var start := if offset > 0 && offset % 1024 == 0 then (offset / 4096 + 1) * 4096 else offset;
        && (start + |buf| < 4194304 ==> r == Returned(-1))
        && (start / 4096 >= old(Blocks(i)) || start >= 4194304 ==>
              && disk == old(disk) && bitmap == old(bitmap) && fds == old(fds)
              && r == if start >= 4194304 && (offset - 1) / 4194304 < (old(Blocks(i)) + 1023) / 1024 then Undefined
                      else Returned(-1))
        && (start / 4096 < old(Blocks(i)) && start < 4194304 ==>
              r == Returned(|buf|) || (r == Returned(-1) && fds == old(fds)))
    {
      hide Owned, SizesOK, DirOK, WriteEffect, FreeBlocks;
      if fildes < 0 || fildes > MAX_FDS { return Returned(-1); }
      if fildes == MAX_FDS { return Undefined; }
      DirRange(dir, fds);
      if !fds[fildes].used { return Returned(-1); }
      OpenRange(dir, fds, fildes);
      var nbyte := |buf|;
      var fdOffBlk := fds[fildes].offset / BLOCK_SIZE;
      var offInblk := fds[fildes].offset % BLOCK_SIZE;
      if fds[fildes].offset % 1024 == 0 && fds[fildes].offset > 0 {
        offInblk := 0;
        fdOffBlk := fdOffBlk + 1;
      }
      var inode := fds[fildes].inodeNum;
      ghost var v, s := Vol(), shape;
      FileRange(v, shape, inode);
      if fds[fildes].offset + nbyte > table[inode].size {
        table := table[inode := table[inode].(size := ToInt32(fds[fildes].offset + nbyte))];
      }
      r := WriteFrom(v, inode, fds[fildes].offset, fdOffBlk, offInblk, buf);
      if r == Returned(nbyte) {
        fds := fds[fildes := fds[fildes].(offset := fds[fildes].offset + nbyte)];
        if old(Fits(fildes, |buf|)) {
          MoveOffset(dir, old(fds), fildes, old(fds[fildes].offset) + nbyte);
          assert ValidWith(shape);
        }
      }
    }

    /** The inode's size covers `end`, as an `int`. */
    ghost function RaisedSize(t: seq<Inode>, i: int, end: nat): (t': seq<Inode>)
      requires 0 <= i < |t| && end < 0x1_0000_0000
      ensures |t'| == |t| && forall k :: 0 <= k < |t| ==>
        && t'[k].twoOffset == t[k].twoOffset
        && t'[k].size == if k != i || end <= t[k].size then t[k].size
                         else if end < 0x8000_0000 then end else end - 0x1_0000_0000
    {
      if end > t[i].size then t[i := t[i].(size := ToInt32(end))] else t
    }

    ghost predicate Fits(fildes: int, n: nat)
      requires Valid() && OpenFd(fildes)
      reads this
    {
      WriteFits(Blocks(fds[fildes].inodeNum), FreeCount(), fds[fildes].offset, n)
    }

    /** `fs_write` once the inode's size has been raised; `v` is the volume before that. */
    method WriteFrom(ghost v: Volume, inode: int, offset: int, fdOffBlk: int, offInblk: int, buf: seq<byte>)
      returns (r: Outcome)
      requires active && super.dataOffset == DATA_OFFSET && |buf| < 0x8000_0000
      requires Owned(v, shape) && SizesOK(v, shape) && UsedFile(v, inode) && 0 <= offset < 0x8000_0000
      requires |table| == MAX_FILES
      requires Vol() == v.(table := v.table[inode := v.table[inode].(size := table[inode].size)])
      requires offset + |buf| < 0x8000_0000 ==> table[inode].size == Max(v.table[inode].size, offset + |buf|)
      requires WritePos(offset) == fdOffBlk * BLOCK_SIZE + offInblk && 0 <= offInblk < BLOCK_SIZE
      modifies this`disk, this`bitmap, this`shape
      ensures Sized(Vol())
      ensures r.Returned? ==> r.value == -1 || r.value == |buf|
      ensures var fits := WriteFits(|old(shape).files[inode].data|, |FreeBlocks(v.bitmap)|, offset, |buf|);
        if fits then
          && r == Returned(|buf|)
          && WriteEffect(v, old(shape), Vol(), shape, inode, offset, buf)
          && Owned(Vol(), shape) && SizesOK(Vol(), shape)
        else
          r == Returned(|buf|) ==> forall s :: !Owned(Vol(), s)
      ensures !WriteFits(|old(shape).files[inode].data|, |FreeBlocks(v.bitmap)|, offset, |buf|) ==>
        && (WritePos(offset) + |buf| < LEVEL_BYTES ==> r == Returned(-1))
        && (r.Returned? || WritePos(offset) >= LEVEL_BYTES)
        && (WritePos(offset) / BLOCK_SIZE >= |old(shape).files[inode].data| || WritePos(offset) >= LEVEL_BYTES ==>
              && disk == old(disk) && bitmap == old(bitmap)
              && r == if WritePos(offset) >= 4194304
                         && (offset - 1) / 4194304 < (|old(shape).files[inode].data| + 1023) / 1024
                      then Undefined else Returned(-1))
    {
      hide Owned, SizesOK, Wrote, WriteEffect, Pending, FirstOn, JobSecond;
      FileRange(v, shape, inode);
      Resized(v, shape, inode, table[inode].size);
      ghost var job := Job(Vol(), shape, inode, WritePos(offset), buf);
      var secondIndex := TruncDiv(offset - 1, LEVEL_BYTES);
      var second, first, diskdata;
      r, second, first, diskdata := LoadChain(inode, secondIndex, fdOffBlk);
      if r != Returned(0) { return; }
      assert secondIndex == 0;
      StartPending(job, diskdata);
      JobSecondIs(job);
      var ok, bytesCpied := CopyIn(job, inode, buf, second, first, fdOffBlk, offInblk, diskdata);
      if !ok { return Returned(-1); }
      if LevelFits(job) { WriteDone(v, job, Vol(), shape, offset); }
      return Returned(bytesCpied);
    }

    // ---- Creating and deleting

    /** Creation succeeds and leaves the volume consistent exactly when the name is
        not empty, three blocks are free, and the inode of the slot does not carry
        the size of an earlier file of a block or more. */
    method FsCreate(name: seq<byte>) returns (r: int)
      requires Valid() && active && 0 !in name
      modifies this
      ensures super == old(super) && active == old(active) && mounted == old(mounted) && fds == old(fds)
      ensures |name| > 15 ==> r == -1 && unchanged(this)
      ensures !old(Creatable(dir, name)) ==> r == -1 && unchanged(this)
      ensures old(Creatable(dir, name)) ==>
        && ((r == 0 && Consistent())
            <==> name != [] && old(FreeCount()) >= 3
                 && old(FreeSlot(dir) < MAX_FILES && table[FreeSlot(dir)].size < BLOCK_SIZE))
        && (r == 0 <==> old(FreeCount()) >= 2)
      ensures old(Creatable(dir, name)) ==>
        && old(FreeSlot(dir)) < MAX_FILES
        && Vol() == CreateVolume(old(Vol()), old(FreeSlot(dir)), name)
        && (old(FreeCount()) >= 3 ==> CreateEffect(old(Vol()), old(shape), Vol(), shape, old(FreeSlot(dir)), name))
        && (r == 0 && Consistent() ==> Valid())
    {
      hide Owned, SizesOK, DirOK, CreateEffect;
      DirRange(dir, fds);
      SizedOwned(Vol(), shape);
      if |name| > MAX_NAME { return -1; }
      var cnt := 0;
      for ii := 0 to MAX_FILES
        invariant 0 <= cnt <= ii
        invariant forall k :: 0 <= k < ii && dir[k].used ==> dir[k].name != name
        invariant cnt == ii <==> forall k :: 0 <= k < ii ==> dir[k].used
      {
        if dir[ii].used {
          if dir[ii].name == name { return -1; }
          cnt := cnt + 1;
        }
      }
      if cnt == MAX_FILES { return -1; }
      r := CreateFile(name);
    }

    /** `fs_create` once the name has been accepted. */
    method CreateFile(name: seq<byte>) returns (r: int)
      requires Valid() && active && 0 !in name && Creatable(dir, name)
      modifies this`disk, this`bitmap, this`table, this`dir, this`shape
      ensures old(FreeSlot(dir) < MAX_FILES)
      ensures (r == 0 && Consistent())
        <==> name != [] && old(FreeCount()) >= 3 && old(table[FreeSlot(dir)].size < BLOCK_SIZE)
      ensures r == if old(FreeCount()) >= 2 then 0 else -1
      ensures Vol() == CreateVolume(old(Vol()), old(FreeSlot(dir)), name)
      ensures old(FreeCount()) >= 3 ==>
        CreateEffect(old(Vol()), old(shape), Vol(), shape, old(FreeSlot(dir)), name)
      ensures r == 0 && Consistent() ==> Valid()
    {
      hide Owned, SizesOK, DirOK, CreateEffect, CreateVolume, NextFree, Marked, FreeBlocks;
      DirRange(dir, fds);
      SizedOwned(Vol(), shape);
      ghost var v, s, slot := Vol(), shape, 0;
      ghost var unused :| 0 <= unused < MAX_FILES && !dir[unused].used;
      var offset := FindEmpty();
      var ii := 0;
      while ii < MAX_FILES
        invariant 0 <= ii <= unused && unchanged(this`table) && unchanged(this`dir)
        invariant forall k :: 0 <= k < ii ==> dir[k].used
      {
        if !dir[ii].used {
          slot := ii;
          FreeSlotIs(dir, slot);
          table := table[ii := table[ii].(twoOffset := offset)];
          dir := dir[ii := dir[ii].(used := true, inodeNum := ii, name := name)];
          break;
        }
        ii := ii + 1;
      }
      assert old(FreeSlot(dir)) == slot;
      CreateTables(v, slot, name);
      var ok := FirstTables(v, slot, name, offset);
      r := if ok then 0 else -1;
      if |FreeBlocks(v.bitmap)| >= 3 {
        shape := CreateThree(v, s, slot, name);
        CreateSizes(v, s, Vol(), shape, slot, name);
        CreateOwns(v, s, Vol(), shape, slot, name);
        CreateDir(old(dir), fds, slot, name);
        if name != [] && table[slot].size < BLOCK_SIZE { assert ValidWith(shape); }
      } else {
        forall t ensures r == 0 ==> !Owned(Vol(), t) {
          if r == 0 { NotCreatedFew(v, slot, name, t); }
        }
      }
    }

    /** Writes the tables of the new file; `v` is the volume before its first block
        was taken. */
    method FirstTables(ghost v: Volume, ghost i: int, ghost name: seq<byte>, offset: int) returns (ok: bool)
      requires active && super.dataOffset == DATA_OFFSET && Sized(v) && 0 <= i < MAX_FILES
      requires offset == NextFree(v.bitmap, DATA_OFFSET)
      requires var w := CreateVolume(v, i, name); Vol() == Volume(v.disk, w.table, w.dir, Marked(v.bitmap, offset))
      modifies this`disk, this`bitmap
      ensures Vol() == CreateVolume(v, i, name)
      ensures ok <==> |FreeBlocks(v.bitmap)| >= 2
    {
      hide FreeBlocks, NextFree;
      NextCount(v.bitmap);
      NextCount(Marked(v.bitmap, offset));
      var dataBlocks, firstArr := NewTable(-1), NewTable(-1);
      var first := FindEmpty();
      firstArr := firstArr[0 := first];
      assert firstArr == NewTable(first);
      var rc := BlockWrite(offset, TableBlock(firstArr));
      if rc == -1 { return false; }
      var data := FindEmpty();
      dataBlocks := dataBlocks[0 := data];
      assert dataBlocks == NewTable(data);
      rc := BlockWrite(first, TableBlock(dataBlocks));
      ok := rc != -1;
    }

    /** A file that is open anywhere is not deleted. The lookup does not ask whether
        an entry is used: the empty name finds an unused one, and what its inode
        leads to is erased as far as that goes. */
    method FsDelete(name: seq<byte>) returns (r: Outcome)
      requires Valid() && active && 0 !in name
      modifies this`disk, this`bitmap, this`dir, this`shape
      ensures var i := old(Lookup(dir, name));
        if 0 <= i < MAX_FILES && old(dir)[i].refCnt <= 0 then (Vol(), r) == EraseFile(old(Vol()), i)
        else r == Returned(-1) && unchanged(this)
      ensures name != [] ==>
        var i := old(Lookup(dir, name));
        && r == Returned(if i < MAX_FILES && old(dir)[i].refCnt <= 0 then 0 else -1)
        && (r == Returned(0) ==>
              old(dir)[i].used && Valid() && DeleteEffect(old(Vol()), old(shape), Vol(), shape, i))
      // of the empty name the call is harmless exactly when an access fails before it does harm
      ensures name == [] ==>
        var i := old(Lookup(dir, name));
        (r == Returned(-1) && unchanged(this)) <==> NothingErased(old(Vol()))
    {
      hide Owned, SizesOK, DeleteEffect, OpenCount, EraseFile, ChainStops;
      DirRange(dir, fds);
      SizedOwned(Vol(), shape);
      var inode := 0;
      while inode < MAX_FILES
        invariant 0 <= inode < MAX_FILES && unchanged(this)
        invariant forall k :: 0 <= k < inode ==> dir[k].name != name
      {
        if dir[inode].name == name {
          LookupIs(dir, name, inode);
          OpenSlot(dir, fds, inode);
          if dir[inode].refCnt > 0 { return Returned(-1); }
          break;
        } else if inode == MAX_FILES - 1 {
          LookupIs(dir, name, MAX_FILES);
          return Returned(-1);
        }
        inode := inode + 1;
      }
      ghost var v, s := Vol(), shape;
      r := DeleteEntry(inode);
      EraseIff(v, inode);
      if name != [] {
        FileErased(v, s, inode);
        shape := Without(s, inode);
        DeletedDir(v, s, Vol(), inode);
        DeleteSizes(v, s, Vol(), shape, inode);
        DeleteDir(old(dir), fds, inode);
      }
    }

    /** `fs_delete` once the entry is found. */
    method DeleteEntry(inode: int) returns (r: Outcome)
      requires active && Sized(Vol()) && 0 <= inode < MAX_FILES
      modifies this`disk, this`bitmap, this`dir
      ensures (Vol(), r) == EraseFile(old(Vol()), inode)
    {
      hide EraseChain;
      r := ReleaseBlocks(inode);
      if r != Returned(0) { return; }
      var rc := BlockWrite(table[inode].twoOffset, ZERO_BLOCK);
      if rc == -1 { return Returned(-1); }
      dir := dir[inode := dir[inode].(inodeNum := -1, name := [], used := false)];
      bitmap := bitmap[table[inode].twoOffset := FREE];
    }

    /** The outer loop, which nothing ends at the last entry of the table. */
    method ReleaseBlocks(inode: int) returns (r: Outcome)
      requires active && Sized(Vol()) && 0 <= inode < MAX_FILES
      modifies this`disk, this`bitmap
      ensures var two := table[inode].twoOffset;
        if IsBlock(two) then (Vol(), r) == EraseChain(old(Vol()), BlockTable(old(disk)[two]), 0)
        else r == Returned(-1) && unchanged(this)
    {
      var rc, block := BlockRead(table[inode].twoOffset, ZERO_BLOCK);
      if rc == -1 { return Returned(-1); }
      var indirect := BlockTable(block);
      var index := 0;
      while index < FAN_OUT && indirect[index] != -1
        invariant 0 <= index <= FAN_OUT && Sized(Vol()) && dir == old(dir) && table == old(table)
        invariant EraseChain(Vol(), indirect, index) == EraseChain(old(Vol()), indirect, 0)
      {
        rc, block := BlockRead(indirect[index], ZERO_BLOCK);
        if rc == -1 { return Returned(-1); }
        var ok := ReleaseData(BlockTable(block));
        if !ok { return Returned(-1); }
        rc := BlockWrite(indirect[index], ZERO_BLOCK);
        if rc == -1 { return Returned(-1); }
        bitmap := bitmap[indirect[index] := FREE];
        index := index + 1;
      }
      r := if index == FAN_OUT then Undefined else Returned(0);
    }

    /** The inner loop: the data blocks of one first-level block. */
    method ReleaseData(dataBlocks: seq<int>) returns (ok: bool)
      requires active && Sized(Vol()) && |dataBlocks| == FAN_OUT
      modifies this`disk, this`bitmap
      ensures (Vol(), ok) == EraseEntries(old(Vol()), dataBlocks, 0)
    {
      var ii := 0;
      while dataBlocks[ii] != -1
        invariant 0 <= ii < FAN_OUT && Sized(Vol()) && dir == old(dir) && table == old(table)
        invariant EraseEntries(Vol(), dataBlocks, ii) == EraseEntries(old(Vol()), dataBlocks, 0)
        decreases FAN_OUT - ii
      {
        var rc := BlockWrite(dataBlocks[ii], ZERO_BLOCK);
        if rc == -1 { return false; }
        bitmap := bitmap[dataBlocks[ii] := FREE];
        if ii == 1023 { break; }
        ii := ii + 1;
      }
      ok := true;
    }

    // ---- Making, mounting and unmounting

    /** Leaves a zeroed disk with empty tables, closed again. The disk is zeroed even
        when it is open, and then that is all. */
    method MakeFs() returns (r: int)
      modifies this
      ensures r == if old(active) then -1 else 0
      ensures active == old(active) && mounted == old(mounted) && super == old(super) && shape == old(shape)
      ensures table == old(table) && dir == old(dir) && bitmap == old(bitmap) && fds == old(fds)
      ensures r == 0 ==> disk == Persisted(Blank())
      ensures r == -1 ==> |disk| == 12288 && forall b :: 0 <= b < 12288 ==> disk[b] == Zeros(4096)
    {
      hide EncodeSuper, EncodeDir, EncodeInodes, Padded, Slice, Persisted, Blank, EmptyDir, EmptyTable, FREE_BLOCK;
      BlankFacts();
      disk := seq(DISK_BLOCKS, _ => ZERO_BLOCK);
      if active { return -1; }
      active := true;
      var rc := BlockWrite(0, EncodeSuper(MADE_SUPER));
      if rc == -1 { return -1; }
      rc := BlockWrite(MADE_SUPER.dirOffset, Padded(EncodeDir(EmptyDir(MAX_FILES)), BLOCK_SIZE));
      if rc == -1 { return -1; }
      rc := BlockWrite(MADE_SUPER.inodeOffset, Padded(EncodeInodes(EmptyTable(MAX_FILES)), BLOCK_SIZE));
      if rc == -1 { return -1; }
      ghost var disk0 := disk;
      for ii := 0 to MADE_SUPER.bitmapUsed
        modifies this`disk
        invariant |disk| == DISK_BLOCKS
        invariant forall b :: 3 <= b < 3 + ii ==> disk[b] == FREE_BLOCK
        invariant forall b :: 0 <= b < DISK_BLOCKS && (b < 3 || DATA_OFFSET <= b) ==> disk[b] == disk0[b]
      {
        rc := BlockWrite(MADE_SUPER.bitmapOffset + ii, FREE_BLOCK);
        if rc == -1 { return -1; }
      }
      active := false;
      PersistedIs(Blank(), disk);
      r := 0;
    }

    /** On any disk. The loop that closes the descriptors stops at the end of their
        table, the code's at twice that. */
    method MountFs() returns (r: Outcome)
      requires |disk| == |bitmap| == DISK_BLOCKS && |fds| == MAX_FDS
      modifies this
      ensures disk == old(disk) && shape == old(shape)
      ensures r == if old(mounted || active) then Returned(-1) else MountResult(DecodeSuper(disk[0]))
      ensures old(mounted || active) ==> unchanged(this)
      ensures r == Returned(0) ==>
        && mounted && active && super == DecodeSuper(disk[0]) && Vol() == LoadedBy(super, disk, old(bitmap))
        && |fds| == MAX_FDS && forall d :: 0 <= d < MAX_FDS ==> !fds[d].used
    {
      hide DecodeSuper, DecodeDir, DecodeInodes, BitmapBy;
      if mounted { return Returned(-1); }
      if active { return Returned(-1); }
      active := true;
      var rc, buffer := BlockRead(0, ZERO_BLOCK);
      if rc == -1 { return Returned(-1); }
      super := DecodeSuper(buffer);
      rc, buffer := BlockRead(super.dirOffset, buffer);
      if rc == -1 { return Returned(-1); }
      dir := DecodeDir(buffer[..ENTRY_BYTES * MAX_FILES]);
      rc, buffer := BlockRead(super.inodeOffset, buffer);
      if rc == -1 { return Returned(-1); }
      table := DecodeInodes(buffer[..8 * MAX_FILES]);
      r := LoadBitmap(buffer);
      if r != Returned(0) { return; }
      for ii := 0 to MAX_FDS
        modifies this`fds
        invariant |fds| == MAX_FDS && forall d :: 0 <= d < ii ==> !fds[d].used
      {
        fds := fds[ii := fds[ii].(used := false)];
      }
      mounted := true;
    }

    method LoadBitmap(buffer0: Block) returns (r: Outcome)
      requires active && |disk| == |bitmap| == DISK_BLOCKS && IsBlock(super.dirOffset) && IsBlock(super.inodeOffset)
      modifies this`bitmap
      ensures r == MountResult(super)
      ensures r == Returned(0) ==>
        bitmap == BitmapBy(super, disk, old(bitmap), if super.bitmapUsed > 0 then super.bitmapUsed else 0)
    {
      var buffer := buffer0;
      var rc;
      var ii := 0;
      while ii < super.bitmapUsed
        invariant 0 <= ii <= 3 && (ii <= super.bitmapUsed || ii == 0) && |bitmap| == DISK_BLOCKS
        invariant AreBlocks(super.bitmapOffset, ii)
        invariant bitmap == BitmapBy(super, disk, old(bitmap), ii)
      {
        rc, buffer := BlockRead(super.bitmapOffset + ii, buffer);
        if rc == -1 { return Returned(-1); }
        if ii == 3 { return Undefined; }
        bitmap := bitmap[..ii * BLOCK_SIZE] + buffer + bitmap[(ii + 1) * BLOCK_SIZE..];
        ii := ii + 1;
      }
      r := Returned(0);
    }

    /** Writes the tables back and closes the disk. */
    method UmountFs() returns (r: int)
      requires Valid() && (mounted ==> active)
      requires forall i :: 0 <= i < MAX_FILES ==> dir[i].refCnt < 0x8000_0000
      modifies this
      ensures r == if old(mounted) then 0 else -1
      ensures r == -1 ==> unchanged(this)
      ensures r == 0 ==>
        && FsPersist.Fits(old(Vol())) && disk == Persisted(old(Vol()))
        && dir == old(dir) && table == old(table) && bitmap == old(bitmap) && super == old(super) && shape == old(shape)
        && !mounted && !active && |fds| == MAX_FDS && forall d :: 0 <= d < MAX_FDS ==> !fds[d].used
    {
      hide Owned, OpenCount, SizesOK, DirOK, EncodeSuper, EncodeDir, EncodeInodes, Padded, Slice, Persisted;
      if !mounted { return -1; }
      DirRange(dir, fds);
      ghost var v := Vol();
      ValidFits(v, shape, fds);
      var rc := BlockWrite(0, EncodeSuper(super));
      if rc == -1 { return -1; }
      rc := BlockWrite(super.dirOffset, Padded(EncodeDir(dir), BLOCK_SIZE));
      if rc == -1 { return -1; }
      rc := BlockWrite(super.inodeOffset, Padded(EncodeInodes(table), BLOCK_SIZE));
      if rc == -1 { return -1; }
      ghost var disk0 := disk;
      for ii := 0 to super.bitmapUsed
        modifies this`disk
        invariant |disk| == DISK_BLOCKS
        invariant forall b :: 3 <= b < 3 + ii ==> disk[b] == Slice(bitmap, b - 3)
        invariant forall b :: 0 <= b < DISK_BLOCKS && (b < 3 || DATA_OFFSET <= b) ==> disk[b] == disk0[b]
      {
        rc := BlockWrite(super.bitmapOffset + ii, Slice(bitmap, ii));
        if rc == -1 { return -1; }
      }
      PersistedIs(v, disk);
      for ii := 0 to MAX_FDS
        modifies this`fds
        invariant |fds| == MAX_FDS && forall d :: 0 <= d < ii ==> !fds[d].used
      {
        fds := fds[ii := fds[ii].(used := false, inodeNum := -1)];
      }
      active := false;
      mounted := false;
      return 0;
    }

    /** Unmounting and mounting again gives back the same files with the same bytes. */
    method Remount() returns (r: int)
      requires Valid() && mounted && active
      requires forall i :: 0 <= i < MAX_FILES ==> dir[i].refCnt < 0x8000_0000
      modifies this
      ensures r == 0 && Valid() && mounted && active && shape == old(shape)
      ensures dir == old(dir) && table == old(table) && bitmap == old(bitmap)
      ensures forall d :: 0 <= d < MAX_FDS ==> !fds[d].used
      ensures forall i :: UsedFile(Vol(), i) ==> Bytes(i) == old(Bytes(i))
      ensures old(RefsExact(dir, fds)) ==>
        (RefsExact(dir, fds) <==> forall d :: 0 <= d < MAX_FDS ==> !old(fds)[d].used)
    {
      hide Owned, SizesOK, DirOK, BytesOf, FsPersist.Fits, Persisted, Loaded, OpenCount;
      ghost var v, s, fds0 := Vol(), shape, fds;
      DirRange(dir, fds);
      SizedOwned(v, s);
      r := UmountFs();
      DropDescriptors(v.dir, fds0, fds);
      LoadedPersisted(v);
      RemountKeepsFiles(v, s);
      LoadedByMade(disk, bitmap);
      var mount := MountFs();
      r := mount.value;
      DropDescriptors(v.dir, fds0, fds);
      SameSizes(v, Vol(), s);
    }

    /** A new file system can be mounted, and holds no file. */
    method MakeAndMount()
      requires !active && !mounted && |fds| == MAX_FDS && |bitmap| == DISK_BLOCKS
      modifies this
      ensures Valid() && mounted && active && RefsExact(dir, fds)
      ensures Vol() == FreshVolume() && shape == NoOwners() && AllFree(Vol())
      ensures |fds| == MAX_FDS && forall d :: 0 <= d < MAX_FDS ==> !fds[d].used
    {
      hide Owned, SizesOK, DirOK, RefsExact, Persisted, Loaded, Blank, FreshVolume, NoOwners, OpenCount, FreeBlocks;
      FreshIs();
      var made := MakeFs();
      LoadedByMade(disk, bitmap);
      var r := MountFs();
      shape := NoOwners();
      FreshFacts(fds);
    }

    // ---- Descriptors

    /** The first closed descriptor, or -1. */
    method FreeDescriptor() returns (fd: int)
      requires |fds| == MAX_FDS
      ensures fd == -1 <==> forall d :: 0 <= d < 32 ==> fds[d].used
      ensures fd != -1 ==> 0 <= fd < 32 && !fds[fd].used && forall d :: 0 <= d < fd ==> fds[d].used
    {
      fd := 0;
      while fd < MAX_FDS
        invariant 0 <= fd < MAX_FDS
        invariant forall d :: 0 <= d < fd ==> fds[d].used
      {
        if !fds[fd].used { break; }
        else if fd == MAX_FDS - 1 { return -1; }
        fd := fd + 1;
      }
    }

    /** The lookup does not ask whether an entry is used: the empty name opens an
        unused one, and that is the only way to break the directory. */
    method FsOpen(name: seq<byte>) returns (r: int)
      requires Valid() && active && 0 !in name
      modifies this`fds, this`dir
      ensures r == -1 <==> old(Lookup(dir, name)) == 64 || forall d :: 0 <= d < 32 ==> old(fds)[d].used
      ensures r == -1 ==> unchanged(this)
      ensures r != -1 ==>
        var i := old(Lookup(dir, name));
        && 0 <= r < 32 && 0 <= i < 64 && old(dir)[i].name == name
        && (forall d :: 0 <= d < r ==> old(fds)[d].used) && !old(fds)[r].used
        && fds == old(fds)[r := FileDescriptor(true, i, 0)]
        && dir == old(dir)[i := old(dir)[i].(refCnt := old(dir)[i].refCnt + 1)]
      ensures Consistent() <==> r == -1 || name != []
      ensures r == -1 || name != [] ==> Valid() && (old(RefsExact(dir, fds)) ==> RefsExact(dir, fds))
    {
      hide Owned, SizesOK, DirOK, OpenCount, RefsExact;
      ghost var v, s := Vol(), shape;
      SizedOwned(v, s);
      DirRange(dir, fds);
      assert ValidWith(shape);
      var fd := FreeDescriptor();
      if fd == -1 { return -1; }
      var ii := 0;
      while ii < MAX_FILES
        invariant 0 <= ii <= MAX_FILES && unchanged(this)
        invariant forall k :: 0 <= k < ii ==> dir[k].name != name
      {
        if dir[ii].name == name {
          LookupIs(dir, name, ii);
          OpenSlot(dir, fds, ii);
          OpenDir(dir, fds, fd, ii);
          fds := fds[fd := FileDescriptor(true, ii, 0)];
          dir := dir[fds[fd].inodeNum := dir[fds[fd].inodeNum].(refCnt := dir[fds[fd].inodeNum].refCnt + 1)];
          SameFiles(v, Vol(), s);
          assert DirOK(dir, fds) ==> ValidWith(shape);
          return fd;
        }
        ii := ii + 1;
      }
      LookupIs(dir, name, MAX_FILES);
      return -1;
    }

    /** The descriptor is used as an index before anything is checked. */
    method FsClose(fildes: int) returns (r: Outcome)
      requires Valid()
      modifies this`fds, this`dir
      ensures Valid() && (old(RefsExact(dir, fds)) ==> RefsExact(dir, fds))
      ensures r == if !(0 <= fildes < MAX_FDS) then Undefined else Returned(if old(fds[fildes].used) then 0 else -1)
      ensures r != Returned(0) ==> unchanged(this)
      ensures r == Returned(0) ==>
        var i := old(fds[fildes].inodeNum);
        && 0 <= i < MAX_FILES
        && fds == old(fds)[fildes := FileDescriptor(false, -1, 0)]
        && dir == old(dir)[i := old(dir)[i].(refCnt := old(dir)[i].refCnt - 1)]
    {
      hide Owned, SizesOK, OpenCount, RefsExact;
      if fildes < 0 || fildes >= MAX_FDS { return Undefined; }
      if !fds[fildes].used { return Returned(-1); }
      ghost var v, s := Vol(), shape;
      SizedOwned(v, s);
      CloseDir(dir, fds, fildes);
      var i := fds[fildes].inodeNum;
      dir := dir[i := dir[i].(refCnt := dir[i].refCnt - 1)];
      fds := fds[fildes := FileDescriptor(false, -1, 0)];
      SameFiles(v, Vol(), s);
      return Returned(0);
    }

    method FsGetFilesize(fildes: int) returns (r: Outcome)
      requires Valid()
      ensures r == if !(0 <= fildes < MAX_FDS) then Undefined
        else Returned(if fds[fildes].used then table[fds[fildes].inodeNum].size else -1)
    {
      hide OpenCount;
      if fildes < 0 || fildes >= MAX_FDS { return Undefined; }
      if !fds[fildes].used || fildes < 0 || fildes > MAX_FDS { return Returned(-1); }
      return Returned(table[fds[fildes].inodeNum].size);
    }

    /** An offset may be moved anywhere up to the end of the file. */
    method FsLseek(fildes: int, offset: int) returns (r: Outcome)
      requires Valid()
      modifies this`fds
      ensures Valid()
      ensures r == if offset < 0 then Returned(-1)
        else if !(0 <= fildes < MAX_FDS) then Undefined
        else Returned(if old(fds[fildes].used) && offset <= table[old(fds[fildes].inodeNum)].size then 0 else -1)
      ensures fds == if r == Returned(0) then old(fds)[fildes := old(fds)[fildes].(offset := offset)] else old(fds)
    {
      hide Owned, OpenCount;
      if offset < 0 { return Returned(-1); }
      var size := FsGetFilesize(fildes);
      if size == Undefined { return Undefined; }
      if offset > size.value || !fds[fildes].used || fildes < 0 || fildes > MAX_FDS { return Returned(-1); }
      MoveOffset(dir, fds, fildes, offset);
      fds := fds[fildes := fds[fildes].(offset := offset)];
      return Returned(0);
    }

    // ---- Truncating

    /** Clears entries `fdOffBlk` and later of the first first-level block and
        frees their blocks. */
    method CutEntries(inode: int, fdOffBlk: int) returns (ghost left: seq<int>)
      requires active && Owned(Vol(), shape) && UsedFile(Vol(), inode) && 1 <= fdOffBlk
      modifies this`disk, this`bitmap
      ensures fdOffBlk >= FAN_OUT ==> unchanged(this)
      ensures fdOffBlk < FAN_OUT ==> Truncating(old(Vol()), shape, Vol(), inode, fdOffBlk, FAN_OUT, left)
    {
      hide Owned, Truncating, Cut;
      ghost var v, s := Vol(), shape;
      var second, first;
      left := [];
      SizedOwned(v, s);
      FirstTableAt(v, s, inode);
      TruncateStart(v, s, inode, fdOffBlk);
      var rc, block := BlockRead(table[inode].twoOffset, ZERO_BLOCK);
      if rc == -1 { return; }
      second := BlockTable(block);
      rc, block := BlockRead(second[0], ZERO_BLOCK);
      if rc == -1 { return; }
      first := BlockTable(block);
      var ii := fdOffBlk;
      while ii < FAN_OUT
        invariant fdOffBlk <= ii && (ii <= FAN_OUT || ii == fdOffBlk)
        invariant ii == fdOffBlk ==> unchanged(this)
        invariant Sized(Vol()) && IsTable(first)
        invariant ii <= FAN_OUT ==> Truncating(v, s, Vol(), inode, fdOffBlk, ii, first)
      {
        first := CutEntry(v, inode, second[0], fdOffBlk, ii, first);
        ii := ii + 1;
      }
      left := first;
    }

    /** Clears one entry; `v` is the volume before the first of them. */
    method CutEntry(ghost v: Volume, inode: int, f: int, ghost fdOffBlk: int, ii: int, first: seq<int>)
      returns (first': seq<int>)
      requires active && Sized(Vol()) && 0 <= ii < FAN_OUT && IsTable(first)
      requires Truncating(v, shape, Vol(), inode, fdOffBlk, ii, first)
      requires |shape.files| == MAX_FILES && 0 <= inode < MAX_FILES
      requires |shape.files[inode].firsts| >= 1 && f == shape.files[inode].firsts[0] && 0 <= f < DISK_BLOCKS
      modifies this`disk, this`bitmap
      ensures Sized(Vol()) && IsTable(first')
      ensures Truncating(v, shape, Vol(), inode, fdOffBlk, ii + 1, first')
    {
      hide Owned, Truncating, Cut;
      first' := first;
      if first[ii] != -1 {
        TruncateCut(v, shape, Vol(), inode, fdOffBlk, ii, first);
        var rc := BlockWrite(first[ii], ZERO_BLOCK);
        bitmap := bitmap[first[ii] := FREE];
        first' := first[ii := -1];
        rc := BlockWrite(f, TableBlock(first'));
      } else {
        TruncateSkip(v, shape, Vol(), inode, fdOffBlk, ii, first);
      }
    }

    /** `fs_truncate` indexes the descriptor table before it checks the index. */
    method FsTruncate(fildes: int, length: int) returns (r: Outcome)
      requires Valid()
      modifies this`disk, this`bitmap, this`table, this`shape
      ensures !old(OpenFd(fildes) && 0 <= length <= table[fds[fildes].inodeNum].size) ==>
        r == (if length >= 0 && !(0 <= fildes < MAX_FDS) then Undefined else Returned(-1)) && unchanged(this)
      ensures old(OpenFd(fildes) && 0 <= length <= table[fds[fildes].inodeNum].size) ==>
        var i, offset := fds[fildes].inodeNum, fds[fildes].offset;
        && r == Returned(0) && table == old(table)[i := old(table)[i].(size := length)]
        && (Consistent() <==> TruncateFits(old(Blocks(i)), offset, length))
        && (Consistent() ==> Valid())
        && (offset / 4096 >= 1023 || old(Blocks(i)) <= 1024 ==>
              TruncateEffect(old(Vol()), old(shape), Vol(), shape, i, BlocksKept(old(Blocks(i)), offset), length))
      // only the first first-level block is cut, even if others follow it
      ensures old(OpenFd(fildes) && 0 <= length <= table[fds[fildes].inodeNum].size) ==>
        var i, offset := fds[fildes].inodeNum, fds[fildes].offset;
        offset / 4096 < 1023 ==> CutFrom(old(Vol()).(table := table), old(shape), Vol(), i, offset / 4096 + 1)
    {
      hide Owned, SizesOK, TruncateEffect, OpenCount, Truncating;
      if length < 0 { return Returned(-1); }
      var size := FsGetFilesize(fildes);
      if size == Undefined { return Undefined; }
      if length > size.value || !fds[fildes].used || fildes < 0 || fildes > MAX_FDS { return Returned(-1); }
      var inode, offset := fds[fildes].inodeNum, fds[fildes].offset;
      ghost var v, s := Vol(), shape;
      FileRange(v, s, inode);
      ghost var blocks := |s.files[inode].data|;
      SizeRange(v, s, inode);
      Resized(v, s, inode, length);
      table := table[inode := table[inode].(size := length)];
      ghost var v1 := Vol();
      assert v1 == v.(table := v.table[inode := v.table[inode].(size := length)]);
      ghost var first := CutEntries(inode, offset / BLOCK_SIZE + 1);
      r := Returned(0);
      if offset / BLOCK_SIZE >= FAN_OUT - 1 {
        TruncateNone(v, s, inode, length);
        TruncateSizes(v, s, Vol(), shape, inode, blocks, length);
        assert ValidWith(shape);
      } else {
        if blocks > FAN_OUT {
          forall t ensures !Owned(Vol(), t) {
            HoleNotOwned(v1, s, Vol(), inode, offset / BLOCK_SIZE + 1, first, t);
          }
        } else {
          ghost var keep := BlocksKept(blocks, offset);
          if keep == blocks { TruncateLower(v1, s, Vol(), inode, offset / BLOCK_SIZE + 1, first); }
          TruncateDone(v, v1, s, Vol(), inode, keep, first);
          shape := Shortened(s, inode, keep);
          TruncateSizes(v, s, Vol(), shape, inode, keep, length);
          if length / BLOCK_SIZE < keep { assert ValidWith(shape); }
        }
      }
    }
  }
}
