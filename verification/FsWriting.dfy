/** The state of a write between two bytes, before and after it leaves the
    first 4 MiB of the file. */
module FsWriting {
  import opened Bytes
  import opened FsBlocks
  import opened FsLayout

  /** A write in progress: the volume and shape it started from, the file, the
      byte position of its first byte, and the bytes to write. */
  datatype Job = Job(v0: Volume, s0: Shape, file: int, pos: nat, buf: seq<byte>)

  /** Byte `x` of a file whose bytes were `before`, once `count` bytes of `buf`
      have been laid over it at `pos`. New space reads as zero. */
  function OverlayByte(before: seq<byte>, pos: nat, buf: seq<byte>, count: nat, x: nat): byte
    requires count <= |buf|
  {
    if pos <= x < pos + count then buf[x - pos]
    else if x < |before| then before[x]
    else 0
  }

  function Overlay(before: seq<byte>, pos: nat, buf: seq<byte>, len: nat): (after: seq<byte>)
    ensures |after| == len
  {
    seq(len, x requires 0 <= x < len => OverlayByte(before, pos, buf, |buf|, x))
  }

  ghost predicate JobOK(job: Job) {
    && Owned(job.v0, job.s0)
    && UsedFile(job.v0, job.file)
  }

  ghost function Before(job: Job): seq<byte>
    requires JobOK(job)
  {
    BytesOf(job.v0, job.s0, job.file)
  }

  /** The file's second-level block, which the write should leave alone. */
  ghost function JobSecond(job: Job): (t: seq<int>)
    requires JobOK(job)
    ensures IsTable(t)
  {
    assert FileOwned(job.v0, job.s0, job.file);
    BlockTable(job.v0.disk[job.s0.files[job.file].second])
  }

  lemma JobSecondIs(job: Job)
    requires JobOK(job)
    ensures InData(job.s0.files[job.file].second)
    ensures JobSecond(job) == BlockTable(job.v0.disk[job.s0.files[job.file].second])
  {
  }

  /** Everything but the file's data blocks and its first first-level block is
      as before; the data blocks may only have grown. */
  ghost predicate Kept(job: Job, v: Volume, s: Shape)
    requires JobOK(job)
  {
    && Owned(v, s)
    && v.table == job.v0.table && v.dir == job.v0.dir
    && |s.files| == |job.s0.files|
    && var l0, l := job.s0.files[job.file], s.files[job.file];
    && l.second == l0.second && l.firsts == l0.firsts && l0.data <= l.data
    && (forall i :: 0 <= i < MAX_FILES && i != job.file ==> s.files[i] == job.s0.files[i])
    && (forall b :: b in job.s0.owner ==> b in s.owner && s.owner[b] == job.s0.owner[b])
    && (forall b :: b in job.s0.owner && (job.s0.owner[b].file != job.file || job.s0.owner[b].SecondR?) ==>
          InData(b) && v.disk[b] == job.v0.disk[b])
    && (forall b :: 0 <= b < DATA_OFFSET ==> v.disk[b] == job.v0.disk[b] && v.bitmap[b] == job.v0.bitmap[b])
    && |FreeBlocks(v.bitmap)| + |l.data| == |FreeBlocks(job.v0.bitmap)| + |l0.data|
  }

  /** Every data block but number `cur` holds the bytes it should after
      `count` bytes have been written. */
  ghost predicate Settled(job: Job, v: Volume, s: Shape, count: nat, cur: int)
    requires JobOK(job) && Kept(job, v, s) && count <= |job.buf|
  {
    assert FileOwned(v, s, job.file);
    forall k, y :: 0 <= k < |s.files[job.file].data| && k != cur && 0 <= y < BLOCK_SIZE ==>
      v.disk[s.files[job.file].data[k]][y]
        == OverlayByte(Before(job), job.pos, job.buf, count, k * BLOCK_SIZE + y)
  }

  ghost predicate BlockHolds(job: Job, count: nat, cur: int, data: Block)
    requires JobOK(job) && count <= |job.buf| && 0 <= cur
  {
    forall y :: 0 <= y < BLOCK_SIZE ==>
      data[y] == OverlayByte(Before(job), job.pos, job.buf, count, cur * BLOCK_SIZE + y)
  }

  /** Block `cur` is in the buffer `data` and all others are on the disk. */
  ghost predicate Pending(job: Job, v: Volume, s: Shape, count: nat, cur: int, data: Block) {
    && JobOK(job) && Kept(job, v, s) && count <= |job.buf|
    && 0 <= cur < |s.files[job.file].data|
    && cur < FAN_OUT
    && cur * BLOCK_SIZE <= job.pos + count <= cur * BLOCK_SIZE + BLOCK_SIZE
    && |s.files[job.file].data|
         == (if |job.s0.files[job.file].data| > cur then |job.s0.files[job.file].data| else cur + 1)
    && Settled(job, v, s, count, cur)
    && BlockHolds(job, count, cur, data)
  }

  lemma StartPending(job: Job, data: Block)
    requires JobOK(job)
    requires job.pos / BLOCK_SIZE < |job.s0.files[job.file].data| && job.pos / BLOCK_SIZE < FAN_OUT
    requires var b := job.s0.files[job.file].data[job.pos / BLOCK_SIZE];
             0 <= b < DISK_BLOCKS && data == job.v0.disk[b]
    ensures Pending(job, job.v0, job.s0, 0, job.pos / BLOCK_SIZE, data)
  {
    assert FileOwned(job.v0, job.s0, job.file);
  }

  lemma PutByte(job: Job, v: Volume, s: Shape, count: nat, cur: int, data: Block)
    requires Pending(job, v, s, count, cur, data)
    requires count < |job.buf| && job.pos + count < cur * BLOCK_SIZE + BLOCK_SIZE
    ensures Pending(job, v, s, count + 1, cur, data[job.pos + count - cur * BLOCK_SIZE := job.buf[count]])
  {
  }

  ghost function Stored(job: Job, v: Volume, s: Shape, cur: int, data: Block): Volume
    requires Owned(v, s) && UsedFile(v, job.file) && 0 <= cur < |s.files[job.file].data|
  {
    assert FileOwned(v, s, job.file);
    v.(disk := v.disk[s.files[job.file].data[cur] := data])
  }

  lemma StoreBlock(job: Job, v: Volume, s: Shape, count: nat, cur: int, data: Block)
    requires Pending(job, v, s, count, cur, data)
    ensures Kept(job, Stored(job, v, s, cur, data), s)
    ensures Settled(job, Stored(job, v, s, cur, data), s, count, -1)
  {
    assert FileOwned(v, s, job.file);
    var b := s.files[job.file].data[cur];
    assert s.owner[b] == DataR(job.file, cur);
    StoreData(v, s, b, data);
    forall k | 0 <= k < |s.files[job.file].data| && k != cur
      ensures s.files[job.file].data[k] != b
    {
      assert s.owner[s.files[job.file].data[k]] == DataR(job.file, k);
    }
  }

  /** The next block already exists. */
  lemma NextBlock(job: Job, v: Volume, s: Shape, count: nat, cur: int, data: Block)
    requires Pending(job, v, s, count, cur, data)
    requires job.pos + count == cur * BLOCK_SIZE + BLOCK_SIZE
    requires cur + 1 < FAN_OUT && cur + 1 < |s.files[job.file].data|
    ensures var v' := Stored(job, v, s, cur, data);
            FileOwned(v', s, job.file)
            && Pending(job, v', s, count, cur + 1, v'.disk[s.files[job.file].data[cur + 1]])
  {
    StoreBlock(job, v, s, count, cur, data);
    assert FileOwned(Stored(job, v, s, cur, data), s, job.file);
  }

  /** Appending the free block `b` to the file keeps the rest of the volume. */
  lemma GrowKept(job: Job, v: Volume, s: Shape, b: int, first: seq<int>)
    requires JobOK(job) && Kept(job, v, s) && UsedFile(v, job.file)
    requires InData(b) && v.bitmap[b] == FREE
    requires |s.files[job.file].data| < FAN_OUT && FirstOn(first, s.files[job.file], 0)
    ensures b !in s.owner && v.disk[b] == ZERO_BLOCK
    ensures |s.files[job.file].firsts| == 1 && IsTable(first[|s.files[job.file].data| := b])
    ensures FirstOn(first[|s.files[job.file].data| := b], Grown(s, job.file, b).files[job.file], 0)
    ensures Kept(job, GrownVolume(v, s, job.file, b, first), Grown(s, job.file, b))
  {
    hide Owned, FreeBlocks, FirstOn, SecondOn;
    FirstKept(job, v, s);
    FreeIsZero(v, s, b);
    GrowFile(v, s, job.file, b, first);
    FreeBlocksMark(v.bitmap, b);
  }

  /** The first first-level block is the one the file had. */
  lemma FirstKept(job: Job, v: Volume, s: Shape)
    requires JobOK(job) && Kept(job, v, s) && UsedFile(v, job.file)
    ensures Sized(v) && Sized(job.v0) && |s.files| == MAX_FILES && |s.files[job.file].firsts| >= 1
    ensures var f := s.files[job.file].firsts[0];
            InData(f) && f in job.s0.owner && job.s0.owner[f] == FirstR(job.file, 0)
  {
    assert FileOwned(v, s, job.file);
    assert FileOwned(job.v0, job.s0, job.file);
    var f := s.files[job.file].firsts[0];
    assert s.owner[f] == FirstR(job.file, 0) && job.s0.owner[f] == FirstR(job.file, 0);
  }

  lemma GrowSettled(job: Job, v: Volume, s: Shape, count: nat, b: int, first: seq<int>)
    requires JobOK(job) && Kept(job, v, s) && UsedFile(v, job.file) && count <= |job.buf|
    requires InData(b) && v.bitmap[b] == FREE
    requires |s.files[job.file].data| < FAN_OUT && FirstOn(first, s.files[job.file], 0)
    requires |job.s0.files[job.file].data| <= |s.files[job.file].data|
    requires job.pos + count <= |s.files[job.file].data| * BLOCK_SIZE
    requires Settled(job, v, s, count, -1)
    ensures |s.files[job.file].firsts| == 1 && IsTable(first[|s.files[job.file].data| := b])
    ensures Kept(job, GrownVolume(v, s, job.file, b, first), Grown(s, job.file, b))
    ensures Settled(job, GrownVolume(v, s, job.file, b, first), Grown(s, job.file, b), count, -1)
  {
    GrowKept(job, v, s, b, first);
    var v' := GrownVolume(v, s, job.file, b, first);
    var d := s.files[job.file].data;
    assert FileOwned(v, s, job.file);
    var f := s.files[job.file].firsts[0];
    assert s.owner[f] == FirstR(job.file, 0);
    forall k | 0 <= k < |d| ensures v'.disk[d[k]] == v.disk[d[k]] {
      assert s.owner[d[k]] == DataR(job.file, k);
    }
    assert v'.disk[b] == ZERO_BLOCK;
    var d' := Grown(s, job.file, b).files[job.file].data;
    forall k, y | 0 <= k < |d'| && 0 <= y < BLOCK_SIZE
      ensures v'.disk[d'[k]][y] == OverlayByte(Before(job), job.pos, job.buf, count, k * BLOCK_SIZE + y)
    {
      if k < |d| {
        assert v'.disk[d[k]][y] == v.disk[d[k]][y];
      }
    }
  }

  /** The next block is the free block `b`, entered in the table `first`. */
  lemma NewBlock(job: Job, v: Volume, s: Shape, count: nat, cur: int, data: Block, b: int, first: seq<int>)
    requires Pending(job, v, s, count, cur, data)
    requires job.pos + count == cur * BLOCK_SIZE + BLOCK_SIZE
    requires cur + 1 < FAN_OUT && cur + 1 == |s.files[job.file].data|
    requires InData(b) && v.bitmap[b] == FREE
    requires FirstOn(first, s.files[job.file], 0)
    ensures IsTable(first[cur + 1 := b]) && |s.files[job.file].firsts| == 1
    ensures var v1 := Stored(job, v, s, cur, data);
            Owned(v1, s)
            && var v' := GrownVolume(v1, s, job.file, b, first);
            var s' := Grown(s, job.file, b);
            v'.disk[b] == ZERO_BLOCK
            && FirstOn(first[cur + 1 := b], s'.files[job.file], 0)
            && Pending(job, v', s', count, cur + 1, ZERO_BLOCK)
  {
    StoreBlock(job, v, s, count, cur, data);
    var v1 := Stored(job, v, s, cur, data);
    GrowKept(job, v1, s, b, first);
    GrowSettled(job, v1, s, count, b, first);
    assert FileOwned(v1, s, job.file);
    assert s.owner[s.files[job.file].firsts[0]] == FirstR(job.file, 0);
    assert BlockHolds(job, count, cur + 1, ZERO_BLOCK);
  }

  /** What the loop needs to know of the file it extends. */
  lemma PendingFacts(job: Job, v: Volume, s: Shape, count: nat, cur: int, data: Block, first: seq<int>)
    requires Pending(job, v, s, count, cur, data)
    requires FirstOn(first, s.files[job.file], 0)
    ensures JobOK(job) && Owned(v, s) && Sized(v) && UsedFile(v, job.file) && |s.files| == MAX_FILES
    ensures var l := s.files[job.file];
            && l.second == v.table[job.file].twoOffset
            && InData(l.second) && |l.firsts| >= 1 && InData(l.firsts[0]) && JobSecond(job)[0] == l.firsts[0]
            && BlockTable(v.disk[l.second]) == JobSecond(job)
            && cur < FAN_OUT && cur < |l.data| && first[cur] == l.data[cur] && InData(first[cur])
            && (cur + 1 < FAN_OUT ==> if cur + 1 < |l.data| then first[cur + 1] == l.data[cur + 1] && InData(first[cur + 1])
                                      else first[cur + 1] == -1 && |l.data| == cur + 1)
    ensures |FreeBlocks(v.bitmap)| + |s.files[job.file].data|
              == |FreeBlocks(job.v0.bitmap)| + |job.s0.files[job.file].data|
    ensures v.table == job.v0.table && v.dir == job.v0.dir
  {
    assert FileOwned(v, s, job.file);
    assert FileOwned(job.v0, job.s0, job.file);
    assert job.s0.owner[job.s0.files[job.file].second] == SecondR(job.file);
  }

  lemma KeptFacts(job: Job, v: Volume, s: Shape)
    requires JobOK(job) && Kept(job, v, s)
    ensures Owned(v, s) && UsedFile(v, job.file)
    ensures s.files[job.file].second == v.table[job.file].twoOffset && InData(s.files[job.file].second)
    ensures BlockTable(v.disk[s.files[job.file].second]) == JobSecond(job)
  {
  }

  lemma FreeIsZero(v: Volume, s: Shape, b: int)
    requires Owned(v, s) && InData(b) && v.bitmap[b] == FREE
    ensures v.disk[b] == ZERO_BLOCK && b !in s.owner
  {
  }

  lemma OwnerUsed(v: Volume, s: Shape, file: int, b: int)
    requires Owned(v, s) && UsedFile(v, file) && InData(b) && v.bitmap[b] == FREE
    ensures InData(v.table[file].twoOffset) && v.table[file].twoOffset != b
  {
  }

  lemma TornFree(v: Volume, file: int, f: int, second: seq<int>, first: seq<int>, secondIndex: int, b: int)
    requires Torn(v, file, f, second, first, secondIndex) && InData(b) && v.bitmap[b] == FREE
    ensures v.disk[b] == ZERO_BLOCK && b != v.table[file].twoOffset && InData(v.table[file].twoOffset)
  {
  }

  lemma TornFacts(v: Volume, file: int, f: int, second: seq<int>, first: seq<int>, secondIndex: int, cur: int)
    requires Torn(v, file, f, second, first, secondIndex) && 0 <= cur < FAN_OUT
    ensures Sized(v) && UsedFile(v, file) && IsTable(second) && 1 <= secondIndex < FAN_OUT
    ensures first[cur] != f && first[cur] != v.table[file].twoOffset && first[cur] != -1
    ensures InData(first[cur]) ==> v.bitmap[first[cur]] == USED
  {
  }

  /** What a finished write leaves. */
  lemma Finished(job: Job, v: Volume, s: Shape, cur: int, data: Block)
    requires Pending(job, v, s, |job.buf|, cur, data)
    ensures var v' := Stored(job, v, s, cur, data);
            && Kept(job, v', s)
            && FileOwned(v', s, job.file)
            && FileBytes(v'.disk, s.files[job.file])
                 == Overlay(Before(job), job.pos, job.buf, |s.files[job.file].data| * BLOCK_SIZE)
  {
    StoreBlock(job, v, s, |job.buf|, cur, data);
    var v' := Stored(job, v, s, cur, data);
    assert FileOwned(v', s, job.file);
    var bytes := FileBytes(v'.disk, s.files[job.file]);
    var want := Overlay(Before(job), job.pos, job.buf, |s.files[job.file].data| * BLOCK_SIZE);
    forall x | 0 <= x < |bytes| ensures bytes[x] == want[x] {
      assert x / BLOCK_SIZE * BLOCK_SIZE + x % BLOCK_SIZE == x;
    }
  }

  /** The write ends inside the first 4 MiB and there are blocks for it. */
  ghost predicate LevelFits(job: Job)
    requires JobOK(job)
  {
    && job.pos + |job.buf| < LEVEL_BYTES
    && (job.pos + |job.buf|) / BLOCK_SIZE + 1
         <= |job.s0.files[job.file].data| + |FreeBlocks(job.v0.bitmap)|
  }

  /** The buffer lies over the file's bytes and nothing else changed. */
  ghost predicate Wrote(job: Job, v: Volume, s: Shape)
    requires JobOK(job)
  {
    && Kept(job, v, s)
    && FileOwned(v, s, job.file)
    && FileBytes(v.disk, s.files[job.file])
         == Overlay(Before(job), job.pos, job.buf, |s.files[job.file].data| * BLOCK_SIZE)
    && var n0, last := |job.s0.files[job.file].data|, (job.pos + |job.buf|) / BLOCK_SIZE;
       |s.files[job.file].data| == if n0 > last then n0 else last + 1
  }

  lemma WroteIt(job: Job, v: Volume, s: Shape, cur: int, data: Block)
    requires Pending(job, v, s, |job.buf|, cur, data)
    requires job.pos + |job.buf| < cur * BLOCK_SIZE + BLOCK_SIZE
    ensures Wrote(job, Stored(job, v, s, cur, data), s)
  {
    Finished(job, v, s, cur, data);
  }

  /** The position in the file at which `fs_write` puts its first byte. */
  function WritePos(offset: nat): (pos: nat)
  {
    if offset % 1024 == 0 && offset > 0 then (offset / BLOCK_SIZE + 1) * BLOCK_SIZE else offset
  }

  /** The write starts in an existing block, stays below 4 MiB, and finds a free
      block for each one it has to add; `blocks` is the file's block count. */
  predicate WriteFits(blocks: nat, free: nat, offset: nat, n: nat) {
    var pos := WritePos(offset);
    && pos / BLOCK_SIZE < blocks
    && pos + n < LEVEL_BYTES
    && (pos + n) / BLOCK_SIZE + 1 <= blocks + free
  }

  function Max(x: int, y: int): int {
    if x > y then x else y
  }

  /** What a write of `buf` at descriptor offset `offset` makes of file `i`: the
      bytes lie over the old ones from `WritePos(offset)`, the file gains just
      the blocks it needs, its size covers `offset + |buf|`, and every other
      file, and every block outside the data area, is as before. */
  ghost predicate WriteEffect(v0: Volume, s0: Shape, v: Volume, s: Shape, i: int, offset: nat, buf: seq<byte>)
  {
    && Owned(v0, s0) && UsedFile(v0, i) && Owned(v, s) && v.dir == v0.dir
    && BytesOf(v, s, i)
         == Overlay(BytesOf(v0, s0, i), WritePos(offset), buf, |s.files[i].data| * BLOCK_SIZE)
    && |s.files[i].data| == Max(|s0.files[i].data|, (WritePos(offset) + |buf|) / BLOCK_SIZE + 1)
    && |FreeBlocks(v.bitmap)| + |s.files[i].data| == |FreeBlocks(v0.bitmap)| + |s0.files[i].data|
    && v.table == v0.table[i := v0.table[i].(size := Max(v0.table[i].size, offset + |buf|))]
    && (forall k :: UsedFile(v0, k) && k != i ==>
          s.files[k] == s0.files[k] && BytesOf(v, s, k) == BytesOf(v0, s0, k))
    && (forall b :: 0 <= b < DATA_OFFSET ==> v.disk[b] == v0.disk[b] && v.bitmap[b] == v0.bitmap[b])
  }

  /** Where a write starts: at the offset, but at a positive multiple of 1024 in the
      block after the offset's. From there the buffer lies over the old bytes, and
      every other byte is kept. */
  lemma WriteLands(v0: Volume, s0: Shape, v: Volume, s: Shape, i: int, offset: nat, buf: seq<byte>)
    requires WriteEffect(v0, s0, v, s, i, offset, buf)
    ensures |v.table| == |v0.table| == 64 && 0 <= i < 64 && |v.disk| == |v0.disk| == |v0.bitmap| == 12288
    ensures var start := if offset > 0 && offset % 1024 == 0 then (offset / 4096 + 1) * 4096 else offset;
      var old_, new_ := BytesOf(v0, s0, i), BytesOf(v, s, i);
      && start + |buf| <= |new_| && |old_| <= |new_|
      && forall x :: 0 <= x < |new_| ==>
           new_[x] == if start <= x < start + |buf| then buf[x - start] else if x < |old_| then old_[x] else 0
    ensures v.table[i].size == if v0.table[i].size > offset + |buf| then v0.table[i].size else offset + |buf|
  {
    hide WriteEffect, BytesOf, Overlay, WritePos, Owned;
    WriteBytes(v0, s0, v, s, i, offset, buf);
    OverlayLands(BytesOf(v0, s0, i), offset, buf, BytesOf(v, s, i), |s0.files[i].data|);
  }

  lemma WriteBytes(v0: Volume, s0: Shape, v: Volume, s: Shape, i: int, offset: nat, buf: seq<byte>)
    requires WriteEffect(v0, s0, v, s, i, offset, buf)
    ensures Owned(v0, s0) && Owned(v, s) && UsedFile(v0, i) && UsedFile(v, i) && Sized(v0) && Sized(v)
    ensures |s0.files| == MAX_FILES
    ensures var old_, new_ := BytesOf(v0, s0, i), BytesOf(v, s, i);
      && new_ == Overlay(old_, WritePos(offset), buf, |new_|) && |old_| == |s0.files[i].data| * BLOCK_SIZE
      && |new_| == Max(|s0.files[i].data|, (WritePos(offset) + |buf|) / BLOCK_SIZE + 1) * BLOCK_SIZE
    ensures v.table[i].size == Max(v0.table[i].size, offset + |buf|)
  {
    BytesCount(v0, s0, i);
    BytesCount(v, s, i);
  }

  lemma OverlayLands(before: seq<byte>, offset: nat, buf: seq<byte>, after: seq<byte>, blocks: nat)
    requires after == Overlay(before, WritePos(offset), buf, |after|) && |before| == blocks * BLOCK_SIZE
    requires |after| == Max(blocks, (WritePos(offset) + |buf|) / BLOCK_SIZE + 1) * BLOCK_SIZE
    ensures var start := if offset > 0 && offset % 1024 == 0 then (offset / 4096 + 1) * 4096 else offset;
      && start + |buf| <= |after| && |before| <= |after|
      && forall x :: 0 <= x < |after| ==>
           after[x] == if start <= x < start + |buf| then buf[x - start] else if x < |before| then before[x] else 0
  {
    var start := WritePos(offset);
    assert start == if offset > 0 && offset % 1024 == 0 then (offset / 4096 + 1) * 4096 else offset;
    hide WritePos;
    assert start + |buf| < (start + |buf|) / BLOCK_SIZE * BLOCK_SIZE + BLOCK_SIZE;
  }

  lemma BytesCount(v: Volume, s: Shape, i: int)
    requires Owned(v, s) && UsedFile(v, i)
    ensures Sized(v) && |s.files| == MAX_FILES && |BytesOf(v, s, i)| == |s.files[i].data| * BLOCK_SIZE
  {
  }

  /** When a write fits: its start lies in a block of the file, its end below 4 MiB,
      and there are blocks up to the one its end lies in. A short one at a positive
      multiple of 1024 does just when the file has the next block. */
  lemma WriteFitsIff(blocks: nat, free: nat, offset: nat, n: nat)
    ensures var start := if offset > 0 && offset % 1024 == 0 then (offset / 4096 + 1) * 4096 else offset;
      WriteFits(blocks, free, offset, n)
      <==> start / 4096 < blocks && start + n < 4194304 && (start + n) / 4096 < blocks + free
    ensures offset > 0 && offset % 1024 == 0 && n < 4096 && blocks <= 1024 ==>
      (WriteFits(blocks, free, offset, n) <==> offset / 4096 + 1 < blocks)
  {
  }

  lemma KeptBytes(job: Job, v: Volume, s: Shape, k: int)
    requires JobOK(job) && Kept(job, v, s) && UsedFile(v, k) && k != job.file
    ensures s.files[k] == job.s0.files[k]
    ensures BytesOf(v, s, k) == BytesOf(job.v0, job.s0, k)
  {
  }

  lemma WriteDone(v0: Volume, job: Job, v: Volume, s: Shape, offset: nat)
    requires JobOK(job) && Wrote(job, v, s) && job.pos == WritePos(offset) && offset + |job.buf| < 0x8000_0000
    requires Owned(v0, job.s0) && UsedFile(v0, job.file) && SizesOK(v0, job.s0)
    requires var size := Max(v0.table[job.file].size, offset + |job.buf|);
             job.v0 == v0.(table := v0.table[job.file := v0.table[job.file].(size := size)])
    ensures WriteEffect(v0, job.s0, v, s, job.file, offset, job.buf)
    ensures Owned(v, s) && SizesOK(v, s)
  {
    Resized(v0, job.s0, job.file, job.v0.table[job.file].size);
    forall k | UsedFile(v0, k) && k != job.file
      ensures s.files[k] == job.s0.files[k] && BytesOf(v, s, k) == BytesOf(v0, job.s0, k)
    {
      KeptBytes(job, v, s, k);
    }
  }

  // ---- Past the first 4 MiB

  /** The file's second first-level block `f` was taken from the free blocks
      without being filled with -1, so it lists block 0. */
  ghost predicate Torn(v: Volume, file: int, f: int, second: seq<int>, first: seq<int>, secondIndex: int) {
    && Sized(v) && UsedFile(v, file)
    && IsTable(second) && IsTable(first) && 1 <= secondIndex < FAN_OUT
    && var two := v.table[file].twoOffset;
    && InData(two) && v.bitmap[two] == USED && BlockTable(v.disk[two]) == second
    && second[1] == f
    && InData(f) && f != two && v.bitmap[f] == USED && BlockTable(v.disk[f])[1] == 0
    && (secondIndex == 1 ==> BlockTable(v.disk[f]) == first)
    && (secondIndex > 1 ==> second[secondIndex] != f)
    && second[secondIndex] != two
    && (InData(second[secondIndex]) ==> v.bitmap[second[secondIndex]] == USED)
    && (forall j :: 0 <= j < FAN_OUT ==> first[j] != f && first[j] != two && first[j] != -1)
    && (forall j :: 0 <= j < FAN_OUT && InData(first[j]) ==> v.bitmap[first[j]] == USED)
    && (forall b :: InData(b) && v.bitmap[b] == FREE ==> v.disk[b] == ZERO_BLOCK)
  }

  /** Such a volume has no consistent shape. */
  lemma TornNotOwned(v: Volume, file: int, f: int, second: seq<int>, first: seq<int>, secondIndex: int, s: Shape)
    requires Torn(v, file, f, second, first, secondIndex)
    ensures !Owned(v, s)
  {
  }

  /** Storing a block that is neither free nor one of the two tables changes nothing. */
  lemma TornStore(v: Volume, file: int, f: int, second: seq<int>, first: seq<int>, secondIndex: int, b: int, x: Block)
    requires Torn(v, file, f, second, first, secondIndex)
    requires 0 <= b < DISK_BLOCKS && b != f && b != v.table[file].twoOffset
    requires InData(b) ==> v.bitmap[b] == USED
    ensures Torn(v.(disk := v.disk[b := x]), file, f, second, first, secondIndex)
  {
  }

  /** The tables after a first-level block `e` and its data block `d` are taken
      for index `k` of the second-level block. */
  ghost function NewLevel(v: Volume, two: int, second: seq<int>, first: seq<int>, k: int, e: int, d: int): Volume
    requires Sized(v) && InData(two) && InData(e) && DATA_OFFSET <= d <= DISK_BLOCKS
    requires IsTable(second) && IsTable(first) && 0 <= k < FAN_OUT
  {
    var bitmap := v.bitmap[e := USED];
    v.(disk := v.disk[two := TableBlock(second[k := e])][e := TableBlock(first[0 := d])],
       bitmap := if d < DISK_BLOCKS then bitmap[d := USED] else bitmap)
  }

  lemma TornStart(v: Volume, s: Shape, file: int, second: seq<int>, e: int, d: int)
    requires Owned(v, s) && UsedFile(v, file)
    requires InData(v.table[file].twoOffset) && BlockTable(v.disk[v.table[file].twoOffset]) == second
    requires InData(e) && v.bitmap[e] == FREE
    requires DATA_OFFSET <= d <= DISK_BLOCKS && d != e && (d < DISK_BLOCKS ==> v.bitmap[d] == FREE)
    ensures Torn(NewLevel(v, v.table[file].twoOffset, second, BlockTable(ZERO_BLOCK), 1, e, d),
                 file, e, second[1 := e], BlockTable(ZERO_BLOCK)[0 := d], 1)
  {
    var two := v.table[file].twoOffset;
    assert FileOwned(v, s, file);
    assert v.bitmap[two] == USED && e != two && d != two;
    ZeroBlockTable();
    var first := BlockTable(ZERO_BLOCK)[0 := d];
    assert IsTable(first) && IsTable(second[1 := e]);
    TableRoundTrip(first);
    TableRoundTrip(second[1 := e]);
  }

  lemma TornNext(v: Volume, file: int, f: int, second: seq<int>, first: seq<int>, secondIndex: int, e: int, d: int)
    requires Torn(v, file, f, second, first, secondIndex) && secondIndex + 1 < FAN_OUT
    requires InData(e) && v.bitmap[e] == FREE
    requires DATA_OFFSET <= d <= DISK_BLOCKS && d != e && (d < DISK_BLOCKS ==> v.bitmap[d] == FREE)
    ensures Torn(NewLevel(v, v.table[file].twoOffset, second, BlockTable(ZERO_BLOCK), secondIndex + 1, e, d),
                 file, f, second[secondIndex + 1 := e], BlockTable(ZERO_BLOCK)[0 := d], secondIndex + 1)
  {
    ZeroBlockTable();
    var first' := BlockTable(ZERO_BLOCK)[0 := d];
    assert IsTable(first') && IsTable(second[secondIndex + 1 := e]);
    TableRoundTrip(first');
    TableRoundTrip(second[secondIndex + 1 := e]);
  }

  /** A free block found while the first-level block at `k` is current. */
  lemma LevelFree(v: Volume, s: Shape, file: int, f: int, second: seq<int>, first: seq<int>, k: int, e: int)
    requires Sized(v) && UsedFile(v, file) && 0 <= k && InData(e) && v.bitmap[e] == FREE
    requires if k == 0 then Owned(v, s) else Torn(v, file, f, second, first, k)
    ensures v.disk[e] == ZERO_BLOCK && InData(v.table[file].twoOffset) && v.table[file].twoOffset != e
  {
    hide Owned, Torn;
    if k == 0 {
      FreeIsZero(v, s, e);
      OwnerUsed(v, s, file, e);
    } else {
      TornFree(v, file, f, second, first, k, e);
    }
  }

  lemma LevelStarts(v: Volume, s: Shape, file: int, f: int, second: seq<int>, first: seq<int>, k: int, e: int, d: int)
    requires Sized(v) && UsedFile(v, file) && 0 <= k < FAN_OUT - 1 && IsTable(second)
    requires if k == 0 then Owned(v, s) else Torn(v, file, f, second, first, k)
    requires InData(v.table[file].twoOffset)
    requires k == 0 ==> BlockTable(v.disk[v.table[file].twoOffset]) == second
    requires InData(e) && v.bitmap[e] == FREE
    requires DATA_OFFSET <= d <= DISK_BLOCKS && d != e && (d < DISK_BLOCKS ==> v.bitmap[d] == FREE)
    ensures Torn(NewLevel(v, v.table[file].twoOffset, second, BlockTable(ZERO_BLOCK), k + 1, e, d),
                 file, if k == 0 then e else f, second[k + 1 := e], BlockTable(ZERO_BLOCK)[0 := d], k + 1)
  {
    hide Owned, Torn;
    if k == 0 {
      TornStart(v, s, file, second, e, d);
    } else {
      TornNext(v, file, f, second, first, k, e, d);
    }
  }

  /** Storing the current first-level block again. */
  lemma TornRewrite(v: Volume, file: int, f: int, second: seq<int>, first: seq<int>, secondIndex: int)
    requires Torn(v, file, f, second, first, secondIndex)
    requires 0 <= second[secondIndex] < DISK_BLOCKS
    ensures Torn(v.(disk := v.disk[second[secondIndex] := TableBlock(first)]), file, f, second, first, secondIndex)
  {
    TableRoundTrip(first);
  }

  lemma RewriteFirst(v: Volume, s: Shape, file: int, first: seq<int>)
    requires Owned(v, s) && UsedFile(v, file) && IsTable(first)
    requires |s.files[file].firsts| >= 1 && FirstOn(first, s.files[file], 0)
    ensures InData(s.files[file].firsts[0]) && s.files[file].firsts[0] != s.files[file].second
    ensures Owned(v.(disk := v.disk[s.files[file].firsts[0] := TableBlock(first)]), s)
  {
    assert FileOwned(v, s, file);
    TableRoundTrip(first);
    var l := s.files[file];
    var b := l.firsts[0];
    var v' := v.(disk := v.disk[b := TableBlock(first)]);
    assert s.owner[b] == FirstR(file, 0);
    assert s.owner[l.second] == SecondR(file);
    assert FileOwned(v', s, file) by {
      forall k | 0 <= k < |l.firsts| ensures FirstOn(BlockTable(v'.disk[l.firsts[k]]), l, k) {
        assert s.owner[l.firsts[k]] == FirstR(file, k);
      }
    }
    forall i | 0 <= i < MAX_FILES && v.dir[i].used ensures FileOwned(v', s, i) {
      if i != file {
        assert FileOwned(v, s, i);
        FileFrame(v, s, v', s, i);
      }
    }
  }
}
