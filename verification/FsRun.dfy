/** Runs of file system calls, and that they are runs on a map from names to
    byte strings. */
module FsRun {
  import opened Bytes
  import opened FsBlocks
  import opened FsLayout
  import opened FsWriting
  import opened FsFiles
  import opened FsPersist
  import opened FsSpec
  import opened FsErase

  datatype State = State(v: Volume, s: Shape, fds: seq<FileDescriptor>)

  ghost predicate ValidState(st: State) {
    && Owned(st.v, st.s) && SizesOK(st.v, st.s) && DirOK(st.v.dir, st.fds) && RefsExact(st.v.dir, st.fds)
    && OneLevel(st.v, st.s)
  }

  /** No call inside its guard gives a file a second first-level block. */
  ghost predicate OneLevel(v: Volume, s: Shape) {
    && |v.dir| == |s.files| == MAX_FILES
    && forall i :: UsedFile(v, i) ==> |s.files[i].data| <= FAN_OUT
  }

  ghost function Content(v: Volume, s: Shape, i: int): (c: seq<byte>)
    requires Owned(v, s) && SizesOK(v, s) && UsedFile(v, i)
    ensures |c| == v.table[i].size
  {
    assert FileOwned(v, s, i);
    BytesOf(v, s, i)[..v.table[i].size]
  }

  ghost function SlotOf(v: Volume, s: Shape, i: int): Slot
    requires Owned(v, s) && SizesOK(v, s) && 0 <= i < MAX_FILES
  {
    if v.dir[i].used then Used(v.dir[i].name, Content(v, s, i)) else Empty
  }

  ghost function Slots(v: Volume, s: Shape): (slots: seq<Slot>)
    requires Owned(v, s) && SizesOK(v, s)
    ensures |slots| == MAX_FILES && forall i :: 0 <= i < MAX_FILES ==> slots[i] == SlotOf(v, s, i)
  {
    seq(MAX_FILES, i requires 0 <= i < MAX_FILES => SlotOf(v, s, i))
  }

  lemma CreateLevels(v0: Volume, s0: Shape, v: Volume, s: Shape, i: int, name: Name)
    requires CreateEffect(v0, s0, v, s, i, name) && OneLevel(v0, s0)
    ensures OneLevel(v, s)
  {
  }

  lemma DeleteLevels(v0: Volume, s0: Shape, v: Volume, s: Shape, i: int)
    requires DeleteEffect(v0, s0, v, s, i) && OneLevel(v0, s0)
    ensures OneLevel(v, s)
  {
  }

  /** A write that fits stays within the first first-level block. */
  lemma WriteLevels(v0: Volume, s0: Shape, v: Volume, s: Shape, i: int, offset: nat, buf: seq<byte>)
    requires WriteEffect(v0, s0, v, s, i, offset, buf) && OneLevel(v0, s0)
    requires WriteFits(|s0.files[i].data|, |FreeBlocks(v0.bitmap)|, offset, |buf|)
    ensures OneLevel(v, s)
  {
  }

  lemma TruncateLevels(v0: Volume, s0: Shape, v: Volume, s: Shape, i: int, keep: nat, size: int)
    requires TruncateEffect(v0, s0, v, s, i, keep, size) && OneLevel(v0, s0)
    ensures OneLevel(v, s)
  {
  }

  /** In every state of a run each file has one first-level block. */
  lemma OneFirst(st: State, i: int)
    requires ValidState(st) && UsedFile(st.v, i)
    ensures |st.s.files[i].firsts| == 1
  {
    assert FileOwned(st.v, st.s, i);
  }

  // ---- Bytes

  predicate Bumps(offset: nat) {
    offset > 0 && offset % 1024 == 0
  }

  /** What a write makes of the bytes up to the end of the file. */
  function WrittenContent(bytes: seq<byte>, size: nat, offset: nat, buf: seq<byte>, blocks: nat): seq<byte>
    requires Max(size, offset + |buf|) <= blocks * BLOCK_SIZE
  {
    Overlay(bytes, WritePos(offset), buf, blocks * BLOCK_SIZE)[..Max(size, offset + |buf|)]
  }

  /** When a write of `n` bytes puts them at the offset, and leaves zeros between
      the end of the file and the offset. */
  predicate WriteExact(bytes: seq<byte>, size: nat, offset: nat, n: nat) {
    if offset <= size then n == 0 || !Bumps(offset)
    else n > 0 && !Bumps(offset) && forall x :: size <= x < offset && x < |bytes| ==> bytes[x] == 0
  }

  lemma WritePatches(bytes: seq<byte>, size: nat, offset: nat, buf: seq<byte>, blocks: nat)
    requires size <= |bytes| && offset < |bytes| && Max(size, offset + |buf|) <= blocks * BLOCK_SIZE
    requires WriteExact(bytes, size, offset, |buf|)
    ensures WrittenContent(bytes, size, offset, buf, blocks) == Patch(bytes[..size], offset, buf)
  {
  }

  /** A write replaces the bytes at the offset, except in three cases: at a positive
      multiple of 1024 they are misplaced; past the end the gap shows what the blocks
      held before; and a write of nothing there makes the file longer. In each some
      buffer of the length goes wrong. */
  lemma WritePatchesIff(bytes: seq<byte>, size: nat, offset: nat, n: nat, blocks: nat)
    requires size <= |bytes| && offset < |bytes| && Max(size, offset + n) <= blocks * BLOCK_SIZE
    ensures (forall buf: seq<byte> :: |buf| == n ==>
               WrittenContent(bytes, size, offset, buf, blocks) == Patch(bytes[..size], offset, buf))
            <==> WriteExact(bytes, size, offset, n)
  {
    if WriteExact(bytes, size, offset, n) {
      forall buf: seq<byte> | |buf| == n
        ensures WrittenContent(bytes, size, offset, buf, blocks) == Patch(bytes[..size], offset, buf)
      {
        WritePatches(bytes, size, offset, buf, blocks);
      }
    } else {
      var other: byte := if bytes[offset] == 0 then 1 else 0;
      var buf := seq(n, _ => other);
      var written, meant := WrittenContent(bytes, size, offset, buf, blocks), Patch(bytes[..size], offset, buf);
      if n == 0 {
        assert |written| == offset && |meant| == size;
      } else if Bumps(offset) {
        assert written[offset] == bytes[offset] && meant[offset] == other;
      } else {
        var x :| size <= x < offset && bytes[x] != 0;
        assert written[x] == bytes[x] && meant[x] == 0;
      }
    }
  }

  /** What a write past the end leaves before the offset: the old bytes of the
      blocks there. */
  lemma GapKept(bytes: seq<byte>, size: nat, offset: nat, buf: seq<byte>, blocks: nat)
    requires size < offset < |bytes| && offset + |buf| <= blocks * BLOCK_SIZE
    ensures |WrittenContent(bytes, size, offset, buf, blocks)| == offset + |buf|
    ensures WrittenContent(bytes, size, offset, buf, blocks)[..offset] == bytes[..offset]
    ensures !Bumps(offset) ==> WrittenContent(bytes, size, offset, buf, blocks) == bytes[..offset] + buf
  {
  }

  /** The number of bytes read is right except past the end, where all are. */
  lemma ReadCountIff(bytes: seq<byte>, offset: nat, n: nat)
    ensures ReadCount(|bytes|, offset, n) == |Piece(bytes, offset, n)| <==> offset <= |bytes| || n == 0
    ensures offset > |bytes| ==> ReadCount(|bytes|, offset, n) == n && Piece(bytes, offset, n) == []
  {
  }

  // ---- Each effect, slot by slot

  lemma SlotsAre(v: Volume, s: Shape, slots: seq<Slot>)
    requires Owned(v, s) && SizesOK(v, s) && |slots| == MAX_FILES
    requires forall i :: 0 <= i < MAX_FILES ==> slots[i] == SlotOf(v, s, i)
    ensures slots == Slots(v, s)
  {
  }

  lemma WriteSlots(v0: Volume, s0: Shape, v: Volume, s: Shape, i: int, offset: nat, buf: seq<byte>)
    requires WriteEffect(v0, s0, v, s, i, offset, buf) && SizesOK(v0, s0) && SizesOK(v, s)
    requires Content(v, s, i) == Patch(Content(v0, s0, i), offset, buf)
    ensures Slots(v, s)
              == Slots(v0, s0)[i := Used(v0.dir[i].name, Patch(Content(v0, s0, i), offset, buf))]
  {
    hide Owned, Patch;
    var slots := Slots(v0, s0)[i := Used(v0.dir[i].name, Patch(Content(v0, s0, i), offset, buf))];
    forall k | 0 <= k < MAX_FILES ensures slots[k] == SlotOf(v, s, k) {
      if k != i && v0.dir[k].used { assert BytesOf(v, s, k) == BytesOf(v0, s0, k); }
    }
    SlotsAre(v, s, slots);
  }

  /** The blocks that the file has after a write. */
  function BlocksWritten(blocks: nat, offset: nat, n: nat): nat {
    Max(blocks, (WritePos(offset) + n) / BLOCK_SIZE + 1)
  }

  lemma WrittenIs(v0: Volume, s0: Shape, v: Volume, s: Shape, i: int, offset: nat, buf: seq<byte>)
    requires WriteEffect(v0, s0, v, s, i, offset, buf) && SizesOK(v0, s0) && SizesOK(v, s)
    ensures var blocks := BlocksWritten(|s0.files[i].data|, offset, |buf|);
            && Max(v0.table[i].size, offset + |buf|) <= blocks * BLOCK_SIZE
            && Content(v, s, i) == WrittenContent(BytesOf(v0, s0, i), v0.table[i].size, offset, buf, blocks)
  {
    hide Owned;
    BytesLength(v0, s0, i);
    BytesLength(v, s, i);
  }

  lemma BytesLength(v: Volume, s: Shape, i: int)
    requires Owned(v, s) && UsedFile(v, i)
    ensures |s.files| == MAX_FILES && |BytesOf(v, s, i)| == |s.files[i].data| * BLOCK_SIZE
  {
  }

  lemma TruncateSlots(v0: Volume, s0: Shape, v: Volume, s: Shape, i: int, keep: nat, length: int)
    requires TruncateEffect(v0, s0, v, s, i, keep, length) && SizesOK(v0, s0) && SizesOK(v, s)
    requires 0 <= length <= v0.table[i].size
    ensures Slots(v, s) == Slots(v0, s0)[i := Used(v0.dir[i].name, Content(v0, s0, i)[..length])]
  {
    hide Owned;
    BytesLength(v0, s0, i);
    BytesLength(v, s, i);
    var slots := Slots(v0, s0)[i := Used(v0.dir[i].name, Content(v0, s0, i)[..length])];
    assert Content(v, s, i) == Content(v0, s0, i)[..length];
    forall k | 0 <= k < MAX_FILES ensures slots[k] == SlotOf(v, s, k) {
      if k != i && v0.dir[k].used { assert BytesOf(v, s, k) == BytesOf(v0, s0, k); }
    }
    SlotsAre(v, s, slots);
  }

  /** A new file holds as many zeros as the file before it in its slot had bytes:
      none just when that had been cut to nothing. */
  lemma CreateSlots(v0: Volume, s0: Shape, v: Volume, s: Shape, i: int, name: Name)
    requires CreateEffect(v0, s0, v, s, i, name) && SizesOK(v0, s0) && SizesOK(v, s)
    ensures 0 <= v0.table[i].size
    ensures Slots(v, s) == Slots(v0, s0)[i := Used(name, Zeros(v0.table[i].size))]
    ensures Slots(v, s) == Slots(v0, s0)[i := Used(name, [])] <==> v0.table[i].size == 0
  {
    hide Owned;
    BytesLength(v, s, i);
    assert Content(v, s, i) == Zeros(v0.table[i].size);
    var slots := Slots(v0, s0)[i := Used(name, Zeros(v0.table[i].size))];
    forall k | 0 <= k < MAX_FILES ensures slots[k] == SlotOf(v, s, k) {
      if k != i && v0.dir[k].used { assert BytesOf(v, s, k) == BytesOf(v0, s0, k); }
    }
    SlotsAre(v, s, slots);
    assert Slots(v, s)[i] == Used(name, Zeros(v0.table[i].size));
    assert Zeros(0) == [];
  }

  lemma DeleteSlots(v0: Volume, s0: Shape, v: Volume, s: Shape, i: int)
    requires DeleteEffect(v0, s0, v, s, i) && SizesOK(v0, s0) && SizesOK(v, s)
    ensures Slots(v, s) == Slots(v0, s0)[i := Empty]
  {
  }

  lemma RefSlots(v0: Volume, v: Volume, s: Shape)
    requires Owned(v0, s) && SizesOK(v0, s) && Owned(v, s) && SizesOK(v, s) && v == v0.(dir := v.dir)
    requires forall i :: 0 <= i < MAX_FILES ==> v.dir[i].used == v0.dir[i].used && v.dir[i].name == v0.dir[i].name
    ensures Slots(v, s) == Slots(v0, s)
  {
  }

  // ---- Each call

  predicate Opened(st: State, fd: int) {
    0 <= fd < |st.fds| && st.fds[fd].used
  }

  /** What the types and the C library ask of a caller: names are C strings, and
      lengths are below 2^31. */
  predicate Callable(op: Op) {
    match op
    case Create(name) => 0 !in name
    case Delete(name) => 0 !in name
    case OpenFile(name) => 0 !in name
    case Write(fd, buf) => |buf| < 0x8000_0000
    case Read(fd, n) => n < 0x8000_0000
    case _ => true
  }

  /** What a caller has to see to before a call, each part for a reason of its own.
      Create: a name, three free blocks, and a slot whose inode keeps no size.
      Delete, OpenFile: the empty name finds unused entries.
      Close, Seek, Truncate: the index is used before it is checked, and number 32
      passes the check of Read and Write.
      Read, Write: see `ReadCountIff`, `WriteFits`, `WriteExact`.
      Truncate: see `TruncateFits`. Remount: counts are not lowered. */
  ghost predicate Guard(st: State, op: Op)
    requires ValidState(st)
  {
    match op
    case Create(name) =>
      Creatable(st.v.dir, name) ==>
        && name != [] && |FreeBlocks(st.v.bitmap)| >= 3
        && FreeSlot(st.v.dir) < MAX_FILES && st.v.table[FreeSlot(st.v.dir)].size == 0
    case Delete(name) => name != [] || NothingErased(st.v)
    case OpenFile(name) =>
      name != [] || Lookup(st.v.dir, []) == MAX_FILES || forall e :: 0 <= e < MAX_FDS ==> st.fds[e].used
    case Close(fd) => 0 <= fd < MAX_FDS
    case Write(fd, buf) => fd != MAX_FDS && (Opened(st, fd) ==> Writes(st, fd, |buf|))
    case Read(fd, n) =>
      && fd != MAX_FDS
      && (Opened(st, fd) ==>
            var i, offset := st.fds[fd].inodeNum, st.fds[fd].offset;
            offset <= st.v.table[i].size || (n == 0 && offset / BLOCK_SIZE < |st.s.files[i].data|))
    case Seek(fd, offset) => offset < 0 || 0 <= fd < MAX_FDS
    case Truncate(fd, length) =>
      || length < 0
      || (&& 0 <= fd < MAX_FDS
          && (st.fds[fd].used && length <= st.v.table[st.fds[fd].inodeNum].size ==>
                TruncateFits(|st.s.files[st.fds[fd].inodeNum].data|, st.fds[fd].offset, length)))
    case Remount => forall d :: 0 <= d < MAX_FDS ==> !st.fds[d].used
  }

  ghost predicate Writes(st: State, fd: int, n: nat)
    requires ValidState(st) && Opened(st, fd)
  {
    var i, offset := st.fds[fd].inodeNum, st.fds[fd].offset;
    && WriteFits(|st.s.files[i].data|, |FreeBlocks(st.v.bitmap)|, offset, n)
    && WriteExact(BytesOf(st.v, st.s, i), st.v.table[i].size, offset, n)
  }

  /** The guard; of a write, that this one buffer comes out right. */
  ghost predicate Meets(st: State, op: Op)
    requires ValidState(st)
  {
    match op
    case Write(fd, buf) => fd != MAX_FDS && (Opened(st, fd) ==> WritesBuf(st, fd, buf))
    case _ => Guard(st, op)
  }

  ghost predicate WritesBuf(st: State, fd: int, buf: seq<byte>)
    requires ValidState(st) && Opened(st, fd)
  {
    var i, offset := st.fds[fd].inodeNum, st.fds[fd].offset;
    var size, blocks := st.v.table[i].size, BlocksWritten(|st.s.files[i].data|, offset, |buf|);
    && WriteFits(|st.s.files[i].data|, |FreeBlocks(st.v.bitmap)|, offset, |buf|)
    && Max(size, offset + |buf|) <= blocks * BLOCK_SIZE
    && WrittenContent(BytesOf(st.v, st.s, i), size, offset, buf, blocks) == Patch(Content(st.v, st.s, i), offset, buf)
  }

  /** A write comes out right for all buffers of a length just inside the guard. */
  lemma WritesIff(st: State, fd: int, n: nat)
    requires ValidState(st) && Opened(st, fd)
    ensures (forall buf: seq<byte> :: |buf| == n ==> WritesBuf(st, fd, buf)) <==> Writes(st, fd, n)
  {
    var i, offset := st.fds[fd].inodeNum, st.fds[fd].offset;
    var size, bytes := st.v.table[i].size, BytesOf(st.v, st.s, i);
    BytesLength(st.v, st.s, i);
    FileRange(st.v, st.s, i);
    SizeRange(st.v, st.s, i);
    hide Owned, SizesOK, DirOK, RefsExact, OneLevel, BytesOf, Patch, WrittenContent, WriteExact, FreeBlocks;
    if WriteFits(|st.s.files[i].data|, |FreeBlocks(st.v.bitmap)|, offset, n) {
      var blocks := BlocksWritten(|st.s.files[i].data|, offset, n);
      WritePatchesIff(bytes, size, offset, n, blocks);
      forall buf: seq<byte> | |buf| == n
        ensures WritesBuf(st, fd, buf)
                <==> WrittenContent(bytes, size, offset, buf, blocks) == Patch(bytes[..size], offset, buf)
      {
      }
    } else {
      assert !WritesBuf(st, fd, Zeros(n));
    }
  }

  lemma GuardMeets(st: State, op: Op)
    requires ValidState(st) && Guard(st, op)
    ensures Meets(st, op)
  {
    if op.Write? && Opened(st, op.fd) {
      WritesIff(st, op.fd, |op.buf|);
      hide WritesBuf, Writes, ValidState;
    }
  }

  /** What the calls do between two valid states, as their methods promise. */
  ghost predicate Did(st: State, op: Op, reply: Reply, st': State)
    requires ValidState(st)
  {
    var v, s, fds, v', s', fds' := st.v, st.s, st.fds, st'.v, st'.s, st'.fds;
    var failed := st' == st && reply == Reply(-1, []);
    && ValidState(st')
    && match op
       case Create(name) =>
         if !Creatable(v.dir, name) then failed
         else CreateEffect(v, s, v', s', FreeSlot(v.dir), name) && fds' == fds && reply == Reply(0, [])
       case Delete(name) =>
         var i := Lookup(v.dir, name);
         if i >= MAX_FILES || v.dir[i].refCnt > 0 || name == [] then failed
         else DeleteEffect(v, s, v', s', i) && fds' == fds && reply == Reply(0, [])
       case OpenFile(name) =>
         var i, d := Lookup(v.dir, name), reply.value;
         if i >= MAX_FILES || forall e :: 0 <= e < MAX_FDS ==> fds[e].used then failed
         else
           && 0 <= d < MAX_FDS && !fds[d].used && (forall e :: 0 <= e < d ==> fds[e].used)
           && v' == v.(dir := v.dir[i := v.dir[i].(refCnt := v.dir[i].refCnt + 1)]) && s' == s
           && fds' == fds[d := FileDescriptor(true, i, 0)] && reply.data == []
       case Close(fd) =>
         if !Opened(st, fd) then failed
         else
           var i := fds[fd].inodeNum;
           && v' == v.(dir := v.dir[i := v.dir[i].(refCnt := v.dir[i].refCnt - 1)]) && s' == s
           && fds' == fds[fd := FileDescriptor(false, -1, 0)] && reply == Reply(0, [])
       case Write(fd, buf) =>
         if !Opened(st, fd) then failed
         else
           var i, offset := fds[fd].inodeNum, fds[fd].offset;
           && WriteEffect(v, s, v', s', i, offset, buf)
           && fds' == fds[fd := fds[fd].(offset := offset + |buf|)] && reply == Reply(|buf|, [])
       case Read(fd, n) => st' == st && DidRead(st, fd, n, Returned(reply.value), reply.data)
       case Seek(fd, offset) =>
         if !(Opened(st, fd) && 0 <= offset <= v.table[fds[fd].inodeNum].size) then failed
         else v' == v && s' == s && fds' == fds[fd := fds[fd].(offset := offset)] && reply == Reply(0, [])
       case Truncate(fd, length) =>
         if !(Opened(st, fd) && 0 <= length <= v.table[fds[fd].inodeNum].size) then failed
         else
           var i, offset := fds[fd].inodeNum, fds[fd].offset;
           && TruncateEffect(v, s, v', s', i, BlocksKept(|s.files[i].data|, offset), length)
           && fds' == fds && reply == Reply(0, [])
       case Remount =>
         && v'.dir == v.dir && v'.table == v.table && v'.bitmap == v.bitmap && s' == s
         && (forall i :: UsedFile(v, i) ==> BytesOf(v', s, i) == BytesOf(v, s, i))
         && (forall d :: 0 <= d < MAX_FDS ==> !fds'[d].used) && reply == Reply(0, [])
  }

  /** What `fs_read` gives, whether or not the offset lies in the file. */
  ghost predicate DidRead(st: State, fd: int, n: nat, r: Outcome, data: seq<byte>)
    requires ValidState(st)
  {
    if !Opened(st, fd) then r == BadDescriptor(fd) && data == []
    else
      var i, offset := st.fds[fd].inodeNum, st.fds[fd].offset;
      var m := ReadCount(st.v.table[i].size, offset, n);
      if offset < LEVEL_BYTES && (offset + m) / BLOCK_SIZE < |st.s.files[i].data| then
        r == Returned(m) && offset + m <= |BytesOf(st.v, st.s, i)| && data == BytesOf(st.v, st.s, i)[offset..offset + m]
      else
        (r == Returned(-1) || r == Undefined) && data == []
  }

  /** The map `f` is what the state holds. */
  ghost predicate Means(st: State, f: Files) {
    ValidState(st) && Holds(Slots(st.v, st.s), st.fds, f)
  }

  ghost predicate Refines(st: State, op: Op, reply: Reply, st': State, f: Files) {
    Means(st', Step(f, op).0) && reply == Step(f, op).1
  }

  lemma FdFacts(st: State, f: Files, fd: int)
    requires Means(st, f)
    ensures |st.fds| == MAX_FDS && |st.v.dir| == |st.v.table| == |st.s.files| == MAX_FILES
    ensures OpenHandle(f, fd) <==> 0 <= fd < MAX_FDS && st.fds[fd].used
    ensures OpenHandle(f, fd) ==>
              var i := st.fds[fd].inodeNum;
              && UsedFile(st.v, i) && 0 <= st.fds[fd].offset < 0x8000_0000
              && f.handles[fd] == Open(st.v.dir[i].name, st.fds[fd].offset)
              && f.handles[fd].name in f.bytes && f.bytes[f.handles[fd].name] == Content(st.v, st.s, i)
              && Slots(st.v, st.s)[i] == Used(st.v.dir[i].name, Content(st.v, st.s, i))
  {
  }

  /** The call has the map's reply and leaves what stands for the map's result. */
  ghost predicate Agrees(f: Files, op: Op, r: Outcome, data: seq<byte>, v: Volume, fds: seq<FileDescriptor>) {
    && r == Returned(Step(f, op).1.value) && data == Step(f, op).1.data
    && exists s :: Means(State(v, s, fds), Step(f, op).0)
  }

  lemma SlotUsed(v: Volume, s: Shape)
    requires Owned(v, s) && SizesOK(v, s)
    ensures |v.dir| == MAX_FILES
    ensures forall i :: 0 <= i < MAX_FILES ==> Slots(v, s)[i].Used? == v.dir[i].used
    ensures forall i :: 0 <= i < MAX_FILES && v.dir[i].used ==> Slots(v, s)[i].name == v.dir[i].name
  {
  }

  lemma CreateRefines(st: State, name: Name, reply: Reply, st': State, f: Files)
    requires Means(st, f) && Guard(st, Create(name)) && Did(st, Create(name), reply, st')
    ensures Refines(st, Create(name), reply, st', f)
  {
    hide Owned, SizesOK, CreateEffect, Holds, DirOK, RefsExact;
    SlotUsed(st.v, st.s);
    if Creatable(st.v.dir, name) {
      CreateFacts(st, st', FreeSlot(st.v.dir), name);
      CreateSlots(st.v, st.s, st'.v, st'.s, FreeSlot(st.v.dir), name);
      CreateHolds(Slots(st.v, st.s), st.fds, f, FreeSlot(st.v.dir), name);
    } else {
      assert || |name| > MAX_NAME
             || (exists j :: 0 <= j < MAX_FILES && Slots(st.v, st.s)[j].Used? && Slots(st.v, st.s)[j].name == name)
             || forall j :: 0 <= j < MAX_FILES ==> Slots(st.v, st.s)[j].Used? by {
        if j :| 0 <= j < MAX_FILES && st.v.dir[j].used && st.v.dir[j].name == name {
          assert Slots(st.v, st.s)[j].Used? && Slots(st.v, st.s)[j].name == name;
        }
      }
      NotCreated(Slots(st.v, st.s), st.fds, f, name);
    }
  }

  lemma CreateFacts(st: State, st': State, i: int, name: Name)
    requires CreateEffect(st.v, st.s, st'.v, st'.s, i, name)
    ensures |st.v.dir| == MAX_FILES && 0 <= i < MAX_FILES && !st.v.dir[i].used
  {
  }

  lemma DeleteRefines(st: State, name: Name, reply: Reply, st': State, f: Files)
    requires Means(st, f) && Guard(st, Delete(name)) && Did(st, Delete(name), reply, st')
    ensures Refines(st, Delete(name), reply, st', f)
  {
    hide Owned, SizesOK, DeleteEffect, Holds;
    SlotUsed(st.v, st.s);
    var i := Lookup(st.v.dir, name);
    LookupFound(st.v.dir, name, 0);
    if i < MAX_FILES && st.v.dir[i].refCnt <= 0 && name != [] {
      forall d | 0 <= d < MAX_FDS && st.fds[d].used ensures st.fds[d].inodeNum != i { OpenCounted(st.fds, d); }
      DeleteSlots(st.v, st.s, st'.v, st'.s, i);
      DeleteHolds(Slots(st.v, st.s), st.fds, f, i);
    } else {
      if i < MAX_FILES && name != [] {
        if forall d :: 0 <= d < MAX_FDS && st.fds[d].used ==> st.fds[d].inodeNum != i { NotOpen(st.fds, i); }
        var d :| 0 <= d < MAX_FDS && st.fds[d].used && st.fds[d].inodeNum == i;
        assert Slots(st.v, st.s)[st.fds[d].inodeNum].name == name;
      }
      DeleteRefused(Slots(st.v, st.s), st.fds, f, name);
    }
  }

  lemma OpenRefines(st: State, name: Name, reply: Reply, st': State, f: Files)
    requires Means(st, f) && Guard(st, OpenFile(name)) && Did(st, OpenFile(name), reply, st')
    ensures Refines(st, OpenFile(name), reply, st', f)
  {
    hide Owned, SizesOK, Holds, RefsExact;
    SlotUsed(st.v, st.s);
    var i := Lookup(st.v.dir, name);
    LookupFound(st.v.dir, name, 0);
    if i < MAX_FILES && exists e :: 0 <= e < MAX_FDS && !st.fds[e].used {
      RefSlots(st.v, st'.v, st.s);
      OpenHolds(Slots(st.v, st.s), st.fds, f, reply.value, i);
    } else {
      OpenRefused(Slots(st.v, st.s), st.fds, f, name);
    }
  }

  lemma CloseRefines(st: State, fd: int, reply: Reply, st': State, f: Files)
    requires Means(st, f) && Guard(st, Close(fd)) && Did(st, Close(fd), reply, st')
    ensures Refines(st, Close(fd), reply, st', f)
  {
    hide Owned, SizesOK, Holds, RefsExact, DirOK;
    FdFacts(st, f, fd);
    if st.fds[fd].used {
      RefSlots(st.v, st'.v, st.s);
      CloseHolds(Slots(st.v, st.s), st.fds, f, fd);
    }
  }

  lemma WriteRefines(st: State, fd: int, buf: seq<byte>, reply: Reply, st': State, f: Files)
    requires Means(st, f) && Meets(st, Write(fd, buf)) && Did(st, Write(fd, buf), reply, st')
    ensures Refines(st, Write(fd, buf), reply, st', f)
  {
    hide Owned, SizesOK, Holds, RefsExact, DirOK, WriteEffect;
    FdFacts(st, f, fd);
    if OpenHandle(f, fd) {
      var i, offset := st.fds[fd].inodeNum, st.fds[fd].offset;
      WrittenIs(st.v, st.s, st'.v, st'.s, i, offset, buf);
      hide WrittenContent, Patch, Content, BytesOf;
      WriteSlots(st.v, st.s, st'.v, st'.s, i, offset, buf);
      WriteHolds(Slots(st.v, st.s), st.fds, f, fd, buf);
    }
  }

  /** A read has the map's reply exactly inside its guard. */
  lemma ReadIff(st: State, fd: int, n: nat, r: Outcome, data: seq<byte>, f: Files)
    requires Means(st, f) && DidRead(st, fd, n, r, data)
    ensures r == Returned(Step(f, Read(fd, n)).1.value) && data == Step(f, Read(fd, n)).1.data
            <==> Guard(st, Read(fd, n))
  {
    hide Owned, SizesOK, Holds, RefsExact, DirOK;
    FdFacts(st, f, fd);
    if OpenHandle(f, fd) {
      var i := st.fds[fd].inodeNum;
      BytesLength(st.v, st.s, i);
      SizeRange(st.v, st.s, i);
      ReadCountIff(Content(st.v, st.s, i), st.fds[fd].offset, n);
    }
  }

  lemma ReadRefines(st: State, fd: int, n: nat, reply: Reply, st': State, f: Files)
    requires Means(st, f) && Guard(st, Read(fd, n)) && Did(st, Read(fd, n), reply, st')
    ensures Refines(st, Read(fd, n), reply, st', f)
  {
    ReadIff(st, fd, n, Returned(reply.value), reply.data, f);
  }

  lemma SeekRefines(st: State, fd: int, offset: int, reply: Reply, st': State, f: Files)
    requires Means(st, f) && Guard(st, Seek(fd, offset)) && Did(st, Seek(fd, offset), reply, st')
    ensures Refines(st, Seek(fd, offset), reply, st', f)
  {
    hide Owned, SizesOK, Holds, RefsExact, DirOK;
    FdFacts(st, f, fd);
    if OpenHandle(f, fd) && 0 <= offset <= |f.bytes[f.handles[fd].name]| {
      MoveHolds(Slots(st.v, st.s), st.fds, f, fd, offset);
    }
  }

  lemma TruncateRefines(st: State, fd: int, length: int, reply: Reply, st': State, f: Files)
    requires Means(st, f) && Guard(st, Truncate(fd, length)) && Did(st, Truncate(fd, length), reply, st')
    ensures Refines(st, Truncate(fd, length), reply, st', f)
  {
    hide Owned, SizesOK, Holds, RefsExact, DirOK, TruncateEffect;
    FdFacts(st, f, fd);
    if OpenHandle(f, fd) && 0 <= length <= |f.bytes[f.handles[fd].name]| {
      var i, offset := st.fds[fd].inodeNum, st.fds[fd].offset;
      TruncateSlots(st.v, st.s, st'.v, st'.s, i, BlocksKept(|st.s.files[i].data|, offset), length);
      TruncateHolds(Slots(st.v, st.s), st.fds, f, fd, length);
    }
  }

  lemma RemountRefines(st: State, reply: Reply, st': State, f: Files)
    requires Means(st, f) && Guard(st, Remount) && Did(st, Remount, reply, st')
    ensures Refines(st, Remount, reply, st', f)
  {
    hide Owned, SizesOK, Holds, RefsExact, DirOK, BytesOf;
    SlotUsed(st.v, st.s);
    forall i | 0 <= i < MAX_FILES ensures Slots(st.v, st.s)[i] == SlotOf(st'.v, st'.s, i) {
      if UsedFile(st.v, i) { BytesLength(st.v, st.s, i); }
    }
    SlotsAre(st'.v, st'.s, Slots(st.v, st.s));
    DirRange(st'.v.dir, st'.fds);
    RemountHolds(Slots(st.v, st.s), st.fds, st'.fds, f);
  }

  lemma {:induction false} NotOpen(fds: seq<FileDescriptor>, i: int)
    requires forall d :: 0 <= d < |fds| && fds[d].used ==> fds[d].inodeNum != i
    ensures OpenCount(fds, i) == 0
  {
    if fds != [] { NotOpen(fds[..|fds| - 1], i); }
  }

  lemma {:induction false} LookupFound(dir: seq<DEntry>, name: Name, k: nat)
    requires k <= |dir|
    ensures k <= LookupFrom(dir, name, k) <= |dir|
    ensures LookupFrom(dir, name, k) < |dir| ==> dir[LookupFrom(dir, name, k)].name == name
    ensures forall j :: k <= j < LookupFrom(dir, name, k) ==> dir[j].name != name
    decreases |dir| - k
  {
    if k < |dir| && dir[k].name != name { LookupFound(dir, name, k + 1); }
  }

  /** One call does to the volume what it does to the map, and gives the same reply. */
  lemma CallRefines(st: State, op: Op, reply: Reply, st': State, f: Files)
    requires Means(st, f) && Meets(st, op) && Did(st, op, reply, st')
    ensures Means(st', Step(f, op).0) && reply == Step(f, op).1
  {
    hide Means, Guard, Did;
    match op
    case Create(name) => CreateRefines(st, name, reply, st', f);
    case Delete(name) => DeleteRefines(st, name, reply, st', f);
    case OpenFile(name) => OpenRefines(st, name, reply, st', f);
    case Close(fd) => CloseRefines(st, fd, reply, st', f);
    case Write(fd, buf) => WriteRefines(st, fd, buf, reply, st', f);
    case Read(fd, n) => ReadRefines(st, fd, n, reply, st', f);
    case Seek(fd, offset) => SeekRefines(st, fd, offset, reply, st', f);
    case Truncate(fd, length) => TruncateRefines(st, fd, length, reply, st', f);
    case Remount => RemountRefines(st, reply, st', f);
  }

  /** A run of calls, each made inside its guard. */
  ghost predicate IsRun(states: seq<State>, ops: seq<Op>, replies: seq<Reply>) {
    && |states| == |ops| + 1 && |replies| == |ops|
    && (forall k :: 0 <= k < |states| ==> ValidState(states[k]))
    && forall k :: 0 <= k < |ops| ==> Guard(states[k], ops[k]) && Did(states[k], ops[k], replies[k], states[k + 1])
  }

  /** Every run of the file system is a run of the map: it ends in what the map
      says, and gave the replies the map gives. */
  lemma {:induction false} RunRefines(states: seq<State>, ops: seq<Op>, replies: seq<Reply>, f: Files)
    requires IsRun(states, ops, replies) && Means(states[0], f)
    ensures Means(states[|ops|], Run(f, ops).0) && replies == Run(f, ops).1
  {
    hide Means, Guard, Did, ValidState;
    if ops != [] {
      var n := |ops| - 1;
      RunRefines(states[..n + 1], ops[..n], replies[..n], f);
      GuardMeets(states[n], ops[n]);
      CallRefines(states[n], ops[n], replies[n], states[n + 1], Run(f, ops[..n]).0);
      assert replies == replies[..n] + [replies[n]];
    }
  }

  /** A new file system means the empty map. */
  lemma FreshMeans(st: State)
    requires ValidState(st) && forall i :: 0 <= i < MAX_FILES ==> !st.v.dir[i].used
    requires forall d :: 0 <= d < MAX_FDS ==> !st.fds[d].used
    ensures Means(st, NoFiles())
  {
    NoNames(Slots(st.v, st.s), MAX_FILES);
  }

  lemma {:induction false} NoNames(slots: seq<Slot>, k: nat)
    requires k <= |slots| && forall i :: 0 <= i < |slots| ==> slots[i].Empty?
    ensures Names(slots, k) == {}
  {
    if k > 0 { NoNames(slots, k - 1); }
  }
}
