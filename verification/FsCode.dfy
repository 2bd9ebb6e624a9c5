/** The code makes the calls of a run: each agrees with the map exactly inside its
    guard. */
module FsCode {
  import opened Bytes
  import opened FsBlocks
  import opened FsLayout
  import opened FsWriting
  import opened FsFiles
  import opened FsPersist
  import opened FsErase
  import opened FsSpec
  import opened FsRun
  import opened FileSystem

  ghost function StateOf(fs: FileSystem): State
    reads fs
  {
    State(fs.Vol(), fs.shape, fs.fds)
  }

  /** What is promised of a call: what it does if it is to come out right, and
      otherwise that it does not agree with the map. */
  ghost predicate Promised(st: State, op: Op, f: Files, r: Outcome, data: seq<byte>, st': State)
    requires ValidState(st)
  {
    if Meets(st, op) then r.Returned? && Did(st, op, Reply(r.value, data), st')
    else op == Delete([]) || !Agrees(f, op, r, data, st'.v, st'.fds)
  }

  lemma SameRefs(dir: seq<DEntry>, dir': seq<DEntry>, fds: seq<FileDescriptor>)
    requires RefsExact(dir, fds) && |dir'| == |dir| && forall i :: 0 <= i < |dir| ==> dir'[i].refCnt == dir[i].refCnt
    ensures RefsExact(dir', fds)
  {
  }

  lemma MoveRefs(dir: seq<DEntry>, fds: seq<FileDescriptor>, fd: int, offset: int)
    requires RefsExact(dir, fds) && 0 <= fd < |fds|
    ensures RefsExact(dir, fds[fd := fds[fd].(offset := offset)])
  {
    forall i | 0 <= i < |dir| ensures OpenCount(fds[fd := fds[fd].(offset := offset)], i) == OpenCount(fds, i) {
      SameOpenCount(fds, fds[fd := fds[fd].(offset := offset)], i);
    }
  }

  lemma CreateRefs(v: Volume, s: Shape, v': Volume, s': Shape, i: int, name: Name)
    requires CreateEffect(v, s, v', s', i, name)
    ensures |v'.dir| == |v.dir| && forall k :: 0 <= k < |v.dir| ==> v'.dir[k].refCnt == v.dir[k].refCnt
    ensures 0 <= i < |v'.table| && 0 <= i < |v.table| && v'.table[i].size == v.table[i].size
    ensures 0 <= i < |v'.dir| && v'.dir[i].used && v'.dir[i].name == name
  {
  }

  lemma DeleteRefs(v: Volume, s: Shape, v': Volume, s': Shape, i: int)
    requires DeleteEffect(v, s, v', s', i)
    ensures |v'.dir| == |v.dir| && forall k :: 0 <= k < |v.dir| ==> v'.dir[k].refCnt == v.dir[k].refCnt
  {
  }

  // ---- Each call

  /** A volume that stands for some map is consistent. */
  lemma MeansConsistent(fs: FileSystem, s: Shape, f: Files)
    requires fs.active && fs.super == MADE_SUPER && Means(State(fs.Vol(), s, fs.fds), f)
    ensures fs.Consistent()
  {
    assert fs.ValidWith(s);
  }

  lemma NotConsistent(fs: FileSystem, f: Files)
    requires fs.active && fs.super == MADE_SUPER && !fs.Consistent()
    ensures forall s :: !Means(State(fs.Vol(), s, fs.fds), f)
  {
    hide Means;
    forall s ensures !Means(State(fs.Vol(), s, fs.fds), f) {
      if Means(State(fs.Vol(), s, fs.fds), f) { MeansConsistent(fs, s, f); }
    }
  }

  /** The map's bytes of a file are its content. */
  lemma ContentMeant(v: Volume, s: Shape, fds: seq<FileDescriptor>, f: Files, i: int)
    requires Means(State(v, s, fds), f) && |v.dir| == MAX_FILES && UsedFile(v, i)
    ensures v.dir[i].name in f.bytes && f.bytes[v.dir[i].name] == Content(v, s, i)
  {
    assert Slots(v, s)[i] == SlotOf(v, s, i);
  }

  /** What the map says of a file that the code creates. */
  lemma CreateMeant(st: State, f: Files, name: Name)
    requires Means(st, f) && Creatable(st.v.dir, name)
    ensures Step(f, Create(name)) == (f.(bytes := f.bytes[name := []]), Reply(0, []))
  {
    hide Owned, SizesOK, Holds, DirOK, RefsExact;
    SlotUsed(st.v, st.s);
    FreeSlotFirst(st.v.dir, 0);
    CreateHolds(Slots(st.v, st.s), st.fds, f, FreeSlot(st.v.dir), name);
  }

  /** A new file that is not empty is not what the map says. */
  lemma NotEmpty(v: Volume, fds: seq<FileDescriptor>, f: Files, name: Name, i: int)
    requires |v.table| == |v.dir| == MAX_FILES && 0 <= i < MAX_FILES
    requires v.dir[i].used && v.dir[i].name == name && v.table[i].size != 0
    requires name in f.bytes && f.bytes[name] == []
    ensures forall s :: !Means(State(v, s, fds), f)
  {
    hide Holds, Owned, SizesOK;
    forall s ensures !Means(State(v, s, fds), f) {
      if Means(State(v, s, fds), f) { ContentMeant(v, s, fds, f, i); }
    }
  }

  method DoCreate(fs: FileSystem, name: Name, ghost f: Files) returns (r: Outcome)
    requires fs.Valid() && fs.active && fs.mounted && Means(StateOf(fs), f) && Callable(Create(name))
    modifies fs
    ensures fs.active && fs.mounted && (old(Meets(StateOf(fs), Create(name))) ==> fs.Valid())
    ensures Promised(old(StateOf(fs)), Create(name), f, r, [], StateOf(fs))
  {
    hide Owned, SizesOK, DirOK, OpenCount, RefsExact, OneLevel, CreateEffect, Holds, Step;
    ghost var st := StateOf(fs);
    SizedOwned(st.v, st.s);
    DirRange(st.v.dir, st.fds);
    var rc := fs.FsCreate(name);
    r := Returned(rc);
    if Creatable(st.v.dir, name) {
      ghost var i := FreeSlot(st.v.dir);
      CreateMeant(st, f, name);
      if rc == 0 && fs.Consistent() {
        CreateRefs(st.v, st.s, fs.Vol(), fs.shape, i, name);
        SameRefs(st.v.dir, fs.dir, fs.fds);
        CreateLevels(st.v, st.s, fs.Vol(), fs.shape, i, name);
        SizedOwned(fs.Vol(), fs.shape);
        if st.v.table[i].size != 0 { NotEmpty(fs.Vol(), fs.fds, Step(f, Create(name)).0, name, i); }
      } else if rc == 0 {
        NotConsistent(fs, Step(f, Create(name)).0);
      }
    }
  }

  /** The map has no file of the empty name. */
  lemma NoEmptyName(st: State, f: Files)
    requires Means(st, f)
    ensures [] !in f.bytes && Step(f, OpenFile([])) == (f, Reply(-1, []))
  {
    if [] in f.bytes { var i := NameAt(Slots(st.v, st.s), MAX_FILES, []); }
  }

  method DoDelete(fs: FileSystem, name: Name, ghost f: Files) returns (r: Outcome)
    requires fs.Valid() && fs.active && fs.mounted && Means(StateOf(fs), f) && Callable(Delete(name))
    modifies fs
    ensures fs.active && fs.mounted && (old(Meets(StateOf(fs), Delete(name))) ==> fs.Valid())
    ensures Promised(old(StateOf(fs)), Delete(name), f, r, [], StateOf(fs))
  {
    hide Owned, SizesOK, DirOK, OpenCount, RefsExact, OneLevel, DeleteEffect, Holds, Step, NothingErased, EraseFile;
    ghost var st := StateOf(fs);
    SizedOwned(st.v, st.s);
    DirRange(st.v.dir, st.fds);
    r := fs.FsDelete(name);
    if name != [] && r == Returned(0) {
      DeleteRefs(st.v, st.s, fs.Vol(), fs.shape, Lookup(st.v.dir, name));
      SameRefs(st.v.dir, fs.dir, fs.fds);
      DeleteLevels(st.v, st.s, fs.Vol(), fs.shape, Lookup(st.v.dir, name));
    }
  }

  method DoOpen(fs: FileSystem, name: Name, ghost f: Files) returns (r: Outcome)
    requires fs.Valid() && fs.active && fs.mounted && Means(StateOf(fs), f) && Callable(OpenFile(name))
    modifies fs
    ensures fs.active && fs.mounted && (old(Meets(StateOf(fs), OpenFile(name))) ==> fs.Valid())
    ensures Promised(old(StateOf(fs)), OpenFile(name), f, r, [], StateOf(fs))
  {
    hide Owned, SizesOK, DirOK, OpenCount, RefsExact, Holds, Step;
    ghost var st := StateOf(fs);
    SizedOwned(st.v, st.s);
    DirRange(st.v.dir, st.fds);
    LookupFound(st.v.dir, name, 0);
    if name == [] { NoEmptyName(st, f); }
    var rc := fs.FsOpen(name);
    r := Returned(rc);
  }

  method DoClose(fs: FileSystem, fd: int, ghost f: Files) returns (r: Outcome)
    requires fs.Valid() && fs.active && fs.mounted && Means(StateOf(fs), f)
    modifies fs
    ensures fs.active && fs.mounted && fs.Valid()
    ensures Promised(old(StateOf(fs)), Close(fd), f, r, [], StateOf(fs))
  {
    hide Owned, SizesOK, DirOK, OpenCount, RefsExact, Holds, Step;
    ghost var st := StateOf(fs);
    SizedOwned(st.v, st.s);
    DirRange(st.v.dir, st.fds);
    r := fs.FsClose(fd);
  }

  method DoSeek(fs: FileSystem, fd: int, offset: int, ghost f: Files) returns (r: Outcome)
    requires fs.Valid() && fs.active && fs.mounted && Means(StateOf(fs), f)
    modifies fs
    ensures fs.active && fs.mounted && fs.Valid()
    ensures Promised(old(StateOf(fs)), Seek(fd, offset), f, r, [], StateOf(fs))
  {
    hide Owned, SizesOK, DirOK, OpenCount, RefsExact, Holds, Step;
    ghost var st := StateOf(fs);
    SizedOwned(st.v, st.s);
    DirRange(st.v.dir, st.fds);
    r := fs.FsLseek(fd, offset);
    if Opened(st, fd) { MoveRefs(st.v.dir, st.fds, fd, offset); }
  }

  method DoTruncate(fs: FileSystem, fd: int, length: int, ghost f: Files) returns (r: Outcome)
    requires fs.Valid() && fs.active && fs.mounted && Means(StateOf(fs), f)
    modifies fs
    ensures fs.active && fs.mounted && (old(Meets(StateOf(fs), Truncate(fd, length))) ==> fs.Valid())
    ensures Promised(old(StateOf(fs)), Truncate(fd, length), f, r, [], StateOf(fs))
  {
    hide Owned, SizesOK, DirOK, OpenCount, RefsExact, OneLevel, TruncateEffect, Holds, Step;
    ghost var st := StateOf(fs);
    SizedOwned(st.v, st.s);
    DirRange(st.v.dir, st.fds);
    r := fs.FsTruncate(fd, length);
    if Opened(st, fd) { OpenRange(st.v.dir, st.fds, fd); }
    if Opened(st, fd) && 0 <= length <= st.v.table[st.fds[fd].inodeNum].size {
      ghost var i, offset := st.fds[fd].inodeNum, st.fds[fd].offset;
      if fs.Consistent() {
        TruncateLevels(st.v, st.s, fs.Vol(), fs.shape, i, BlocksKept(|st.s.files[i].data|, offset), length);
        TruncateRefs(st.v, st.s, fs.Vol(), fs.shape, i, BlocksKept(|st.s.files[i].data|, offset), length);
      } else {
        NotConsistent(fs, Step(f, Truncate(fd, length)).0);
      }
    }
  }

  lemma TruncateRefs(v: Volume, s: Shape, v': Volume, s': Shape, i: int, keep: nat, size: int)
    requires TruncateEffect(v, s, v', s', i, keep, size)
    ensures v'.dir == v.dir
  {
  }

  method DoRemount(fs: FileSystem, ghost f: Files) returns (r: Outcome)
    requires fs.Valid() && fs.active && fs.mounted && Means(StateOf(fs), f)
    modifies fs
    ensures fs.active && fs.mounted && fs.Valid()
    ensures Promised(old(StateOf(fs)), Remount, f, r, [], StateOf(fs))
  {
    hide Owned, SizesOK, DirOK, OpenCount, RefsExact, BytesOf, Holds, Step;
    ghost var st := StateOf(fs);
    SizedOwned(st.v, st.s);
    DirRange(st.v.dir, st.fds);
    CountsSmall(st.v.dir, st.fds);
    var rc := fs.Remount();
    r := Returned(rc);
    SizedOwned(fs.Vol(), fs.shape);
    forall i | UsedFile(st.v, i) ensures BytesOf(fs.Vol(), st.s, i) == BytesOf(st.v, st.s, i) {
      assert fs.Bytes(i) == old(fs.Bytes(i));
    }
  }

  lemma CountsSmall(dir: seq<DEntry>, fds: seq<FileDescriptor>)
    requires RefsExact(dir, fds) && |fds| == MAX_FDS
    ensures forall i :: 0 <= i < |dir| ==> dir[i].refCnt < 0x8000_0000
  {
    forall i | 0 <= i < |dir| ensures dir[i].refCnt < 0x8000_0000 { CountMost(fds, i); }
  }

  lemma {:induction false} CountMost(fds: seq<FileDescriptor>, i: int)
    ensures OpenCount(fds, i) <= |fds|
  {
    if fds != [] { CountMost(fds[..|fds| - 1], i); }
  }

  /** Whatever shape explains it, the content is what the write has made it. */
  lemma WriteMeant(st: State, fd: int, buf: seq<byte>, v: Volume, s: Shape, t: Shape, fds: seq<FileDescriptor>,
          f: Files)
    requires Means(st, f) && Opened(st, fd) && SizesOK(v, s)
    requires WriteEffect(st.v, st.s, v, s, st.fds[fd].inodeNum, st.fds[fd].offset, buf)
    requires WriteFits(|st.s.files[st.fds[fd].inodeNum].data|, |FreeBlocks(st.v.bitmap)|, st.fds[fd].offset, |buf|)
    requires Means(State(v, t, fds), Step(f, Write(fd, buf)).0)
    ensures WritesBuf(st, fd, buf)
  {
    var i, offset := st.fds[fd].inodeNum, st.fds[fd].offset;
    WriteRefs(st.v, st.s, v, s, i, offset, buf);
    hide WriteEffect, Holds, Owned, SizesOK, DirOK, RefsExact, OneLevel, BytesOf;
    hide Step, Patch, WrittenContent, WriteFits;
    FdFacts(st, f, fd);
    WrittenIs(st.v, st.s, v, s, i, offset, buf);
    ContentMeant(v, t, fds, Step(f, Write(fd, buf)).0, i);
    SameContent(v, s, t, i);
    WriteReply(f, fd, buf);
  }

  lemma SameContent(v: Volume, s: Shape, t: Shape, i: int)
    requires Owned(v, s) && SizesOK(v, s) && Owned(v, t) && SizesOK(v, t) && UsedFile(v, i)
    ensures Content(v, s, i) == Content(v, t, i)
  {
    LayoutIsUnique(v, s, t, i);
  }

  lemma WriteReply(f: Files, fd: int, buf: seq<byte>)
    requires OpenHandle(f, fd)
    ensures Step(f, Write(fd, buf)).1 == Reply(|buf|, [])
    ensures var Open(name, offset), g := f.handles[fd], Step(f, Write(fd, buf)).0;
      name in g.bytes && g.bytes[name] == Patch(f.bytes[name], offset, buf)
  {
  }

  lemma WriteRefs(v: Volume, s: Shape, v': Volume, s': Shape, i: int, offset: nat, buf: seq<byte>)
    requires WriteEffect(v, s, v', s', i, offset, buf)
    ensures v'.dir == v.dir && Owned(v', s')
  {
  }

  method DoWrite(fs: FileSystem, fd: int, buf: seq<byte>, ghost f: Files) returns (r: Outcome)
    requires fs.Valid() && fs.active && fs.mounted && Means(StateOf(fs), f) && Callable(Write(fd, buf))
    modifies fs
    ensures fs.active && fs.mounted && (old(Meets(StateOf(fs), Write(fd, buf))) ==> fs.Valid())
    ensures Promised(old(StateOf(fs)), Write(fd, buf), f, r, [], StateOf(fs))
  {
    hide Owned, SizesOK, DirOK, OpenCount, RefsExact, OneLevel, BytesOf, Holds, Step, WriteEffect;
    ghost var st := StateOf(fs);
    SizedOwned(st.v, st.s);
    DirRange(st.v.dir, st.fds);
    r := fs.FsWrite(fd, buf);
    if Opened(st, fd) {
      OpenRange(st.v.dir, st.fds, fd);
      ghost var i, offset := st.fds[fd].inodeNum, st.fds[fd].offset;
      if WriteFits(|st.s.files[i].data|, |FreeBlocks(st.v.bitmap)|, offset, |buf|) {
        MoveRefs(st.v.dir, st.fds, fd, offset + |buf|);
        WriteRefs(st.v, st.s, fs.Vol(), fs.shape, i, offset, buf);
        WriteLevels(st.v, st.s, fs.Vol(), fs.shape, i, offset, buf);
        forall t | Means(State(fs.Vol(), t, fs.fds), Step(f, Write(fd, buf)).0) ensures WritesBuf(st, fd, buf) {
          WriteMeant(st, fd, buf, fs.Vol(), fs.shape, t, fs.fds, f);
        }
      } else {
        FdFacts(st, f, fd);
        WriteReply(f, fd, buf);
        if r == Returned(|buf|) { NotConsistent(fs, Step(f, Write(fd, buf)).0); }
      }
    }
  }

  method DoRead(fs: FileSystem, fd: int, n: nat, ghost f: Files) returns (r: Outcome, data: seq<byte>)
    requires fs.Valid() && fs.active && fs.mounted && Means(StateOf(fs), f) && Callable(Read(fd, n))
    ensures Promised(StateOf(fs), Read(fd, n), f, r, data, StateOf(fs))
  {
    hide Owned, SizesOK, DirOK, OpenCount, RefsExact, OneLevel, BytesOf, Holds, Step;
    ghost var st := StateOf(fs);
    SizedOwned(st.v, st.s);
    DirRange(st.v.dir, st.fds);
    if Opened(st, fd) { OpenRange(st.v.dir, st.fds, fd); }
    var buf := new byte[n];
    r := fs.FsRead(fd, buf, n);
    data := if r.Returned? && 0 <= r.value <= n then buf[..r.value] else [];
    ReadIff(st, fd, n, r, data, f);
  }

  /** Each call: it has the map's reply and leaves what stands for the map's result
      if and only if it is made inside its guard, a write being judged by its own
      buffer (see `WritesIff`). Deleting the empty name may agree by chance. */
  method Do(fs: FileSystem, op: Op, ghost f: Files) returns (r: Outcome, data: seq<byte>)
    requires fs.Valid() && fs.active && fs.mounted && Means(StateOf(fs), f) && Callable(op)
    modifies fs
    ensures fs.active && fs.mounted
    ensures op != Delete([]) ==> (Agrees(f, op, r, data, fs.Vol(), fs.fds) <==> old(Meets(StateOf(fs), op)))
    ensures old(Meets(StateOf(fs), op)) ==>
      fs.Valid() && r.Returned? && Did(old(StateOf(fs)), op, Reply(r.value, data), StateOf(fs))
  {
    hide Owned, SizesOK, DirOK, RefsExact, OneLevel, Holds, Meets, Did, Guard, Step;
    ghost var st := StateOf(fs);
    data := [];
    match op {
      case Create(name) => r := DoCreate(fs, name, f);
      case Delete(name) => r := DoDelete(fs, name, f);
      case OpenFile(name) => r := DoOpen(fs, name, f);
      case Close(fd) => r := DoClose(fs, fd, f);
      case Write(fd, buf) => r := DoWrite(fs, fd, buf, f);
      case Read(fd, n) => r, data := DoRead(fs, fd, n, f);
      case Seek(fd, offset) => r := DoSeek(fs, fd, offset, f);
      case Truncate(fd, length) => r := DoTruncate(fs, fd, length, f);
      case Remount => r := DoRemount(fs, f);
    }
    if Meets(st, op) {
      CallRefines(st, op, Reply(r.value, data), StateOf(fs), f);
      assert Means(State(fs.Vol(), fs.shape, fs.fds), Step(f, op).0);
    }
  }

  // ---- Runs

  /** Whatever the calls before it have done, each call is made inside its guard. */
  ghost predicate Careful(st: State, ops: seq<Op>) {
    forall states: seq<State>, replies: seq<Reply> {:trigger IsRun(states, ops[..|replies|], replies)} ::
      |replies| < |ops| && IsRun(states, ops[..|replies|], replies) && states[0] == st ==>
        Callable(ops[|replies|]) && Guard(states[|replies|], ops[|replies|])
  }

  /** A careful run of the code gives the replies of the map, and ends in what the
      map says. */
  method RunCalls(fs: FileSystem, ops: seq<Op>, ghost f: Files) returns (replies: seq<Reply>)
    requires fs.Valid() && fs.active && fs.mounted && Means(StateOf(fs), f) && Careful(StateOf(fs), ops)
    modifies fs
    ensures fs.Valid() && fs.active && fs.mounted
    ensures replies == Run(f, ops).1 && Means(StateOf(fs), Run(f, ops).0)
  {
    hide Guard, Meets, Did, Holds, Owned, SizesOK, DirOK, RefsExact, OneLevel, OpenCount, Run;
    replies := [];
    ghost var start := StateOf(fs);
    ghost var states := [start];
    for n := 0 to |ops|
      invariant fs.Valid() && fs.active && fs.mounted
      invariant |replies| == n && IsRun(states, ops[..n], replies) && states[0] == start && states[n] == StateOf(fs)
    {
      RunRefines(states, ops[..n], replies, f);
      GuardMeets(states[n], ops[n]);
      var r, data := Do(fs, ops[n], Run(f, ops[..n]).0);
      MoreRun(states, ops, replies, Reply(r.value, data), StateOf(fs));
      states := states + [StateOf(fs)];
      replies := replies + [Reply(r.value, data)];
    }
    RunRefines(states, ops[..|ops|], replies, f);
    assert ops[..|ops|] == ops;
  }

  lemma MoreRun(states: seq<State>, ops: seq<Op>, replies: seq<Reply>, reply: Reply, st: State)
    requires |replies| < |ops| && IsRun(states, ops[..|replies|], replies)
    requires Guard(states[|replies|], ops[|replies|]) && Did(states[|replies|], ops[|replies|], reply, st)
    ensures IsRun(states + [st], ops[..|replies| + 1], replies + [reply])
  {
    assert ValidState(st);
    hide ValidState, Guard, Did;
    var n, states' := |replies|, states + [st];
    forall k | 0 <= k <= n
      ensures Guard(states'[k], ops[..n + 1][k])
      ensures Did(states'[k], ops[..n + 1][k], (replies + [reply])[k], states'[k + 1])
    {
      if k < n { assert ops[..n][k] == ops[..n + 1][k]; }
    }
  }

  // ---- From the start

  /** A new file system that has just been mounted. */
  ghost predicate FreshState(st: State) {
    && st.v == FreshVolume() && st.s == NoOwners()
    && |st.fds| == MAX_FDS && forall d :: 0 <= d < MAX_FDS ==> !st.fds[d].used
  }

  /** A run from the start: making, mounting, and then any careful calls. */
  method RunFresh(fs: FileSystem, ops: seq<Op>) returns (replies: seq<Reply>)
    requires !fs.active && !fs.mounted && |fs.fds| == MAX_FDS && |fs.bitmap| == DISK_BLOCKS
    requires forall st :: FreshState(st) ==> Careful(st, ops)
    modifies fs
    ensures fs.Valid() && fs.active && fs.mounted
    ensures replies == Run(NoFiles(), ops).1 && Means(StateOf(fs), Run(NoFiles(), ops).0)
  {
    hide Owned, SizesOK, DirOK, RefsExact, OpenCount, Careful, Holds, Run, FreshVolume;
    MakeFresh(fs);
    replies := RunCalls(fs, ops, NoFiles());
  }

  method MakeFresh(fs: FileSystem)
    requires !fs.active && !fs.mounted && |fs.fds| == MAX_FDS && |fs.bitmap| == DISK_BLOCKS
    modifies fs
    ensures fs.Valid() && fs.active && fs.mounted
    ensures FreshState(StateOf(fs)) && Means(StateOf(fs), NoFiles())
  {
    hide Owned, SizesOK, DirOK, RefsExact, OpenCount, Holds, FreshVolume, NoOwners;
    fs.MakeAndMount();
    SizedOwned(fs.Vol(), fs.shape);
    FreshMeans(StateOf(fs));
  }
}
