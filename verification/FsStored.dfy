/** Bytes stored in a new file of a new file system are fetched again after a
    remount. */
module FsStored {
  import opened Bytes
  import opened FsBlocks
  import opened FsLayout
  import opened FsWriting
  import opened FsFiles
  import opened FsPersist
  import opened FsErase
  import opened FsSpec
  import opened FsRun
  import opened FsCode
  import opened FileSystem

  /** Storing bytes in a new file, remounting, and fetching them. */
  function StoreOps(name: Name, buf: seq<byte>): (ops: seq<Op>)
    ensures |ops| == 7
  {
    [Create(name), OpenFile(name), Write(0, buf), Close(0), Remount, OpenFile(name), Read(0, |buf|)]
  }

  /** What holds before call `k` of these, as far as the guards need it. */
  ghost predicate Phase(st: State, k: nat, name: Name) {
    match k
    case 0 => FreshState(st)
    case 1 => NoneOpen(st, 0) && OneFile(st)
    case 2 => NoneOpen(st, 1) && (Opened(st, 0) ==> OneFile(st) && st.fds[0].inodeNum == 0 && st.fds[0].offset == 0)
    case 3 => NoneOpen(st, 1)
    case 6 => NoneOpen(st, 1) && (Opened(st, 0) ==> st.fds[0].offset == 0)
    case _ => NoneOpen(st, 0)
  }

  ghost predicate NoneOpen(st: State, from: nat) {
    |st.fds| == MAX_FDS && forall d :: from <= d < MAX_FDS ==> !st.fds[d].used
  }

  /** One block of data in slot 0, and no other file. */
  ghost predicate OneFile(st: State) {
    && |st.v.dir| == |st.s.files| == MAX_FILES && |st.v.bitmap| == DISK_BLOCKS
    && (forall i :: 1 <= i < MAX_FILES ==> !st.v.dir[i].used)
    && |st.s.files[0].data| == 1 && |FreeBlocks(st.v.bitmap)| == DISK_BLOCKS - DATA_OFFSET - 3
  }

  lemma CreateFirst(st: State, name: Name)
    requires FreshState(st) && name != []
    ensures Sized(st.v) && FreeSlot(st.v.dir) == 0 && st.v.table[0].size == 0
    ensures |FreeBlocks(st.v.bitmap)| == DISK_BLOCKS - DATA_OFFSET
    ensures NoneOpen(st, 0) && forall i :: 0 <= i < MAX_FILES ==> !st.v.dir[i].used
  {
    hide Owned, SizesOK, DirOK, RefsExact, FreshVolume, NoOwners, FreeBlocks;
    FreshFacts(st.fds);
    FreeSlotFirst(st.v.dir, 0);
  }

  lemma PhaseGuard(st: State, k: nat, name: Name, buf: seq<byte>)
    requires ValidState(st) && k < 7 && Phase(st, k, name) && name != [] && |buf| < LEVEL_BYTES
    ensures Guard(st, StoreOps(name, buf)[k])
  {
    hide Owned, DirOK, RefsExact, OneLevel, FreshState, FreeBlocks;
    if k == 0 { CreateFirst(st, name); }
    if k == 6 && Opened(st, 0) {
      OpenRange(st.v.dir, st.fds, 0);
      SizeRange(st.v, st.s, st.fds[0].inodeNum);
    }
  }

  lemma CreatePhase(st: State, name: Name, reply: Reply, st': State)
    requires ValidState(st) && FreshState(st) && name != [] && Did(st, Create(name), reply, st')
    ensures NoneOpen(st', 0) && (Creatable(st.v.dir, name) ==> OneFile(st'))
  {
    hide Owned, SizesOK, DirOK, RefsExact, OneLevel, FreshState, FreeBlocks, FreeSlot, BytesOf;
    CreateFirst(st, name);
    SizedOwned(st'.v, st'.s);
    DirRange(st'.v.dir, st'.fds);
  }

  lemma OpenPhase(st: State, name: Name, reply: Reply, st': State)
    requires ValidState(st) && NoneOpen(st, 0) && OneFile(st) && name != [] && Did(st, OpenFile(name), reply, st')
    ensures Phase(st', 2, name)
  {
    LookupFound(st.v.dir, name, 0);
    hide Owned, SizesOK, RefsExact, OneLevel, FreeBlocks, Lookup;
  }

  lemma PhaseNext(st: State, k: nat, name: Name, buf: seq<byte>, reply: Reply, st': State)
    requires ValidState(st) && k < 6 && Phase(st, k, name) && name != [] && |name| <= MAX_NAME && |buf| < LEVEL_BYTES
    requires Did(st, StoreOps(name, buf)[k], reply, st')
    ensures Phase(st', k + 1, name)
  {
    hide Owned, SizesOK, DirOK, RefsExact, OneLevel, FreshState, FreeBlocks, OneFile, Creatable;
    if k == 0 {
      CreatePhase(st, name, reply, st');
      CreateFirst(st, name);
      assert Creatable(st.v.dir, name) by { AnyCreatable(st.v.dir, name); }
    } else if k == 1 {
      OpenPhase(st, name, reply, st');
    } else if k == 4 {
      DirRange(st'.v.dir, st'.fds);
    }
  }

  lemma AnyCreatable(dir: seq<DEntry>, name: Name)
    requires |dir| == MAX_FILES && |name| <= MAX_NAME && forall i :: 0 <= i < MAX_FILES ==> !dir[i].used
    ensures Creatable(dir, name)
  {
    assert !dir[0].used;
  }

  /** These calls are made inside their guards, from the start. */
  lemma StoreCareful(name: Name, buf: seq<byte>)
    requires name != [] && |name| <= 15 && 0 !in name && |buf| < 4194304
    ensures forall st :: FreshState(st) ==> Careful(st, StoreOps(name, buf))
  {
    hide FreshState, Careful, StoreOps;
    forall st | FreshState(st) ensures Careful(st, StoreOps(name, buf)) { StoreFrom(st, name, buf); }
  }

  lemma StoreFrom(st: State, name: Name, buf: seq<byte>)
    requires FreshState(st) && name != [] && |name| <= MAX_NAME && 0 !in name && |buf| < LEVEL_BYTES
    ensures Careful(st, StoreOps(name, buf))
  {
    hide Guard, Did, ValidState, Phase, FreshState;
    var ops := StoreOps(name, buf);
    assert forall k :: 0 <= k < 7 ==> Callable(ops[k]);
    hide StoreOps;
    forall states: seq<State>, replies: seq<Reply> |
      |replies| < 7 && IsRun(states, ops[..|replies|], replies) && states[0] == st
      ensures Callable(ops[|replies|]) && Guard(states[|replies|], ops[|replies|])
    {
      assert Phase(st, 0, name) by { PhaseStart(st, name); }
      StorePhase(states, ops, name, buf, replies, |replies|);
      PhaseGuard(states[|replies|], |replies|, name, buf);
    }
  }

  lemma PhaseStart(st: State, name: Name)
    requires FreshState(st)
    ensures Phase(st, 0, name)
  {
  }

  lemma {:induction false} StorePhase(states: seq<State>, ops: seq<Op>, name: Name, buf: seq<byte>,
          replies: seq<Reply>, k: nat)
    requires |ops| == 7 && ops == StoreOps(name, buf) && |replies| < 7 && IsRun(states, ops[..|replies|], replies)
    requires Phase(states[0], 0, name)
    requires k <= |replies| && name != [] && |name| <= MAX_NAME && |buf| < LEVEL_BYTES
    ensures Phase(states[k], k, name)
  {
    hide Guard, Did, ValidState, Phase, StoreOps;
    if k > 0 {
      StorePhase(states, ops, name, buf, replies, k - 1);
      assert ops[..|replies|][k - 1] == ops[k - 1];
      PhaseNext(states[k - 1], k - 1, name, buf, replies[k - 1], states[k]);
    }
  }

  lemma RunSnoc(f: Files, ops: seq<Op>, op: Op)
    ensures Run(f, ops + [op]).0 == Step(Run(f, ops).0, op).0
    ensures Run(f, ops + [op]).1 == Run(f, ops).1 + [Step(Run(f, ops).0, op).1]
  {
    assert (ops + [op])[..|ops|] == ops;
  }

  lemma {:induction false} RunLength(f: Files, ops: seq<Op>)
    ensures |Run(f, ops).1| == |ops|
  {
    if ops != [] { RunLength(f, ops[..|ops| - 1]); }
  }

  /** One file with these bytes, and at most handle 0 open on it. */
  function Holding(name: Name, buf: seq<byte>, h: Handle): Files {
    Files(map[name := buf], NoFiles().handles[0 := h])
  }

  lemma StepsOpen(name: Name, buf: seq<byte>)
    requires name != [] && |name| <= MAX_NAME
    ensures Step(NoFiles(), Create(name)).0 == Holding(name, [], Closed)
    ensures Step(Holding(name, buf, Closed), OpenFile(name)).0 == Holding(name, buf, Open(name, 0))
    ensures Step(Holding(name, buf, Closed), Remount).0 == Holding(name, buf, Closed)
  {
  }

  lemma StepsBytes(name: Name, buf: seq<byte>)
    ensures Step(Holding(name, [], Open(name, 0)), Write(0, buf)).0 == Holding(name, buf, Open(name, |buf|))
    ensures Step(Holding(name, buf, Open(name, |buf|)), Close(0)).0 == Holding(name, buf, Closed)
    ensures Step(Holding(name, buf, Open(name, 0)), Read(0, |buf|)).1 == Reply(|buf|, buf)
  {
    assert Patch([], 0, buf) == buf;
    assert Piece(buf, 0, |buf|) == buf;
  }

  /** On the map, the last of them gives back the bytes. */
  lemma StoreReplies(name: Name, buf: seq<byte>)
    requires name != [] && |name| <= MAX_NAME
    ensures |Run(NoFiles(), StoreOps(name, buf)).1| == 7
    ensures Run(NoFiles(), StoreOps(name, buf)).1[6] == Reply(|buf|, buf)
  {
    var ops := StoreOps(name, buf);
    RunLength(NoFiles(), ops);
    RunLength(NoFiles(), ops[..6]);
    assert Run(NoFiles(), ops[..0]).0 == NoFiles();
    StepsOpen(name, []);
    StepsOpen(name, buf);
    StepsBytes(name, buf);
    hide Step, Run, Holding, NoFiles;
    StoreStep(ops, 0, NoFiles(), Holding(name, [], Closed));
    StoreStep(ops, 1, Holding(name, [], Closed), Holding(name, [], Open(name, 0)));
    StoreStep(ops, 2, Holding(name, [], Open(name, 0)), Holding(name, buf, Open(name, |buf|)));
    StoreStep(ops, 3, Holding(name, buf, Open(name, |buf|)), Holding(name, buf, Closed));
    StoreStep(ops, 4, Holding(name, buf, Closed), Holding(name, buf, Closed));
    StoreStep(ops, 5, Holding(name, buf, Closed), Holding(name, buf, Open(name, 0)));
    RunSnoc(NoFiles(), ops[..6], ops[6]);
    assert ops[..6] + [ops[6]] == ops;
  }

  lemma StoreStep(ops: seq<Op>, k: nat, f: Files, g: Files)
    requires k < |ops| && Run(NoFiles(), ops[..k]).0 == f && Step(f, ops[k]).0 == g
    ensures Run(NoFiles(), ops[..k + 1]).0 == g
  {
    RunSnoc(NoFiles(), ops[..k], ops[k]);
    assert ops[..k] + [ops[k]] == ops[..k + 1];
  }

  /** Bytes stored in a new file of a new file system are what is fetched after
      unmounting and mounting it again, whatever they are and below 4 MiB. */
  method StoreAndFetch(name: Name, buf: seq<byte>) returns (data: seq<byte>)
    requires name != [] && |name| <= 15 && 0 !in name && |buf| < 4194304
    ensures data == buf
  {
    hide Owned, SizesOK, DirOK, RefsExact, OpenCount, Careful, Holds, Run, FreshState;
    StoreCareful(name, buf);
    var fs := new FileSystem();
    var replies := RunFresh(fs, StoreOps(name, buf));
    StoreReplies(name, buf);
    data := replies[6].data;
  }
}
