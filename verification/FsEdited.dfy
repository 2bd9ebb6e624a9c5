/** A run through all calls but remounting: every reply is known from the start. */
module FsEdited {
  import opened Bytes
  import opened FsBlocks
  import opened FsLayout
  import opened FsWriting
  import opened FsFiles
  import opened FsErase
  import opened FsSpec
  import opened FsRun
  import opened FsCode
  import opened FsStored
  import opened FileSystem

  /** What holds before call `k`, as far as the guards need it. */
  ghost predicate EditPhase(st: State, k: nat, size: nat, at: nat, end: nat) {
    NoneOpen(st, 1) &&
    match k
    case 0 => FreshState(st)
    case 1 => NoneOpen(st, 0) && OneFile(st)
    case 2 => Opened(st, 0) ==> OneFile(st) && st.fds[0].inodeNum == 0 && st.fds[0].offset == 0
    case 3 => Opened(st, 0) ==> RoomLeft(st) && st.v.table[0].size >= size
    case 4 => Opened(st, 0) ==> RoomLeft(st) && at == st.fds[0].offset <= st.v.table[0].size
    case 5 => Opened(st, 0) ==> st.fds[0].offset == end
    case 7 => Opened(st, 0) ==> st.fds[0].offset == 0
    case _ => true
  }

  /** Descriptor 0 is on file 0, which can have all blocks that are left. */
  ghost predicate RoomLeft(st: State) {
    && |st.v.dir| == |st.v.table| == |st.s.files| == MAX_FILES && |st.v.bitmap| == DISK_BLOCKS
    && Opened(st, 0) && st.fds[0].inodeNum == 0 && st.v.dir[0].used
    && |st.s.files[0].data| + |FreeBlocks(st.v.bitmap)| == DISK_BLOCKS - DATA_OFFSET - 2
  }

  lemma WriteFirst(st: State, buf: seq<byte>, reply: Reply, st': State)
    requires ValidState(st) && EditPhase(st, 2, 0, 0, 0) && Did(st, Write(0, buf), reply, st')
    ensures EditPhase(st', 3, |buf|, 0, 0)
  {
    hide Did, ValidState, WriteEffect, FreeBlocks;
    WriteDid(st, buf, reply, st');
    if Opened(st, 0) {
      EffectDid(st, buf, reply, st');
      WriteCounts(st.v, st.s, st'.v, st'.s, 0, 0, buf);
    }
  }

  lemma EffectDid(st: State, buf: seq<byte>, reply: Reply, st': State)
    requires ValidState(st) && Opened(st, 0) && Did(st, Write(0, buf), reply, st') && st.fds[0].offset >= 0
    ensures WriteEffect(st.v, st.s, st'.v, st'.s, st.fds[0].inodeNum, st.fds[0].offset, buf)
  {
    hide WriteEffect, Owned, SizesOK, DirOK, RefsExact, OneLevel;
  }

  lemma WriteCounts(v: Volume, s: Shape, v': Volume, s': Shape, i: int, offset: nat, buf: seq<byte>)
    requires WriteEffect(v, s, v', s', i, offset, buf)
    ensures |v'.dir| == |v'.table| == |s'.files| == |s.files| == MAX_FILES && |v'.bitmap| == |v.bitmap| == DISK_BLOCKS
    ensures UsedFile(v', i) && v'.table[i].size >= offset + |buf|
    ensures |s'.files[i].data| + |FreeBlocks(v'.bitmap)| == |s.files[i].data| + |FreeBlocks(v.bitmap)|
  {
  }

  /** These calls. */
  function EditOps(name: Name, buf: seq<byte>, at: nat, patch: seq<byte>, length: nat): (ops: seq<Op>)
    ensures |ops| == 11
  {
    [Create(name), OpenFile(name), Write(0, buf), Seek(0, at), Write(0, patch), Truncate(0, length), Seek(0, 0),
     Read(0, 4194304), Close(0), Delete(name), OpenFile(name)]
  }

  lemma WritesAt(st: State, at: nat, buf: seq<byte>)
    requires ValidState(st) && Opened(st, 0) && st.fds[0].inodeNum == 0 && st.fds[0].offset == at
    requires RoomLeft(st) && at <= st.v.table[0].size && at + |buf| < 4194304 && (at == 0 || at % 1024 != 0)
    ensures Guard(st, Write(0, buf))
  {
    hide Owned, SizesOK, DirOK, RefsExact, OneLevel, FreeBlocks, BytesOf;
    SizeRange(st.v, st.s, 0);
    WriteFitsIff(|st.s.files[0].data|, |FreeBlocks(st.v.bitmap)|, at, |buf|);
    hide WriteFits;
  }

  lemma TruncatesAt(st: State, end: nat, length: nat)
    requires ValidState(st) && (Opened(st, 0) ==> st.fds[0].offset == end) && length <= end
    ensures Guard(st, Truncate(0, length))
  {
    if Opened(st, 0) {
      var i := st.fds[0].inodeNum;
      SizeRange(st.v, st.s, i);
      TruncateCounts(|st.s.files[i].data|, end, length);
      hide TruncateFits;
      if length <= st.v.table[i].size { assert length / 4096 <= end / 4096; }
    }
  }

  lemma EditGuard(st: State, k: nat, name: Name, buf: seq<byte>, at: nat, patch: seq<byte>, length: nat)
    requires ValidState(st) && k < 11 && EditPhase(st, k, |buf|, at, at + |patch|) && name != []
    requires |buf| < 4194304 && at <= |buf| && at + |patch| < 4194304 && length <= at + |patch|
    requires at == 0 || at % 1024 != 0
    ensures Guard(st, EditOps(name, buf, at, patch, length)[k])
  {
    hide ValidState, Guard, EditPhase;
    if k == 0 {
      CreateGuard(st, name, |buf|, at, at + |patch|);
    } else if k == 2 {
      FirstGuard(st, buf, at, at + |patch|);
    } else if k == 4 {
      PatchGuard(st, |buf|, at, patch);
    } else if k == 5 {
      TruncateGuard(st, |buf|, at, at + |patch|, length);
    } else if k == 7 {
      ReadGuard(st, |buf|, at, at + |patch|);
    } else {
      PlainGuard(st, EditOps(name, buf, at, patch, length)[k]);
    }
  }

  lemma CreateGuard(st: State, name: Name, size: nat, at: nat, end: nat)
    requires ValidState(st) && EditPhase(st, 0, size, at, end) && name != []
    ensures Guard(st, Create(name))
  {
    hide ValidState, FreshState;
    CreateFirst(st, name);
  }

  lemma FirstGuard(st: State, buf: seq<byte>, at: nat, end: nat)
    requires ValidState(st) && EditPhase(st, 2, |buf|, at, end) && |buf| < 4194304
    ensures Guard(st, Write(0, buf))
  {
    hide ValidState, Writes;
    if Opened(st, 0) {
      FirstRoom(st);
      WritesAt(st, 0, buf);
    }
  }

  lemma PatchGuard(st: State, size: nat, at: nat, patch: seq<byte>)
    requires ValidState(st) && EditPhase(st, 4, size, at, at + |patch|) && at + |patch| < 4194304
    requires at == 0 || at % 1024 != 0
    ensures Guard(st, Write(0, patch))
  {
    hide ValidState, Writes;
    if Opened(st, 0) { WritesAt(st, at, patch); }
  }

  lemma TruncateGuard(st: State, size: nat, at: nat, end: nat, length: nat)
    requires ValidState(st) && EditPhase(st, 5, size, at, end) && length <= end
    ensures Guard(st, Truncate(0, length))
  {
    hide ValidState, Guard;
    TruncatesAt(st, end, length);
  }

  lemma ReadGuard(st: State, size: nat, at: nat, end: nat)
    requires ValidState(st) && EditPhase(st, 7, size, at, end)
    ensures Guard(st, Read(0, 4194304))
  {
    hide ValidState;
    if Opened(st, 0) { OpenSize(st); }
  }

  lemma OpenSize(st: State)
    requires ValidState(st) && Opened(st, 0)
    ensures var i := st.fds[0].inodeNum; 0 <= i < |st.v.table| && 0 <= st.v.table[i].size
  {
    hide Owned, DirOK, RefsExact, OneLevel;
    OpenRange(st.v.dir, st.fds, 0);
    SizeRange(st.v, st.s, st.fds[0].inodeNum);
  }

  lemma PlainGuard(st: State, op: Op)
    requires ValidState(st)
    requires match op
             case OpenFile(name) => name != []
             case Delete(name) => name != []
             case Close(fd) => fd == 0
             case Seek(fd, _) => fd == 0
             case _ => false
    ensures Guard(st, op)
  {
    hide ValidState;
  }

  lemma FirstRoom(st: State)
    requires ValidState(st) && Opened(st, 0) && OneFile(st) && st.fds[0].inodeNum == 0
    ensures RoomLeft(st) && 0 <= st.v.table[0].size
  {
    OpenRange(st.v.dir, st.fds, 0);
    SizeRange(st.v, st.s, 0);
  }

  lemma WriteDid(st: State, buf: seq<byte>, reply: Reply, st': State)
    requires ValidState(st) && NoneOpen(st, 1) && Did(st, Write(0, buf), reply, st')
    ensures NoneOpen(st', 1) && (Opened(st', 0) <==> Opened(st, 0))
    ensures Opened(st, 0) ==>
      st'.fds[0].inodeNum == st.fds[0].inodeNum && st'.fds[0].offset == st.fds[0].offset + |buf|
  {
    hide Owned, SizesOK, DirOK, RefsExact, OneLevel, WriteEffect;
  }

  lemma SeekDid(st: State, at: nat, reply: Reply, st': State)
    requires ValidState(st) && NoneOpen(st, 1) && Did(st, Seek(0, at), reply, st')
    ensures NoneOpen(st', 1) && st'.v == st.v && st'.s == st.s && (Opened(st', 0) <==> Opened(st, 0))
    ensures Opened(st, 0) ==>
      && st'.fds[0].inodeNum == st.fds[0].inodeNum && 0 <= st.fds[0].inodeNum < |st.v.table|
      && 0 <= st.v.table[st.fds[0].inodeNum].size
      && (at <= st.v.table[st.fds[0].inodeNum].size ==> st'.fds[0].offset == at)
  {
    hide Owned, SizesOK, DirOK, RefsExact, OneLevel;
    DirRange(st.v.dir, st.fds);
    SizedOwned(st.v, st.s);
    if Opened(st, 0) {
      OpenRange(st.v.dir, st.fds, 0);
      SizeRange(st.v, st.s, st.fds[0].inodeNum);
    }
  }

  lemma OthersClosed(st: State, op: Op, reply: Reply, st': State)
    requires ValidState(st) && NoneOpen(st, 1) && Did(st, op, reply, st')
    requires op.Truncate? || op.Read? || op.Close? || op.Delete?
    ensures NoneOpen(st', 1)
  {
    hide Owned, SizesOK, DirOK, RefsExact, OneLevel, TruncateEffect, DeleteEffect;
  }

  lemma EditNext(st: State, k: nat, name: Name, buf: seq<byte>, at: nat, patch: seq<byte>, length: nat, reply: Reply,
          st': State)
    requires ValidState(st) && k < 10 && EditPhase(st, k, |buf|, at, at + |patch|) && name != [] && |name| <= MAX_NAME
    requires at <= |buf| && Did(st, EditOps(name, buf, at, patch, length)[k], reply, st')
    ensures EditPhase(st', k + 1, |buf|, at, at + |patch|)
  {
    hide Did, ValidState, OneFile, EditPhase, EditOps;
    if k < 2 {
      EditEarly(st, k, name, buf, at, patch, length, reply, st');
    } else if k == 2 {
      EditWrite(st, name, buf, at, patch, length, reply, st');
    } else {
      EditLater(st, k, name, buf, at, patch, length, reply, st');
    }
  }

  lemma EditEarly(st: State, k: nat, name: Name, buf: seq<byte>, at: nat, patch: seq<byte>, length: nat, reply: Reply,
          st': State)
    requires ValidState(st) && k < 2 && EditPhase(st, k, |buf|, at, at + |patch|) && name != [] && |name| <= MAX_NAME
    requires Did(st, EditOps(name, buf, at, patch, length)[k], reply, st')
    ensures EditPhase(st', k + 1, |buf|, at, at + |patch|)
  {
    hide Did, ValidState, OneFile, Creatable;
    if k == 0 {
      CreatePhase(st, name, reply, st');
      CreateFirst(st, name);
      AnyCreatable(st.v.dir, name);
    } else {
      OpenPhase(st, name, reply, st');
    }
  }

  lemma EditWrite(st: State, name: Name, buf: seq<byte>, at: nat, patch: seq<byte>, length: nat, reply: Reply,
          st': State)
    requires ValidState(st) && EditPhase(st, 2, |buf|, at, at + |patch|)
    requires Did(st, EditOps(name, buf, at, patch, length)[2], reply, st')
    ensures EditPhase(st', 3, |buf|, at, at + |patch|)
  {
    hide Did, ValidState, OneFile, RoomLeft;
    WriteFirst(st, buf, reply, st');
  }

  lemma EditLater(st: State, k: nat, name: Name, buf: seq<byte>, at: nat, patch: seq<byte>, length: nat, reply: Reply,
          st': State)
    requires ValidState(st) && 3 <= k < 10 && EditPhase(st, k, |buf|, at, at + |patch|)
    requires at <= |buf| && Did(st, EditOps(name, buf, at, patch, length)[k], reply, st')
    ensures EditPhase(st', k + 1, |buf|, at, at + |patch|)
  {
    hide Did, ValidState, FreshState, OneFile;
    if k == 3 {
      SeekDid(st, at, reply, st');
    } else if k == 4 {
      WriteDid(st, patch, reply, st');
      hide RoomLeft;
    } else if k == 6 {
      SeekDid(st, 0, reply, st');
    } else {
      OthersClosed(st, EditOps(name, buf, at, patch, length)[k], reply, st');
    }
  }

  lemma {:induction false} EditReached(states: seq<State>, ops: seq<Op>, name: Name, buf: seq<byte>, at: nat,
          patch: seq<byte>, length: nat, replies: seq<Reply>, k: nat)
    requires |ops| == 11 && ops == EditOps(name, buf, at, patch, length) && |replies| < 11
    requires IsRun(states, ops[..|replies|], replies) && EditPhase(states[0], 0, |buf|, at, at + |patch|)
    requires k <= |replies| && name != [] && |name| <= MAX_NAME && at <= |buf|
    ensures EditPhase(states[k], k, |buf|, at, at + |patch|)
  {
    hide Guard, Did, ValidState, EditPhase, EditOps;
    if k > 0 {
      EditReached(states, ops, name, buf, at, patch, length, replies, k - 1);
      assert ops[..|replies|][k - 1] == ops[k - 1];
      EditNext(states[k - 1], k - 1, name, buf, at, patch, length, replies[k - 1], states[k]);
    }
  }

  lemma EditStart(st: State, size: nat, at: nat, end: nat)
    requires FreshState(st)
    ensures EditPhase(st, 0, size, at, end)
  {
  }

  lemma EditFrom(st: State, ops: seq<Op>, name: Name, buf: seq<byte>, at: nat, patch: seq<byte>, length: nat)
    requires FreshState(st) && EditOk(name, buf, at, patch, length)
    requires |ops| == 11 && ops == EditOps(name, buf, at, patch, length) && forall k :: 0 <= k < 11 ==> Callable(ops[k])
    ensures Careful(st, ops)
  {
    hide Guard, Did, ValidState, EditPhase, FreshState, EditOps, Callable, EditOk;
    forall states: seq<State>, replies: seq<Reply> |
      |replies| < 11 && IsRun(states, ops[..|replies|], replies) && states[0] == st
      ensures Callable(ops[|replies|]) && Guard(states[|replies|], ops[|replies|])
    {
      EditAt(states, ops, name, buf, at, patch, length, replies);
    }
  }

  predicate EditOk(name: Name, buf: seq<byte>, at: nat, patch: seq<byte>, length: nat) {
    && name != [] && |name| <= MAX_NAME
    && |buf| < 4194304 && at <= |buf| && at + |patch| < 4194304 && length <= at + |patch| && (at == 0 || at % 1024 != 0)
  }

  lemma EditAt(states: seq<State>, ops: seq<Op>, name: Name, buf: seq<byte>, at: nat, patch: seq<byte>, length: nat,
          replies: seq<Reply>)
    requires |ops| == 11 && ops == EditOps(name, buf, at, patch, length) && |replies| < 11
    requires IsRun(states, ops[..|replies|], replies) && FreshState(states[0]) && EditOk(name, buf, at, patch, length)
    ensures Guard(states[|replies|], ops[|replies|])
  {
    assert |states| == |replies| + 1;
    hide Guard, Did, ValidState, EditPhase, FreshState, EditOps, IsRun;
    EditStart(states[0], |buf|, at, at + |patch|);
    EditReached(states, ops, name, buf, at, patch, length, replies, |replies|);
    EditGuard(states[|replies|], |replies|, name, buf, at, patch, length);
  }

  lemma EditCallable(name: Name, buf: seq<byte>, at: nat, patch: seq<byte>, length: nat)
    requires 0 !in name && |buf| < 4194304 && |patch| < 4194304
    ensures forall k :: 0 <= k < 11 ==> Callable(EditOps(name, buf, at, patch, length)[k])
  {
  }

  /** From the start these calls are made inside their guards, for names of 1 to 15
      bytes, files below 4 MiB, and a place to write at that is no positive multiple
      of 1024. */
  lemma EditCareful(name: Name, buf: seq<byte>, at: nat, patch: seq<byte>, length: nat)
    requires 1 <= |name| <= 15 && 0 !in name
    requires |buf| < 4194304 && at <= |buf| && at + |patch| < 4194304 && length <= at + |patch|
    requires at == 0 || at % 1024 != 0
    ensures forall st :: FreshState(st) ==>
      Careful(st, [Create(name), OpenFile(name), Write(0, buf), Seek(0, at), Write(0, patch), Truncate(0, length),
                   Seek(0, 0), Read(0, 4194304), Close(0), Delete(name), OpenFile(name)])
  {
    var ops := EditOps(name, buf, at, patch, length);
    hide FreshState, Careful, Callable;
    EditCallable(name, buf, at, patch, length);
    forall st | FreshState(st) ensures Careful(st, ops) { EditFrom(st, ops, name, buf, at, patch, length); }
  }

  lemma EditSteps(name: Name, bytes: seq<byte>, offset: nat, at: nat, patch: seq<byte>, length: nat)
    requires at <= |bytes| && length <= |bytes|
    ensures
      Goes(Holding(name, bytes, Open(name, offset)), Seek(0, at), Holding(name, bytes, Open(name, at)), Reply(0, []))
    ensures Goes(Holding(name, bytes, Open(name, at)), Write(0, patch),
                 Holding(name, Splice(bytes, at, patch), Open(name, at + |patch|)), Reply(|patch|, []))
    ensures Goes(Holding(name, bytes, Open(name, offset)), Truncate(0, length),
                 Holding(name, bytes[..length], Open(name, offset)), Reply(0, []))
    ensures |bytes| <= 4194304 ==>
      Goes(Holding(name, bytes, Open(name, 0)), Read(0, 4194304), Holding(name, bytes, Open(name, 0)),
           Reply(|bytes|, bytes))
    ensures Goes(Holding(name, bytes, Open(name, offset)), Close(0), Holding(name, bytes, Closed), Reply(0, []))
  {
    assert Patch(bytes, at, patch) == Splice(bytes, at, patch);
    assert |bytes| <= 4194304 ==> Piece(bytes, 0, 4194304) == bytes;
  }

  lemma EditEnds(name: Name, bytes: seq<byte>)
    requires name != [] && |name| <= MAX_NAME
    ensures Goes(NoFiles(), Create(name), Holding(name, [], Closed), Reply(0, []))
    ensures Goes(Holding(name, bytes, Closed), OpenFile(name), Holding(name, bytes, Open(name, 0)), Reply(0, []))
    ensures Goes(Holding(name, bytes, Closed), Delete(name), NoFiles(), Reply(0, []))
    ensures Goes(NoFiles(), OpenFile(name), NoFiles(), Reply(-1, []))
  {
  }

  predicate Goes(f: Files, op: Op, g: Files, reply: Reply) {
    Step(f, op).0 == g && Step(f, op).1 == reply
  }

  predicate Gone(ops: seq<Op>, k: nat, f: Files, replies: seq<Reply>)
    requires k <= |ops|
  {
    Run(NoFiles(), ops[..k]).0 == f && Run(NoFiles(), ops[..k]).1 == replies
  }

  lemma EditStep(f: Files, ops: seq<Op>, k: nat, g: Files, reply: Reply, replies: seq<Reply>)
    requires k < |ops| && Gone(ops, k, f, replies) && Goes(f, ops[k], g, reply)
    ensures Gone(ops, k + 1, g, replies + [reply])
  {
    RunSnoc(NoFiles(), ops[..k], ops[k]);
    assert ops[..k] + [ops[k]] == ops[..k + 1];
  }

  lemma GoneAll(ops: seq<Op>, f: Files, replies: seq<Reply>)
    requires Gone(ops, |ops|, f, replies)
    ensures Run(NoFiles(), ops).1 == replies
  {
    assert ops[..|ops|] == ops;
  }

  /** And these are the replies: what is read are the bytes written first with the
      others laid over them, cut to the length. */
  lemma EditReplies(name: Name, buf: seq<byte>, at: nat, patch: seq<byte>, length: nat)
    requires 1 <= |name| <= 15 && at <= |buf| < 4194304 && at + |patch| < 4194304 && length <= at + |patch|
    ensures var after := buf[..at] + patch + if at + |patch| <= |buf| then buf[at + |patch|..] else [];
      length <= |after| &&
      Run(NoFiles(), [Create(name), OpenFile(name), Write(0, buf), Seek(0, at), Write(0, patch), Truncate(0, length),
                      Seek(0, 0), Read(0, 4194304), Close(0), Delete(name), OpenFile(name)]).1
      == [Reply(0, []), Reply(0, []), Reply(|buf|, []), Reply(0, []), Reply(|patch|, []), Reply(0, []),
          Reply(0, []), Reply(length, after[..length]), Reply(0, []), Reply(0, []), Reply(-1, [])]
  {
    var ops := EditOps(name, buf, at, patch, length);
    var after := Splice(buf, at, patch);
    hide EditOps, Run, Step, Goes, Gone, Holding, NoFiles;
    EditFirst(ops, name, buf, at, patch);
    EditCut(ops, name, after, at + |patch|, length, EditFive(|buf|, |patch|));
    EditLast(ops, name, after[..length],
             EditFive(|buf|, |patch|) + [Reply(0, []), Reply(0, []), Reply(length, after[..length])]);
    GoneAll(ops, NoFiles(), EditFive(|buf|, |patch|) + [Reply(0, []), Reply(0, []), Reply(length, after[..length])]
                            + [Reply(0, []), Reply(0, []), Reply(-1, [])]);
  }

  function EditFive(n: nat, m: nat): seq<Reply> {
    [Reply(0, []), Reply(0, []), Reply(n, []), Reply(0, []), Reply(m, [])]
  }

  lemma EditFirst(ops: seq<Op>, name: Name, buf: seq<byte>, at: nat, patch: seq<byte>)
    requires name != [] && |name| <= MAX_NAME && at <= |buf| && |ops| == 11
    requires ops[0] == Create(name) && ops[1] == OpenFile(name) && ops[2] == Write(0, buf)
    requires ops[3] == Seek(0, at) && ops[4] == Write(0, patch)
    ensures Gone(ops, 5, Holding(name, Splice(buf, at, patch), Open(name, at + |patch|)), EditFive(|buf|, |patch|))
  {
    assert Gone(ops, 0, NoFiles(), []);
    assert Splice([], 0, buf) == buf;
    EditEnds(name, []);
    EditSteps(name, [], 0, 0, buf, 0);
    EditSteps(name, buf, |buf|, at, patch, 0);
    hide Goes, Gone, Holding, NoFiles, Splice, EditFive;
    var after := Splice(buf, at, patch);
    var r: seq<Reply> := [Reply(0, [])];
    EditStep(NoFiles(), ops, 0, Holding(name, [], Closed), Reply(0, []), []);
    assert [] + r == r;
    EditStep(Holding(name, [], Closed), ops, 1, Holding(name, [], Open(name, 0)), Reply(0, []), r);
    EditStep(Holding(name, [], Open(name, 0)), ops, 2, Holding(name, buf, Open(name, |buf|)), Reply(|buf|, []), r + r);
    r := r + r + [Reply(|buf|, [])];
    EditStep(Holding(name, buf, Open(name, |buf|)), ops, 3, Holding(name, buf, Open(name, at)), Reply(0, []), r);
    r := r + [Reply(0, [])];
    EditStep(Holding(name, buf, Open(name, at)), ops, 4, Holding(name, after, Open(name, at + |patch|)),
             Reply(|patch|, []), r);
    FiveIs(|buf|, |patch|);
  }

  lemma FiveIs(n: nat, m: nat)
    ensures [Reply(0, [])] + [Reply(0, [])] + [Reply(n, [])] + [Reply(0, [])] + [Reply(m, [])] == EditFive(n, m)
  {
  }

  lemma EditCut(ops: seq<Op>, name: Name, after: seq<byte>, end: nat, length: nat, r: seq<Reply>)
    requires length <= |after| && length <= 4194304 && |ops| == 11
    requires ops[5] == Truncate(0, length) && ops[6] == Seek(0, 0) && ops[7] == Read(0, 4194304)
    requires Gone(ops, 5, Holding(name, after, Open(name, end)), r)
    ensures Gone(ops, 8, Holding(name, after[..length], Open(name, 0)),
                 r + [Reply(0, []), Reply(0, []), Reply(length, after[..length])])
  {
    var cut := after[..length];
    EditSteps(name, after, end, 0, [], length);
    EditSteps(name, cut, end, 0, [], 0);
    EditSteps(name, cut, 0, 0, [], 0);
    hide Goes, Gone, Holding;
    EditStep(Holding(name, after, Open(name, end)), ops, 5, Holding(name, cut, Open(name, end)), Reply(0, []), r);
    EditStep(Holding(name, cut, Open(name, end)), ops, 6, Holding(name, cut, Open(name, 0)), Reply(0, []),
             r + [Reply(0, [])]);
    EditStep(Holding(name, cut, Open(name, 0)), ops, 7, Holding(name, cut, Open(name, 0)), Reply(length, cut),
             r + [Reply(0, [])] + [Reply(0, [])]);
    Three(r, Reply(0, []), Reply(0, []), Reply(length, cut));
  }

  lemma EditLast(ops: seq<Op>, name: Name, cut: seq<byte>, r: seq<Reply>)
    requires name != [] && |name| <= MAX_NAME && |ops| == 11
    requires ops[8] == Close(0) && ops[9] == Delete(name) && ops[10] == OpenFile(name)
    requires Gone(ops, 8, Holding(name, cut, Open(name, 0)), r)
    ensures Gone(ops, 11, NoFiles(), r + [Reply(0, []), Reply(0, []), Reply(-1, [])])
  {
    EditEnds(name, cut);
    EditSteps(name, cut, 0, 0, [], 0);
    hide Goes, Gone, Holding, NoFiles;
    EditStep(Holding(name, cut, Open(name, 0)), ops, 8, Holding(name, cut, Closed), Reply(0, []), r);
    EditStep(Holding(name, cut, Closed), ops, 9, NoFiles(), Reply(0, []), r + [Reply(0, [])]);
    EditStep(NoFiles(), ops, 10, NoFiles(), Reply(-1, []), r + [Reply(0, [])] + [Reply(0, [])]);
    Three(r, Reply(0, []), Reply(0, []), Reply(-1, []));
  }

  lemma Three<T>(r: seq<T>, a: T, b: T, c: T)
    ensures r + [a] + [b] + [c] == r + [a, b, c]
  {
  }

  /** So the code gives these replies. */
  method EditRun(name: Name, buf: seq<byte>, at: nat, patch: seq<byte>, length: nat) returns (replies: seq<Reply>)
    requires 1 <= |name| <= 15 && 0 !in name
    requires |buf| < 4194304 && at <= |buf| && at + |patch| < 4194304 && length <= at + |patch|
    requires at == 0 || at % 1024 != 0
    ensures var after := buf[..at] + patch + if at + |patch| <= |buf| then buf[at + |patch|..] else [];
      length <= |after| && replies ==
        [Reply(0, []), Reply(0, []), Reply(|buf|, []), Reply(0, []), Reply(|patch|, []), Reply(0, []),
         Reply(0, []), Reply(length, after[..length]), Reply(0, []), Reply(0, []), Reply(-1, [])]
  {
    hide FreshState, Careful, Run;
    EditCareful(name, buf, at, patch, length);
    EditReplies(name, buf, at, patch, length);
    var fs := new FileSystem();
    replies := RunFresh(fs, [Create(name), OpenFile(name), Write(0, buf), Seek(0, at), Write(0, patch),
                             Truncate(0, length), Seek(0, 0), Read(0, 4194304), Close(0), Delete(name),
                             OpenFile(name)]);
  }
}
