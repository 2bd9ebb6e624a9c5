/** The file system as a map from names to byte strings, and what links the
    directory's slots to it. */
module FsSpec {
  import opened Bytes
  import opened FsBlocks
  import opened FsLayout

  type Name = seq<byte>

  datatype Handle = Closed | Open(name: Name, offset: nat)

  datatype Files = Files(bytes: map<Name, seq<byte>>, handles: seq<Handle>)

  datatype Op =
    | Create(name: Name) | Delete(name: Name) | OpenFile(name: Name) | Close(fd: int)
    | Write(fd: int, buf: seq<byte>) | Read(fd: int, n: nat) | Seek(fd: int, offset: int)
    | Truncate(fd: int, length: int) | Remount

  /** The return value, and the bytes handed over by a read. */
  datatype Reply = Reply(value: int, data: seq<byte>)

  function FreeHandleFrom(handles: seq<Handle>, k: nat): (d: nat)
    requires k <= |handles|
    ensures d <= |handles|
    decreases |handles| - k
  {
    if k == |handles| || handles[k].Closed? then k else FreeHandleFrom(handles, k + 1)
  }

  predicate OpenHandle(f: Files, fd: int) {
    0 <= fd < |f.handles| && f.handles[fd].Open? && f.handles[fd].name in f.bytes
  }

  /** What a write at any offset makes of a file's bytes: writing nothing changes
      nothing, and a gap after the old end is filled with zeros. */
  function Patch(before: seq<byte>, offset: nat, buf: seq<byte>): seq<byte> {
    if buf == [] then before
    else if offset <= |before| then Splice(before, offset, buf)
    else before + Zeros(offset - |before|) + buf
  }

  /** What a read of `n` bytes at any offset gives: nothing past the end. */
  function Piece(bytes: seq<byte>, offset: nat, n: nat): seq<byte> {
    if offset > |bytes| then []
    else if |bytes| - offset >= n then bytes[offset..offset + n]
    else bytes[offset..]
  }

  /** One call on the map. */
  function Step(f: Files, op: Op): (Files, Reply) {
    var failed := (f, Reply(-1, []));
    match op
    case Create(name) =>
      if |name| > MAX_NAME || name in f.bytes || |f.bytes| == MAX_FILES then failed
      else (f.(bytes := f.bytes[name := []]), Reply(0, []))
    case Delete(name) =>
      var open := exists d :: 0 <= d < |f.handles| && f.handles[d].Open? && f.handles[d].name == name;
      if name !in f.bytes || open then failed
      else (f.(bytes := f.bytes - {name}), Reply(0, []))
    case OpenFile(name) =>
      var d := FreeHandleFrom(f.handles, 0);
      if d == |f.handles| || name !in f.bytes then failed
      else (f.(handles := f.handles[d := Open(name, 0)]), Reply(d, []))
    case Close(fd) =>
      if !OpenHandle(f, fd) then failed
      else (f.(handles := f.handles[fd := Closed]), Reply(0, []))
    case Write(fd, buf) =>
      if !OpenHandle(f, fd) then failed
      else
        var Open(name, offset) := f.handles[fd];
        (Files(f.bytes[name := Patch(f.bytes[name], offset, buf)], f.handles[fd := Open(name, offset + |buf|)]),
         Reply(|buf|, []))
    case Read(fd, n) =>
      if !OpenHandle(f, fd) then failed
      else
        var data := Piece(f.bytes[f.handles[fd].name], f.handles[fd].offset, n);
        (f, Reply(|data|, data))
    case Seek(fd, offset) =>
      if !OpenHandle(f, fd) || !(0 <= offset <= |f.bytes[f.handles[fd].name]|) then failed
      else (f.(handles := f.handles[fd := Open(f.handles[fd].name, offset)]), Reply(0, []))
    case Truncate(fd, length) =>
      if !OpenHandle(f, fd) || !(0 <= length <= |f.bytes[f.handles[fd].name]|) then failed
      else
        var name := f.handles[fd].name;
        (f.(bytes := f.bytes[name := f.bytes[name][..length]]), Reply(0, []))
    case Remount => (f.(handles := seq(|f.handles|, _ => Closed)), Reply(0, []))
  }

  /** No file, and every handle closed. */
  function NoFiles(): Files {
    Files(map[], seq(MAX_FDS, _ => Closed))
  }

  /** A run of calls on the map, and its replies. */
  function Run(f: Files, ops: seq<Op>): (Files, seq<Reply>) {
    if ops == [] then (f, [])
    else
      var (g, replies) := Run(f, ops[..|ops| - 1]);
      var (h, reply) := Step(g, ops[|ops| - 1]);
      (h, replies + [reply])
  }

  // ---- The link

  /** One directory slot: its file's name and bytes up to its size. */
  datatype Slot = Empty | Used(name: Name, bytes: seq<byte>)

  ghost predicate NamesDistinct(slots: seq<Slot>) {
    forall i, j :: 0 <= i < j < |slots| && slots[i].Used? && slots[j].Used? ==> slots[i].name != slots[j].name
  }

  ghost function Names(slots: seq<Slot>, k: nat): set<Name>
    requires k <= |slots|
  {
    if k == 0 then {}
    else Names(slots, k - 1) + if slots[k - 1].Used? then {slots[k - 1].name} else {}
  }

  lemma {:induction false} NameIn(slots: seq<Slot>, k: nat, i: int)
    requires 0 <= i < k <= |slots| && slots[i].Used?
    ensures slots[i].name in Names(slots, k)
  {
    if i < k - 1 { NameIn(slots, k - 1, i); }
  }

  lemma {:induction false} NameAt(slots: seq<Slot>, k: nat, n: Name) returns (i: int)
    requires k <= |slots| && n in Names(slots, k)
    ensures 0 <= i < k && slots[i].Used? && slots[i].name == n
  {
    i := k - 1;
    if !(slots[k - 1].Used? && slots[k - 1].name == n) { i := NameAt(slots, k - 1, n); }
  }

  /** The slots hold just the files of the map, and the descriptors are its handles. */
  ghost predicate Holds(slots: seq<Slot>, fds: seq<FileDescriptor>, f: Files) {
    && |slots| == MAX_FILES && |fds| == MAX_FDS && |f.handles| == MAX_FDS
    && NamesDistinct(slots)
    && f.bytes.Keys == Names(slots, MAX_FILES)
    && (forall i :: 0 <= i < MAX_FILES && slots[i].Used? ==>
          slots[i].name in f.bytes && f.bytes[slots[i].name] == slots[i].bytes)
    && (forall d :: 0 <= d < MAX_FDS && fds[d].used ==>
          0 <= fds[d].inodeNum < MAX_FILES && slots[fds[d].inodeNum].Used? && 0 <= fds[d].offset)
    && (forall d :: 0 <= d < MAX_FDS ==>
          f.handles[d] == if fds[d].used then Open(slots[fds[d].inodeNum].name, fds[d].offset) else Closed)
  }

  lemma {:induction false} NamesSize(slots: seq<Slot>, k: nat)
    requires k <= |slots| && NamesDistinct(slots)
    ensures |Names(slots, k)| <= k
    ensures |Names(slots, k)| == k <==> forall i :: 0 <= i < k ==> slots[i].Used?
  {
    if k > 0 {
      NamesSize(slots, k - 1);
      NamesOne(slots, k - 1);
      hide Names, NamesDistinct;
      if !slots[k - 1].Used? { assert |Names(slots, k)| < k; }
    }
  }

  lemma NamesOne(slots: seq<Slot>, k: nat)
    requires k < |slots| && NamesDistinct(slots)
    ensures |Names(slots, k + 1)| == |Names(slots, k)| + if slots[k].Used? then 1 else 0
  {
    if slots[k].Used? && slots[k].name in Names(slots, k) {
      var i := NameAt(slots, k, slots[k].name);
    }
  }

  /** An open descriptor is an open handle on the file in its slot. */
  lemma HandleOf(slots: seq<Slot>, fds: seq<FileDescriptor>, f: Files, fd: int)
    requires Holds(slots, fds, f)
    ensures OpenHandle(f, fd) <==> 0 <= fd < MAX_FDS && fds[fd].used
    ensures OpenHandle(f, fd) ==>
              var slot := slots[fds[fd].inodeNum];
              && slot.Used? && f.handles[fd] == Open(slot.name, fds[fd].offset) && f.bytes[slot.name] == slot.bytes
  {
  }

  /** New bytes in one slot. */
  lemma ReplaceHolds(slots: seq<Slot>, fds: seq<FileDescriptor>, f: Files, i: int, bytes: seq<byte>)
    requires Holds(slots, fds, f) && 0 <= i < MAX_FILES && slots[i].Used?
    ensures Holds(slots[i := Used(slots[i].name, bytes)], fds, f.(bytes := f.bytes[slots[i].name := bytes]))
  {
    SameNames(slots, slots[i := Used(slots[i].name, bytes)], MAX_FILES);
  }

  lemma {:induction false} SameNames(slots: seq<Slot>, slots': seq<Slot>, k: nat)
    requires k <= |slots| == |slots'|
    requires forall j :: 0 <= j < |slots| ==>
               slots[j].Used? == slots'[j].Used? && (slots[j].Used? ==> slots[j].name == slots'[j].name)
    ensures Names(slots, k) == Names(slots', k)
  {
    if k > 0 { SameNames(slots, slots', k - 1); }
  }

  /** A new offset, or a closing, of one descriptor. */
  lemma MoveHolds(slots: seq<Slot>, fds: seq<FileDescriptor>, f: Files, fd: int, offset: nat)
    requires Holds(slots, fds, f) && OpenHandle(f, fd)
    ensures Holds(slots, fds[fd := fds[fd].(offset := offset)],
                  f.(handles := f.handles[fd := Open(f.handles[fd].name, offset)]))
  {
  }

  lemma WriteHolds(slots: seq<Slot>, fds: seq<FileDescriptor>, f: Files, fd: int, buf: seq<byte>)
    requires Holds(slots, fds, f) && OpenHandle(f, fd)
    ensures var i, offset := fds[fd].inodeNum, fds[fd].offset;
            && Holds(slots[i := Used(slots[i].name, Patch(slots[i].bytes, offset, buf))],
                     fds[fd := fds[fd].(offset := offset + |buf|)], Step(f, Write(fd, buf)).0)
            && Step(f, Write(fd, buf)).1 == Reply(|buf|, [])
  {
    var i, offset := fds[fd].inodeNum, fds[fd].offset;
    HandleOf(slots, fds, f, fd);
    var after := Patch(slots[i].bytes, offset, buf);
    hide Patch;
    ReplaceHolds(slots, fds, f, i, after);
    MoveHolds(slots[i := Used(slots[i].name, after)], fds, f.(bytes := f.bytes[slots[i].name := after]), fd,
              offset + |buf|);
  }

  lemma TruncateHolds(slots: seq<Slot>, fds: seq<FileDescriptor>, f: Files, fd: int, length: int)
    requires Holds(slots, fds, f) && OpenHandle(f, fd)
    requires 0 <= length <= |slots[fds[fd].inodeNum].bytes|
    ensures var i := fds[fd].inodeNum;
            && Holds(slots[i := Used(slots[i].name, slots[i].bytes[..length])], fds, Step(f, Truncate(fd, length)).0)
            && Step(f, Truncate(fd, length)).1 == Reply(0, [])
  {
    var i := fds[fd].inodeNum;
    HandleOf(slots, fds, f, fd);
    ReplaceHolds(slots, fds, f, i, slots[i].bytes[..length]);
  }

  lemma CreateHolds(slots: seq<Slot>, fds: seq<FileDescriptor>, f: Files, i: int, name: Name)
    requires Holds(slots, fds, f) && 0 <= i < MAX_FILES && slots[i].Empty?
    requires |name| <= MAX_NAME && forall j :: 0 <= j < MAX_FILES && slots[j].Used? ==> slots[j].name != name
    ensures Holds(slots[i := Used(name, [])], fds, Step(f, Create(name)).0)
    ensures Step(f, Create(name)).1 == Reply(0, [])
  {
    hide Names, Step, NamesDistinct;
    RoomFor(slots, i, name);
    NamesAfter(slots, i, Used(name, []));
    DistinctWith(slots, i, name);
    assert |f.bytes| == |f.bytes.Keys| < MAX_FILES;
    CreateStep(f, name);
    assert f.bytes[name := []].Keys == Names(slots[i := Used(name, [])], MAX_FILES);
  }

  lemma DistinctWith(slots: seq<Slot>, i: int, name: Name)
    requires NamesDistinct(slots) && 0 <= i < |slots|
    requires forall j :: 0 <= j < |slots| && slots[j].Used? ==> slots[j].name != name
    ensures NamesDistinct(slots[i := Used(name, [])])
  {
  }

  lemma CreateStep(f: Files, name: Name)
    requires |name| <= MAX_NAME && name !in f.bytes && |f.bytes| < MAX_FILES
    ensures Step(f, Create(name)) == (f.(bytes := f.bytes[name := []]), Reply(0, []))
  {
  }

  lemma RoomFor(slots: seq<Slot>, i: int, name: Name)
    requires |slots| == MAX_FILES && NamesDistinct(slots) && 0 <= i < MAX_FILES && slots[i].Empty?
    requires forall j :: 0 <= j < MAX_FILES && slots[j].Used? ==> slots[j].name != name
    ensures |Names(slots, MAX_FILES)| < MAX_FILES && name !in Names(slots, MAX_FILES)
  {
    NamesSize(slots, MAX_FILES);
    if name in Names(slots, MAX_FILES) { var j := NameAt(slots, MAX_FILES, name); }
  }

  /** The names with one more or one fewer slot in use. */
  lemma NamesAfter(slots: seq<Slot>, i: int, slot: Slot)
    requires |slots| == MAX_FILES && 0 <= i < MAX_FILES && slots[i].Used? != slot.Used?
    requires NamesDistinct(slots) && (slot.Used? ==> slot.name !in Names(slots, MAX_FILES))
    ensures Names(slots[i := slot], MAX_FILES)
              == if slot.Used? then Names(slots, MAX_FILES) + {slot.name} else Names(slots, MAX_FILES) - {slots[i].name}
  {
    var slots' := slots[i := slot];
    var before, after := Names(slots, MAX_FILES), Names(slots', MAX_FILES);
    forall n | n in after
      ensures n in if slot.Used? then before + {slot.name} else before - {slots[i].name}
    {
      var j := NameAt(slots', MAX_FILES, n);
      if j != i { NameIn(slots, MAX_FILES, j); }
    }
    forall n | n in before && (slot.Used? || n != slots[i].name) ensures n in after {
      var j := NameAt(slots, MAX_FILES, n);
      assert slots'[j] == slots[j];
      NameIn(slots', MAX_FILES, j);
    }
    if slot.Used? { NameIn(slots', MAX_FILES, i); }
  }

  /** A name that is not created is long, taken, or one too many. */
  lemma NotCreated(slots: seq<Slot>, fds: seq<FileDescriptor>, f: Files, name: Name)
    requires Holds(slots, fds, f)
    requires |name| > MAX_NAME || (exists j :: 0 <= j < MAX_FILES && slots[j].Used? && slots[j].name == name)
             || forall j :: 0 <= j < MAX_FILES ==> slots[j].Used?
    ensures Step(f, Create(name)) == (f, Reply(-1, []))
  {
    NamesSize(slots, MAX_FILES);
  }

  lemma DeleteHolds(slots: seq<Slot>, fds: seq<FileDescriptor>, f: Files, i: int)
    requires Holds(slots, fds, f) && 0 <= i < MAX_FILES && slots[i].Used?
    requires forall d :: 0 <= d < MAX_FDS && fds[d].used ==> fds[d].inodeNum != i
    ensures Holds(slots[i := Empty], fds, Step(f, Delete(slots[i].name)).0)
    ensures Step(f, Delete(slots[i].name)).1 == Reply(0, [])
  {
    NamesAfter(slots, i, Empty);
    assert Step(f, Delete(slots[i].name)).0.bytes.Keys == Names(slots[i := Empty], MAX_FILES);
  }

  lemma DeleteRefused(slots: seq<Slot>, fds: seq<FileDescriptor>, f: Files, name: Name)
    requires Holds(slots, fds, f)
    requires (forall j :: 0 <= j < MAX_FILES && slots[j].Used? ==> slots[j].name != name)
             || exists d :: 0 <= d < MAX_FDS && fds[d].used && slots[fds[d].inodeNum].name == name
    ensures Step(f, Delete(name)) == (f, Reply(-1, []))
  {
    if name in f.bytes { var j := NameAt(slots, MAX_FILES, name); }
    if d :| 0 <= d < MAX_FDS && fds[d].used && slots[fds[d].inodeNum].name == name {
      assert f.handles[d].Open? && f.handles[d].name == name;
    }
  }

  lemma OpenHolds(slots: seq<Slot>, fds: seq<FileDescriptor>, f: Files, d: int, i: int)
    requires Holds(slots, fds, f) && 0 <= i < MAX_FILES && slots[i].Used?
    requires 0 <= d < MAX_FDS && !fds[d].used && forall e :: 0 <= e < d ==> fds[e].used
    ensures Holds(slots, fds[d := FileDescriptor(true, i, 0)], Step(f, OpenFile(slots[i].name)).0)
    ensures Step(f, OpenFile(slots[i].name)).1 == Reply(d, [])
  {
    FreeHandleIs(f.handles, d);
  }

  lemma OpenRefused(slots: seq<Slot>, fds: seq<FileDescriptor>, f: Files, name: Name)
    requires Holds(slots, fds, f)
    requires (forall j :: 0 <= j < MAX_FILES && slots[j].Used? ==> slots[j].name != name)
             || forall d :: 0 <= d < MAX_FDS ==> fds[d].used
    ensures Step(f, OpenFile(name)) == (f, Reply(-1, []))
  {
    if name in f.bytes { var j := NameAt(slots, MAX_FILES, name); }
    if forall d :: 0 <= d < MAX_FDS ==> fds[d].used { FreeHandleIs(f.handles, MAX_FDS); }
  }

  lemma FreeHandleIs(handles: seq<Handle>, k: nat)
    requires k <= |handles| && (k < |handles| ==> handles[k].Closed?) && forall j :: 0 <= j < k ==> handles[j].Open?
    ensures FreeHandleFrom(handles, 0) == k
  {
    var j := k;
    while j > 0
      invariant 0 <= j <= k && FreeHandleFrom(handles, j) == k
    {
      j := j - 1;
    }
  }

  lemma CloseHolds(slots: seq<Slot>, fds: seq<FileDescriptor>, f: Files, fd: int)
    requires Holds(slots, fds, f) && OpenHandle(f, fd)
    ensures Holds(slots, fds[fd := FileDescriptor(false, -1, 0)], Step(f, Close(fd)).0)
    ensures Step(f, Close(fd)).1 == Reply(0, [])
  {
  }

  /** With all descriptors closed before and after, the map is the same. */
  lemma RemountHolds(slots: seq<Slot>, fds: seq<FileDescriptor>, fds': seq<FileDescriptor>, f: Files)
    requires Holds(slots, fds, f) && |fds'| == MAX_FDS
    requires forall d :: 0 <= d < MAX_FDS ==> !fds'[d].used
    ensures Holds(slots, fds', Step(f, Remount).0)
  {
  }
}
