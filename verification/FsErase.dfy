/** Erasing a chain of blocks: the loops of `fs_delete` on whatever the tables
    hold, and what they do to the chain of a file and to a stale one. */
module FsErase {
  import opened Bytes
  import opened FsBlocks
  import opened FsLayout
  import opened FsFiles
  import opened FsPersist

  /** The inner loop, from entry `ii` of a first-level block on: false if an entry
      is no block number. */
  ghost function EraseEntries(v: Volume, t: seq<int>, ii: nat): (r: (Volume, bool))
    requires Sized(v) && |t| == FAN_OUT && ii <= FAN_OUT
    ensures Sized(r.0)
    decreases FAN_OUT - ii
  {
    if ii == FAN_OUT || t[ii] == -1 then (v, true)
    else if !IsBlock(t[ii]) then (v, false)
    else EraseEntries(Freed(v, t[ii]), t, ii + 1)
  }

  /** The outer loop, from entry `index` of the second-level block on. Nothing ends
      it at the last entry. */
  ghost function EraseChain(v: Volume, t: seq<int>, index: nat): (r: (Volume, Outcome))
    requires Sized(v) && |t| == FAN_OUT && index <= FAN_OUT
    ensures Sized(r.0)
    decreases FAN_OUT - index
  {
    if index == FAN_OUT then (v, Undefined)
    else if t[index] == -1 then (v, Returned(0))
    else if !IsBlock(t[index]) then (v, Returned(-1))
    else
      var (v1, ok) := EraseEntries(v, BlockTable(v.disk[t[index]]), 0);
      if !ok then (v1, Returned(-1)) else EraseChain(Freed(v1, t[index]), t, index + 1)
  }

  /** Erasing what entry `i` leads to, and the entry itself. */
  ghost function EraseFile(v: Volume, i: int): (r: (Volume, Outcome))
    requires Sized(v) && 0 <= i < MAX_FILES
    ensures Sized(r.0)
  {
    var two := v.table[i].twoOffset;
    if !IsBlock(two) then (v, Returned(-1))
    else
      var (v1, r) := EraseChain(v, BlockTable(v.disk[two]), 0);
      if r != Returned(0) then (v1, r)
      else (Freed(v1, two).(dir := v1.dir[i := DEntry(false, -1, [], v1.dir[i].refCnt)]), r)
  }

  // ---- The chain of a file

  lemma EraseMore(v: Volume, t: seq<int>, ii: nat)
    requires Sized(v) && |t| == FAN_OUT && ii <= FAN_OUT
    ensures ii == FAN_OUT || t[ii] == -1 ==> EraseEntries(v, t, ii) == (v, true)
    ensures ii < FAN_OUT && IsBlock(t[ii]) ==>
      Sized(Freed(v, t[ii])) && EraseEntries(v, t, ii) == EraseEntries(Freed(v, t[ii]), t, ii + 1)
  {
  }

  lemma FirstEntry(t: seq<int>, l: Layout, index: nat, ii: nat)
    requires FirstOn(t, l, index)
    ensures |t| == FAN_OUT
    ensures ii < FAN_OUT ==> t[ii] == if index * FAN_OUT + ii < |l.data| then l.data[index * FAN_OUT + ii] else -1
  {
  }

  lemma {:induction false} EntriesOwned(v0: Volume, s: Shape, v: Volume, i: int, index: nat, t: seq<int>, n: nat,
          upto: nat)
    requires Sized(v) && |s.files| == MAX_FILES && 0 <= i < MAX_FILES && |t| == FAN_OUT
    requires FirstOn(t, s.files[i], index) && Deleting(v0, s, v, i, index, n)
    requires index * FAN_OUT <= n <= upto
    requires upto == Min((index + 1) * FAN_OUT, |s.files[i].data|)
    ensures var (v', ok) := EraseEntries(v, t, n - index * FAN_OUT);
      ok && Deleting(v0, s, v', i, index, upto)
    decreases upto - n
  {
    var ii := n - index * FAN_OUT;
    DeletingRange(v0, s, v, i, index, n);
    FirstEntry(t, s.files[i], index, ii);
    EraseMore(v, t, ii);
    hide Deleting, FirstOn, EraseEntries, Freed, InRange;
    if n < upto {
      DeleteData(v0, s, v, i, index, n);
      assert index * FAN_OUT + ii == n && t[ii] == s.files[i].data[n] && IsBlock(t[ii]);
      EntriesOwned(v0, s, Freed(v, t[ii]), i, index, t, n + 1, upto);
    }
  }

  function Min(x: int, y: int): int {
    if x < y then x else y
  }

  lemma {:induction false} ChainOwned(v0: Volume, s: Shape, v: Volume, i: int, t: seq<int>, index: nat)
    requires Sized(v) && |s.files| == MAX_FILES && 0 <= i < MAX_FILES
    requires |t| == FAN_OUT && SecondOn(t, s.files[i]) && index <= |s.files[i].firsts| <= 12
    requires Deleting(v0, s, v, i, index, Min(index * FAN_OUT, |s.files[i].data|))
    ensures var (v', r) := EraseChain(v, t, index);
      r == Returned(0) && Deleting(v0, s, v', i, |s.files[i].firsts|, |s.files[i].data|)
    decreases |s.files[i].firsts| - index
  {
    hide Deleting, SecondOn, FirstOn;
    var l := s.files[i];
    SecondEntry(t, l, index);
    LevelCount(v0, s, v, i, index);
    if index < |l.firsts| {
      DeleteTables(v0, s, v, i, index);
      var (v1, ok) := EraseEntries(v, BlockTable(v.disk[t[index]]), 0);
      var upto := Min((index + 1) * FAN_OUT, |l.data|);
      EntriesOwned(v0, s, v, i, index, BlockTable(v.disk[t[index]]), index * FAN_OUT, upto);
      DeleteFirst(v0, s, v1, i, index, upto);
      ChainOwned(v0, s, Freed(v1, t[index]), i, t, index + 1);
    }
  }

  lemma LevelCount(v0: Volume, s: Shape, v: Volume, i: int, index: nat)
    requires |s.files| == MAX_FILES && 0 <= i < MAX_FILES && index <= |s.files[i].firsts|
    requires Deleting(v0, s, v, i, index, Min(index * FAN_OUT, |s.files[i].data|))
    ensures index < |s.files[i].firsts| ==> index * FAN_OUT < |s.files[i].data|
    ensures index == |s.files[i].firsts| ==> index * FAN_OUT >= |s.files[i].data|
    ensures InRange(s.files[i])
  {
    assert FileOwned(v0, s, i);
  }

  /** Of a file in use, exactly its blocks are erased. */
  lemma FileErased(v: Volume, s: Shape, i: int)
    requires Owned(v, s) && UsedFile(v, i)
    ensures var (v', r) := EraseFile(v, i); r == Returned(0) && DeleteEffect(v, s, v', Without(s, i), i)
  {
    DeletingStart(v, s, i);
    DeleteTables(v, s, v, i, 0);
    hide Deleting, Owned, SecondOn, DeleteEffect;
    var two := v.table[i].twoOffset;
    ChainOwned(v, s, v, i, BlockTable(v.disk[two]), 0);
    var (v1, r) := EraseChain(v, BlockTable(v.disk[two]), 0);
    DeletingTables(v, s, v1, i, |s.files[i].firsts|, |s.files[i].data|);
    DeleteDone(v, s, v1, i, EraseFile(v, i).0);
  }

  lemma DeletedDir(v: Volume, s: Shape, v': Volume, i: int)
    requires DeleteEffect(v, s, v', Without(s, i), i)
    ensures v'.dir == v.dir[i := DEntry(false, -1, [], v.dir[i].refCnt)] && Owned(v', Without(s, i))
  {
  }

  lemma DeletingTables(v0: Volume, s: Shape, v: Volume, i: int, firsts: int, data: int)
    requires Deleting(v0, s, v, i, firsts, data)
    ensures v.table == v0.table && v.dir == v0.dir
  {
  }

  // ---- A stale chain

  /** Erasing the block again changes nothing. */
  ghost predicate Quiet(v: Volume, b: int)
    requires Sized(v)
  {
    IsBlock(b) && v.disk[b] == ZERO_BLOCK && v.bitmap[b] == FREE
  }

  /** The first entry that is not quiet is no block number, so nothing is changed
      before the write to it fails. */
  ghost predicate EntriesStop(v: Volume, t: seq<int>)
    requires Sized(v) && |t| == FAN_OUT
  {
    exists k :: 0 <= k < FAN_OUT && (forall j :: 0 <= j < k ==> Quiet(v, t[j])) && t[k] != -1 && !IsBlock(t[k])
  }

  /** The same for the outer loop, where the first failing access may also be in
      the table that an entry leads to. */
  ghost predicate ChainStops(v: Volume, t: seq<int>)
    requires Sized(v) && |t| == FAN_OUT
  {
    exists n :: 0 <= n < FAN_OUT && QuietUpTo(v, t, n) && StopsAt(v, t[n])
  }

  ghost predicate QuietUpTo(v: Volume, t: seq<int>, n: nat)
    requires Sized(v) && n <= |t|
  {
    forall m :: 0 <= m < n ==> Quiet(v, t[m]) && Quiet(v, 0)
  }

  ghost predicate StopsAt(v: Volume, b: int)
    requires Sized(v)
  {
    b != -1 && (!IsBlock(b) || EntriesStop(v, BlockTable(v.disk[b])))
  }

  /** Blocks are only ever zeroed and freed. */
  ghost predicate Less(v': Volume, v: Volume) {
    && Sized(v) && Sized(v') && v'.table == v.table && v'.dir == v.dir
    && forall b :: 0 <= b < DISK_BLOCKS ==>
         v'.disk[b] in {v.disk[b], ZERO_BLOCK} && v'.bitmap[b] in {v.bitmap[b], FREE}
  }

  lemma LessFreed(v': Volume, v: Volume, b: int)
    requires Less(v', v) && IsBlock(b)
    ensures Less(Freed(v', b), v)
    ensures Freed(v', b) == v <==> v' == v && Quiet(v, b)
  {
    if v' == v && Quiet(v, b) {
      assert Freed(v', b).disk == v.disk && Freed(v', b).bitmap == v.bitmap;
    } else if v' != v {
      var c := Changed(v', v);
    } else {
      assert Freed(v', b).disk[b] == ZERO_BLOCK && Freed(v', b).bitmap[b] == FREE;
    }
  }

  /** A volume that has become less has lost something. */
  lemma Changed(v': Volume, v: Volume) returns (c: int)
    requires Less(v', v) && v' != v
    ensures IsBlock(c) && ((v.disk[c] != ZERO_BLOCK == v'.disk[c]) || (v.bitmap[c] != FREE == v'.bitmap[c]))
  {
    if v'.disk != v.disk {
      c :| 0 <= c < DISK_BLOCKS && v'.disk[c] != v.disk[c];
    } else {
      c :| 0 <= c < DISK_BLOCKS && v'.bitmap[c] != v.bitmap[c];
    }
  }

  lemma {:induction false} EntriesLess(v': Volume, v: Volume, t: seq<int>, ii: nat)
    requires Less(v', v) && |t| == FAN_OUT && ii <= FAN_OUT
    ensures var v1 := EraseEntries(v', t, ii).0; Less(v1, v) && (v' != v ==> v1 != v)
    decreases FAN_OUT - ii
  {
    hide Less;
    assert Sized(v') && Sized(v) by { LessSized(v', v); }
    if ii < FAN_OUT && IsBlock(t[ii]) {
      LessFreed(v', v, t[ii]);
      EntriesLess(Freed(v', t[ii]), v, t, ii + 1);
    }
  }

  lemma LessSized(v': Volume, v: Volume)
    requires Less(v', v)
    ensures Sized(v') && Sized(v)
  {
  }

  lemma {:induction false} ChainLess(v': Volume, v: Volume, t: seq<int>, index: nat)
    requires Less(v', v) && |t| == FAN_OUT && index <= FAN_OUT
    ensures var v1 := EraseChain(v', t, index).0; Less(v1, v) && (v' != v ==> v1 != v)
    decreases FAN_OUT - index
  {
    hide Less;
    LessSized(v', v);
    if index < FAN_OUT && IsBlock(t[index]) {
      var entries := BlockTable(v'.disk[t[index]]);
      EntriesLess(v', v, entries, 0);
      var v1 := EraseEntries(v', entries, 0).0;
      LessFreed(v1, v, t[index]);
      ChainLess(Freed(v1, t[index]), v, t, index + 1);
    }
  }

  lemma LessSelf(v: Volume)
    requires Sized(v)
    ensures Less(v, v)
  {
  }

  lemma {:induction false} EntriesIff(v: Volume, t: seq<int>, ii: nat)
    requires Sized(v) && |t| == FAN_OUT && ii <= FAN_OUT && forall j :: 0 <= j < ii ==> Quiet(v, t[j])
    ensures EraseEntries(v, t, ii) == (v, false) <==> EntriesStop(v, t)
    decreases FAN_OUT - ii
  {
    if ii < FAN_OUT && IsBlock(t[ii]) {
      LessSelf(v);
      LessFreed(v, v, t[ii]);
      if Quiet(v, t[ii]) {
        EntriesIff(v, t, ii + 1);
      } else {
        EntriesLess(Freed(v, t[ii]), v, t, ii + 1);
      }
    }
  }

  lemma {:induction false} EntriesZero(v: Volume, t: seq<int>, ii: nat)
    requires Sized(v) && |t| == FAN_OUT && ii <= FAN_OUT && forall j :: 0 <= j < FAN_OUT ==> t[j] == 0
    ensures EraseEntries(v, t, ii).1
    ensures ii < FAN_OUT ==> (EraseEntries(v, t, ii).0 == v <==> Quiet(v, 0))
    decreases FAN_OUT - ii
  {
    if ii < FAN_OUT {
      LessSelf(v);
      LessFreed(v, v, 0);
      EntriesZero(Freed(v, 0), t, ii + 1);
      EntriesLess(Freed(v, 0), v, t, ii + 1);
    }
  }

  lemma QuietGoesOn(v: Volume, b: int)
    requires Sized(v) && Quiet(v, b)
    ensures !StopsAt(v, b)
  {
    ZeroBlockTable();
  }

  /** A block that is quiet goes by unnoticed if block 0 is quiet too; else either
      the access to it fails or something is changed for good. */
  lemma OneBlock(v: Volume, e: int)
    requires Sized(v) && IsBlock(e)
    ensures var (v1, ok) := EraseEntries(v, BlockTable(v.disk[e]), 0);
      && Less(v1, v)
      && (!ok ==> (v1 == v <==> StopsAt(v, e)))
      && (ok ==> !StopsAt(v, e) && (Freed(v1, e) == v <==> Quiet(v, e) && Quiet(v, 0)) && Less(Freed(v1, e), v))
      && (Quiet(v, e) && Quiet(v, 0) ==> ok)
  {
    var entries := BlockTable(v.disk[e]);
    var (v1, ok) := EraseEntries(v, entries, 0);
    EntriesIff(v, entries, 0);
    LessSelf(v);
    EntriesLess(v, v, entries, 0);
    LessFreed(v1, v, e);
    if Quiet(v, e) {
      ZeroBlockTable();
      EntriesZero(v, entries, 0);
    }
    hide EntriesStop, Less;
  }

  lemma {:induction false} ChainIff(v: Volume, t: seq<int>, index: nat)
    requires Sized(v) && |t| == FAN_OUT && index <= FAN_OUT
    requires QuietUpTo(v, t, index)
    ensures EraseChain(v, t, index) == (v, Returned(-1)) <==> ChainStops(v, t)
    decreases FAN_OUT - index
  {
    if index == FAN_OUT {
      NeverLoud(v, t);
      hide ChainStops, Quiet;
    } else if IsBlock(t[index]) && Quiet(v, t[index]) && Quiet(v, 0) {
      OneBlock(v, t[index]);
      hide StopsAt, EraseEntries, Less, ChainStops;
      ChainIff(v, t, index + 1);
    } else {
      FirstLoud(v, t, index);
      ChainLoud(v, t, index);
      hide StopsAt, EraseChain, ChainStops;
    }
  }

  lemma ChainMore(v: Volume, t: seq<int>, index: nat)
    requires Sized(v) && |t| == FAN_OUT && index < FAN_OUT
    ensures t[index] == -1 ==> EraseChain(v, t, index) == (v, Returned(0))
    ensures t[index] != -1 && !IsBlock(t[index]) ==> EraseChain(v, t, index) == (v, Returned(-1))
    ensures IsBlock(t[index]) ==>
      var (v1, ok) := EraseEntries(v, BlockTable(v.disk[t[index]]), 0);
      && (ok ==> Sized(Freed(v1, t[index])))
      && EraseChain(v, t, index) == if ok then EraseChain(Freed(v1, t[index]), t, index + 1) else (v1, Returned(-1))
  {
    hide EraseEntries;
  }

  lemma ChainLoud(v: Volume, t: seq<int>, index: nat)
    requires Sized(v) && |t| == FAN_OUT && index < FAN_OUT && !(Quiet(v, t[index]) && Quiet(v, 0))
    ensures EraseChain(v, t, index) == (v, Returned(-1)) <==> StopsAt(v, t[index])
  {
    hide StopsAt, Quiet, Less, EraseEntries, EraseChain, Freed;
    ChainMore(v, t, index);
    if IsBlock(t[index]) {
      OneBlock(v, t[index]);
      var (v1, ok) := EraseEntries(v, BlockTable(v.disk[t[index]]), 0);
      if ok { ChainLess(Freed(v1, t[index]), v, t, index + 1); }
    } else {
      StopsNoBlock(v, t[index]);
    }
  }

  lemma StopsNoBlock(v: Volume, b: int)
    requires Sized(v) && !IsBlock(b)
    ensures StopsAt(v, b) <==> b != -1
  {
  }

  lemma NeverLoud(v: Volume, t: seq<int>)
    requires Sized(v) && |t| == FAN_OUT && QuietUpTo(v, t, FAN_OUT)
    ensures !ChainStops(v, t)
  {
    QuietGoOn(v, t, FAN_OUT);
    hide StopsAt, QuietUpTo;
  }

  lemma QuietGoOn(v: Volume, t: seq<int>, n: nat)
    requires Sized(v) && n <= |t| && QuietUpTo(v, t, n)
    ensures forall m :: 0 <= m < n ==> !StopsAt(v, t[m])
  {
    forall m | 0 <= m < n ensures !StopsAt(v, t[m]) { QuietGoesOn(v, t[m]); }
  }

  lemma LoudEnds(v: Volume, t: seq<int>, index: nat, n: nat)
    requires Sized(v) && index < n <= |t| && QuietUpTo(v, t, n)
    ensures Quiet(v, t[index]) && Quiet(v, 0)
  {
  }

  /** The first block that is not quiet decides. */
  lemma FirstLoud(v: Volume, t: seq<int>, index: nat)
    requires Sized(v) && |t| == FAN_OUT && index < FAN_OUT && QuietUpTo(v, t, index)
    requires !(Quiet(v, t[index]) && Quiet(v, 0))
    ensures ChainStops(v, t) <==> StopsAt(v, t[index])
  {
    QuietGoOn(v, t, index);
    hide StopsAt, Quiet, QuietUpTo;
    forall n | index < n < FAN_OUT && QuietUpTo(v, t, n) ensures false { LoudEnds(v, t, index, n); }
  }

  /** Erasing what an entry leads to fails and changes nothing just when the first
      access that would change something is to no block. */
  lemma EraseIff(v: Volume, i: int)
    requires Sized(v) && 0 <= i < MAX_FILES
    ensures EraseFile(v, i) == (v, Returned(-1))
            <==> !IsBlock(v.table[i].twoOffset) || ChainStops(v, BlockTable(v.disk[v.table[i].twoOffset]))
  {
    hide ChainStops;
    if IsBlock(v.table[i].twoOffset) { ChainIff(v, BlockTable(v.disk[v.table[i].twoOffset]), 0); }
  }

  /** Deleting the empty name is harmless. */
  ghost predicate NothingErased(v: Volume)
    requires Sized(v)
  {
    var i := Lookup(v.dir, []);
    i >= MAX_FILES || !IsBlock(v.table[i].twoOffset) || ChainStops(v, BlockTable(v.disk[v.table[i].twoOffset]))
  }

  /** With a superblock in place that is decided by the first entry. */
  lemma FirstDecides(v: Volume, t: seq<int>)
    requires Sized(v) && |t| == FAN_OUT && !Quiet(v, 0)
    ensures ChainStops(v, t) <==> StopsAt(v, t[0])
  {
    FirstLoud(v, t, 0);
  }

  // ---- The entry of a deleted file

  lemma SuperTable()
    ensures var t := BlockTable(EncodeSuper(MADE_SUPER));
      && t[0] == 2 && t[1] == 1 && t[2] == DATA_OFFSET && t[3] == t[4] == 3
      && forall k :: 5 <= k < FAN_OUT ==> t[k] == 0
  {
    var head := [2, 1, DATA_OFFSET, 3, 3];
    assert EncodeSuper(MADE_SUPER) == EncodeInts(head) + Zeros(4 * (FAN_OUT - 5));
    DecodeJoined(EncodeInts(head), Zeros(4 * (FAN_OUT - 5)));
    IntsRoundTrip(head);
    ZerosDecode(FAN_OUT - 5);
  }

  /** Entries that are all block numbers are all erased. */
  lemma {:induction false} AllErased(v: Volume, t: seq<int>, ii: nat)
    requires Sized(v) && |t| == FAN_OUT && ii <= FAN_OUT && forall j :: 0 <= j < FAN_OUT ==> IsBlock(t[j])
    ensures var (v', ok) := EraseEntries(v, t, ii);
      ok && Less(v', v) && forall j :: ii <= j < FAN_OUT ==> IsBlock(t[j]) && v'.disk[t[j]] == ZERO_BLOCK
    decreases FAN_OUT - ii
  {
    LessSelf(v);
    if ii < FAN_OUT {
      LessFreed(v, v, t[ii]);
      AllErased(Freed(v, t[ii]), t, ii + 1);
      EntriesLess(Freed(v, t[ii]), v, t, ii + 1);
    }
  }

  /** A table of zeros and a block 0 of zeros: the outer loop does not end inside
      its table. */
  lemma {:induction false} ZerosRunOut(v: Volume, t: seq<int>, index: nat)
    requires Sized(v) && |t| == FAN_OUT && index <= FAN_OUT && v.disk[0] == ZERO_BLOCK
    requires forall j :: 0 <= j < FAN_OUT ==> t[j] == 0
    ensures EraseChain(v, t, index).1 == Undefined
    decreases FAN_OUT - index
  {
    if index < FAN_OUT {
      ZeroBlockTable();
      EntriesZero(v, BlockTable(v.disk[0]), 0);
      ZerosRunOut(Freed(EraseEntries(v, BlockTable(v.disk[0]), 0).0, 0), t, index + 1);
    }
  }

  /** An unused entry whose block has been zeroed leads to the superblock, taken for
      a first-level block: the metadata blocks and the first data block are zeroed,
      and the outer loop runs past the end of its table. */
  lemma StaleErased(v: Volume, i: int)
    requires Sized(v) && 0 <= i < MAX_FILES && v.disk[0] == EncodeSuper(MADE_SUPER)
    requires IsBlock(v.table[i].twoOffset) && v.disk[v.table[i].twoOffset] == ZERO_BLOCK
    ensures var (v', r) := EraseFile(v, i);
      r == Undefined && forall b :: b in {0, 1, 2, 3, DATA_OFFSET} ==> v'.disk[b] == ZERO_BLOCK
  {
    var t := BlockTable(ZERO_BLOCK);
    hide EraseEntries, EraseChain, Freed, Less, EncodeSuper;
    ZeroBlockTable();
    var v1 := SuperErased(v);
    ChainMore(v, t, 0);
    ZerosRunOut(v1, t, 1);
    LessSelf(v1);
    ChainLess(v1, v1, t, 1);
    StaysZero(EraseChain(v1, t, 1).0, v1);
  }

  /** What is left when the superblock has been taken for a table. */
  lemma SuperErased(v: Volume) returns (v1: Volume)
    requires Sized(v) && v.disk[0] == EncodeSuper(MADE_SUPER)
    ensures var (v0, ok) := EraseEntries(v, BlockTable(v.disk[0]), 0); ok && v1 == Freed(v0, 0)
    ensures Sized(v1) && forall b :: b in {0, 1, 2, 3, DATA_OFFSET} ==> v1.disk[b] == ZERO_BLOCK
  {
    var t := BlockTable(v.disk[0]);
    SuperTable();
    hide EraseEntries, EncodeSuper;
    AllErased(v, t, 0);
    assert t[0] == 2 && t[1] == 1 && t[2] == DATA_OFFSET && t[3] == 3;
    v1 := Freed(EraseEntries(v, t, 0).0, 0);
  }

  lemma StaysZero(v': Volume, v: Volume)
    requires Less(v', v)
    ensures Sized(v') && Sized(v) && forall b :: IsBlock(b) && v.disk[b] == ZERO_BLOCK ==> v'.disk[b] == ZERO_BLOCK
  {
  }

  /** So it is after a file has been created and deleted: the empty name finds its
      entry, and deleting that destroys the file system. */
  lemma CreateDeleteDelete(v0: Volume, s0: Shape, v1: Volume, s1: Shape, v2: Volume, s2: Shape, name: seq<byte>,
          fds: seq<FileDescriptor>)
    requires Sized(v0) && DirOK(v0.dir, fds) && FreeSlot(v0.dir) < MAX_FILES && v0.disk[0] == EncodeSuper(MADE_SUPER)
    requires CreateEffect(v0, s0, v1, s1, FreeSlot(v0.dir), name) && DeleteEffect(v1, s1, v2, s2, FreeSlot(v0.dir))
    ensures Sized(v2) && Lookup(v2.dir, []) == FreeSlot(v0.dir)
    ensures var (v', r) := EraseFile(v2, FreeSlot(v0.dir));
      r == Undefined && forall b :: b in {0, 1, 2, 3, DATA_OFFSET} ==> v'.disk[b] == ZERO_BLOCK
  {
    var i := FreeSlot(v0.dir);
    LeftBehind(v0, s0, v1, s1, v2, s2, i, name);
    FreeSlotFirst(v0.dir, 0);
    LookupIs(v2.dir, [], i);
    hide EraseFile, EncodeSuper, CreateEffect, DeleteEffect, Lookup, FreeSlot;
    StaleErased(v2, i);
  }

  lemma LeftBehind(v0: Volume, s0: Shape, v1: Volume, s1: Shape, v2: Volume, s2: Shape, i: int, name: seq<byte>)
    requires CreateEffect(v0, s0, v1, s1, i, name) && DeleteEffect(v1, s1, v2, s2, i) && Sized(v0)
    ensures Sized(v2) && v2.disk[0] == v0.disk[0] && v2.dir == v0.dir[i := DEntry(false, -1, [], v0.dir[i].refCnt)]
    ensures IsBlock(v2.table[i].twoOffset) && v2.disk[v2.table[i].twoOffset] == ZERO_BLOCK
  {
    hide BytesOf;
    assert FileOwned(v1, s1, i);
    assert s1.owner[v2.table[i].twoOffset] == SecondR(i);
    assert 0 !in s1.owner;
  }

  lemma {:induction false} FreeSlotFirst(dir: seq<DEntry>, k: nat)
    requires k <= |dir|
    ensures k <= FreeSlotFrom(dir, k) <= |dir| && (FreeSlotFrom(dir, k) < |dir| ==> !dir[FreeSlotFrom(dir, k)].used)
    ensures forall j :: k <= j < FreeSlotFrom(dir, k) ==> dir[j].used
    decreases |dir| - k
  {
    if k < |dir| && dir[k].used { FreeSlotFirst(dir, k + 1); }
  }
}
