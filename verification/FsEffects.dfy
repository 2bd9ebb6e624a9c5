/** What creating, deleting and opening come to, block by block and in numbers. */
module FsEffects {
  import opened Bytes
  import opened FsBlocks
  import opened FsLayout
  import opened FsWriting
  import opened FsFiles
  import opened Sets

  ghost function BlocksOf(s: Shape, i: int): set<int> {
    set b | b in s.owner && s.owner[b].file == i
  }

  /** A file has its second-level block, its first-level blocks and its data blocks. */
  lemma BlocksOfFile(v: Volume, s: Shape, i: int)
    requires Owned(v, s) && UsedFile(v, i)
    ensures |s.files| == 64 && |BlocksOf(s, i)| == 1 + |s.files[i].firsts| + |s.files[i].data|
    ensures forall b :: b in BlocksOf(s, i) ==> 6 <= b < 12288 && v.bitmap[b] == 49
  {
    assert FileOwned(v, s, i);
    var l := s.files[i];
    var q := [l.second] + l.firsts + l.data;
    var n := 1 + |l.firsts|;
    forall k | 0 <= k < |q|
      ensures q[k] in s.owner
      ensures s.owner[q[k]] == if k == 0 then SecondR(i) else if k < n then FirstR(i, k - 1) else DataR(i, k - n)
    {
    }
    assert Distinct(q);
    SetSize(q);
    forall b ensures b in AsSet(q) <==> b in BlocksOf(s, i) {
      if b in BlocksOf(s, i) {
        InRoles(s, i, b);
        assert b == q[0] || (exists k :: 1 <= k < n && q[k] == b) || exists k :: n <= k < |q| && q[k] == b;
      }
    }
    assert AsSet(q) == BlocksOf(s, i);
  }

  lemma InRoles(s: Shape, i: int, b: int)
    requires b in BlocksOf(s, i) && 0 <= i < |s.files| && At(s.files, s.owner[b], b)
    ensures var q, n := [s.files[i].second] + s.files[i].firsts + s.files[i].data, 1 + |s.files[i].firsts|;
      b == q[0] || (exists k :: 1 <= k < n && q[k] == b) || exists k :: n <= k < |q| && q[k] == b
  {
    var q, n := [s.files[i].second] + s.files[i].firsts + s.files[i].data, 1 + |s.files[i].firsts|;
    match s.owner[b]
    case SecondR(_) =>
    case FirstR(_, k) => assert q[k + 1] == b;
    case DataR(_, k) => assert q[k + n] == b;
  }

  /** After a creation: the entry has the name and the file's bytes are 4096 zeros;
      three blocks have become used, and the other files are as before. */
  lemma CreateLeaves(v0: Volume, s0: Shape, v: Volume, s: Shape, i: int, name: seq<byte>)
    returns (a: int, b: int, c: int)
    requires CreateEffect(v0, s0, v, s, i, name)
    ensures |v.dir| == |v0.dir| == |v.table| == |v0.table| == 64 && 0 <= i < 64
    ensures !v0.dir[i].used && v.dir == v0.dir[i := DEntry(true, i, name, v0.dir[i].refCnt)]
    ensures v.table[i].size == v0.table[i].size && forall k :: 0 <= k < 64 && k != i ==> v.table[k] == v0.table[k]
    ensures |BytesOf(v, s, i)| == 4096 && forall x :: 0 <= x < 4096 ==> BytesOf(v, s, i)[x] == 0
    ensures |v.bitmap| == |v0.bitmap| == 12288
    ensures 6 <= a < 12288 && 6 <= b < 12288 && 6 <= c < 12288 && a != b && b != c && a != c
    ensures v0.bitmap[a] == v0.bitmap[b] == v0.bitmap[c] == 48 && v.bitmap == v0.bitmap[a := 49][b := 49][c := 49]
    ensures forall k :: UsedFile(v0, k) ==> UsedFile(v, k) && BytesOf(v, s, k) == BytesOf(v0, s0, k)
  {
    var l := s.files[i];
    a, b, c := l.second, l.firsts[0], l.data[0];
    hide Owned, BytesOf;
    SizedOwned(v0, s0);
    SizedOwned(v, s);
  }

  /** After a write, beside the bytes it puts down: each block the file has gained has
      come from the free ones, and everything else is as before. */
  lemma WriteLeaves(v0: Volume, s0: Shape, v: Volume, s: Shape, i: int, offset: nat, buf: seq<byte>)
    requires WriteEffect(v0, s0, v, s, i, offset, buf)
    ensures |s0.files| == |s.files| == |v.table| == |v0.table| == 64 && 0 <= i < 64 && v.dir == v0.dir
    ensures |v.bitmap| == |v0.bitmap| == 12288
    ensures |FreeBlocks(v0.bitmap)| - |FreeBlocks(v.bitmap)| == |s.files[i].data| - |s0.files[i].data| >= 0
    ensures v.table[i].twoOffset == v0.table[i].twoOffset
    ensures forall k :: 0 <= k < 64 && k != i ==> v.table[k] == v0.table[k]
    ensures forall k :: UsedFile(v0, k) && k != i ==> UsedFile(v, k) && BytesOf(v, s, k) == BytesOf(v0, s0, k)
  {
    SizedOwned(v0, s0);
    SizedOwned(v, s);
    hide Owned, BytesOf, FreeBlocks, Overlay, WritePos;
  }

  /** After a deletion: the entry is cleared, the file's blocks are free and zero, and
      there are as many more free blocks as the file had. */
  lemma DeleteLeaves(v0: Volume, s0: Shape, v: Volume, s: Shape, i: int)
    requires DeleteEffect(v0, s0, v, s, i)
    ensures |v.dir| == |v0.dir| == 64 && 0 <= i < 64 && |s0.files| == 64
    ensures v.dir == v0.dir[i := DEntry(false, -1, [], v0.dir[i].refCnt)] && v.table == v0.table
    ensures |v.bitmap| == |v0.bitmap| == |v.disk| == 12288
    ensures |FreeBlocks(v.bitmap)| == |FreeBlocks(v0.bitmap)| + 1 + |s0.files[i].firsts| + |s0.files[i].data|
    ensures forall b :: 0 <= b < 12288 && v.bitmap[b] != v0.bitmap[b] ==> v.bitmap[b] == 48 && v0.bitmap[b] == 49
    ensures forall b, y :: 0 <= b < 12288 && v.bitmap[b] != v0.bitmap[b] && 0 <= y < 4096 ==> v.disk[b][y] == 0
    ensures forall k :: UsedFile(v0, k) && k != i ==> UsedFile(v, k) && BytesOf(v, s, k) == BytesOf(v0, s0, k)
  {
    SizedOwned(v0, s0);
    SizedOwned(v, s);
    BlocksOfFile(v0, s0, i);
    hide Owned, BytesOf;
    var gone := BlocksOf(s0, i);
    forall b ensures b in FreeBlocks(v.bitmap) <==> b in FreeBlocks(v0.bitmap) + gone {}
    assert FreeBlocks(v.bitmap) == FreeBlocks(v0.bitmap) + gone;
    assert FreeBlocks(v0.bitmap) !! gone;
  }

  // ---- All blocks

  /** The number of blocks that files 0 to `n - 1` need. */
  ghost function BlocksUpTo(v: Volume, s: Shape, n: nat): nat
    requires |v.dir| == |s.files| == 64 && n <= 64
  {
    if n == 0 then 0
    else BlocksUpTo(v, s, n - 1) + if v.dir[n - 1].used then 1 + |s.files[n - 1].firsts| + |s.files[n - 1].data| else 0
  }

  ghost function OwnedUpTo(s: Shape, n: nat): set<int> {
    set b | b in s.owner && s.owner[b].file < n
  }

  lemma OneMore(s: Shape, n: nat)
    ensures |OwnedUpTo(s, n + 1)| == |OwnedUpTo(s, n)| + |BlocksOf(s, n)|
  {
    assert OwnedUpTo(s, n + 1) == OwnedUpTo(s, n) + BlocksOf(s, n);
  }

  lemma BlocksOfAny(v: Volume, s: Shape, i: nat)
    requires Owned(v, s) && i < 64
    ensures |v.dir| == |s.files| == 64
    ensures |BlocksOf(s, i)| == if v.dir[i].used then 1 + |s.files[i].firsts| + |s.files[i].data| else 0
  {
    SizedOwned(v, s);
    OwnersUsed(v, s);
    hide Owned;
    if v.dir[i].used {
      BlocksOfFile(v, s, i);
    } else {
      assert BlocksOf(s, i) == {};
    }
  }

  lemma {:induction false} UpToCount(v: Volume, s: Shape, n: nat)
    requires Owned(v, s) && n <= 64
    ensures |v.dir| == |s.files| == 64 && |OwnedUpTo(s, n)| == BlocksUpTo(v, s, n)
  {
    SizedOwned(v, s);
    OwnersUsed(v, s);
    hide Owned;
    if n == 0 {
      assert OwnedUpTo(s, n) == {};
    } else {
      hide OwnedUpTo, BlocksOf;
      UpToCount(v, s, n - 1);
      OneMore(s, n - 1);
      BlocksOfAny(v, s, n - 1);
    }
  }

  lemma OwnersUsed(v: Volume, s: Shape)
    requires Owned(v, s)
    ensures forall b :: b in s.owner ==> 6 <= b < 12288 && UsedFile(v, s.owner[b].file)
  {
  }

  /** No block is lost: the 12282 blocks of the data area are the free ones and those
      of the files there are. */
  lemma AllBlocks(v: Volume, s: Shape)
    requires Owned(v, s)
    ensures |v.dir| == |s.files| == 64 && |v.bitmap| == 12288
    ensures |FreeBlocks(v.bitmap)| + BlocksUpTo(v, s, 64) == 12282
  {
    UpToCount(v, s, 64);
    SizedOwned(v, s);
    OwnersUsed(v, s);
    hide Owned, FreeBlocks, BlocksUpTo;
    forall b ensures b in FreeBlocks(v.bitmap) <==> 6 <= b < 12288 && b !in OwnedUpTo(s, 64) { InUse(v, s, b); }
    TwoParts(FreeBlocks(v.bitmap), OwnedUpTo(s, 64));
  }

  lemma TwoParts(a: set<int>, b: set<int>)
    requires forall x :: x in a <==> 6 <= x < 12288 && x !in b
    requires forall x :: x in b ==> 6 <= x < 12288
    ensures |a| + |b| == 12282
  {
    assert a + b == Range(6, 12288);
    assert |a + b| == |a| + |b|;
  }

  lemma InUse(v: Volume, s: Shape, b: int)
    requires Owned(v, s)
    ensures |v.bitmap| == 12288 && (b in FreeBlocks(v.bitmap) <==> 6 <= b < 12288 && b !in s.owner)
  {
  }
}
