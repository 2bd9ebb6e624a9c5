/** Blocks and the 32-bit little-endian tables that the file system
    keeps inside blocks. */
module FsBlocks {
  import opened Bytes

  const BLOCK_SIZE := 4096
  const FAN_OUT := 1024        // entries of a first- or second-level block
  const DISK_BLOCKS := 12288

  type Block = b: seq<byte> | |b| == BLOCK_SIZE witness seq(BLOCK_SIZE, _ => 0 as byte)

  const ZERO_BLOCK: Block := Zeros(BLOCK_SIZE)

  predicate IsBlock(b: int) {
    0 <= b < DISK_BLOCKS
  }

  predicate IsInt32(x: int) {
    -0x8000_0000 <= x < 0x8000_0000
  }

  /** Conversion of a C expression to `int`, for values below 2^32. */
  function ToInt32(x: int): int
    requires 0 <= x < 0x1_0000_0000
  {
    if x < 0x8000_0000 then x else x - 0x1_0000_0000
  }

  /** C division, which truncates toward zero. */
  function TruncDiv(x: int, y: int): int
    requires y > 0
  {
    if x >= 0 then x / y else -((-x) / y)
  }

  /** The four bytes of an `int`, low byte first. */
  function IntBytes(x: int): (b: seq<byte>)
    requires IsInt32(x)
    ensures |b| == 4
  {
    var u := if x < 0 then x + 0x1_0000_0000 else x;
    [(u % 256) as byte, (u / 256 % 256) as byte, (u / 65536 % 256) as byte, (u / 16777216) as byte]
  }

  function BytesInt(b: seq<byte>): (x: int)
    requires |b| == 4
    ensures IsInt32(x)
  {
    var u := b[0] as int + 256 * b[1] as int + 65536 * b[2] as int + 16777216 * b[3] as int;
    if u >= 0x8000_0000 then u - 0x1_0000_0000 else u
  }

  lemma IntRoundTrip(x: int)
    requires IsInt32(x)
    ensures BytesInt(IntBytes(x)) == x
  {
    var u := if x < 0 then x + 0x1_0000_0000 else x;
    assert u == u % 256 + 256 * (u / 256 % 256) + 65536 * (u / 65536 % 256) + 16777216 * (u / 16777216);
  }

  function EncodeInts(t: seq<int>): (b: seq<byte>)
    requires forall k :: 0 <= k < |t| ==> IsInt32(t[k])
    ensures |b| == 4 * |t|
  {
    if t == [] then [] else IntBytes(t[0]) + EncodeInts(t[1..])
  }

  function DecodeInts(b: seq<byte>): (t: seq<int>)
    requires |b| % 4 == 0
    ensures 4 * |t| == |b|
    ensures forall k :: 0 <= k < |t| ==> IsInt32(t[k])
  {
    if b == [] then [] else [BytesInt(b[..4])] + DecodeInts(b[4..])
  }

  lemma {:induction false} IntsRoundTrip(t: seq<int>)
    requires forall k :: 0 <= k < |t| ==> IsInt32(t[k])
    ensures DecodeInts(EncodeInts(t)) == t
  {
    if t != [] {
      IntRoundTrip(t[0]);
      IntsRoundTrip(t[1..]);
      var b := EncodeInts(t);
      assert b[..4] == IntBytes(t[0]);
      assert b[4..] == EncodeInts(t[1..]);
    }
  }

  lemma {:induction false} DecodeJoined(a: seq<byte>, b: seq<byte>)
    requires |a| % 4 == 0 && |b| % 4 == 0
    ensures DecodeInts(a + b) == DecodeInts(a) + DecodeInts(b)
  {
    if a == [] {
      assert a + b == b;
    } else {
      DecodeJoined(a[4..], b);
      assert (a + b)[..4] == a[..4] && (a + b)[4..] == a[4..] + b;
    }
  }

  lemma {:induction false} ZerosDecode(n: nat)
    ensures forall k :: 0 <= k < n ==> DecodeInts(Zeros(4 * n))[k] == 0
  {
    if n > 0 {
      ZerosDecode(n - 1);
      assert Zeros(4 * n)[..4] == Zeros(4);
      assert Zeros(4 * n)[4..] == Zeros(4 * (n - 1));
      forall k | 0 <= k < n ensures DecodeInts(Zeros(4 * n))[k] == 0 {
        if k > 0 { assert DecodeInts(Zeros(4 * n))[k] == DecodeInts(Zeros(4 * (n - 1)))[k - 1]; }
      }
    }
  }

  /** The C structs `First_L` and `Second_L`: 1024 ints that fill one block. */
  predicate IsTable(t: seq<int>) {
    && |t| == FAN_OUT
    && forall k :: 0 <= k < FAN_OUT ==> IsInt32(t[k])
  }

  function TableBlock(t: seq<int>): Block
    requires IsTable(t)
  {
    EncodeInts(t)
  }

  function BlockTable(b: Block): (t: seq<int>)
    ensures IsTable(t)
  {
    DecodeInts(b)
  }

  lemma TableRoundTrip(t: seq<int>)
    requires IsTable(t)
    ensures BlockTable(TableBlock(t)) == t
  {
    IntsRoundTrip(t);
  }

  lemma ZeroBlockTable()
    ensures forall k :: 0 <= k < FAN_OUT ==> BlockTable(ZERO_BLOCK)[k] == 0
  {
    ZerosDecode(FAN_OUT);
  }
}
