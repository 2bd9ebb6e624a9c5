/** Bytes, and what a call gives, for both the file system and the thread-local
    storage. */
module Bytes {
  newtype byte = x: int | 0 <= x < 256

  /** What a call gives back: its return value, or nothing that C defines, as when
      it has indexed past the end of a table. */
  datatype Outcome = Returned(value: int) | Undefined

  function Zeros(n: nat): (z: seq<byte>)
    ensures |z| == n
  {
    seq(n, _ => 0 as byte)
  }

  /** `buf` laid over `before` at `offset`, which may extend it. */
  function Splice(before: seq<byte>, offset: nat, buf: seq<byte>): seq<byte>
    requires offset <= |before|
  {
    before[..offset] + buf + if offset + |buf| <= |before| then before[offset + |buf|..] else []
  }

  /** One more byte of the buffer laid down. */
  lemma SpliceByte(before: seq<byte>, offset: nat, buf: seq<byte>, n: nat)
    requires offset + n < |before| && n < |buf|
    ensures |Splice(before, offset, buf[..n])| == |before|
    ensures Splice(before, offset, buf[..n])[offset + n := buf[n]] == Splice(before, offset, buf[..n + 1])
  {
  }
}
