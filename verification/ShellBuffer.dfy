/** Strings cut in place: the buffer holds characters, a place in it is an index into
    it, and a string runs up to the next NUL. */
module ShellBuffer {
  import opened ShellText

  const NUL := '\0'

  /** A string from `p`, its NUL at `e`. */
  predicate CStr(b: seq<char>, p: nat, e: nat) {
    p <= e < |b| && b[e] == NUL && forall i :: p <= i < e ==> b[i] != NUL
  }

  /** Only the characters from `p` up to `e` may differ. */
  predicate Within(b: seq<char>, b': seq<char>, p: nat, e: nat) {
    |b| == |b'| && forall i :: 0 <= i < |b| && !(p <= i < e) ==> b'[i] == b[i]
  }

  method StrLen(buf: array<char>, p: nat, ghost e: nat) returns (n: nat)
    requires CStr(buf[..], p, e)
    ensures p + n == e
  {
    n := 0;
    while buf[p + n] != NUL
      invariant p + n <= e
      decreases e - n
    {
      n := n + 1;
    }
  }

  function Moved(b: seq<char>, dst: nat, src: nat, n: nat): (b': seq<char>)
    requires dst + n <= |b| && src + n <= |b|
    ensures |b'| == |b| && forall i :: 0 <= i < |b| ==> b'[i] == if dst <= i < dst + n then b[i - dst + src] else b[i]
  {
    seq(|b|, i requires 0 <= i < |b| => if dst <= i < dst + n then b[i - dst + src] else b[i])
  }

  method MemMove(buf: array<char>, dst: nat, src: nat, n: nat)
    requires dst + n <= buf.Length && src + n <= buf.Length
    modifies buf
    ensures buf[..] == Moved(old(buf[..]), dst, src, n)
  {
    forall i | 0 <= i < n { buf[dst + i] := buf[src + i]; }
  }

  /** The last character of a string that is no space, but for a string of spaces
      its first; one before the string if that is empty. */
  method LastKept(buf: array<char>, str: nat, ghost e: nat) returns (end: int)
    requires CStr(buf[..], str, e)
    ensures str - 1 <= end < e && (str < e ==> str <= end) && (end > str ==> !IsSpace(buf[end]))
    ensures forall i :: end < i < e ==> IsSpace(buf[i])
  {
    var len := StrLen(buf, str, e);
    end := str + len - 1;
    while end > str && IsSpace(buf[end])
      invariant str - 1 <= end < e && (str < e ==> str <= end)
      invariant forall i :: end < i < e ==> IsSpace(buf[i])
    {
      end := end - 1;
    }
  }

  method FirstKept(buf: array<char>, str: nat, ghost e: nat) returns (start: nat)
    requires CStr(buf[..], str, e)
    ensures str <= start <= e && (start == e || !IsSpace(buf[start]))
    ensures forall i :: str <= i < start ==> IsSpace(buf[i])
  {
    start := str;
    while buf[start] != NUL && IsSpace(buf[start])
      invariant str <= start <= e && forall i :: str <= i < start ==> IsSpace(buf[i])
      decreases e - start
    {
      start := start + 1;
    }
  }

  /** Cuts the spaces off the end and moves the rest down over those in front. */
  method Trim(buf: array<char>, str: nat, ghost e: nat) returns (ghost e': nat)
    requires CStr(buf[..], str, e)
    modifies buf
    ensures e' <= e && CStr(buf[..], str, e') && Within(old(buf[..]), buf[..], str, e)
    ensures buf[str..e'] == Trimmed(old(buf[str..e]))
  {
    hide IsSpace, Trimmed, Moved;
    ghost var b := buf[..];
    var end := LastKept(buf, str, e);
    ghost var k: nat := end + 1;
    assert forall i :: k <= i < e ==> IsSpace(b[i]);
    buf[end + 1] := NUL;
    assert buf[..] == b[k := NUL];
    var start := FirstKept(buf, str, k);
    forall i | str <= i < start ensures IsSpace(b[i]) { assert buf[i] == b[i]; }
    MemMove(buf, str, start, end - start + 2);
    e' := str + (k - start);
    TrimmedAt(b, str, e, start, k);
  }

  /** The cut at `k` and the move down from `start` leave the trimmed string. */
  lemma TrimmedAt(b: seq<char>, str: nat, e: nat, start: nat, k: nat)
    requires CStr(b, str, e) && str <= start <= k <= e && (str < e ==> str < k)
    requires (k > str + 1 ==> !IsSpace(b[k - 1])) && (start == k || !IsSpace(b[start]))
    requires (forall i :: k <= i < e ==> IsSpace(b[i])) && (forall i :: str <= i < start ==> IsSpace(b[i]))
    ensures var b', e' := Moved(b[k := NUL], str, start, k + 1 - start), str + (k - start);
      CStr(b', str, e') && Within(b, b', str, e) && b'[str..e'] == Trimmed(b[str..e])
  {
    hide IsSpace, Trimmed;
    TrimmedSlice(b, str, e, start, k);
    SameSlice(Moved(b[k := NUL], str, start, k + 1 - start), str, str + (k - start), b, start);
  }

  lemma TrimmedSlice(b: seq<char>, str: nat, e: nat, start: nat, k: nat)
    requires str <= start <= k <= e <= |b| && (str < e ==> str < k)
    requires (k > str + 1 ==> !IsSpace(b[k - 1])) && (start == k || !IsSpace(b[start]))
    requires (forall i :: k <= i < e ==> IsSpace(b[i])) && (forall i :: str <= i < start ==> IsSpace(b[i]))
    ensures Trimmed(b[str..e]) == b[start..k]
  {
    hide IsSpace, Trimmed;
    TrimAt(b[str..e], k - str, start - str);
    SameSlice(b[str..e], start - str, k - str, b, start);
  }

  /** The same characters at another place. */
  lemma SameSlice(a: seq<char>, p: nat, e: nat, b: seq<char>, q: nat)
    requires p <= e <= |a| && q + (e - p) <= |b| && forall i :: p <= i < e ==> a[i] == b[i - p + q]
    ensures a[p..e] == b[q..q + (e - p)]
  {
  }

  /** The two ends that the loops of `Trim` find; a string of spaces only keeps its
      first one up to the second loop. */
  lemma TrimAt(s: string, k: nat, j: nat)
    requires j <= k <= |s| && (s != [] ==> k > 0) && (k > 1 ==> !IsSpace(s[k - 1]))
    requires (forall i :: k <= i < |s| ==> IsSpace(s[i])) && (forall i :: 0 <= i < j ==> IsSpace(s[i]))
    requires j == k || !IsSpace(s[j])
    ensures Trimmed(s) == s[j..k]
  {
    if k > 0 && IsSpace(s[k - 1]) {
      assert k == 1 && j == 1;
      TrimRightIs(s, 0);
    } else {
      TrimRightIs(s, k);
      TrimLeftIs(s[..k], j);
      assert s[..k][j..] == s[j..k];
    }
  }

  // ---- Cutting at delimiters

  datatype CharPtr = Null | At(p: nat)

  method SkipChars(buf: array<char>, p: nat, ghost e: nat, delims: string) returns (q: nat)
    requires CStr(buf[..], p, e)
    ensures p <= q <= e && q - p == Skip(buf[p..e], delims)
  {
    q := p;
    while buf[q] != NUL && buf[q] in delims
      invariant p <= q <= e && forall i :: p <= i < q ==> buf[i] in delims
      decreases e - q
    {
      q := q + 1;
    }
    SkipIs(buf[p..e], delims, q - p);
  }

  method SpanChars(buf: array<char>, p: nat, ghost e: nat, delims: string) returns (q: nat)
    requires CStr(buf[..], p, e)
    ensures p <= q <= e && q - p == Span(buf[p..e], delims)
  {
    q := p;
    while buf[q] != NUL && buf[q] !in delims
      invariant p <= q <= e && forall i :: p <= i < q ==> buf[i] !in delims
      decreases e - q
    {
      q := q + 1;
    }
    SpanIs(buf[p..e], delims, q - p);
  }

  /** The first token runs from `p` to `q`. */
  lemma TokenAt(b: seq<char>, from: nat, e: nat, delims: string, p: nat, q: nat)
    requires from <= p < e <= |b| && p - from == Skip(b[from..e], delims)
    requires q <= e && q - p == Span(b[p..e], delims)
    ensures p < q && Tokens(b[from..e], delims) == [b[p..q]] + if q == e then [] else Tokens(b[q + 1..e], delims)
  {
    hide Skip, Span, Tokens;
    var s := b[from..e];
    SliceOfSlice(b, from, e, p, e);
    SliceOfSlice(b, from, e, p, q);
    if q < e { SliceOfSlice(b, from, e, q + 1, e); }
    TokensFirst(s, delims, p - from, q - p);
  }

  lemma SliceOfSlice(b: seq<char>, from: nat, e: nat, x: nat, y: nat)
    requires from <= x <= y <= e <= |b|
    ensures b[from..e][x - from..y - from] == b[x..y] && (y == e ==> b[from..e][x - from..] == b[x..y])
  {
    SameSlice(b[from..e], x - from, y - from, b, x);
  }

  /** A token has been cut off, and what is left from `saved` has the others. */
  ghost predicate CutOff(b: seq<char>, b': seq<char>, from: nat, e: nat, delims: string, p: nat, te: nat, saved: nat)
    requires from <= e <= |b|
  {
    && from <= p < te <= saved <= e && te < |b| && b' == b[te := NUL] && CStr(b', p, te) && CStr(b', saved, e)
    && Tokens(b[from..e], delims) == [b'[p..te]] + Tokens(b'[saved..e], delims)
  }

  lemma CutAt(b: seq<char>, from: nat, e: nat, delims: string, p: nat, q: nat)
    requires CStr(b, from, e) && from <= p < e && p - from == Skip(b[from..e], delims)
    requires q <= e && q - p == Span(b[p..e], delims)
    ensures CutOff(b, b[q := NUL], from, e, delims, p, q, if q == e then e else q + 1)
  {
    hide Tokens, Skip, Span;
    TokenAt(b, from, e, delims, p, q);
    SameSlice(b[q := NUL], p, q, b, p);
    if q == e {
      NoTokens(delims);
      assert b[q := NUL][e..e] == [];
    } else {
      SameSlice(b[q := NUL], q + 1, e, b, q + 1);
    }
  }

  lemma CutWithin(b: seq<char>, b': seq<char>, from: nat, e: nat, delims: string, p: nat, te: nat, saved: nat)
    requires CStr(b, from, e) && CutOff(b, b', from, e, delims, p, te, saved)
    ensures from <= p < te <= saved <= e < |b'| && CStr(b', p, te) && CStr(b', saved, e) && Within(b, b', from, e)
    ensures var ts := Tokens(b[from..e], delims);
      ts != [] && b'[p..te] == ts[0] && Tokens(b'[saved..e], delims) == ts[1..]
  {
  }

  /** The first token of the string from `from`, ended by a NUL in the place of its
      delimiter. `saved` is where the next call takes up. */
  method StrTok(buf: array<char>, from: nat, ghost e: nat, delims: string) returns (tok: CharPtr, saved: nat,
          ghost te: nat)
    requires CStr(buf[..], from, e)
    modifies buf
    ensures from <= saved <= e && CStr(buf[..], saved, e) && Within(old(buf[..]), buf[..], from, e)
    ensures var ts := Tokens(old(buf[from..e]), delims);
      match tok
      case Null => ts == [] && saved == e && buf[..] == old(buf[..])
      case At(p) =>
        && ts != [] && from <= p < te <= saved && CStr(buf[..], p, te) && buf[p..te] == ts[0]
        && Tokens(buf[saved..e], delims) == ts[1..]
  {
    hide Span, Skip, CutOff;
    ghost var b := buf[..];
    var p := SkipChars(buf, from, e, delims);
    if buf[p] == NUL {
      assert Tokens(buf[from..e], delims) == [];
      return Null, p, p;
    }
    var q := SpanChars(buf, p, e, delims);
    te := q;
    assert b[from..e] == buf[from..e] && b[p..e] == buf[p..e];
    CutAt(b, from, e, delims, p, q);
    if buf[q] == NUL {
      saved := q;
      assert b[q := NUL] == b;
    } else {
      buf[q] := NUL;
      saved := q + 1;
    }
    hide Tokens;
    CutWithin(b, buf[..], from, e, delims, p, te, saved);
    tok := At(p);
  }
}
