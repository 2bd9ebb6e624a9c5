/** Trimming and cutting strings, as values. */
module ShellText {
  /** `isspace` in the C locale. */
  predicate IsSpace(c: char) {
    c in " \t\n\r\U{0B}\U{0C}"
  }

  const BLANKS := " \t\n"  // what separates words
  const BAR := "|"

  function TrimRight(s: string): (t: string)
    ensures t <= s && (t == [] || !IsSpace(t[|t| - 1]))
  {
    if s != [] && IsSpace(s[|s| - 1]) then TrimRight(s[..|s| - 1]) else s
  }

  function TrimLeft(s: string): (t: string)
    ensures |t| <= |s| && t == s[|s| - |t|..] && (t == [] || !IsSpace(t[0]))
  {
    if s != [] && IsSpace(s[0]) then TrimLeft(s[1..]) else s
  }

  function Trimmed(s: string): string {
    TrimLeft(TrimRight(s))
  }

  /** The number of leading characters in `delims`. */
  function Skip(s: string, delims: string): (k: nat)
    ensures k <= |s| && (k < |s| ==> s[k] !in delims)
    ensures forall i :: 0 <= i < k ==> s[i] in delims
  {
    if s != [] && s[0] in delims then 1 + Skip(s[1..], delims) else 0
  }

  /** The number of leading characters not in `delims`. */
  function Span(s: string, delims: string): (n: nat)
    ensures n <= |s| && (n < |s| ==> s[n] in delims)
    ensures forall i :: 0 <= i < n ==> s[i] !in delims
  {
    if s != [] && s[0] !in delims then 1 + Span(s[1..], delims) else 0
  }

  /** The maximal runs of characters outside `delims`, in order. */
  function Tokens(s: string, delims: string): seq<string>
    decreases |s|, 1
  {
    var k := Skip(s, delims);
    if k == |s| then [] else TokensIn(s[k..], delims)
  }

  /** The same for a string that does not start with a delimiter. */
  function TokensIn(s: string, delims: string): seq<string>
    requires s != [] && s[0] !in delims
    decreases |s|, 0
  {
    var n := Span(s, delims);
    if n == |s| then [s] else [s[..n]] + Tokens(s[n + 1..], delims)
  }

  /** Trimming takes spaces off the ends until there is none. */
  lemma {:induction false} TrimRightIs(s: string, k: nat)
    requires k <= |s| && (k == 0 || !IsSpace(s[k - 1])) && forall i :: k <= i < |s| ==> IsSpace(s[i])
    ensures TrimRight(s) == s[..k]
    decreases |s|
  {
    if k < |s| {
      assert s[..|s| - 1][..k] == s[..k];
      TrimRightIs(s[..|s| - 1], k);
    } else {
      assert s[..k] == s;
    }
  }

  lemma {:induction false} TrimLeftIs(s: string, k: nat)
    requires k <= |s| && (k == |s| || !IsSpace(s[k])) && forall i :: 0 <= i < k ==> IsSpace(s[i])
    ensures TrimLeft(s) == s[k..]
    decreases |s|
  {
    if k > 0 {
      assert s[1..][k - 1..] == s[k..];
      TrimLeftIs(s[1..], k - 1);
    } else {
      assert s[k..] == s;
    }
  }

  lemma {:induction false} SkipIs(s: string, delims: string, k: nat)
    requires k <= |s| && (k == |s| || s[k] !in delims) && forall i :: 0 <= i < k ==> s[i] in delims
    ensures Skip(s, delims) == k
  {
  }

  lemma {:induction false} SpanIs(s: string, delims: string, n: nat)
    requires n <= |s| && (n == |s| || s[n] in delims) && forall i :: 0 <= i < n ==> s[i] !in delims
    ensures Span(s, delims) == n
  {
  }

  lemma SpanStarts(s: string, delims: string)
    requires s != [] && s[0] !in delims
    ensures Span(s, delims) > 0
  {
  }

  lemma NoTokens(delims: string)
    ensures Tokens([], delims) == []
  {
  }

  /** The first token starts after `k` delimiters and is `n` characters long. */
  lemma TokensFirst(s: string, delims: string, k: nat, n: nat)
    requires k == Skip(s, delims) < |s| && n == Span(s[k..], delims) && k + n <= |s|
    ensures n > 0
    ensures k + n == |s| ==> Tokens(s, delims) == [s[k..]]
    ensures k + n < |s| ==> Tokens(s, delims) == [s[k..k + n]] + Tokens(s[k + n + 1..], delims)
  {
    var w := s[k..];
    SpanStarts(w, delims);
    hide Skip, Span;
    if k + n < |s| {
      assert w[..n] == s[k..k + n];
      assert w[n + 1..] == s[k + n + 1..];
      assert Tokens(s, delims) == TokensIn(w, delims);
      hide Tokens;
      assert TokensIn(w, delims) == [w[..n]] + Tokens(w[n + 1..], delims);
    }
  }

  /** Tokens have delimiters between them, so not many fit into a string. */
  lemma {:induction false} TokensFit(s: string, delims: string)
    ensures 2 * |Tokens(s, delims)| <= |s| + 1
    decreases |s|
  {
    var k := Skip(s, delims);
    if k == |s| {
      assert Tokens(s, delims) == [];
    } else {
      var n := Span(s[k..], delims);
      TokensFirst(s, delims, k, n);
      hide Tokens, Skip, Span;
      if k + n < |s| { TokensFit(s[k + n + 1..], delims); }
    }
  }

  /** Trimmed text stays as it is. */
  lemma TrimTwice(s: string)
    ensures Trimmed(Trimmed(s)) == Trimmed(s)
  {
  }
}
