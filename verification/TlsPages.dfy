/** Where a byte of a storage area lies: page number and offset in the page. */
module TlsPages {

  function PageOf(x: nat, ps: nat): nat
    requires ps > 0
  {
    x / ps
  }

  function OffOf(x: nat, ps: nat): (off: nat)
    requires ps > 0
    ensures off < ps
  {
    x % ps
  }

  /** The number of pages that `n` bytes need. */
  function PageCount(n: nat, ps: nat): nat
    requires ps > 0
  {
    n / ps + if n % ps != 0 then 1 else 0
  }

  lemma MulMono(a: nat, b: nat, ps: nat)
    ensures a < b ==> a * ps + ps <= b * ps
  {
    if a < b {
      assert b * ps == (a + 1) * ps + (b - a - 1) * ps;
    }
  }

  lemma PageMono(x: nat, y: nat, ps: nat)
    requires ps > 0 && x <= y
    ensures PageOf(x, ps) <= PageOf(y, ps)
  {
    MulMono(y / ps, x / ps, ps);
    assert x == x / ps * ps + x % ps && y == y / ps * ps + y % ps;
  }

  lemma PageBound(x: nat, n: nat, ps: nat)
    requires ps > 0 && x < n
    ensures PageOf(x, ps) < PageCount(n, ps)
  {
    PageMono(x, n, ps);
    assert n == (n / ps) * ps + n % ps;
  }

  lemma CountMono(m: nat, n: nat, ps: nat)
    requires ps > 0 && m <= n
    ensures PageCount(m, ps) <= PageCount(n, ps)
    ensures m > 0 ==> PageCount(m, ps) > 0
  {
    if m > 0 {
      PageBound(m - 1, n, ps);
      PageBound(m - 1, m, ps);
      LastPage(m, ps);
    }
  }

  /** The pages of `m > 0` bytes end with that of the last byte. */
  lemma LastPage(m: nat, ps: nat)
    requires ps > 0 && m > 0
    ensures PageCount(m, ps) == PageOf(m - 1, ps) + 1
  {
    var q, r := (m - 1) / ps, (m - 1) % ps;
    assert m == q * ps + r + 1;
    if r + 1 < ps {
      DivMod(m, q, r + 1, ps);
    } else {
      assert m == (q + 1) * ps;
      DivMod(m, q + 1, 0, ps);
    }
  }

  lemma DivMod(x: nat, q: nat, r: nat, ps: nat)
    requires r < ps && x == q * ps + r
    ensures x / ps == q && x % ps == r
  {
    assert x == x / ps * ps + x % ps;
    MulMono(q, x / ps, ps);
    MulMono(x / ps, q, ps);
  }

  /** A byte's place determines the byte. */
  lemma PlaceUnique(x: nat, y: nat, ps: nat)
    requires ps > 0 && PageOf(x, ps) == PageOf(y, ps) && OffOf(x, ps) == OffOf(y, ps)
    ensures x == y
  {
  }

  /** The bytes of a range lie in its floor to ceiling pages. */
  lemma PagesCover(offset: nat, end: nat, ps: nat)
    requires ps > 0
    ensures forall x :: offset <= x < end ==> PageOf(offset, ps) <= PageOf(x, ps) < PageCount(end, ps)
  {
    forall x | offset <= x < end ensures PageOf(offset, ps) <= PageOf(x, ps) < PageCount(end, ps) {
      PageMono(offset, x, ps);
      PageBound(x, end, ps);
    }
  }

  /** Each page of the range holds one of its bytes. */
  lemma TouchedAt(offset: nat, end: nat, i: nat, ps: nat) returns (x: nat)
    requires ps > 0 && offset < end && PageOf(offset, ps) <= i < PageCount(end, ps)
    ensures offset <= x < end && PageOf(x, ps) == i
  {
    LastPage(end, ps);
    if i == PageOf(offset, ps) {
      x := offset;
    } else {
      x := i * ps;
      DivMod(x, i, 0, ps);
      MulMono(offset / ps, i, ps);
      MulMono((end - 1) / ps, i, ps);
      assert offset == offset / ps * ps + offset % ps;
      assert end - 1 == (end - 1) / ps * ps + (end - 1) % ps;
      MulLe(i, (end - 1) / ps, ps);
    }
  }

  lemma MulLe(a: nat, b: nat, ps: nat)
    requires a <= b
    ensures a * ps <= b * ps
  {
  }

  /** The next byte lies in the same page or the next. */
  lemma NextPage(x: nat, ps: nat)
    requires ps > 0 && x > 0
    ensures PageOf(x, ps) <= PageOf(x - 1, ps) + 1
  {
    MulMono((x - 1) / ps + 1, x / ps, ps);
    assert x == x / ps * ps + x % ps && x - 1 == (x - 1) / ps * ps + (x - 1) % ps;
  }
}
