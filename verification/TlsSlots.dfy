/** Counting the places that refer to a page. */
module TlsSlots {

  /** How often each page occurs in the page tables `rows`. */
  ghost function Slots<P>(rows: seq<seq<P>>): multiset<P> {
    if rows == [] then multiset{} else Slots(rows[..|rows| - 1]) + multiset(rows[|rows| - 1])
  }

  lemma {:induction false} SlotsIn<P>(rows: seq<seq<P>>, k: int, i: int)
    requires 0 <= k < |rows| && 0 <= i < |rows[k]|
    ensures rows[k][i] in Slots(rows)
  {
    if k < |rows| - 1 { SlotsIn(rows[..|rows| - 1], k, i); }
  }

  lemma {:induction false} SlotsAt<P>(rows: seq<seq<P>>, p: P) returns (k: int, i: int)
    requires p in Slots(rows)
    ensures 0 <= k < |rows| && 0 <= i < |rows[k]| && rows[k][i] == p
  {
    if p in rows[|rows| - 1] {
      k := |rows| - 1;
      i :| 0 <= i < |rows[k]| && rows[k][i] == p;
    } else {
      assert p !in multiset(rows[|rows| - 1]);
      k, i := SlotsAt(rows[..|rows| - 1], p);
    }
  }

  /** Replacing one table. */
  lemma {:induction false} SlotsUpdate<P>(rows: seq<seq<P>>, k: int, row: seq<P>)
    requires 0 <= k < |rows|
    ensures Slots(rows[k := row]) + multiset(rows[k]) == Slots(rows) + multiset(row)
  {
    var last := |rows| - 1;
    if k < last {
      SlotsUpdate(rows[..last], k, row);
      var a, b := Slots(rows[..last][k := row]), Slots(rows[..last]);
      assert rows[k := row][..last] == rows[..last][k := row];
      assert Slots(rows[k := row]) == a + multiset(rows[last]);
      assert a + multiset(rows[k]) == b + multiset(row);
      calc {
        Slots(rows[k := row]) + multiset(rows[k]);
        (a + multiset(rows[k])) + multiset(rows[last]);
        (b + multiset(row)) + multiset(rows[last]);
        Slots(rows) + multiset(row);
      }
    } else {
      assert rows[k := row][..last] == rows[..last];
    }
  }

  /** Taking one table out. */
  lemma {:induction false} SlotsRemove<P>(rows: seq<seq<P>>, k: int)
    requires 0 <= k < |rows|
    ensures Slots(rows[..k] + rows[k + 1..]) + multiset(rows[k]) == Slots(rows)
  {
    var last := |rows| - 1;
    if k < last {
      SlotsRemove(rows[..last], k);
      assert (rows[..k] + rows[k + 1..])[..last - 1] == rows[..last][..k] + rows[..last][k + 1..];
    } else {
      assert rows[..k] + rows[k + 1..] == rows[..last];
    }
  }

  lemma SlotsAppend<P>(rows: seq<seq<P>>, row: seq<P>)
    ensures Slots(rows + [row]) == Slots(rows) + multiset(row)
  {
  }

  lemma RowSlots<P>(rows: seq<seq<P>>, k: int)
    requires 0 <= k < |rows|
    ensures multiset(rows[k]) <= Slots(rows)
  {
  }

  /** A page with one place is in no other. */
  lemma OnlySlot<P>(rows: seq<seq<P>>, p: P, k: int, i: int, k': int, i': int)
    requires 0 <= k < |rows| && 0 <= i < |rows[k]| && rows[k][i] == p
    requires 0 <= k' < |rows| && 0 <= i' < |rows[k']| && rows[k'][i'] == p
    requires Slots(rows)[p] <= 1
    ensures k == k' && i == i'
  {
    if k != k' {
      SlotsRemove(rows, k);
      var rest := rows[..k] + rows[k + 1..];
      var j := if k' < k then k' else k' - 1;
      assert rest[j] == rows[k'];
      SlotsIn(rest, j, i');
      RowSlots(rows, k);
      assert false;
    } else if i != i' {
      RowSlots(rows, k);
      TwiceInRow(rows[k], i, i');
      assert false;
    }
  }

  lemma TwiceInRow<P>(row: seq<P>, i: int, j: int)
    requires 0 <= i < |row| && 0 <= j < |row| && i != j && row[i] == row[j]
    ensures multiset(row)[row[i]] >= 2
  {
    var lo, hi := if i < j then i else j, if i < j then j else i;
    assert row == row[..hi] + row[hi..];
    assert row[i] in multiset(row[..hi]) by { assert row[..hi][lo] == row[i]; }
    assert row[i] in multiset(row[hi..]) by { assert row[hi..][0] == row[i]; }
  }

  lemma {:induction false} CountOne<P>(row: seq<P>)
    requires forall i, j :: 0 <= i < j < |row| ==> row[i] != row[j]
    ensures forall i :: 0 <= i < |row| ==> multiset(row)[row[i]] == 1
  {
    if row != [] {
      var init := row[..|row| - 1];
      CountOne(init);
      assert row == init + [row[|row| - 1]];
      assert forall i :: 0 <= i < |init| ==> init[i] == row[i];
    }
  }

  /** Replacing one entry of one table moves one slot from the old page to the new. */
  lemma SlotsSwap<P>(rows: seq<seq<P>>, k: int, i: int, c: P)
    requires 0 <= k < |rows| && 0 <= i < |rows[k]|
    ensures Slots(rows[k := rows[k][i := c]]) == Slots(rows) - multiset{rows[k][i]} + multiset{c}
  {
    var row := rows[k];
    SlotsUpdate(rows, k, row[i := c]);
    RowSlots(rows, k);
    hide Slots;
    assert multiset(row[i := c]) == multiset(row) - multiset{row[i]} + multiset{c};
    Trade(Slots(rows[k := row[i := c]]), Slots(rows), multiset(row), row[i], c);
  }

  lemma Trade<P>(s': multiset<P>, s: multiset<P>, m: multiset<P>, p: P, c: P)
    requires p in m && m <= s && s' + m == s + (m - multiset{p} + multiset{c})
    ensures s' == s - multiset{p} + multiset{c}
  {
    forall q ensures s'[q] == (s - multiset{p} + multiset{c})[q] {
      assert (s' + m)[q] == (s + (m - multiset{p} + multiset{c}))[q];
    }
  }

  /** When no table holds a page twice, its slots are the tables that hold it. */
  lemma {:induction false} SharersCount<P>(rows: seq<seq<P>>, p: P)
    requires forall k, i, j :: 0 <= k < |rows| && 0 <= i < j < |rows[k]| ==> rows[k][i] != rows[k][j]
    ensures Slots(rows)[p] == |set k | 0 <= k < |rows| && p in rows[k]|
  {
    var sharers := set k | 0 <= k < |rows| && p in rows[k];
    if rows == [] {
      assert sharers == {};
    } else {
      var last, init := |rows| - 1, rows[..|rows| - 1];
      SharersCount(init, p);
      CountOne(rows[last]);
      var before := set k | 0 <= k < |init| && p in init[k];
      assert sharers == if p in rows[last] then before + {last} else before;
      if p in rows[last] {
        var i :| 0 <= i < |rows[last]| && rows[last][i] == p;
        assert multiset(rows[last])[p] == 1;
      } else {
        assert multiset(rows[last])[p] == 0;
      }
    }
  }
}
