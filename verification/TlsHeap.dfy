/** Storage areas and the pages they share, and when they are well formed. */
module TlsHeap {
  import opened Bytes
  import opened TlsSlots
  import opened TlsPages

  const WORD := 0x1_0000_0000  // unsigned int arithmetic is modulo this
  const INT_LIMIT := 0x8000_0000      // no int is this or more

  /** What one thread sees: its own bytes. */
  datatype Entry = Entry(tid: int, bytes: seq<byte>)

  /** The first entry at `k` or later of thread `tid`. */
  function FindFrom(entries: seq<Entry>, tid: int, k: nat): (r: nat)
    requires k <= |entries|
    ensures k <= r <= |entries|
    ensures r < |entries| ==> entries[r].tid == tid
    ensures forall j :: k <= j < r ==> entries[j].tid != tid
    decreases |entries| - k
  {
    if k == |entries| || entries[k].tid == tid then k else FindFrom(entries, tid, k + 1)
  }

  function Find(entries: seq<Entry>, tid: int): (r: nat)
    ensures r <= |entries|
    ensures r < |entries| ==> entries[r].tid == tid
    ensures forall j :: 0 <= j < r ==> entries[j].tid != tid
  {
    FindFrom(entries, tid, 0)
  }

  predicate Has(entries: seq<Entry>, tid: int) {
    Find(entries, tid) < |entries|
  }

  class Page {
    var bytes: seq<byte>
    var refCnt: int
    var guarded: bool       // no access allowed

    constructor (size: nat, guarded: bool)
      ensures bytes == Zeros(size) && refCnt == 1 && this.guarded == guarded
    {
      bytes := Zeros(size);
      refCnt := 1;
      this.guarded := guarded;
    }

    /** Reads one byte: a fault on a guarded page. */
    method Load(off: nat) returns (b: byte)
      requires !guarded && off < |bytes|
      ensures b == bytes[off]
    {
      b := bytes[off];
    }

    method Store(off: nat, b: byte)
      requires !guarded && off < |bytes|
      modifies this`bytes
      ensures bytes == old(bytes)[off := b]
    {
      bytes := bytes[off := b];
    }
  }

  class Area {
    var tid: int
    var size: nat
    var pageNum: nat
    var pages: seq<Page>
    var next: Area?
    var prev: Area?

    constructor (tid: int)
      ensures this.tid == tid && next == null && prev == null
    {
      this.tid := tid;
      size, pageNum, pages := 0, 0, [];
      next, prev := null, null;
    }
  }

  /** `areas` is the list from `head`; `tail` is its last area or one that has
      been freed. */
  ghost predicate Linked(areas: seq<Area>, head: Area?, tail: Area?, freedAreas: set<Area>)
    reads areas`next, areas`prev
  {
    && (forall j, k :: 0 <= j < k < |areas| ==> areas[j] != areas[k])
    && (forall k :: 0 <= k < |areas| ==> areas[k] !in freedAreas)
    && (if areas == [] then head == null && tail == null
        else head == areas[0] && tail != null && (tail == areas[|areas| - 1] || tail in freedAreas))
    && (forall k {:trigger areas[k].next} :: 0 <= k < |areas| ==>
          areas[k].next == if k + 1 < |areas| then areas[k + 1] else null)
    && (forall k {:trigger areas[k].prev} :: 0 <= k < |areas| ==>
          areas[k].prev == if k > 0 then areas[k - 1] else null)
  }

  /** Each area has the page table `rows[k]` and stands for `entries[k]`. */
  ghost predicate Described(areas: seq<Area>, rows: seq<seq<Page>>, entries: seq<Entry>, ps: nat)
    requires ps > 0
    reads areas`tid, areas`size, areas`pageNum, areas`pages
  {
    && |areas| == |rows| == |entries|
    && (forall k :: 0 <= k < |areas| ==>
          && areas[k].tid == entries[k].tid && areas[k].size == |entries[k].bytes|
          && 0 < areas[k].size < WORD
          && areas[k].pages == rows[k] && areas[k].pageNum == |rows[k]| == PageCount(areas[k].size, ps))
    && (forall j, k :: 0 <= j < k < |entries| ==> entries[j].tid != entries[k].tid)
  }

  /** Reference counts are exact: the number of page-table slots that hold the
      page, of which each table has at most one. No slot holds a freed page. */
  ghost predicate Counted(rows: seq<seq<Page>>, repr: set<Page>, freedPages: set<Page>, ps: nat)
    reads repr`refCnt, repr`bytes
  {
    && (forall k, i :: 0 <= k < |rows| && 0 <= i < |rows[k]| ==>
          var p := rows[k][i];
          p in repr && p.refCnt == Slots(rows)[p] && |p.bytes| == ps && p !in freedPages)
    && (forall k, i, j :: 0 <= k < |rows| && 0 <= i < j < |rows[k]| ==> rows[k][i] != rows[k][j])
  }

  /** No page may be touched, but those in `lifted`. */
  ghost predicate Guarded(rows: seq<seq<Page>>, repr: set<Page>, lifted: set<Page>)
    reads repr`guarded
  {
    forall k, i :: 0 <= k < |rows| && 0 <= i < |rows[k]| ==>
      var p := rows[k][i];
      p in repr && p.guarded == (p !in lifted)
  }

  /** The pages hold the bytes that the entries say. */
  ghost predicate Shown(rows: seq<seq<Page>>, repr: set<Page>, entries: seq<Entry>, ps: nat)
    requires ps > 0
    reads repr`bytes
  {
    forall k :: 0 <= k < |rows| && k < |entries| ==> RowShows(rows[k], repr, entries[k].bytes, ps)
  }

  ghost predicate RowShows(row: seq<Page>, repr: set<Page>, bytes: seq<byte>, ps: nat)
    requires ps > 0
    reads repr`bytes
  {
    forall x :: 0 <= x < |bytes| ==>
      && PageOf(x, ps) < |row| && row[PageOf(x, ps)] in repr && |row[PageOf(x, ps)].bytes| == ps
      && bytes[x] == row[PageOf(x, ps)].bytes[OffOf(x, ps)]
  }

  // ---- One more area

  lemma DescribedAppend(areas: seq<Area>, rows: seq<seq<Page>>, entries: seq<Entry>, ps: nat, area: Area,
          bytes: seq<byte>)
    requires ps > 0 && Described(areas, rows, entries, ps)
    requires area.size == |bytes| && 0 < area.size < WORD
    requires area.pageNum == |area.pages| == PageCount(area.size, ps)
    requires !Has(entries, area.tid)
    ensures Described(areas + [area], rows + [area.pages], entries + [Entry(area.tid, bytes)], ps)
  {
  }

  ghost function RowSet(row: seq<Page>): set<Page>
  {
    set p | p in row
  }

  lemma CountedNew(rows: seq<seq<Page>>, repr: set<Page>, freedPages: set<Page>, ps: nat, row: seq<Page>)
    requires Counted(rows, repr, freedPages, ps)
    requires forall i, j :: 0 <= i < j < |row| ==> row[i] != row[j]
    requires forall i :: 0 <= i < |row| ==>
      && row[i] !in repr && row[i] !in freedPages && row[i].refCnt == 1 && |row[i].bytes| == ps
    ensures Counted(rows + [row], repr + RowSet(row), freedPages, ps)
  {
    var rows': seq<seq<Page>> := rows + [row];
    SlotsAppend(rows, row);
    CountOne(row);
    forall k: int, i: int | 0 <= k < |rows'| && 0 <= i < |rows'[k]|
      ensures rows'[k][i].refCnt == Slots(rows')[rows'[k][i]]
    {
      var p := rows'[k][i];
      if k < |rows| {
        assert p in repr && p !in row;
      } else if p in Slots(rows) {
        var k', i' := SlotsAt(rows, p);
      }
    }
  }

  lemma ShownAppend(rows: seq<seq<Page>>, repr: set<Page>, entries: seq<Entry>, ps: nat, row: seq<Page>, e: Entry)
    requires ps > 0 && |rows| == |entries| && Shown(rows, repr, entries, ps)
    requires RowShows(row, repr + RowSet(row), e.bytes, ps)
    ensures Shown(rows + [row], repr + RowSet(row), entries + [e], ps)
  {
  }

  lemma ZeroRow(row: seq<Page>, repr: set<Page>, size: nat, ps: nat)
    requires ps > 0 && |row| == PageCount(size, ps)
    requires forall i :: 0 <= i < |row| ==> row[i] in repr && row[i].bytes == Zeros(ps)
    ensures RowShows(row, repr, Zeros(size), ps)
  {
    hide PageOf, OffOf, PageCount;
    forall x | 0 <= x < size ensures PageOf(x, ps) < |row| { PageBound(x, size, ps); }
  }

  lemma GuardedNew(rows: seq<seq<Page>>, repr: set<Page>, row: seq<Page>)
    requires Guarded(rows, repr, {})
    requires forall i :: 0 <= i < |row| ==> row[i].guarded
    ensures Guarded(rows + [row], repr + RowSet(row), {})
  {
  }

  // ---- One byte written

  /** Counted, but the count of `p` has already been lowered by one. */
  ghost predicate CountedLess(rows: seq<seq<Page>>, repr: set<Page>, freedPages: set<Page>, ps: nat, p: Page)
    reads repr`refCnt, repr`bytes
  {
    && (forall k, i :: 0 <= k < |rows| && 0 <= i < |rows[k]| ==>
          var q := rows[k][i];
          && q in repr && q.refCnt + (if q == p then 1 else 0) == Slots(rows)[q]
          && |q.bytes| == ps && q !in freedPages)
    && (forall k, i, j :: 0 <= k < |rows| && 0 <= i < j < |rows[k]| ==> rows[k][i] != rows[k][j])
  }

  /** The counts once slot `i` of table `k` has been given a copy of its shared page. */
  lemma CountedCopied(rows: seq<seq<Page>>, repr: set<Page>, freedPages: set<Page>, ps: nat, k: int, i: int, copy: Page)
    requires 0 <= k < |rows| && 0 <= i < |rows[k]| && CountedLess(rows, repr, freedPages, ps, rows[k][i])
    requires copy.refCnt == 1 && |copy.bytes| == ps && copy !in repr && copy !in freedPages
    requires Slots(rows)[rows[k][i]] > 1
    ensures Counted(rows[k := rows[k][i := copy]], repr + {copy}, freedPages, ps)
  {
    hide Slots;
    var p := rows[k][i];
    var rows': seq<seq<Page>> := rows[k := rows[k][i := copy]];
    SlotsSwap(rows, k, i, copy);
    NotInSlots(rows, repr, copy);
    assert Slots(rows')[copy] == 1 && Slots(rows')[p] == Slots(rows)[p] - 1;
    forall k': int, i': int | 0 <= k' < |rows'| && 0 <= i' < |rows'[k']|
      ensures var q := rows'[k'][i'];
              q in repr + {copy} && q.refCnt == Slots(rows')[q] && |q.bytes| == ps && q !in freedPages
    {
      var q := rows'[k'][i'];
      if q != copy {
        assert q == rows[k'][i'];
      }
    }
  }

  lemma NotInSlots(rows: seq<seq<Page>>, repr: set<Page>, copy: Page)
    requires copy !in repr && forall k, i :: 0 <= k < |rows| && 0 <= i < |rows[k]| ==> rows[k][i] in repr
    ensures copy !in Slots(rows)
  {
  }

  /** The bytes shown if page `p` held `held`. */
  ghost predicate ShownWith(rows: seq<seq<Page>>, repr: set<Page>, entries: seq<Entry>, ps: nat, p: Page,
          held: seq<byte>)
    requires ps > 0 && |rows| == |entries|
    reads repr`bytes
  {
    && |held| == ps
    && forall k, x: nat :: 0 <= k < |rows| && x < |entries[k].bytes| ==>
         && PageOf(x, ps) < |rows[k]| && rows[k][PageOf(x, ps)] in repr && |rows[k][PageOf(x, ps)].bytes| == ps
         && entries[k].bytes[x]
              == (if rows[k][PageOf(x, ps)] == p then held else rows[k][PageOf(x, ps)].bytes)[OffOf(x, ps)]
  }

  lemma ShownAsIs(rows: seq<seq<Page>>, repr: set<Page>, entries: seq<Entry>, ps: nat, p: Page)
    requires ps > 0 && |rows| == |entries| && |p.bytes| == ps && Shown(rows, repr, entries, ps)
    ensures ShownWith(rows, repr, entries, ps, p, p.bytes)
  {
  }

  /** A byte stored in a page that only slot `PageOf(idx, ps)` of table `k` holds. */
  lemma ShownStored(rows: seq<seq<Page>>, repr: set<Page>, entries: seq<Entry>, ps: nat, k: int, idx: nat, b: byte,
                    p: Page, held: seq<byte>)
    requires ps > 0 && |rows| == |entries| && 0 <= k < |rows| && idx < |entries[k].bytes|
    requires ShownWith(rows, repr, entries, ps, p, held)
    requires PageOf(idx, ps) < |rows[k]| && rows[k][PageOf(idx, ps)] == p && Slots(rows)[p] == 1
    requires p.bytes == held[OffOf(idx, ps) := b]
    ensures Shown(rows, repr, entries[k := Entry(entries[k].tid, entries[k].bytes[idx := b])], ps)
  {
    hide PageOf, OffOf, Slots;
    var entries' := entries[k := Entry(entries[k].tid, entries[k].bytes[idx := b])];
    forall k': int | 0 <= k' < |rows| ensures RowShows(rows[k'], repr, entries'[k'].bytes, ps) {
      forall x: nat | x < |entries'[k'].bytes|
        ensures PageOf(x, ps) < |rows[k']| && rows[k'][PageOf(x, ps)] in repr && |rows[k'][PageOf(x, ps)].bytes| == ps
        ensures entries'[k'].bytes[x] == rows[k'][PageOf(x, ps)].bytes[OffOf(x, ps)]
      {
        assert x < |entries[k'].bytes|;
        if rows[k'][PageOf(x, ps)] == p {
          OnlySlot(rows, p, k, PageOf(idx, ps), k', PageOf(x, ps));
          if OffOf(x, ps) == OffOf(idx, ps) { PlaceUnique(x, idx, ps); }
        }
      }
    }
  }

  /** A copy in place of a page shows the same bytes. */
  lemma ShownCopied(rows: seq<seq<Page>>, repr: set<Page>, entries: seq<Entry>, ps: nat, k: int, i: int, copy: Page)
    requires ps > 0 && |rows| == |entries| && 0 <= k < |rows| && 0 <= i < |rows[k]|
    requires Shown(rows, repr, entries, ps) && rows[k][i] in repr && copy.bytes == rows[k][i].bytes
    ensures Shown(rows[k := rows[k][i := copy]], repr + {copy}, entries, ps)
  {
  }

  lemma DescribedByte(areas: seq<Area>, rows: seq<seq<Page>>, entries: seq<Entry>, ps: nat, k: int, idx: nat, b: byte)
    requires ps > 0 && Described(areas, rows, entries, ps) && 0 <= k < |entries| && idx < |entries[k].bytes|
    ensures Described(areas, rows, entries[k := Entry(entries[k].tid, entries[k].bytes[idx := b])], ps)
  {
  }

  lemma GuardedCopied(rows: seq<seq<Page>>, repr: set<Page>, lifted: set<Page>, k: int, i: int, copy: Page)
    requires Guarded(rows, repr, lifted) && 0 <= k < |rows| && 0 <= i < |rows[k]|
    requires copy !in repr && !copy.guarded
    ensures Guarded(rows[k := rows[k][i := copy]], repr + {copy}, lifted + {copy})
  {
  }

  // ---- A shared table

  lemma ShownShared(rows: seq<seq<Page>>, repr: set<Page>, entries: seq<Entry>, ps: nat, k: int, tid: int)
    requires ps > 0 && |rows| == |entries| && Shown(rows, repr, entries, ps) && 0 <= k < |rows|
    ensures Shown(rows + [rows[k]], repr, entries + [Entry(tid, entries[k].bytes)], ps)
  {
  }

  lemma GuardedShared(rows: seq<seq<Page>>, repr: set<Page>, k: int)
    requires Guarded(rows, repr, {}) && 0 <= k < |rows|
    ensures Guarded(rows + [rows[k]], repr, {})
  {
  }

  // ---- Copying on write

  /** A byte of page number `i` lies between `offset` and `idx`. */
  ghost predicate Touched(offset: nat, idx: nat, i: int, ps: nat)
    requires ps > 0
  {
    offset < idx && PageOf(offset, ps) <= i < PageCount(idx, ps)
  }

  /** Of table `k`, just the pages that were shared and have been touched have
      given way, each to one new page that no other slot holds. `before` are the
      pages there were. */
  ghost predicate CopiedOnce(rows: seq<seq<Page>>, was: seq<seq<Page>>, k: int, before: set<Page>, ps: nat,
          offset: nat, idx: nat)
    requires ps > 0 && 0 <= k < |rows| == |was|
  {
    && |rows[k]| == |was[k]|
    && forall i :: 0 <= i < |was[k]| ==>
         if Slots(was)[was[k][i]] > 1 && Touched(offset, idx, i, ps)
         then rows[k][i] !in before && Slots(rows)[rows[k][i]] == 1
         else rows[k][i] == was[k][i] && Slots(rows)[rows[k][i]] == Slots(was)[was[k][i]]
  }

  /** Told by bytes: a page of the caller's gives way just when it is shared and holds
      a byte that is written. */
  lemma CopiedMeans(rows: seq<seq<Page>>, was: seq<seq<Page>>, k: int, before: set<Page>, ps: nat, offset: nat,
          idx: nat, i: nat)
    requires ps > 0 && 0 <= k < |rows| == |was| && CopiedOnce(rows, was, k, before, ps, offset, idx)
    requires i < |was[k]| == |rows[k]|
    ensures if Slots(was)[was[k][i]] > 1 && exists x :: offset <= x < idx && x / ps == i
      then rows[k][i] !in before && Slots(rows)[rows[k][i]] == 1
      else rows[k][i] == was[k][i] && Slots(rows)[rows[k][i]] == Slots(was)[was[k][i]]
  {
    TouchedIff(offset, idx, i, ps);
    hide Slots, Touched;
  }

  lemma TouchedIff(offset: nat, idx: nat, i: nat, ps: nat)
    requires ps > 0
    ensures Touched(offset, idx, i, ps) <==> exists x :: offset <= x < idx && x / ps == i
  {
    if Touched(offset, idx, i, ps) {
      var x := TouchedAt(offset, idx, i, ps);
      assert x / ps == i;
    }
    if x :| offset <= x < idx && x / ps == i {
      PagesCover(offset, idx, ps);
      assert PageOf(x, ps) == i;
    }
  }

  lemma CopiedNone(rows: seq<seq<Page>>, k: int, before: set<Page>, ps: nat, offset: nat)
    requires ps > 0 && 0 <= k < |rows|
    ensures CopiedOnce(rows, rows, k, before, ps, offset, offset)
  {
  }

  /** The byte at `idx` written, with a copy of its page if that was shared. */
  lemma CopiedNext(rows: seq<seq<Page>>, rows': seq<seq<Page>>, was: seq<seq<Page>>, k: int, before: set<Page>,
          now: set<Page>,
                   ps: nat, offset: nat, idx: nat)
    requires ps > 0 && 0 <= k < |rows| == |was| && offset <= idx && before <= now
    requires CopiedOnce(rows, was, k, before, ps, offset, idx) && PageOf(idx, ps) < |rows[k]|
    requires forall i :: 0 <= i < |rows[k]| ==> rows[k][i] in now
    requires forall k', i :: 0 <= k' < |rows| && 0 <= i < |rows[k']| ==> rows[k'][i] in now
    requires forall i, j :: 0 <= i < j < |rows[k]| ==> rows[k][i] != rows[k][j]
    requires var pn := PageOf(idx, ps);
             if Slots(rows)[rows[k][pn]] > 1
             then exists copy: Page :: copy !in now && rows' == rows[k := rows[k][pn := copy]]
             else rows' == rows
    ensures |rows'| == |was| && CopiedOnce(rows', was, k, before, ps, offset, idx + 1)
  {
    hide Slots, PageOf, PageCount;
    var pn := PageOf(idx, ps);
    NextTouched(offset, idx, ps);
    if Slots(rows)[rows[k][pn]] > 1 {
      var copy: Page :| copy !in now && rows' == rows[k := rows[k][pn := copy]];
      SlotsSwap(rows, k, pn, copy);
      NotInSlots(rows, now, copy);
    } else {
      SlotsIn(rows, k, pn);
    }
  }

  lemma NextTouched(offset: nat, idx: nat, ps: nat)
    requires ps > 0 && offset <= idx
    ensures forall i: int :: Touched(offset, idx + 1, i, ps) <==> Touched(offset, idx, i, ps) || i == PageOf(idx, ps)
  {
    hide PageOf, PageCount, Touched;
    forall i: int ensures Touched(offset, idx + 1, i, ps) <==> Touched(offset, idx, i, ps) || i == PageOf(idx, ps) {
      TouchedStep(offset, idx, i, ps);
    }
  }

  lemma TouchedStep(offset: nat, idx: nat, i: int, ps: nat)
    requires ps > 0 && offset <= idx
    ensures Touched(offset, idx + 1, i, ps) <==> Touched(offset, idx, i, ps) || i == PageOf(idx, ps)
  {
    hide PageOf, PageCount;
    LastPage(idx + 1, ps);
    PageMono(offset, idx, ps);
    if offset < idx {
      LastPage(idx, ps);
      PageMono(offset, idx - 1, ps);
      PageMono(idx - 1, idx, ps);
      NextPage(idx, ps);
    }
  }

  // ---- One area fewer

  function Without<T>(s: seq<T>, k: int): (t: seq<T>)
    requires 0 <= k < |s|
    ensures |t| == |s| - 1
  {
    s[..k] + s[k + 1..]
  }

  /** The counts while the pages in `row[..n]` of table `k` have been let go: those
      with no other slot are in `gone`. */
  ghost predicate LetGo(rows: seq<seq<Page>>, repr: set<Page>, freedPages: set<Page>, ps: nat, k: int, n: int,
          gone: set<Page>)
    requires 0 <= k < |rows| && 0 <= n <= |rows[k]|
    reads repr`refCnt, repr`bytes
  {
    && (forall k', i :: 0 <= k' < |rows| && 0 <= i < |rows[k']| ==>
          var q := rows[k'][i];
          && q in repr && |q.bytes| == ps && q !in freedPages
          && (q in gone <==> q in rows[k][..n] && Slots(rows)[q] == 1)
          && q.refCnt + (if q in rows[k][..n] && q !in gone then 1 else 0) == Slots(rows)[q])
    && (forall k', i, j :: 0 <= k' < |rows| && 0 <= i < j < |rows[k']| ==> rows[k'][i] != rows[k'][j])
    && (forall p :: p in gone ==> p in rows[k][..n])
  }

  lemma CountedWithout(rows: seq<seq<Page>>, repr: set<Page>, freedPages: set<Page>, ps: nat, k: int, gone: set<Page>)
    requires 0 <= k < |rows| && LetGo(rows, repr, freedPages, ps, k, |rows[k]|, gone)
    ensures Counted(Without(rows, k), repr - gone, freedPages + gone, ps)
    ensures gone == set p | p in rows[k] && Slots(rows)[p] == 1
    ensures forall p :: p in gone ==> p !in Slots(Without(rows, k))
  {
    GoneAre(rows, repr, freedPages, ps, k, gone);
    hide Slots;
    var rows': seq<seq<Page>> := Without(rows, k);
    forall j | 0 <= j < |rows'| ensures rows'[j] == rows[if j < k then j else j + 1] {}
    forall j: int, i: int | 0 <= j < |rows'| && 0 <= i < |rows'[j]|
      ensures var q := rows'[j][i];
              q in repr - gone && q.refCnt == Slots(rows')[q] && |q.bytes| == ps && q !in freedPages + gone
    {
      KeptPage(rows, repr, freedPages, ps, k, gone, if j < k then j else j + 1, i);
      SlotsIn(rows', j, i);
    }
  }

  lemma KeptPage(rows: seq<seq<Page>>, repr: set<Page>, freedPages: set<Page>, ps: nat, k: int,
          gone: set<Page>, j: int, i: int)
    requires 0 <= k < |rows| && LetGo(rows, repr, freedPages, ps, k, |rows[k]|, gone)
    requires 0 <= j < |rows| && j != k && 0 <= i < |rows[j]|
    ensures var q := rows[j][i];
      q in repr && q.refCnt == Slots(Without(rows, k))[q] && |q.bytes| == ps && q !in freedPages
  {
    hide Slots;
    var q, row := rows[j][i], rows[k];
    assert row[..|row|] == row;
    SlotsRemove(rows, k);
    CountOne(row);
    assert Slots(Without(rows, k))[q] + multiset(row)[q] == Slots(rows)[q];
    assert q in row <==> q in multiset(row);
    SlotsIn(Without(rows, k), if j < k then j else j - 1, i);
  }

  /** The pages gone are those of table `k` that had no other slot. */
  lemma GoneAre(rows: seq<seq<Page>>, repr: set<Page>, freedPages: set<Page>, ps: nat, k: int, gone: set<Page>)
    requires 0 <= k < |rows| && LetGo(rows, repr, freedPages, ps, k, |rows[k]|, gone)
    ensures gone == set p | p in rows[k] && Slots(rows)[p] == 1
    ensures forall p :: p in gone ==> p !in Slots(Without(rows, k))
  {
    hide Slots;
    var row, rows': seq<seq<Page>> := rows[k], Without(rows, k);
    assert row[..|row|] == row;
    SlotsRemove(rows, k);
    CountOne(row);
    forall p | p in gone ensures p in row && Slots(rows)[p] == 1 && p !in Slots(rows') {
      var i :| 0 <= i < |row| && row[i] == p;
      assert rows[k][i] == p;
      assert Slots(rows')[p] + multiset(row)[p] == Slots(rows)[p];
    }
    forall p | p in row && Slots(rows)[p] == 1 ensures p in gone {
      var i :| 0 <= i < |row| && row[i] == p;
      assert rows[k][i] == p;
    }
  }

  lemma DescribedWithout(areas: seq<Area>, rows: seq<seq<Page>>, entries: seq<Entry>, ps: nat, k: int)
    requires ps > 0 && Described(areas, rows, entries, ps) && 0 <= k < |areas|
    ensures Described(Without(areas, k), Without(rows, k), Without(entries, k), ps)
  {
    hide PageCount;
  }

  lemma ShownWithout(rows: seq<seq<Page>>, repr: set<Page>, entries: seq<Entry>, ps: nat, k: int, gone: set<Page>)
    requires ps > 0 && |rows| == |entries| && Shown(rows, repr, entries, ps) && 0 <= k < |rows|
    requires forall p :: p in gone ==> p !in Slots(Without(rows, k))
    ensures Shown(Without(rows, k), repr - gone, Without(entries, k), ps)
  {
    hide Slots, PageOf, OffOf;
    var rows', entries' := Without(rows, k), Without(entries, k);
    forall j | 0 <= j < |rows'| ensures RowShows(rows'[j], repr - gone, entries'[j].bytes, ps) {
      var m := if j < k then j else j + 1;
      assert rows'[j] == rows[m] && entries'[j] == entries[m];
      assert RowShows(rows[m], repr, entries[m].bytes, ps);
      forall x: nat | x < |entries'[j].bytes| ensures rows'[j][PageOf(x, ps)] !in gone {
        SlotsIn(rows', j, PageOf(x, ps));
      }
    }
  }

  lemma GuardedWithout(rows: seq<seq<Page>>, repr: set<Page>, k: int, gone: set<Page>)
    requires Guarded(rows, repr, {}) && 0 <= k < |rows|
    requires forall p :: p in gone ==> p !in Slots(Without(rows, k))
    ensures Guarded(Without(rows, k), repr - gone, {})
  {
    hide Slots;
    var rows': seq<seq<Page>> := Without(rows, k);
    forall j: int, i: int | 0 <= j < |rows'| && 0 <= i < |rows'[j]|
      ensures rows'[j][i] in repr - gone && rows'[j][i].guarded
    {
      assert rows'[j] == rows[if j < k then j else j + 1];
      SlotsIn(rows', j, i);
    }
  }
}
