/** Copy-on-write thread-local storage. */
module Tls {
  import opened Bytes
  import opened TlsSlots
  import opened TlsPages
  import opened TlsHeap

  /** What a read or write gives: the sum of offset and length is unsigned, but the
      loop over the bytes counts in an int. */
  function AccessOutcome(entries: seq<Entry>, self: int, offset: nat, length: nat): Outcome {
    var end := (offset + length) % WORD;
    if !Has(entries, self) || end > |entries[Find(entries, self)].bytes| then Returned(-1)
    else if offset < end && end >= INT_LIMIT then Undefined
    else Returned(0)
  }

  class Store {
    const pageSize: nat
    var head: Area?
    var tail: Area?
    ghost var areas: seq<Area>         // the list, from its head
    ghost var rows: seq<seq<Page>>     // their page tables
    ghost var entries: seq<Entry>      // what each thread sees
    ghost var repr: set<Page>          // the pages they hold
    ghost var freedPages: set<Page>
    ghost var freedAreas: set<Area>

    ghost predicate Valid()
      reads this, areas, repr
    {
      && pageSize > 0
      && Linked(areas, head, tail, freedAreas)
      && Described(areas, rows, entries, pageSize)
      && Counted(rows, repr, freedPages, pageSize)
      && Guarded(rows, repr, {})
      && Shown(rows, repr, entries, pageSize)
    }

    /** What being sound comes to: every page is guarded, in use, and counted as often
        as there are areas that hold it. */
    lemma PageMeans(k: nat, i: nat)
      requires Valid() && k < |areas| && i < |areas[k].pages|
      ensures var p := areas[k].pages[i];
        && p.guarded && p !in freedPages && |p.bytes| == pageSize
        && p.refCnt == |set j | 0 <= j < |areas| && p in areas[j].pages|
    {
      var p := areas[k].pages[i];
      DescribedFacts(k);
      PagesAre();
      assert p.guarded && p !in freedPages && |p.bytes| == pageSize && p.refCnt == Slots(rows)[p] by {
        hide Shown, Linked;
      }
      hide Slots, Linked, Described, Guarded, Shown;
      SharersCount(rows, p);
      assert (set j | 0 <= j < |areas| && p in areas[j].pages) == (set j | 0 <= j < |rows| && p in rows[j]);
    }

    lemma PagesAre()
      requires Valid()
      ensures |areas| == |rows| && forall j :: 0 <= j < |areas| ==> areas[j].pages == rows[j]
    {
      hide Linked, Counted, Guarded, Shown;
    }

    /** And byte `x` of a thread lies in its page number `x / pageSize`. */
    lemma BytesMean(k: nat, x: nat)
      requires Valid() && k < |areas| == |entries| && x < |entries[k].bytes|
      ensures areas[k].tid == entries[k].tid && pageSize > 0
      ensures x / pageSize < |areas[k].pages| && |areas[k].pages[x / pageSize].bytes| == pageSize
      ensures entries[k].bytes[x] == areas[k].pages[x / pageSize].bytes[x % pageSize]
    {
      AreaFacts(k);
      RowFacts(k);
      hide *;
      hide Linked, Described, Counted, Guarded, Shown, PageCount;
      ByteMeans(areas[k].pages, entries[k].bytes, x);
    }

    lemma ByteMeans(row: seq<Page>, bytes: seq<byte>, x: nat)
      requires pageSize > 0 && x < |bytes| && RowShows(row, repr, bytes, pageSize)
      ensures x / pageSize < |row| && |row[x / pageSize].bytes| == pageSize
      ensures bytes[x] == row[x / pageSize].bytes[x % pageSize]
    {
      assert PageOf(x, pageSize) == x / pageSize && OffOf(x, pageSize) == x % pageSize;
    }

    /** `tail` is the last area, not one that has been freed. */
    ghost predicate TailLive()
      reads this
    {
      tail == null || tail !in freedAreas
    }

    /** The areas, freed ones too, and the pages. */
    ghost function Objects(): set<object>
      reads `areas, `freedAreas, `repr
    {
      (set a | a in areas) + freedAreas + repr
    }

    constructor (pageSize: nat)
      requires pageSize > 0
      ensures Valid() && entries == [] && TailLive() && this.pageSize == pageSize && Objects() == {}
    {
      this.pageSize := pageSize;
      head, tail := null, null;
      areas, rows, entries, repr, freedPages, freedAreas := [], [], [], {}, {}, {};
    }

    lemma LinkFacts(k: nat)
      requires Valid() && k < |areas|
      ensures |areas| == |entries| && areas[k].tid == entries[k].tid
      ensures areas[k].next == if k + 1 < |areas| then areas[k + 1] else null
      ensures areas[k].prev == if k > 0 then areas[k - 1] else null
      ensures areas[k] == tail ==> k == |areas| - 1
    {
    }

    lemma ListFacts()
      requires Valid()
      ensures |areas| == |rows| == |entries| && head == if areas == [] then null else areas[0]
      ensures forall j, k :: 0 <= j < k < |entries| ==> entries[j].tid != entries[k].tid
    {
    }

    /** The area of thread `id`, or null. */
    method Search(id: int) returns (itr: Area?)
      requires Valid()
      ensures Valid() && (itr == null <==> !Has(entries, id))
      ensures itr != null ==> itr == areas[Find(entries, id)]
    {
      hide Linked, Described, Counted, Guarded, Shown;
      ListFacts();
      itr := head;
      ghost var k := 0;
      while itr != null
        invariant Valid() && 0 <= k <= |areas|
        invariant itr == if k < |areas| then areas[k] else null
        invariant forall j :: 0 <= j < k ==> entries[j].tid != id
        decreases |areas| - k
      {
        LinkFacts(k);
        if itr.tid == id { break; }
        if itr == tail && itr.tid != id {
          itr := null;
          k := |areas|;
          break;
        }
        itr := itr.next;
        k := k + 1;
      }
    }

    lemma AreaFacts(k: nat)
      requires Valid() && k < |entries|
      ensures |areas| == |rows| == |entries|
      ensures areas[k].tid == entries[k].tid && areas[k].size == |entries[k].bytes| && 0 < areas[k].size < WORD
      ensures areas[k].pages == rows[k] && areas[k].pageNum == |rows[k]| == PageCount(areas[k].size, pageSize)
    {
    }

    lemma RowFacts(k: nat)
      requires Valid() && k < |entries|
      ensures |rows| == |entries|
      ensures forall i :: 0 <= i < |rows[k]| ==>
        && rows[k][i] in repr && rows[k][i].guarded && |rows[k][i].bytes| == pageSize
      ensures RowShows(rows[k], repr, entries[k].bytes, pageSize)
    {
    }

    ghost function RangeSet(pages: seq<Page>, lo: nat, hi: nat): (s: set<Page>)
      requires hi <= |pages|
      ensures forall i :: lo <= i < hi ==> pages[i] in s
      ensures forall p :: p in s ==> p in pages
    {
      set i | lo <= i < hi :: pages[i]
    }

    /** Sets or lifts the guard of pages `lo` to `hi - 1`. */
    method SetGuards(pages: seq<Page>, lo: nat, hi: nat, guard: bool)
      requires hi <= |pages|
      modifies (set p | p in pages)`guarded
      ensures forall p: Page :: p in pages ==>
        p.guarded == if p in RangeSet(pages, lo, hi) then guard else old(p.guarded)
    {
      var ii := lo;
      while ii < hi
        invariant lo <= ii && (lo < hi ==> ii <= hi)
        invariant forall i :: lo <= i < ii && i < hi ==> pages[i].guarded == guard
        invariant forall p: Page :: p in pages && p !in RangeSet(pages, lo, hi) ==> p.guarded == old(p.guarded)
      {
        pages[ii].guarded := guard;
        ii := ii + 1;
      }
    }

    /** Lifts the guard of a range of pages of area `k`. */
    method Lift(ghost k: int, pages: seq<Page>, lo: nat, hi: nat)
      requires Guarded(rows, repr, {}) && 0 <= k < |rows| && pages == rows[k] && hi <= |pages|
      modifies (set p | p in pages)`guarded
      ensures Guarded(rows, repr, RangeSet(pages, lo, hi))
    {
      SetGuards(pages, lo, hi, false);
    }

    /** Sets it again. */
    method Lower(ghost k: int, pages: seq<Page>, lo: nat, hi: nat)
      requires 0 <= k < |rows| && pages == rows[k] && hi <= |pages| && Guarded(rows, repr, RangeSet(pages, lo, hi))
      modifies (set p | p in pages)`guarded
      ensures Guarded(rows, repr, {})
    {
      SetGuards(pages, lo, hi, true);
    }

    /** Copies bytes `offset` to `end - 1`, each from an unguarded page. */
    method CopyOut(pages: seq<Page>, offset: nat, end: nat, buffer: array<byte>, ghost bytes: seq<byte>)
      requires pageSize > 0 && end <= |bytes| && (offset <= end ==> end - offset <= buffer.Length)
      requires forall x :: offset <= x < end ==>
        && PageOf(x, pageSize) < |pages| && !pages[PageOf(x, pageSize)].guarded
        && |pages[PageOf(x, pageSize)].bytes| == pageSize
        && bytes[x] == pages[PageOf(x, pageSize)].bytes[OffOf(x, pageSize)]
      modifies buffer
      ensures offset <= end ==> buffer[..] == bytes[offset..end] + old(buffer[end - offset..])
      ensures offset > end ==> buffer[..] == old(buffer[..])
    {
      hide PageOf, OffOf;
      var cnt, idx := 0, offset;
      while idx < end
        invariant idx == offset + cnt && (idx <= end || cnt == 0)
        invariant forall j :: 0 <= j < cnt ==> buffer[j] == bytes[offset + j]
        invariant forall j :: cnt <= j < buffer.Length ==> buffer[j] == old(buffer[j])
      {
        var pn, poff := PageOf(idx, pageSize), OffOf(idx, pageSize);
        var p := pages[pn];
        buffer[cnt] := p.Load(poff);
        cnt, idx := cnt + 1, idx + 1;
      }
    }

    /** The check adds in unsigned ints, so a sum past 2^32 may pass it; then
        nothing is copied. */
    method TlsRead(self: int, offset: nat, length: nat, buffer: array<byte>) returns (r: Outcome)
      requires Valid() && offset < WORD && length < WORD && length <= buffer.Length
      modifies buffer, repr
      ensures Valid()
      ensures r == AccessOutcome(entries, self, offset, length)
      ensures r == Returned(0) && offset + length < WORD ==>
        buffer[..] == entries[Find(entries, self)].bytes[offset..offset + length] + old(buffer[length..])
      ensures r != Returned(0) || offset + length >= WORD ==> buffer[..] == old(buffer[..])
    {
      hide PageOf, OffOf, PageCount, Linked, Described, Counted, Guarded, Shown, Slots, RangeSet;
      var lsa := Search(self);
      if lsa == null { return Returned(-1); }
      ghost var k := Find(entries, self);
      AreaFacts(k);
      var end := (offset + length) % WORD;
      if lsa.size < end { return Returned(-1); }
      if offset < end && end >= INT_LIMIT { return Undefined; }
      ReadRange(lsa, k, offset, end, buffer);
      r := Returned(0);
    }

    /** Lifts the guards, copies the bytes out, and sets the guards again. */
    method ReadRange(lsa: Area, ghost k: nat, offset: nat, end: nat, buffer: array<byte>)
      requires Valid() && k < |entries| == |areas| && lsa == areas[k] && end <= lsa.size == |entries[k].bytes|
      requires offset <= end ==> end - offset <= buffer.Length
      modifies buffer, repr
      ensures Valid()
      ensures if offset <= end then buffer[..] == entries[k].bytes[offset..end] + old(buffer[end - offset..])
        else buffer[..] == old(buffer[..])
    {
      hide PageOf, OffOf, PageCount, Linked, Described, Counted, Guarded, Shown, Slots, RangeSet;
      AreaFacts(k);
      RowFacts(k);
      CountMono(end, lsa.size, pageSize);
      PagesCover(offset, end, pageSize);
      Lift(k, lsa.pages, PageOf(offset, pageSize), PageCount(end, pageSize));
      CopyOut(lsa.pages, offset, end, buffer, entries[k].bytes);
      Lower(k, lsa.pages, PageOf(offset, pageSize), PageCount(end, pageSize));
    }

    /** The area of thread `id` by a walk over the whole list. */
    method FindArea(id: int) returns (itr: Area?)
      requires Valid()
      ensures Valid() && (itr == null <==> !Has(entries, id))
      ensures itr != null ==> itr == areas[Find(entries, id)]
    {
      hide Linked, Described, Counted, Guarded, Shown;
      ListFacts();
      itr := head;
      ghost var k := 0;
      while itr != null
        invariant Valid() && 0 <= k <= |areas|
        invariant itr == if k < |areas| then areas[k] else null
        invariant forall j :: 0 <= j < k ==> entries[j].tid != id
        decreases |areas| - k
      {
        LinkFacts(k);
        if itr.tid == id { break; }
        itr := itr.next;
        k := k + 1;
      }
    }

    /** The last area of a list that is not empty. */
    method LastArea() returns (itr: Area)
      requires Valid() && areas != []
      ensures Valid() && itr == areas[|areas| - 1]
    {
      hide Linked, Described, Counted, Guarded, Shown;
      ListFacts();
      itr := head;
      LinkFacts(0);
      ghost var k := 0;
      while itr.next != null
        invariant Valid() && 0 <= k < |areas| && itr == areas[k]
        invariant itr.next == if k + 1 < |areas| then areas[k + 1] else null
        decreases |areas| - k
      {
        itr := itr.next;
        k := k + 1;
        LinkFacts(k);
      }
    }

    /** `n` new pages, zero and guarded. */
    method NewPages(n: nat) returns (pages: seq<Page>)
      ensures |pages| == n
      ensures forall i :: 0 <= i < n ==>
        fresh(pages[i]) && pages[i].bytes == Zeros(pageSize) && pages[i].refCnt == 1 && pages[i].guarded
      ensures forall i, j :: 0 <= i < j < n ==> pages[i] != pages[j]
    {
      pages := [];
      for ii := 0 to n
        invariant |pages| == ii
        invariant forall i :: 0 <= i < ii ==>
          fresh(pages[i]) && pages[i].bytes == Zeros(pageSize) && pages[i].refCnt == 1 && pages[i].guarded
        invariant forall i, j :: 0 <= i < j < ii ==> pages[i] != pages[j]
      {
        var page := new Page(pageSize, true);
        pages := pages + [page];
      }
    }

    /** Links `area` in at the end. */
    method Append(area: Area)
      requires Valid() && area !in areas && area !in freedAreas
      requires area.next == null && area.prev == null
      modifies this`head, this`tail, areas`next, area`prev
      ensures Linked(areas + [area], head, tail, freedAreas) && tail == area
    {
      hide Described, Counted, Guarded, Shown;
      if head == null {
        head := area;
        tail := area;
      } else {
        var last := LastArea();
        last.next := area;
        area.prev := last;
        tail := area;
        assert area !in areas && forall k :: 0 <= k < |areas| - 1 ==> areas[k] != last;
      }
    }

    /** Makes `area`, whose pages are new, part of the store. */
    method Adopt(area: Area, ghost bytes: seq<byte>)
      requires Valid() && area !in areas && area !in freedAreas && area.next == null && area.prev == null
      requires area.size == |bytes| && 0 < area.size < WORD && !Has(entries, area.tid)
      requires area.pageNum == |area.pages| == PageCount(area.size, pageSize)
      requires Counted(rows + [area.pages], repr + RowSet(area.pages), freedPages, pageSize)
      requires Guarded(rows + [area.pages], repr + RowSet(area.pages), {})
      requires RowShows(area.pages, repr + RowSet(area.pages), bytes, pageSize)
      modifies this, areas`next, area`prev
      ensures Valid() && TailLive()
      ensures areas == old(areas) + [area] && rows == old(rows) + [area.pages]
      ensures entries == old(entries) + [Entry(area.tid, bytes)]
      ensures freedPages == old(freedPages) && freedAreas == old(freedAreas) && repr == old(repr) + RowSet(area.pages)
    {
      hide PageCount, Linked, Described, Counted, Guarded, Shown, RowShows, Slots, FindFrom;
      ListFacts();
      Append(area);
      DescribedAppend(areas, rows, entries, pageSize, area, bytes);
      ShownAppend(rows, repr, entries, pageSize, area.pages, Entry(area.tid, bytes));
      areas := areas + [area];
      rows := rows + [area.pages];
      repr := repr + RowSet(area.pages);
      entries := entries + [Entry(area.tid, bytes)];
    }

    /** A thread without an area gets one of `size` zero bytes, of pages of its own. */
    method TlsCreate(self: int, size: nat) returns (r: int)
      requires Valid() && size < WORD
      modifies this, areas`next
      ensures Valid() && fresh(Objects() - old(Objects()))
      ensures r == if size == 0 || Has(old(entries), self) then -1 else 0
      ensures r == -1 ==> unchanged(this) && unchanged(old(areas))
      ensures r == 0 ==>
        && entries == old(entries) + [Entry(self, Zeros(size))]
        && |rows| == |old(rows)| + 1 && rows[..|old(rows)|] == old(rows) && areas[..|old(areas)|] == old(areas)
        && TailLive() && freedPages == old(freedPages) && freedAreas == old(freedAreas)
    {
      hide PageCount, Linked, Described, Counted, Guarded, Shown, RowShows, Slots, FindFrom, Zeros;
      if size == 0 { return -1; }
      var itr := FindArea(self);
      if itr != null { return -1; }
      var area := new Area(self);
      area.size := size;
      area.pageNum := PageCount(size, pageSize);
      area.pages := NewPages(area.pageNum);
      CountedNew(rows, repr, freedPages, pageSize, area.pages);
      GuardedNew(rows, repr, area.pages);
      ZeroRow(area.pages, repr + RowSet(area.pages), size, pageSize);
      Adopt(area, Zeros(size));
      r := 0;
    }

    /** Guards one page. */
    method Protect(p: Page, ghost lifted: set<Page>)
      requires Guarded(rows, repr, lifted)
      modifies p`guarded
      ensures p.guarded && Guarded(rows, repr, lifted - {p})
    {
      p.guarded := true;
    }

    /** One reference fewer. */
    method Drop(p: Page)
      requires Counted(rows, repr, freedPages, pageSize)
      modifies p`refCnt
      ensures CountedLess(rows, repr, freedPages, pageSize, p) && p.refCnt == old(p.refCnt) - 1
    {
      hide Slots;
      p.refCnt := p.refCnt - 1;
    }

    /** Puts `copy` into slot `pn` of an area's page table. */
    method Install(lsa: Area, ghost k: int, pn: nat, copy: Page)
      requires pageSize > 0 && 0 <= k < |areas| && lsa == areas[k] && Described(areas, rows, entries, pageSize)
      requires forall j, l :: 0 <= j < l < |areas| ==> areas[j] != areas[l]
      requires pn < |rows[k]|
      modifies lsa`pages
      ensures Described(areas, rows[k := rows[k][pn := copy]], entries, pageSize)
    {
      hide PageCount;
      lsa.pages := lsa.pages[pn := copy];
    }

    /** Gives slot `pn` of an area its own copy of a shared page. */
    method CopyPage(lsa: Area, ghost k: int, pn: nat, p: Page, ghost lifted: set<Page>) returns (copy: Page)
      requires pageSize > 0 && 0 <= k < |areas| && |areas| == |rows| == |entries| && lsa == areas[k]
      requires forall j, l :: 0 <= j < l < |areas| ==> areas[j] != areas[l]
      requires Described(areas, rows, entries, pageSize) && Counted(rows, repr, freedPages, pageSize)
      requires Guarded(rows, repr, lifted) && Shown(rows, repr, entries, pageSize)
      requires pn < |rows[k]| && p == rows[k][pn] && p in lifted && p in repr && |p.bytes| == pageSize && !p.guarded
      requires Slots(rows)[p] > 1
      modifies this`rows, this`repr, lsa`pages, p`refCnt, p`guarded
      ensures fresh(copy) && copy.refCnt == 1 && !copy.guarded && copy.bytes == p.bytes
      ensures p.refCnt == old(p.refCnt) - 1
      ensures rows == old(rows)[k := old(rows)[k][pn := copy]] && repr == old(repr) + {copy}
      ensures Described(areas, rows, entries, pageSize) && Counted(rows, repr, freedPages, pageSize)
      ensures Guarded(rows, repr, lifted - {p} + {copy}) && Shown(rows, repr, entries, pageSize)
    {
      hide Slots, RowShows, Shown, Described, Counted, CountedLess, Guarded;
      copy := new Page(pageSize, false);
      copy.bytes := p.bytes;
      Install(lsa, k, pn, copy);
      Drop(p);
      Protect(p, lifted);
      CountedCopied(rows, repr, freedPages, pageSize, k, pn, copy);
      ShownCopied(rows, repr, entries, pageSize, k, pn, copy);
      GuardedCopied(rows, repr, lifted - {p}, k, pn, copy);
      rows := rows[k := rows[k][pn := copy]];
      repr := repr + {copy};
    }

    /** Stores a byte in a page that no other slot holds. */
    method StoreByte(p: Page, poff: nat, b: byte, ghost k: int, ghost idx: nat)
      requires pageSize > 0 && |rows| == |entries| && 0 <= k < |rows| && idx < |entries[k].bytes|
      requires Shown(rows, repr, entries, pageSize)
      requires |p.bytes| == pageSize && !p.guarded && poff == OffOf(idx, pageSize)
      requires PageOf(idx, pageSize) < |rows[k]| && rows[k][PageOf(idx, pageSize)] == p && Slots(rows)[p] == 1
      modifies p`bytes
      ensures Shown(rows, repr, entries[k := Entry(entries[k].tid, entries[k].bytes[idx := b])], pageSize)
      ensures p.bytes == old(p.bytes)[poff := b]
    {
      hide PageOf, OffOf, Slots, RowShows, Shown;
      ghost var held := p.bytes;
      ShownAsIs(rows, repr, entries, pageSize, p);
      p.Store(poff, b);
      ShownStored(rows, repr, entries, pageSize, k, idx, b, p, held);
    }

    /** Writes one byte, to a copy of the page if others share it. */
    method PutByte(lsa: Area, ghost k: int, idx: nat, b: byte,
            ghost lifted: set<Page>) returns (ghost lifted': set<Page>)
      requires pageSize > 0 && 0 <= k < |areas| && |areas| == |rows| == |entries|
      requires lsa == areas[k] && idx < |entries[k].bytes|
      requires forall j, l :: 0 <= j < l < |areas| ==> areas[j] != areas[l]
      requires Described(areas, rows, entries, pageSize) && Counted(rows, repr, freedPages, pageSize)
      requires Guarded(rows, repr, lifted) && Shown(rows, repr, entries, pageSize)
      requires PageOf(idx, pageSize) < |rows[k]| && rows[k][PageOf(idx, pageSize)] in lifted
      modifies this`rows, this`repr, this`entries, lsa`pages, repr
      ensures Described(areas, rows, entries, pageSize) && Counted(rows, repr, freedPages, pageSize)
      ensures Guarded(rows, repr, lifted') && Shown(rows, repr, entries, pageSize)
      ensures entries == old(entries)[k := Entry(old(entries)[k].tid, old(entries)[k].bytes[idx := b])]
      ensures var pn, p := PageOf(idx, pageSize), old(rows)[k][PageOf(idx, pageSize)];
        if Slots(old(rows))[p] > 1 then
          exists copy: Page :: copy !in old(repr) && fresh(copy)
            && rows == old(rows)[k := old(rows)[k][pn := copy]]
            && lifted' == lifted - {p} + {copy} && repr == old(repr) + {copy}
        else
          rows == old(rows) && lifted' == lifted && repr == old(repr)
    {
      hide PageOf, OffOf, Slots, RowShows, Shown, Described, ShownWith;
      lifted' := lifted;
      var pn, poff := PageOf(idx, pageSize), OffOf(idx, pageSize);
      DescribedFacts(k);
      var p := lsa.pages[pn];
      if p.refCnt > 1 {
        var copy := CopyPage(lsa, k, pn, p, lifted);
        lifted' := lifted - {p} + {copy};
        p := copy;
      }
      SlotsIn(rows, k, pn);
      StoreByte(p, poff, b, k, idx);
      DescribedByte(areas, rows, entries, pageSize, k, idx, b);
      entries := entries[k := Entry(entries[k].tid, entries[k].bytes[idx := b])];
    }

    lemma RangeSwap(row: seq<Page>, lo: nat, hi: nat, i: nat, copy: Page)
      requires lo <= i < hi <= |row| && forall j, l :: 0 <= j < l < |row| ==> row[j] != row[l]
      ensures RangeSet(row[i := copy], lo, hi) == RangeSet(row, lo, hi) - {row[i]} + {copy}
    {
      var a, b := RangeSet(row[i := copy], lo, hi), RangeSet(row, lo, hi) - {row[i]} + {copy};
      assert row[i := copy][i] == copy;
      forall p | p in b && p != copy ensures p in a {
        var j :| lo <= j < hi && row[j] == p;
        assert row[i := copy][j] == p;
      }
      forall p | p in a && p != copy ensures p in b {
        var j :| lo <= j < hi && row[i := copy][j] == p;
        assert row[j] == p;
      }
    }

    lemma CountedRow(k: nat)
      requires Counted(rows, repr, freedPages, pageSize) && k < |rows|
      ensures forall k', i :: 0 <= k' < |rows| && 0 <= i < |rows[k']| ==> rows[k'][i] in repr
      ensures forall i, j :: 0 <= i < j < |rows[k]| ==> rows[k][i] != rows[k][j]
    {
    }

    /** Copies the buffer in, byte by byte. */
    method CopyIn(lsa: Area, ghost k: int, offset: nat, end: nat, buffer: seq<byte>)
      requires pageSize > 0 && 0 <= k < |areas| && |areas| == |rows| == |entries| && lsa == areas[k]
      requires forall j, l :: 0 <= j < l < |areas| ==> areas[j] != areas[l]
      requires Described(areas, rows, entries, pageSize) && Counted(rows, repr, freedPages, pageSize)
      requires Shown(rows, repr, entries, pageSize) && PageCount(end, pageSize) <= |rows[k]|
      requires Guarded(rows, repr, RangeSet(rows[k], PageOf(offset, pageSize), PageCount(end, pageSize)))
      requires end <= |entries[k].bytes| && (offset <= end ==> |buffer| == end - offset)
      modifies this`rows, this`repr, this`entries, lsa`pages, repr
      ensures |rows| == |old(rows)| && |rows[k]| == |old(rows)[k]| && rows == old(rows)[k := rows[k]]
      ensures Described(areas, rows, entries, pageSize) && Counted(rows, repr, freedPages, pageSize)
      ensures Shown(rows, repr, entries, pageSize)
      ensures Guarded(rows, repr, RangeSet(rows[k], PageOf(offset, pageSize), PageCount(end, pageSize)))
      ensures offset <= end ==>
        entries == old(entries)[k := Entry(old(entries)[k].tid, Splice(old(entries)[k].bytes, offset, buffer))]
      ensures offset > end ==> entries == old(entries)
      ensures CopiedOnce(rows, old(rows), k, old(repr), pageSize, offset, if offset <= end then end else offset)
      ensures repr >= old(repr) && fresh(repr - old(repr))
    {
      hide PageOf, OffOf, PageCount, Slots, Shown, Described, Counted, Guarded, RangeSet, CopiedOnce;
      PagesCover(offset, end, pageSize);
      ghost var lo, hi := PageOf(offset, pageSize), PageCount(end, pageSize);
      ghost var bytes := entries[k].bytes;
      var cnt, idx := 0, offset;
      CopiedNone(rows, k, repr, pageSize, offset);
      assert offset <= end ==> Splice(bytes, offset, buffer[..0]) == bytes;
      while idx < end
        invariant idx == offset + cnt && (idx <= end || cnt == 0)
        invariant |areas| == |rows| == |entries| && |rows[k]| == |old(rows)[k]| && rows == old(rows)[k := rows[k]]
        invariant Described(areas, rows, entries, pageSize) && Counted(rows, repr, freedPages, pageSize)
        invariant Shown(rows, repr, entries, pageSize)
        invariant Guarded(rows, repr, RangeSet(rows[k], lo, hi))
        invariant offset <= end ==>
          entries == old(entries)[k := Entry(old(entries)[k].tid, Splice(bytes, offset, buffer[..cnt]))]
        invariant offset > end ==> entries == old(entries)
        invariant CopiedOnce(rows, old(rows), k, old(repr), pageSize, offset, idx)
        invariant repr >= old(repr) && fresh(repr - old(repr))
      {
        SpliceByte(bytes, offset, buffer, cnt);
        ghost var row, rows0 := rows[k], rows;
        CountedRow(k);
        ghost var repr0 := repr;
        ghost var lifted := PutByte(lsa, k, idx, buffer[cnt], RangeSet(row, lo, hi));
        if rows != rows0 { RangeSwap(row, lo, hi, PageOf(idx, pageSize), rows[k][PageOf(idx, pageSize)]); }
        CopiedNext(rows0, rows, old(rows), k, old(repr), repr0, pageSize, offset, idx);
        cnt, idx := cnt + 1, idx + 1;
      }
      assert offset <= end ==> buffer[..cnt] == buffer;
    }

    /** Writes to the caller's area alone: shared pages it touches are copied, each
        once, and no other thread sees a change. */
    method TlsWrite(self: int, offset: nat, length: nat, buffer: seq<byte>) returns (r: Outcome)
      requires Valid() && offset < WORD && length < WORD && |buffer| == length
      modifies this`rows, this`repr, this`entries, areas`pages, repr
      ensures Valid() && fresh(Objects() - old(Objects()))
      ensures r == AccessOutcome(old(entries), self, offset, length)
      ensures r == Returned(0) && offset + length < WORD ==>
        var k := Find(old(entries), self);
        entries == old(entries)[k := Entry(self, Splice(old(entries)[k].bytes, offset, buffer))]
      ensures r != Returned(0) || offset + length >= WORD ==> entries == old(entries)
      ensures r != Returned(0) ==> rows == old(rows)
      ensures r == Returned(0) ==>
        var k := Find(old(entries), self);
        && |rows| == |old(rows)| && k < |rows| && rows == old(rows)[k := rows[k]]
        && CopiedOnce(rows, old(rows), k, old(repr), pageSize, offset,
                      if offset + length < WORD then offset + length else offset)
    {
      hide PageOf, OffOf, PageCount, Linked, Described, Counted, Guarded, Shown, Slots, RangeSet, CopiedOnce, FindFrom;
      var lsa := Search(self);
      if lsa == null { return Returned(-1); }
      ghost var k := Find(entries, self);
      AreaFacts(k);
      var end := (offset + length) % WORD;
      if end > lsa.size { return Returned(-1); }
      if offset < end && end >= INT_LIMIT { return Undefined; }
      WriteRange(lsa, k, offset, end, if offset <= end then buffer else []);
      r := Returned(0);
    }

    /** Lifts the guards, copies the buffer in, and sets the guards again. */
    method WriteRange(lsa: Area, ghost k: nat, offset: nat, end: nat, buffer: seq<byte>)
      requires Valid() && k < |areas| && |areas| == |rows| == |entries|
      requires lsa == areas[k] && end <= lsa.size == |entries[k].bytes|
      requires offset <= end ==> |buffer| == end - offset
      modifies this`rows, this`repr, this`entries, lsa`pages, repr
      ensures Valid() && |rows| == |old(rows)| && rows == old(rows)[k := rows[k]]
      ensures entries == if offset <= end
        then old(entries)[k := Entry(old(entries)[k].tid, Splice(old(entries)[k].bytes, offset, buffer))]
        else old(entries)
      ensures CopiedOnce(rows, old(rows), k, old(repr), pageSize, offset, if offset <= end then end else offset)
      ensures repr >= old(repr) && fresh(repr - old(repr))
    {
      hide PageOf, OffOf, PageCount, Linked, Described, Counted, Guarded, Shown, Slots, RangeSet, CopiedOnce;
      AreaFacts(k);
      RowFacts(k);
      AreasDistinct();
      CountMono(end, lsa.size, pageSize);
      PagesCover(offset, end, pageSize);
      Lift(k, lsa.pages, PageOf(offset, pageSize), PageCount(end, pageSize));
      CopyIn(lsa, k, offset, end, buffer);
      DescribedFacts(k);
      CountedRow(k);
      Lower(k, lsa.pages, PageOf(offset, pageSize), PageCount(end, pageSize));
    }

    lemma AreasDistinct()
      requires Valid()
      ensures forall j, l :: 0 <= j < l < |areas| ==> areas[j] != areas[l]
    {
    }

    // ---- Cloning

    /** Counts one more reference to each of `pages`. */
    method ShareAll(pages: seq<Page>)
      requires forall i :: 0 <= i < |pages| ==> pages[i] in repr
      modifies repr`refCnt
      ensures forall p: Page :: p in repr ==> p.refCnt == old(p.refCnt) + multiset(pages)[p]
    {
      for ii := 0 to |pages|
        invariant forall p: Page :: p in repr ==> p.refCnt == old(p.refCnt) + multiset(pages[..ii])[p]
      {
        assert pages[..ii + 1] == pages[..ii] + [pages[ii]];
        pages[ii].refCnt := pages[ii].refCnt + 1;
      }
      assert pages[..|pages|] == pages;
    }

    /** Counts the pages of table `k` as those of one more. */
    method ShareRow(ghost k: int, pages: seq<Page>)
      requires Counted(rows, repr, freedPages, pageSize) && 0 <= k < |rows| && pages == rows[k]
      modifies repr`refCnt
      ensures Counted(rows + [rows[k]], repr, freedPages, pageSize)
    {
      hide Slots;
      ShareAll(pages);
      SlotsAppend(rows, rows[k]);
    }

    /** Links `area` in after `tail`, which loses it if `tail` has been freed. */
    method AppendAtTail(area: Area)
      requires Valid() && areas != [] && area !in areas && area !in freedAreas && area.next == null && area.prev == null
      modifies this`tail, areas`next, freedAreas`next, area`prev, area`next
      ensures tail == area && area.next == null
      ensures old(TailLive()) ==> Linked(areas + [area], head, tail, freedAreas)
      ensures !old(TailLive()) ==> !Linked(areas, head, tail, freedAreas)
    {
      hide Described, Counted, Guarded, Shown;
      ghost var last := areas[|areas| - 1];
      assert area !in areas && forall k :: 0 <= k < |areas| - 1 ==> areas[k] != last;
      tail.next := area;
      area.prev := tail;
      tail := area;
      area.next := null;
    }

    /** The new area shares every page of the target's. That works only while
        `tail` is live: else the area is hung on a freed one and lost. */
    method TlsClone(self: int, tid: int) returns (r: int)
      requires Valid()
      modifies this, areas`next, freedAreas`next, repr`refCnt
      ensures r == if !Has(old(entries), self) && Has(old(entries), tid) then 0 else -1
      ensures r == -1 ==> Valid() && unchanged(this) && unchanged(old(areas)) && unchanged(old(repr))
      ensures r == 0 ==> (Valid() <==> old(TailLive()))
      ensures r == 0 && old(TailLive()) ==>
        var k := Find(old(entries), tid);
        && entries == old(entries) + [Entry(self, old(entries)[k].bytes)]
        && k < |old(rows)| && rows == old(rows) + [old(rows)[k]]
        && TailLive() && freedPages == old(freedPages) && freedAreas == old(freedAreas)
        && areas[..|old(areas)|] == old(areas)
      ensures r == 0 && !old(TailLive()) ==> areas == old(areas) && entries == old(entries)
      ensures fresh(Objects() - old(Objects()))
    {
      hide PageCount, Linked, Described, Counted, Guarded, Shown, Slots, RowShows, FindFrom;
      var itr := FindArea(self);
      if itr != null { return -1; }
      itr := FindArea(tid);
      if itr == null { return -1; }
      var target := Search(tid);
      ghost var k := Find(entries, tid);
      ListFacts();
      AreaFacts(k);
      RowFacts(k);
      var area := new Area(self);
      area.size := target.size;
      area.pageNum := target.pageNum;
      area.pages := target.pages;
      JoinShared(area, k);
      r := 0;
    }

    /** Links in an area that has the page table of area `k`. */
    method JoinShared(area: Area, ghost k: nat)
      requires Valid() && k < |areas| && |areas| == |rows| == |entries| && !Has(entries, area.tid)
      requires area !in areas && area !in freedAreas && area.next == null && area.prev == null
      requires 0 < area.size == |entries[k].bytes| < WORD && area.pages == rows[k]
      requires area.pageNum == |area.pages| == PageCount(area.size, pageSize)
      modifies this, areas`next, freedAreas`next, repr`refCnt, area`prev, area`next
      ensures Valid() <==> old(TailLive())
      ensures freedPages == old(freedPages) && freedAreas == old(freedAreas) && repr == old(repr)
      ensures if old(TailLive()) then
          && entries == old(entries) + [Entry(area.tid, old(entries)[k].bytes)]
          && rows == old(rows) + [old(rows)[k]] && areas == old(areas) + [area] && tail == area
        else areas == old(areas) && entries == old(entries)
    {
      hide PageCount, Linked, Described, Counted, Guarded, Shown, Slots, RowShows, FindFrom;
      ghost var live := TailLive();
      AppendAtTail(area);
      ShareRow(k, area.pages);
      if live {
        DescribedAppend(areas, rows, entries, pageSize, area, entries[k].bytes);
        ShownShared(rows, repr, entries, pageSize, k, area.tid);
        GuardedShared(rows, repr, k);
        areas := areas + [area];
        rows := rows + [area.pages];
        entries := entries + [Entry(area.tid, entries[k].bytes)];
      }
    }

    // ---- Destroying

    /** Takes area `k` out of the list; `head` and `tail` stay as they are. */
    method Unlink(itr: Area, ghost k: nat)
      requires Valid() && k < |areas| && itr == areas[k]
      modifies areas`next, areas`prev
      ensures k > 0 ==> Linked(Without(areas, k), head, tail, freedAreas + {itr})
      ensures k == 0 ==> head == itr && !Linked(Without(areas, k), head, tail, freedAreas + {itr})
    {
      hide Described, Counted, Guarded, Shown;
      LinkFacts(k);
      ghost var rest: seq<Area> := Without(areas, k);
      assert forall j :: 0 <= j < |rest| ==> rest[j] == areas[if j < k then j else j + 1];
      if itr.prev != null { itr.prev.next := itr.next; }
      if itr.next != null { itr.next.prev := itr.prev; }
    }

    /** Lets go of the pages of area `k`; those with no other slot are freed. */
    method Release(pages: seq<Page>, ghost k: nat) returns (ghost gone: set<Page>)
      requires k < |rows| && pages == rows[k] && Counted(rows, repr, freedPages, pageSize)
      modifies repr`refCnt
      ensures LetGo(rows, repr, freedPages, pageSize, k, |pages|, gone)
    {
      hide LetGo, Counted;
      gone := {};
      LetGoStart(k);
      for ii := 0 to |pages|
        invariant LetGo(rows, repr, freedPages, pageSize, k, ii, gone)
      {
        gone := ReleaseOne(pages[ii], k, ii, gone);
      }
    }

    method ReleaseOne(p: Page, ghost k: nat, ghost n: nat, ghost gone: set<Page>) returns (ghost gone': set<Page>)
      requires k < |rows| && n < |rows[k]| && p == rows[k][n] && LetGo(rows, repr, freedPages, pageSize, k, n, gone)
      modifies repr`refCnt
      ensures LetGo(rows, repr, freedPages, pageSize, k, n + 1, gone')
    {
      hide Slots;
      LetGoNext(k, n, gone);
      gone' := gone;
      if p.refCnt == 1 {
        gone' := gone + {p};
      } else {
        p.refCnt := p.refCnt - 1;
      }
    }

    lemma LetGoStart(k: nat)
      requires k < |rows| && Counted(rows, repr, freedPages, pageSize)
      ensures LetGo(rows, repr, freedPages, pageSize, k, 0, {})
    {
    }

    /** Frees the caller's area. The list stays sound exactly when it was not the
        first; `tail` stays live when it was not the last either. */
    method TlsDestroy(self: int) returns (r: int)
      requires Valid()
      modifies this`areas, this`rows, this`entries, this`repr, this`freedPages, this`freedAreas
      modifies areas`next, areas`prev, repr`refCnt
      ensures r == if Has(old(entries), self) then 0 else -1
      ensures Objects() <= old(Objects())
      ensures r == -1 ==> Valid() && unchanged(this) && unchanged(old(areas)) && unchanged(old(repr))
      ensures r == 0 ==>
        var k := Find(old(entries), self);
        && k < |old(entries)| == |old(areas)| == |old(rows)|
        && areas == Without(old(areas), k) && rows == Without(old(rows), k) && entries == Without(old(entries), k)
        && freedAreas == old(freedAreas) + {old(areas)[k]}
        && freedPages == old(freedPages) + (set p | p in old(rows)[k] && Slots(old(rows))[p] == 1)
        && (Valid() <==> k > 0)
        && (k == 0 ==> head != null && head in freedAreas)
        && (TailLive() <==> old(TailLive()) && k < |old(areas)| - 1)
    {
      hide PageCount, Linked, Described, Counted, Guarded, Shown, Slots, LetGo, FindFrom, Objects;
      var itr := FindArea(self);
      if itr == null { return -1; }
      ghost var k := Find(entries, self);
      ListFacts();
      AreaFacts(k);
      TailFacts();
      AreasDistinct();
      Unlink(itr, k);
      ghost var gone := Release(itr.pages, k);
      CountedWithout(rows, repr, freedPages, pageSize, k, gone);
      DescribedWithout(areas, rows, entries, pageSize, k);
      ShownWithout(rows, repr, entries, pageSize, k, gone);
      GuardedWithout(rows, repr, k, gone);
      Forget(itr, k, gone);
      r := 0;
    }

    ghost method Forget(itr: Area, k: nat, gone: set<Page>)
      requires pageSize > 0 && k < |areas| && |areas| == |rows| == |entries|
      modifies this`areas, this`rows, this`entries, this`repr, this`freedPages, this`freedAreas
      ensures areas == Without(old(areas), k) && rows == Without(old(rows), k) && entries == Without(old(entries), k)
      ensures repr == old(repr) - gone && freedPages == old(freedPages) + gone && freedAreas == old(freedAreas) + {itr}
      ensures itr in old(areas) ==> Objects() <= old(Objects())
    {
      areas := Without(areas, k);
      rows := Without(rows, k);
      entries := Without(entries, k);
      repr := repr - gone;
      freedPages := freedPages + gone;
      freedAreas := freedAreas + {itr};
    }

    lemma TailFacts()
      requires Valid()
      ensures tail == null <==> areas == []
      ensures tail != null ==> tail == areas[|areas| - 1] || tail in freedAreas
      ensures forall k :: 0 <= k < |areas| ==> areas[k] !in freedAreas
    {
    }

    lemma LetGoNext(k: nat, n: nat, gone: set<Page>)
      requires k < |rows| && n < |rows[k]| && LetGo(rows, repr, freedPages, pageSize, k, n, gone)
      ensures rows[k][n] !in rows[k][..n] && rows[k][..n + 1] == rows[k][..n] + [rows[k][n]]
      ensures rows[k][n] !in gone && rows[k][n].refCnt == Slots(rows)[rows[k][n]]
    {
    }

    lemma DescribedFacts(k: nat)
      requires pageSize > 0 && k < |areas| && Described(areas, rows, entries, pageSize)
      ensures |areas| == |rows| == |entries| && areas[k].pages == rows[k]
    {
    }
  }
}
