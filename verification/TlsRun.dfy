/** Runs of calls by any threads, and that each thread sees only a private array. */
module TlsRun {
  import opened Bytes
  import opened TlsHeap
  import opened Tls

  datatype Call =
    | Create(size: nat) | Read(offset: nat, length: nat) | Write(offset: nat, buf: seq<byte>)
    | Clone(tid: int) | Destroy

  datatype Reply = Reply(value: int, data: seq<byte>)

  /** The bytes of each thread that has an area. */
  type Arrays = map<int, seq<byte>>

  /** One call on private arrays: a new array is zero, a clone is a full copy, a
      write changes the caller's array alone. */
  function Step(m: Arrays, self: int, call: Call): (Arrays, Reply) {
    var failed := (m, Reply(-1, []));
    match call
    case Create(size) =>
      if size == 0 || self in m then failed else (m[self := Zeros(size)], Reply(0, []))
    case Read(offset, length) =>
      if self !in m || offset + length > |m[self]| then failed else (m, Reply(0, m[self][offset..offset + length]))
    case Write(offset, buf) =>
      if self !in m || offset + |buf| > |m[self]| then failed
      else (m[self := Splice(m[self], offset, buf)], Reply(0, []))
    case Clone(tid) =>
      if self in m || tid !in m then failed else (m[self := m[tid]], Reply(0, []))
    case Destroy =>
      if self !in m then failed else (m - {self}, Reply(0, []))
  }

  function Run(m: Arrays, calls: seq<(int, Call)>): (Arrays, seq<Reply>) {
    if calls == [] then (m, [])
    else
      var (m1, replies) := Run(m, calls[..|calls| - 1]);
      var (m2, reply) := Step(m1, calls[|calls| - 1].0, calls[|calls| - 1].1);
      (m2, replies + [reply])
  }

  // ---- The list behind the arrays

  /** The entries in list order, and whether `tail` is live. */
  datatype View = View(entries: seq<Entry>, tailLive: bool)

  /** What a caller has to see to, beyond what the types ask: offset and length add
      up in an unsigned int, and to an int, or are refused; nobody clones while
      `tail` is stale; and the thread whose area is first in the list keeps it. */
  predicate Guard(v: View, self: int, call: Call) {
    match call
    case Create(size) => size < WORD
    case Read(offset, length) => offset < WORD && length < WORD && Accessible(v, self, offset, length)
    case Write(offset, buf) => offset < WORD && |buf| < WORD && Accessible(v, self, offset, |buf|)
    case Clone(tid) => !Has(v.entries, self) && Has(v.entries, tid) ==> v.tailLive
    case Destroy => Has(v.entries, self) ==> Find(v.entries, self) > 0
  }

  /** The sum of offset and length is not taken for a small one, nor too large for
      the loop. */
  predicate Accessible(v: View, self: int, offset: nat, length: nat) {
    || !Has(v.entries, self)
    || (offset + length) % 0x1_0000_0000 > |v.entries[Find(v.entries, self)].bytes|
    || (offset + length < 0x1_0000_0000 && (offset + length < 0x8000_0000 || length == 0))
  }

  /** The list after a call inside its guard. */
  function Next(v: View, self: int, call: Call): View {
    var k := Find(v.entries, self);
    match call
    case Create(size) =>
      if size == 0 || k < |v.entries| then v else View(v.entries + [Entry(self, Zeros(size))], true)
    case Read(_, _) => v
    case Write(offset, buf) =>
      if k == |v.entries| || offset + |buf| > |v.entries[k].bytes| then v
      else v.(entries := v.entries[k := Entry(self, Splice(v.entries[k].bytes, offset, buf))])
    case Clone(tid) =>
      if k < |v.entries| || !Has(v.entries, tid) then v
      else View(v.entries + [Entry(self, v.entries[Find(v.entries, tid)].bytes)], true)
    case Destroy =>
      if k == |v.entries| then v else View(Without(v.entries, k), v.tailLive && k < |v.entries| - 1)
  }

  function After(v: View, calls: seq<(int, Call)>): View {
    if calls == [] then v
    else Next(After(v, calls[..|calls| - 1]), calls[|calls| - 1].0, calls[|calls| - 1].1)
  }

  predicate GuardedRun(v: View, calls: seq<(int, Call)>) {
    forall n :: 0 <= n < |calls| ==> Guard(After(v, calls[..n]), calls[n].0, calls[n].1)
  }

  ghost predicate TidsDistinct(entries: seq<Entry>) {
    forall j, k :: 0 <= j < k < |entries| ==> entries[j].tid != entries[k].tid
  }

  /** The arrays that the entries stand for. */
  ghost predicate Holds(entries: seq<Entry>, m: Arrays) {
    && TidsDistinct(entries)
    && (forall k :: 0 <= k < |entries| ==> entries[k].tid in m && m[entries[k].tid] == entries[k].bytes)
    && (forall t :: t in m ==> Has(entries, t))
  }

  lemma HoldsAt(entries: seq<Entry>, m: Arrays, t: int)
    requires Holds(entries, m)
    ensures t in m <==> Has(entries, t)
    ensures t in m ==> m[t] == entries[Find(entries, t)].bytes
  {
  }

  /** A read or write returns what the arrays say exactly if it is refused, or the
      sum of offset and length is below 2^32 and either below 2^31 or nothing is
      accessed; and that is its guard. It is undefined if the sum, cut to 32 bits, is
      in the area, past the offset, and 2^31 or more. */
  lemma AccessIff(v: View, m: Arrays, self: int, offset: nat, buf: seq<byte>)
    requires Holds(v.entries, m) && offset < WORD && |buf| < WORD
    requires forall k :: 0 <= k < |v.entries| ==> |v.entries[k].bytes| < WORD
    ensures var o, end := AccessOutcome(v.entries, self, offset, |buf|), offset + |buf|;
      var inside := || self !in m || end % 0x1_0000_0000 > |m[self]|
                    || (end < 0x1_0000_0000 && (end < 0x8000_0000 || buf == []));
      && (o == Returned(Step(m, self, Read(offset, |buf|)).1.value) <==> inside)
      && (o == Returned(Step(m, self, Write(offset, buf)).1.value) <==> inside)
      && (Guard(v, self, Read(offset, |buf|)) <==> inside) && (Guard(v, self, Write(offset, buf)) <==> inside)
      && o in {Returned(0), Returned(-1), Undefined}
      && (o == Returned(-1) <==> self !in m || end % 0x1_0000_0000 > |m[self]|)
      && (o == Undefined <==>
            self in m && offset < end % 0x1_0000_0000 <= |m[self]| && end % 0x1_0000_0000 >= 0x8000_0000)
  {
    HoldsAt(v.entries, m, self);
  }

  lemma HoldsAppend(entries: seq<Entry>, m: Arrays, e: Entry)
    requires Holds(entries, m) && e.tid !in m
    ensures Holds(entries + [e], m[e.tid := e.bytes])
  {
    var entries' := entries + [e];
    forall t | t in m[e.tid := e.bytes] ensures Has(entries', t) {
      if t == e.tid { assert entries'[|entries|].tid == t; }
      else { assert entries'[Find(entries, t)].tid == t; }
    }
  }

  lemma HoldsUpdate(entries: seq<Entry>, m: Arrays, k: int, bytes: seq<byte>)
    requires Holds(entries, m) && 0 <= k < |entries|
    ensures Holds(entries[k := Entry(entries[k].tid, bytes)], m[entries[k].tid := bytes])
  {
    var entries' := entries[k := Entry(entries[k].tid, bytes)];
    forall t | t in m[entries[k].tid := bytes] ensures Has(entries', t) {
      assert entries'[Find(entries, t)].tid == t;
    }
  }

  lemma HoldsWithout(entries: seq<Entry>, m: Arrays, k: int)
    requires Holds(entries, m) && 0 <= k < |entries|
    ensures Holds(Without(entries, k), m - {entries[k].tid})
  {
    var entries' := Without(entries, k);
    forall j | 0 <= j < |entries'| ensures entries'[j] == entries[if j < k then j else j + 1] {}
    forall t | t in m && t != entries[k].tid ensures Has(entries', t) {
      var j := Find(entries, t);
      assert entries'[if j < k then j else j - 1].tid == t;
    }
  }

  /** A step of the list is a step of the arrays. */
  lemma NextHolds(v: View, self: int, call: Call, m: Arrays)
    requires Holds(v.entries, m) && Guard(v, self, call)
    ensures Holds(Next(v, self, call).entries, Step(m, self, call).0)
  {
    HoldsAt(v.entries, m, self);
    var k := Find(v.entries, self);
    match call
    case Create(size) =>
      if size > 0 && self !in m { HoldsAppend(v.entries, m, Entry(self, Zeros(size))); }
    case Read(_, _) =>
    case Write(offset, buf) =>
      if self in m && offset + |buf| <= |m[self]| { HoldsUpdate(v.entries, m, k, Splice(m[self], offset, buf)); }
    case Clone(tid) =>
      HoldsAt(v.entries, m, tid);
      if self !in m && tid in m { HoldsAppend(v.entries, m, Entry(self, m[tid])); }
    case Destroy =>
      if self in m { HoldsWithout(v.entries, m, k); }
  }

  lemma {:induction false} AfterHolds(v: View, calls: seq<(int, Call)>, m: Arrays)
    requires Holds(v.entries, m) && GuardedRun(v, calls)
    ensures Holds(After(v, calls).entries, Run(m, calls).0)
  {
    if calls != [] {
      var init := calls[..|calls| - 1];
      forall n | 0 <= n < |init| ensures Guard(After(v, init[..n]), init[n].0, init[n].1) {
        assert init[..n] == calls[..n];
      }
      AfterHolds(v, init, m);
      NextHolds(After(v, init), calls[|calls| - 1].0, calls[|calls| - 1].1, Run(m, init).0);
    }
  }

  // ---- The calls themselves

  ghost function ViewOf(store: Store): View
    reads store
  {
    View(store.entries, store.TailLive())
  }

  method DoRead(store: Store, self: int, offset: nat, length: nat, ghost m: Arrays) returns (reply: Reply)
    requires store.Valid() && Holds(store.entries, m) && Guard(ViewOf(store), self, Read(offset, length))
    modifies store.repr
    ensures store.Valid() && reply == Step(m, self, Read(offset, length)).1
  {
    hide Linked, Described, Counted, TlsHeap.Guarded, Shown, FindFrom;
    HoldsAt(store.entries, m, self);
    hide Holds;
    var buffer := new byte[length];
    var r := store.TlsRead(self, offset, length, buffer);
    reply := Reply(r.value, if r == Returned(0) then buffer[..] else []);
  }

  /** A call inside its guard gives the reply of the arrays. */
  method Do(store: Store, self: int, call: Call, ghost m: Arrays) returns (reply: Reply)
    requires store.Valid() && Holds(store.entries, m) && Guard(ViewOf(store), self, call)
    modifies store, store.Objects()
    ensures store.Valid() && ViewOf(store) == Next(old(ViewOf(store)), self, call)
    ensures reply == Step(m, self, call).1
    ensures fresh(store.Objects() - old(store.Objects()))
  {
    hide Linked, Described, Counted, TlsHeap.Guarded, Shown, Holds, FindFrom, CopiedOnce;
    HoldsAt(store.entries, m, self);
    var r;
    match call
    case Create(size) =>
      r := store.TlsCreate(self, size);
      reply := Reply(r, []);
    case Read(offset, length) =>
      reply := DoRead(store, self, offset, length, m);
    case Write(offset, buf) =>
      var o := store.TlsWrite(self, offset, |buf|, buf);
      reply := Reply(o.value, []);
    case Clone(tid) =>
      HoldsAt(store.entries, m, tid);
      r := store.TlsClone(self, tid);
      reply := Reply(r, []);
    case Destroy =>
      r := store.TlsDestroy(self);
      reply := Reply(r, []);
  }

  /** A run of calls inside their guards gives the replies of the arrays, and
      leaves each thread its array. */
  method RunCalls(store: Store, calls: seq<(int, Call)>, ghost m: Arrays) returns (replies: seq<Reply>)
    requires store.Valid() && Holds(store.entries, m) && GuardedRun(ViewOf(store), calls)
    modifies store, store.Objects()
    ensures store.Valid() && ViewOf(store) == After(old(ViewOf(store)), calls)
    ensures replies == Run(m, calls).1 && Holds(store.entries, Run(m, calls).0)
  {
    hide Linked, Described, Counted, TlsHeap.Guarded, Shown, Holds, Guard, Next, Step, FindFrom, After, Run;
    replies := [];
    ghost var v := ViewOf(store);
    RunNone(v, m);
    for n := 0 to |calls|
      invariant store.Valid() && fresh(store.Objects() - old(store.Objects()))
      invariant ViewOf(store) == After(v, calls[..n])
      invariant replies == Run(m, calls[..n]).1 && Holds(store.entries, Run(m, calls[..n]).0)
    {
      RunMore(v, m, calls, n);
      assert Guard(After(v, calls[..n]), calls[n].0, calls[n].1);
      NextHolds(ViewOf(store), calls[n].0, calls[n].1, Run(m, calls[..n]).0);
      var reply := Do(store, calls[n].0, calls[n].1, Run(m, calls[..n]).0);
      replies := replies + [reply];
    }
    assert calls[..|calls|] == calls;
  }

  /** So does a run from the start, when no thread has an area. */
  method RunNew(pageSize: nat, calls: seq<(int, Call)>) returns (replies: seq<Reply>)
    requires pageSize > 0 && GuardedRun(View([], true), calls)
    ensures replies == Run(map[], calls).1
  {
    hide GuardedRun, Run, After;
    var store := new Store(pageSize);
    replies := RunCalls(store, calls, map[]);
  }

  lemma RunNone(v: View, m: Arrays)
    ensures After(v, []) == v && Run(m, []) == (m, [])
  {
  }

  lemma RunMore(v: View, m: Arrays, calls: seq<(int, Call)>, n: nat)
    requires n < |calls|
    ensures After(v, calls[..n + 1]) == Next(After(v, calls[..n]), calls[n].0, calls[n].1)
    ensures var (m1, replies) := Run(m, calls[..n]);
      var (m2, reply) := Step(m1, calls[n].0, calls[n].1);
      Run(m, calls[..n + 1]) == (m2, replies + [reply])
  {
    hide Next, Step;
    assert calls[..n + 1][..n] == calls[..n];
  }
}
