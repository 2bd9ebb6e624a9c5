/** Two threads with a shared area: what each reads is known from the start. */
module TlsShared {
  import opened Bytes
  import opened TlsHeap
  import opened Tls
  import opened TlsRun

  /** Thread `t` makes an area and writes to it, `u` clones it, `t` writes again;
      then both read, and `u` gives its area up. */
  function SharedCalls(t: int, u: int, size: nat, at: nat, buf: seq<byte>, at2: nat, buf2: seq<byte>)
    : (calls: seq<(int, Call)>)
    ensures |calls| == 8
  {
    [(t, Create(size)), (t, Write(at, buf)), (u, Clone(t)), (t, Write(at2, buf2)), (u, Read(at, |buf|)),
     (t, Read(0, size)), (u, Destroy), (u, Read(0, 1))]
  }

  /** The list before call `k`: the bytes `b` of `t`, then those of `u`. */
  ghost function SharedView(t: int, u: int, size: nat, b1: seq<byte>, b2: seq<byte>, k: nat): View {
    match k
    case 0 => View([], true)
    case 1 => View([Entry(t, Zeros(size))], true)
    case 2 => View([Entry(t, b1)], true)
    case 3 => View([Entry(t, b1), Entry(u, b1)], true)
    case 7 => View([Entry(t, b2)], false)
    case 8 => View([Entry(t, b2)], false)
    case _ => View([Entry(t, b2), Entry(u, b1)], true)
  }

  lemma FindIn(entries: seq<Entry>, t: int, u: int)
    requires t != u
    ensures |entries| == 1 && entries[0].tid == t ==>
      Find(entries, t) == 0 && Has(entries, t) && Find(entries, u) == 1 && !Has(entries, u)
    ensures |entries| == 2 && entries[0].tid == t && entries[1].tid == u ==>
      Find(entries, t) == 0 && Has(entries, t) && Find(entries, u) == 1 && Has(entries, u)
    ensures entries == [] ==> Find(entries, t) == 0 && !Has(entries, t)
  {
  }

  lemma SharedNext(t: int, u: int, size: nat, at: nat, buf: seq<byte>, at2: nat, buf2: seq<byte>, k: nat)
    requires t != u && 0 < size < 0x8000_0000 && at + |buf| <= size && at2 + |buf2| <= size && k < 8
    ensures var b1 := Splice(Zeros(size), at, buf);
      && |b1| == size
      && var b2, call := Splice(b1, at2, buf2), SharedCalls(t, u, size, at, buf, at2, buf2)[k];
      var v := SharedView(t, u, size, b1, b2, k);
      && Guard(v, call.0, call.1) && Next(v, call.0, call.1) == SharedView(t, u, size, b1, b2, k + 1)
  {
    var b1 := Splice(Zeros(size), at, buf);
    var b2 := Splice(b1, at2, buf2);
    FindIn(SharedView(t, u, size, b1, b2, k).entries, t, u);
    hide Find, Splice, Zeros;
    assert |b1| == size && |b2| == size by { Lengths(size, at, buf, at2, buf2); }
  }

  lemma Lengths(size: nat, at: nat, buf: seq<byte>, at2: nat, buf2: seq<byte>)
    requires at + |buf| <= size && at2 + |buf2| <= size
    ensures |Zeros(size)| == size && |Splice(Zeros(size), at, buf)| == size
    ensures |Splice(Splice(Zeros(size), at, buf), at2, buf2)| == size
  {
  }

  lemma {:induction false} SharedAfter(t: int, u: int, size: nat, at: nat, buf: seq<byte>, at2: nat, buf2: seq<byte>,
          calls: seq<(int, Call)>, k: nat)
    requires t != u && 0 < size < 0x8000_0000 && at + |buf| <= size && at2 + |buf2| <= size && k <= |calls| == 8
    requires calls == SharedCalls(t, u, size, at, buf, at2, buf2)
    ensures var b1 := Splice(Zeros(size), at, buf);
      |b1| == size && After(View([], true), calls[..k]) == SharedView(t, u, size, b1, Splice(b1, at2, buf2), k)
  {
    Lengths(size, at, buf, at2, buf2);
    hide SharedCalls, Next, Guard, Zeros, Splice;
    if k > 0 {
      SharedAfter(t, u, size, at, buf, at2, buf2, calls, k - 1);
      SharedNext(t, u, size, at, buf, at2, buf2, k - 1);
      assert calls[..k][..k - 1] == calls[..k - 1];
    }
  }

  /** From the start these calls are made inside their guards, for every area below
      2^31 bytes and whatever is written inside it. */
  lemma SharedGuarded(t: int, u: int, size: nat, at: nat, buf: seq<byte>, at2: nat, buf2: seq<byte>)
    requires t != u && 0 < size < 0x8000_0000 && at + |buf| <= size && at2 + |buf2| <= size
    ensures GuardedRun(View([], true),
              [(t, Create(size)), (t, Write(at, buf)), (u, Clone(t)), (t, Write(at2, buf2)), (u, Read(at, |buf|)),
               (t, Read(0, size)), (u, Destroy), (u, Read(0, 1))])
  {
    var calls := SharedCalls(t, u, size, at, buf, at2, buf2);
    Lengths(size, at, buf, at2, buf2);
    hide SharedView, Next, Guard, Zeros, Splice, After;
    forall n | 0 <= n < |calls| ensures Guard(After(View([], true), calls[..n]), calls[n].0, calls[n].1) {
      SharedAfter(t, u, size, at, buf, at2, buf2, calls, n);
      SharedNext(t, u, size, at, buf, at2, buf2, n);
    }
  }

  lemma RunStep(calls: seq<(int, Call)>, n: nat, m: Arrays, replies: seq<Reply>, m': Arrays, reply: Reply)
    requires n < |calls| && Reached(calls, n, m, replies)
    requires Gives(m, calls[n].0, calls[n].1, m', reply)
    ensures Reached(calls, n + 1, m', replies + [reply])
  {
    RunMore(View([], true), map[], calls, n);
  }

  predicate Gives(m: Arrays, self: int, call: Call, m': Arrays, reply: Reply) {
    Step(m, self, call).0 == m' && Step(m, self, call).1 == reply
  }

  lemma FirstSteps(t: int, u: int, size: nat, at: nat, buf: seq<byte>, b0: seq<byte>, b1: seq<byte>)
    requires t != u && 0 < size && at + |buf| <= size && b0 == Zeros(size) && b1 == Splice(b0, at, buf)
    ensures Gives(map[], t, Create(size), map[t := b0], Reply(0, []))
    ensures Gives(map[t := b0], t, Write(at, buf), map[t := b1], Reply(0, []))
    ensures Gives(map[t := b1], u, Clone(t), map[t := b1, u := b1], Reply(0, []))
  {
  }

  lemma LaterSteps(t: int, u: int, size: nat, at: nat, buf: seq<byte>, at2: nat, buf2: seq<byte>, b1: seq<byte>,
          b2: seq<byte>)
    requires t != u && |b1| == |b2| == size > 0 && at + |buf| <= size && b1[at..at + |buf|] == buf
    requires at2 + |buf2| <= size && b2 == Splice(b1, at2, buf2)
    ensures Gives(map[t := b1, u := b1], t, Write(at2, buf2), map[t := b2, u := b1], Reply(0, []))
    ensures Gives(map[t := b2, u := b1], u, Read(at, |buf|), map[t := b2, u := b1], Reply(0, buf))
    ensures Gives(map[t := b2, u := b1], t, Read(0, size), map[t := b2, u := b1], Reply(0, b2))
    ensures Gives(map[t := b2, u := b1], u, Destroy, map[t := b2], Reply(0, []))
    ensures Gives(map[t := b2], u, Read(0, 1), map[t := b2], Reply(-1, []))
  {
    assert b2[0..0 + size] == b2;
  }

  predicate Reached(calls: seq<(int, Call)>, n: nat, m: Arrays, replies: seq<Reply>)
    requires n <= |calls|
  {
    Run(map[], calls[..n]).0 == m && Run(map[], calls[..n]).1 == replies
  }

  /** What private arrays reply: the clone has the bytes of before, and the first
      thread both. */
  lemma SharedReplies(t: int, u: int, size: nat, at: nat, buf: seq<byte>, at2: nat, buf2: seq<byte>)
    returns (all: seq<byte>)
    requires t != u && 0 < size < 0x8000_0000 && at + |buf| <= size && at2 + |buf2| <= size
    ensures |all| == size && forall x :: 0 <= x < size ==>
      all[x] == if at2 <= x < at2 + |buf2| then buf2[x - at2] else if at <= x < at + |buf| then buf[x - at] else 0
    ensures Run(map[],
              [(t, Create(size)), (t, Write(at, buf)), (u, Clone(t)), (t, Write(at2, buf2)), (u, Read(at, |buf|)),
               (t, Read(0, size)), (u, Destroy), (u, Read(0, 1))]).1
            == [Reply(0, []), Reply(0, []), Reply(0, []), Reply(0, []), Reply(0, buf), Reply(0, all), Reply(0, []),
                Reply(-1, [])]
  {
    var calls := SharedCalls(t, u, size, at, buf, at2, buf2);
    var b0 := Zeros(size);
    var b1 := Splice(b0, at, buf);
    Lengths(size, at, buf, at2, buf2);
    SharedBytes(size, at, buf, at2, buf2);
    var b2 := Splice(b1, at2, buf2);
    all := b2;
    hide Run, Reached, Gives, Zeros, Splice;
    SharedReached(calls, t, u, size, at, buf, at2, buf2, b0, b1, b2);
    ReachedAll(calls, map[t := b2], SharedEight(buf, b2));
  }

  lemma SharedBytes(size: nat, at: nat, buf: seq<byte>, at2: nat, buf2: seq<byte>)
    requires at + |buf| <= size && at2 + |buf2| <= size
    ensures var b1 := Splice(Zeros(size), at, buf);
      |b1| == size && b1[at..at + |buf|] == buf && |Splice(b1, at2, buf2)| == size
    ensures forall x :: 0 <= x < size ==>
      Splice(Splice(Zeros(size), at, buf), at2, buf2)[x]
        == if at2 <= x < at2 + |buf2| then buf2[x - at2] else if at <= x < at + |buf| then buf[x - at] else 0
  {
  }

  function SharedEight(buf: seq<byte>, all: seq<byte>): seq<Reply> {
    [Reply(0, []), Reply(0, []), Reply(0, []), Reply(0, []), Reply(0, buf), Reply(0, all), Reply(0, []), Reply(-1, [])]
  }

  lemma EightIs(buf: seq<byte>, all: seq<byte>)
    ensures [] + [Reply(0, [])] + [Reply(0, [])] + [Reply(0, [])] + [Reply(0, [])] + [Reply(0, buf)] + [Reply(0, all)]
            + [Reply(0, [])] + [Reply(-1, [])] == SharedEight(buf, all)
  {
  }

  lemma SharedReached(calls: seq<(int, Call)>, t: int, u: int, size: nat, at: nat, buf: seq<byte>, at2: nat,
          buf2: seq<byte>, b0: seq<byte>, b1: seq<byte>, b2: seq<byte>)
    requires t != u && |b1| == |b2| == size > 0 && at + |buf| <= size && at2 + |buf2| <= size
    requires |calls| == 8 && calls == SharedCalls(t, u, size, at, buf, at2, buf2)
    requires b0 == Zeros(size) && b1 == Splice(b0, at, buf) && b1[at..at + |buf|] == buf && b2 == Splice(b1, at2, buf2)
    ensures Reached(calls, 8, map[t := b2], SharedEight(buf, b2))
  {
    FirstSteps(t, u, size, at, buf, b0, b1);
    LaterSteps(t, u, size, at, buf, at2, buf2, b1, b2);
    ReachedNone(calls);
    hide Run, Reached, Gives, Zeros, Splice, SharedEight;
    var ok, r: seq<Reply> := Reply(0, []), [];
    RunStep(calls, 0, map[], r, map[t := b0], ok);
    RunStep(calls, 1, map[t := b0], r + [ok], map[t := b1], ok);
    RunStep(calls, 2, map[t := b1], r + [ok] + [ok], map[t := b1, u := b1], ok);
    RunStep(calls, 3, map[t := b1, u := b1], r + [ok] + [ok] + [ok], map[t := b2, u := b1], ok);
    SharedRest(calls, t, u, size, at, buf, b1, b2, r + [ok] + [ok] + [ok] + [ok]);
    EightIs(buf, b2);
  }

  lemma ReachedNone(calls: seq<(int, Call)>)
    ensures Reached(calls, 0, map[], [])
  {
  }

  lemma SharedRest(calls: seq<(int, Call)>, t: int, u: int, size: nat, at: nat, buf: seq<byte>, b1: seq<byte>,
                   b2: seq<byte>, r: seq<Reply>)
    requires |calls| == 8 && calls[4..] == [(u, Read(at, |buf|)), (t, Read(0, size)), (u, Destroy), (u, Read(0, 1))]
    requires Reached(calls, 4, map[t := b2, u := b1], r)
    requires Gives(map[t := b2, u := b1], u, Read(at, |buf|), map[t := b2, u := b1], Reply(0, buf))
    requires Gives(map[t := b2, u := b1], t, Read(0, size), map[t := b2, u := b1], Reply(0, b2))
    requires Gives(map[t := b2, u := b1], u, Destroy, map[t := b2], Reply(0, []))
    requires Gives(map[t := b2], u, Read(0, 1), map[t := b2], Reply(-1, []))
    ensures Reached(calls, 8, map[t := b2], r + [Reply(0, buf)] + [Reply(0, b2)] + [Reply(0, [])] + [Reply(-1, [])])
  {
    assert forall k :: 4 <= k < 8 ==> calls[k] == calls[4..][k - 4];
    hide Run, Reached, Gives;
    var r1 := r + [Reply(0, buf)];
    RunStep(calls, 4, map[t := b2, u := b1], r, map[t := b2, u := b1], Reply(0, buf));
    RunStep(calls, 5, map[t := b2, u := b1], r1, map[t := b2, u := b1], Reply(0, b2));
    RunStep(calls, 6, map[t := b2, u := b1], r1 + [Reply(0, b2)], map[t := b2], Reply(0, []));
    RunStep(calls, 7, map[t := b2], r1 + [Reply(0, b2)] + [Reply(0, [])], map[t := b2], Reply(-1, []));
  }

  lemma ReachedAll(calls: seq<(int, Call)>, m: Arrays, replies: seq<Reply>)
    requires Reached(calls, |calls|, m, replies)
    ensures Run(map[], calls).1 == replies
  {
    assert calls[..|calls|] == calls;
  }

  /** So the code gives these replies, for any page size. */
  method SharedRun(pageSize: nat, t: int, u: int, size: nat, at: nat, buf: seq<byte>, at2: nat, buf2: seq<byte>)
    returns (replies: seq<Reply>)
    requires pageSize > 0 && t != u && 0 < size < 0x8000_0000 && at + |buf| <= size && at2 + |buf2| <= size
    ensures |replies| == 8 && forall k :: 0 <= k < 8 ==> replies[k].value == if k == 7 then -1 else 0
    ensures replies[4].data == buf && |replies[5].data| == size
    ensures forall x :: 0 <= x < size ==>
      replies[5].data[x] == if at2 <= x < at2 + |buf2| then buf2[x - at2]
                            else if at <= x < at + |buf| then buf[x - at] else 0
  {
    hide GuardedRun, Run;
    SharedGuarded(t, u, size, at, buf, at2, buf2);
    ghost var all := SharedReplies(t, u, size, at, buf, at2, buf2);
    replies := RunNew(pageSize,
                      [(t, Create(size)), (t, Write(at, buf)), (u, Clone(t)), (t, Write(at2, buf2)),
                       (u, Read(at, |buf|)), (t, Read(0, size)), (u, Destroy), (u, Read(0, 1))]);
  }
}
