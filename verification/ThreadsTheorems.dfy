/** The properties over all runs, and exactly where the code departs from them. */
module ThreadsTheorems {
  import opened Sets
  import opened Threads
  import opened ThreadsSync
  import opened ThreadsRun
  import opened ThreadsLists
  import opened ThreadsSafety

  /** Only the main thread, all mutexes open and all barriers empty. */
  ghost predicate Start(s: Sys) {
    && |s.table.slots| >= 2 && s.table.tid == 0 && !s.over
    && (forall t :: 0 <= t < |s.table.slots| ==> s.table.slots[t] == if t == 0 then Tcb(Running) else Free)
    && |s.pcs| == |s.table.slots| && (forall t :: 0 <= t < |s.pcs| ==> s.pcs[t] == Idle)
    && |s.inside| == |s.mutexes| && |s.arrived| == |s.results| == |s.barriers|
    && (forall m :: 0 <= m < |s.mutexes| ==>
          s.mutexes[m] == MutexState(false, []) && s.inside[m] == {})
    && (forall b :: 0 <= b < |s.barriers| ==>
          && s.barriers[b].bar > 0
          && s.barriers[b] == BarrierState(0, false, s.barriers[b].bar, Blank(s.barriers[b].bar))
          && s.arrived[b] == 0 && s.results[b] == [])
  }

  /** What a program has to see to: the last slot of the table is not needed; only
      the thread inside unlocks; and rounds of a barrier do not overlap. */
  ghost predicate Guard(s: Sys, act: Act) {
    && Enabled(s, act)
    && (act.Create? ==> |s.table.slots| >= 2 && CreateFits(s))
    && OwnUnlock(s, act)
    && (act.Arrive? ==> NoOverlap(s, act.b))
  }

  ghost function Next(handoff: bool, s: Sys, act: Act): Sys {
    if Basic(s) && Enabled(s, act) then Step(handoff, s, act) else s
  }

  ghost function Run(handoff: bool, s: Sys, acts: seq<Act>): Sys
    decreases |acts|
  {
    if acts == [] then s else Run(handoff, Next(handoff, s, acts[0]), acts[1..])
  }

  ghost predicate Guarded(handoff: bool, s: Sys, acts: seq<Act>)
    decreases |acts|
  {
    acts == [] || (Guard(s, acts[0]) && Guarded(handoff, Next(handoff, s, acts[0]), acts[1..]))
  }

  /** What every run keeps, with either form of unlock. */
  ghost predicate Kept(s: Sys) {
    && Basic(s) && Listed(s) && !s.over
    && (forall b :: 0 <= b < |s.barriers| ==> Counted(s, b))
  }

  ghost predicate AllExclusive(s: Sys)
    requires |s.pcs| == |s.table.slots| && |s.inside| == |s.mutexes|
  {
    forall m :: 0 <= m < |s.mutexes| ==> Exclusive(s, m)
  }

  lemma StartKept(s: Sys)
    requires Start(s)
    ensures Kept(s) && AllExclusive(s)
  {
    forall b | 0 <= b < |s.barriers| ensures Counted(s, b) {
      assert Awake(s, AtBarrier(b)) == {};
      assert multiset(s.results[b]) == multiset{};
    }
    forall m | 0 <= m < |s.mutexes| ensures Exclusive(s, m) {
      assert Awake(s, AtLock(m)) == {};
    }
  }

  lemma StepKept(handoff: bool, s: Sys, act: Act)
    requires Kept(s) && Guard(s, act)
    ensures Next(handoff, s, act).over || Kept(Next(handoff, s, act))
    ensures handoff && AllExclusive(s) && !Next(handoff, s, act).over ==> AllExclusive(Next(handoff, s, act))
  {
    hide Basic, ListedIn, Step, Counted, Enabled, OwnUnlock, NoOverlap, Exclusive;
    BasicSizes(s);
    StepSizes(handoff, s, act);
    ListedKept(handoff, s, act);
    BasicKept(handoff, s, act);
    var s' := Step(handoff, s, act);
    forall b | 0 <= b < |s'.barriers| ensures Counted(s', b) { CountedKept(handoff, s, act, b); }
    if handoff && AllExclusive(s) {
      forall m | 0 <= m < |s'.mutexes| ensures Exclusive(s', m) { ExclusiveKept(s, act, m); }
    }
  }

  lemma {:induction false} RunKept(handoff: bool, s: Sys, acts: seq<Act>)
    requires Kept(s) && Guarded(handoff, s, acts)
    ensures Run(handoff, s, acts).over || Kept(Run(handoff, s, acts))
    ensures handoff && AllExclusive(s) && !Run(handoff, s, acts).over ==> AllExclusive(Run(handoff, s, acts))
    decreases |acts|
  {
    hide Kept, Guard, Next, AllExclusive;
    assert |s.pcs| == |s.table.slots| && |s.inside| == |s.mutexes| by { KeptSizes(s); }
    if acts != [] {
      var s' := Next(handoff, s, acts[0]);
      StepKept(handoff, s, acts[0]);
      if s'.over { OverEnds(handoff, s', acts[1..]); } else { RunKept(handoff, s', acts[1..]); }
    }
  }

  lemma OverEnds(handoff: bool, s: Sys, acts: seq<Act>)
    requires s.over && Guarded(handoff, s, acts)
    ensures acts == []
  {
  }

  lemma KeptSizes(s: Sys)
    requires Kept(s)
    ensures |s.pcs| == |s.table.slots| && |s.inside| == |s.mutexes|
  {
  }

  /** Some guarded run leads to this state, and the process has not ended. */
  ghost predicate Reached(handoff: bool, e: Sys) {
    !e.over && exists s, acts :: Start(s) && Guarded(handoff, s, acts) && Run(handoff, s, acts) == e
  }

  lemma ReachedKept(handoff: bool, e: Sys)
    requires Reached(handoff, e)
    ensures Kept(e) && |e.pcs| == |e.table.slots| && |e.inside| == |e.mutexes| && (handoff ==> AllExclusive(e))
  {
    hide Start, Guarded, Run, Kept;
    var s, acts :| Start(s) && Guarded(handoff, s, acts) && Run(handoff, s, acts) == e;
    StartKept(s);
    assert |s.pcs| == |s.table.slots| && |s.inside| == |s.mutexes| by { KeptSizes(s); }
    RunKept(handoff, s, acts);
    KeptSizes(e);
  }

  /** At most one thread is between a returned lock and its unlock, over all runs of
      the form in which a mutex stays locked for the waiter it lets go; and then no
      thread waits for a mutex that nobody has or is about to have. */
  lemma MutualExclusion(e: Sys, m: nat)
    requires Reached(true, e) && m < |e.mutexes|
    ensures |e.pcs| == |e.table.slots| && |e.inside| == |e.mutexes|
    ensures forall t, u :: t in e.inside[m] && u in e.inside[m] ==> t == u
    ensures e.mutexes[m].queue != [] ==> Claims(e, m) != {}
  {
    ReachedKept(true, e);
    hide Kept, Reached;
    assert Exclusive(e, m);
    assert e.inside[m] <= Claims(e, m);
  }

  /** The threads that wait at a place. */
  ghost function WaitList(s: Sys, pc: Pc): seq<nat> {
    match pc
    case Idle => []
    case AtLock(m) => if m < |s.mutexes| then s.mutexes[m].queue else []
    case AtBarrier(b) =>
      if b < |s.barriers| && s.barriers[b].cnt <= |s.barriers[b].tids| then s.barriers[b].tids[..s.barriers[b].cnt]
      else []
  }

  /** A thread is blocked exactly when it is on a wait list; then on one, and once. */
  lemma BlockedIffWaiting(handoff: bool, e: Sys, t: nat)
    requires Reached(handoff, e) && t < |e.table.slots|
    ensures e.table.slots[t] == Tcb(Blocked) <==> exists pc :: t in WaitList(e, pc)
    ensures forall p, q :: t in WaitList(e, p) && t in WaitList(e, q) ==> p == q
    ensures forall pc :: Distinct(WaitList(e, pc))
  {
    ReachedKept(handoff, e);
    hide Reached;
    forall pc
      ensures Distinct(WaitList(e, pc))
      ensures t in WaitList(e, pc) ==> e.table.slots[t] == Tcb(Blocked) && e.pcs[t] == pc
    {
      OnList(e, t, pc);
    }
    OnList(e, t, e.pcs[t]);
  }

  lemma OnList(e: Sys, t: nat, pc: Pc)
    requires Basic(e) && Listed(e) && t < |e.pcs|
    ensures Distinct(WaitList(e, pc))
    ensures t in WaitList(e, pc) ==> e.table.slots[t] == Tcb(Blocked) && e.pcs[t] == pc
    ensures e.table.slots[t] == Tcb(Blocked) && e.pcs[t] == pc ==> t in WaitList(e, pc)
  {
  }

  /** The threads that block at mutex `m` in a run, in order. */
  ghost function Blocking(handoff: bool, s: Sys, acts: seq<Act>, m: nat): seq<nat>
    decreases |acts|
  {
    if acts == [] then []
    else
      var s' := Next(handoff, s, acts[0]);
      Only(BlockedAt(s', AtLock(m)) - BlockedAt(s, AtLock(m))) + Blocking(handoff, s', acts[1..], m)
  }

  /** The threads blocked there that become ready, in order. */
  ghost function Waking(handoff: bool, s: Sys, acts: seq<Act>, m: nat): seq<nat>
    decreases |acts|
  {
    if acts == [] then []
    else
      var s' := Next(handoff, s, acts[0]);
      Only(BlockedAt(s, AtLock(m)) - BlockedAt(s', AtLock(m))) + Waking(handoff, s', acts[1..], m)
  }

  /** The threads that block at a mutex become ready in the order in which they
      block; those that have not are blocked there. */
  lemma FirstCome(handoff: bool, s: Sys, acts: seq<Act>, m: nat)
    requires Start(s) && Guarded(handoff, s, acts) && !Run(handoff, s, acts).over && m < |s.mutexes|
    ensures var came, woken := Blocking(handoff, s, acts, m), Waking(handoff, s, acts, m);
      && woken <= came && Distinct(came[|woken|..])
      && AsSet(came[|woken|..]) == BlockedAt(Run(handoff, s, acts), AtLock(m))
  {
    StartKept(s);
    QueueRun(handoff, s, acts, m);
    RunKept(handoff, s, acts);
    var e := Run(handoff, s, acts);
    QueueIs(e, m);
    assert s.mutexes[m].queue == [];
    hide Blocking, Waking, Run, Start, Kept, Guarded;
    var came, woken := Blocking(handoff, s, acts, m), Waking(handoff, s, acts, m);
    assert came == woken + e.mutexes[m].queue;
  }

  lemma {:induction false} QueueRun(handoff: bool, s: Sys, acts: seq<Act>, m: nat)
    requires Kept(s) && Guarded(handoff, s, acts) && !Run(handoff, s, acts).over && m < |s.mutexes|
    ensures m < |Run(handoff, s, acts).mutexes| == |s.mutexes|
    ensures s.mutexes[m].queue + Blocking(handoff, s, acts, m)
            == Waking(handoff, s, acts, m) + Run(handoff, s, acts).mutexes[m].queue
    decreases |acts|
  {
    hide Kept, Guard, Next, Only, BlockedAt;
    if acts != [] {
      var s' := Next(handoff, s, acts[0]);
      StepKept(handoff, s, acts[0]);
      if s'.over {
        OverEnds(handoff, s', acts[1..]);
      } else {
        QueueNext(handoff, s, acts[0], m);
        QueueRun(handoff, s', acts[1..], m);
        var q, q', e := s.mutexes[m].queue, s'.mutexes[m].queue, Run(handoff, s, acts).mutexes[m].queue;
        var came := Only(BlockedAt(s', AtLock(m)) - BlockedAt(s, AtLock(m)));
        var woken := Only(BlockedAt(s, AtLock(m)) - BlockedAt(s', AtLock(m)));
        var came', woken' := Blocking(handoff, s', acts[1..], m), Waking(handoff, s', acts[1..], m);
        assert q + (came + came') == (q + came) + came' == woken + (q' + came') == (woken + woken') + e;
      }
    }
  }

  lemma QueueNext(handoff: bool, s: Sys, act: Act, m: nat)
    requires Kept(s) && Guard(s, act) && Kept(Next(handoff, s, act)) && m < |s.mutexes|
    ensures var s' := Next(handoff, s, act);
      && |s'.mutexes| == |s.mutexes|
      && s.mutexes[m].queue + Only(BlockedAt(s', AtLock(m)) - BlockedAt(s, AtLock(m)))
         == Only(BlockedAt(s, AtLock(m)) - BlockedAt(s', AtLock(m))) + s'.mutexes[m].queue
  {
    hide Basic, ListedIn, Step, Counted, Only, BlockedAt, OwnUnlock;
    BasicSizes(s);
    StepSizes(handoff, s, act);
    BlockedMoves(handoff, s, act, m);
  }

  /** No wait at barrier `b` has returned before its round was full; and when nobody
      is left there, of each round one call has returned -1 and all others 0. */
  ghost predicate Together(e: Sys, b: nat)
    requires b < |e.barriers| && b < |e.arrived| && b < |e.results| && e.barriers[b].cnt < e.barriers[b].bar
  {
    var x, come, r := e.barriers[b], e.arrived[b], multiset(e.results[b]);
    && x.cnt <= come && (come - x.cnt) % x.bar == 0 && |e.results[b]| <= come - x.cnt
    && ((forall t :: 0 <= t < |e.pcs| ==> e.pcs[t] != AtBarrier(b)) ==>
         x.cnt == 0 && r[-1] == come / x.bar && r[0] == r[-1] * (x.bar - 1) && |e.results[b]| == come)
  }

  lemma RoundsTogether(handoff: bool, e: Sys, b: nat)
    requires Reached(handoff, e) && b < |e.barriers|
    ensures |e.arrived| == |e.results| == |e.barriers| && e.barriers[b].cnt < e.barriers[b].bar && Together(e, b)
  {
    ReachedKept(handoff, e);
    hide Reached, Kept;
    KeptTogether(e, b);
  }

  lemma KeptTogether(e: Sys, b: nat)
    requires Kept(e) && b < |e.barriers|
    ensures |e.arrived| == |e.results| == |e.barriers| && e.barriers[b].cnt < e.barriers[b].bar && Together(e, b)
  {
    BasicSizes(e);
    assert Counted(e, b) && BarrierSound(e.table, e.barriers[b]);
    assert BarrierListed(e.table.slots, e.pcs, b, e.barriers[b]);
    hide Basic, Listed, BarrierListed;
    var x, ones := e.barriers[b], multiset(e.results[b])[-1];
    Whole(ones, x.bar);
    if forall t :: 0 <= t < |e.pcs| ==> e.pcs[t] != AtBarrier(b) {
      assert Awake(e, AtBarrier(b)) == {};
      if x.cnt > 0 { var t := SomeWaiter(e, b); }
    }
  }

  lemma SomeWaiter(e: Sys, b: nat) returns (t: nat)
    requires |e.pcs| == |e.table.slots| && b < |e.barriers| && e.barriers[b].cnt > 0
    requires BarrierListed(e.table.slots, e.pcs, b, e.barriers[b])
    ensures t < |e.pcs| && e.pcs[t] == AtBarrier(b)
  {
    var q := e.barriers[b].tids[..e.barriers[b].cnt];
    t := q[0];
    assert t in q;
  }

  lemma Whole(k: nat, bar: nat)
    requires bar > 0
    ensures k * bar == k * (bar - 1) + k && k * bar % bar == 0 && k * bar / bar == k
  {
  }

  // ---- Any ready thread can come to run

  function Ticks(k: nat): (acts: seq<Act>)
    ensures |acts| == k
  {
    seq(k, _ => Tick)
  }

  lemma {:induction false} RunAppend(handoff: bool, s: Sys, a: seq<Act>, b: seq<Act>)
    ensures Run(handoff, s, a + b) == Run(handoff, Run(handoff, s, a), b)
    ensures Guarded(handoff, s, a + b) <==> Guarded(handoff, s, a) && Guarded(handoff, Run(handoff, s, a), b)
    decreases |a|
  {
    hide Next, Guard;
    if a == [] {
      assert a + b == b;
    } else {
      assert (a + b)[1..] == a[1..] + b;
      RunAppend(handoff, Next(handoff, s, a[0]), a[1..], b);
    }
  }

  lemma RunOne(handoff: bool, s: Sys, act: Act)
    ensures Run(handoff, s, [act]) == Next(handoff, s, act) && (Guarded(handoff, s, [act]) <==> Guard(s, act))
  {
  }

  /** The timer alone brings a thread that is not blocked to run, within as many
      switches as it is slots away. */
  lemma {:induction false} TickTo(handoff: bool, s: Sys, u: nat) returns (k: nat)
    requires Basic(s) && !s.over && u < |s.table.slots| && Kind(s.table.slots[u]) == Tcb(Ready)
    ensures s.table.tid + 1 < |s.table.slots| && u + 1 < |s.table.slots|
    ensures k <= if s.table.tid == u then 0 else Gap(s.table.tid, u, |s.table.slots| - 1)
    ensures Guarded(handoff, s, Ticks(k))
    ensures var e := Run(handoff, s, Ticks(k));
      Basic(e) && e == s.(table := e.table) && e.table.tid == u && SameKinds(s.table.slots, e.table.slots)
    decreases if s.table.tid == u then 0 else Gap(s.table.tid, u, |s.table.slots| - 1)
  {
    TickOne(handoff, s, u);
    hide Basic, Gap, Next, Guard, Kind;
    if s.table.tid == u { return 0; }
    var j := TickTo(handoff, Next(handoff, s, Tick), u);
    k := j + 1;
    assert Ticks(k)[1..] == Ticks(j);
  }

  lemma TickOne(handoff: bool, s: Sys, u: nat)
    requires Basic(s) && !s.over && u < |s.table.slots| && Kind(s.table.slots[u]) == Tcb(Ready)
    ensures s.table.tid + 1 < |s.table.slots| && u + 1 < |s.table.slots|
    ensures s.table.tid != u ==>
      var s' := Next(handoff, s, Tick);
      && Guard(s, Tick) && Basic(s') && s' == s.(table := s'.table) && SameKinds(s.table.slots, s'.table.slots)
      && s'.table.tid + 1 < |s.table.slots|
      && (s'.table.tid == u || Gap(s'.table.tid, u, |s.table.slots| - 1) < Gap(s.table.tid, u, |s.table.slots| - 1))
  {
    hide MutexLive, BarrierSound;
    if s.table.tid != u {
      BasicKept(handoff, s, Tick);
      TurnNearer(s.table, u);
      TurnKinds(s.table);
    }
  }

  // ---- The mutex as written

  /** No unlock finds a thread waiting. */
  ghost predicate Uncontended(s: Sys, acts: seq<Act>)
    decreases |acts|
  {
    acts == [] || (
      && (acts[0].Unlock? ==> acts[0].m < |s.mutexes| && s.mutexes[acts[0].m].queue == [])
      && Uncontended(Next(false, s, acts[0]), acts[1..]))
  }

  lemma {:induction false} SameRun(s: Sys, acts: seq<Act>)
    requires Uncontended(s, acts)
    ensures Run(false, s, acts) == Run(true, s, acts) && (Guarded(false, s, acts) <==> Guarded(true, s, acts))
    decreases |acts|
  {
    if acts != [] {
      assert Next(false, s, acts[0]) == Next(true, s, acts[0]) by {
        hide LockStep, ArriveStep, FinishStep, Turn, FirstFree;
      }
      hide Next, Guard;
      SameRun(Next(false, s, acts[0]), acts[1..]);
    }
  }

  /** As written, a mutex excludes as long as no unlock finds a thread waiting. */
  lemma WrittenExclusion(s: Sys, acts: seq<Act>, m: nat)
    requires Start(s) && Guarded(false, s, acts) && Uncontended(s, acts)
    requires !Run(false, s, acts).over && m < |Run(false, s, acts).mutexes|
    ensures var e := Run(false, s, acts);
      |e.inside| == |e.mutexes| && forall t, u :: t in e.inside[m] && u in e.inside[m] ==> t == u
  {
    SameRun(s, acts);
    assert Reached(true, Run(true, s, acts));
    MutualExclusion(Run(true, s, acts), m);
  }

  /** After an unlock that let `h` go, the unlocker can lock again. */
  lemma Reopened(s: Sys, m: nat) returns (s2: Sys, h: nat)
    requires Kept(s) && Guard(s, Unlock(m)) && s.mutexes[m].queue != []
    ensures Guarded(false, s, [Unlock(m), Lock(m)]) && s2 == Run(false, s, [Unlock(m), Lock(m)]) && Kept(s2)
    ensures h < |s2.pcs| == |s2.table.slots| && h != s.table.tid
    ensures s2.pcs[h] == AtLock(m) && Kind(s2.table.slots[h]) == Tcb(Ready)
    ensures m < |s2.inside| && s.table.tid in s2.inside[m]
  {
    hide Turn, Counted, BarrierListed, BarrierSound;
    h := s.mutexes[m].queue[0];
    assert h in s.mutexes[m].queue;
    assert Lists(s.table.slots, s.pcs, AtLock(m), s.mutexes[m].queue);
    StepKept(false, s, Unlock(m));
    var s1 := Next(false, s, Unlock(m));
    StepKept(false, s1, Lock(m));
    s2 := Next(false, s1, Lock(m));
    hide Kept, Guard, Next;
    RunOne(false, s, Unlock(m));
    RunOne(false, s1, Lock(m));
    RunAppend(false, s, [Unlock(m)], [Lock(m)]);
    assert [Unlock(m)] + [Lock(m)] == [Unlock(m), Lock(m)];
  }

  lemma Joined(s: Sys, m: nat, t: nat)
    requires Basic(s) && !s.over && s.table.tid < |s.pcs| && s.pcs[s.table.tid] == AtLock(m)
    requires m < |s.inside| && t in s.inside[m] && t != s.table.tid
    ensures Guarded(false, s, [Return])
    ensures var e := Run(false, s, [Return]); m < |e.inside| && t in e.inside[m] && s.table.tid in e.inside[m]
  {
  }

  /** And as soon as one does, two threads can come to be inside: the unlocker takes
      the mutex again, which is open, and the timer brings on the released waiter. */
  lemma WrittenBreaks(s: Sys, m: nat) returns (acts: seq<Act>)
    requires Reached(false, s) && Guard(s, Unlock(m)) && s.mutexes[m].queue != []
    ensures Guarded(false, s, acts) && acts != [] && acts[0] == Unlock(m)
    ensures var e := Run(false, s, acts);
      m < |e.inside| && exists t, u :: t in e.inside[m] && u in e.inside[m] && t != u
  {
    ReachedKept(false, s);
    hide Listed, Basic, Guard, Next, Kind, Reached;
    var s2, h := Reopened(s, m);
    var k := TickTo(false, s2, h);
    var s3 := Run(false, s2, Ticks(k));
    Joined(s3, m, s.table.tid);
    var first, rest := [Unlock(m), Lock(m)], Ticks(k) + [Return];
    acts := first + rest;
    RunAppend(false, s, first, rest);
    RunAppend(false, s2, Ticks(k), [Return]);
    var e := Run(false, s, acts);
    assert e == Run(false, s3, [Return]);
    assert s.table.tid in e.inside[m] && h in e.inside[m];
  }

  // ---- Rounds that overlap

  /** A round begun while `u` has yet to leave the one before. */
  lemma BegunEarly(s: Sys, b: nat, u: nat) returns (s1: Sys)
    requires Kept(s) && Enabled(s, Arrive(b)) && s.barriers[b].cnt == 0 && s.barriers[b].bar > 1
    requires u < |s.pcs| && s.pcs[u] == AtBarrier(b)
    ensures s1 == Next(false, s, Arrive(b)) && Basic(s1) && !s1.over
    ensures u < |s1.pcs| == |s1.table.slots| && Kind(s1.table.slots[u]) == Tcb(Ready)
    ensures s1.pcs[u] == s1.pcs[s.table.tid] == AtBarrier(b) && s.table.tid != u
    ensures b < |s1.barriers| && !s1.barriers[b].ret && s1.table.slots[s.table.tid] == Tcb(Blocked)
    ensures |s1.barriers[b].tids| > 0 && s1.barriers[b].tids[0] == s.table.tid
    ensures |s1.results| == |s1.arrived| == |s.results| == |s.arrived| == |s.barriers|
    ensures s1.results == s.results && s1.arrived[b] == s.arrived[b] + 1
  {
    hide Counted, Lists, Turn;
    var t := s.table;
    assert BarrierListed(t.slots, s.pcs, b, s.barriers[b]) && BarrierSound(t, s.barriers[b]);
    NotListed(t.slots, s.pcs, AtBarrier(b), s.barriers[b].tids[..0], u);
    BasicKept(false, s, Arrive(b));
    var t1 := SetStatus(t, t.tid, Blocked);
    AwakeInCall(t.slots, s.pcs, u);
    TurnNearer(t1, u);
    TurnKinds(t1);
    s1 := Next(false, s, Arrive(b));
  }

  lemma NotListed(slots: seq<Slot>, pcs: seq<Pc>, pc: Pc, q: seq<nat>, u: nat)
    requires |pcs| == |slots| && u < |slots| && Lists(slots, pcs, pc, q) && q == [] && pcs[u] == pc
    ensures slots[u] != Tcb(Blocked)
  {
  }

  lemma AwakeInCall(slots: seq<Slot>, pcs: seq<Pc>, u: nat)
    requires |pcs| == |slots| && u < |slots| && InCall(slots, pcs) && !pcs[u].Idle? && slots[u] != Tcb(Blocked)
    ensures Kind(slots[u]) == Tcb(Ready)
  {
    var status := slots[u].status;
    assert status.Exited? || status.Blocked? || status.Ready? || status.Running?;
  }

  /** It then takes itself for the last of the new round. */
  lemma LeavesLate(s: Sys, b: nat, first: nat)
    requires Basic(s) && !s.over && s.table.tid < |s.pcs| && s.pcs[s.table.tid] == AtBarrier(b)
    requires b < |s.barriers| && !s.barriers[b].ret && |s.barriers[b].tids| > 0 && s.barriers[b].tids[0] == first
    requires first < |s.pcs| && first != s.table.tid && b < |s.results|
    ensures Guarded(false, s, [Finish(b)])
    ensures var e := Run(false, s, [Finish(b)]);
      && first < |e.pcs| == |e.table.slots| && b < |e.results|
      && e.results[b] == s.results[b] + [-1] && e.arrived == s.arrived
      && e.pcs[first] == s.pcs[first] && Kind(e.table.slots[first]) == Tcb(Ready)
  {
    hide MutexLive, Turn;
    RunOne(false, s, Finish(b));
    assert BarrierSound(s.table, s.barriers[b]) && first in s.barriers[b].tids;
    TurnKinds(s.table.(slots := WakeAll(s.table.slots, s.barriers[b].tids)));
  }

  /** A barrier used for more than one thread needs its rounds not to overlap: if one
      is begun while a thread has yet to leave the one before, then -1 can be returned
      once more, and the first thread of the new round be let past, with no second
      thread come. */
  lemma OverlapBreaks(s: Sys, b: nat) returns (acts: seq<Act>)
    requires Reached(false, s) && Enabled(s, Arrive(b)) && s.barriers[b].bar > 1 && !NoOverlap(s, b)
    ensures acts != [] && acts[0] == Arrive(b) && Guarded(false, Next(false, s, Arrive(b)), acts[1..])
    ensures var e, t := Run(false, s, acts), s.table.tid;
      && t < |e.pcs| == |e.table.slots| && b < |e.results| == |e.arrived| && b < |s.results| == |s.arrived|
      && e.results[b] == s.results[b] + [-1] && e.arrived[b] == s.arrived[b] + 1
      && e.pcs[t] == AtBarrier(b) && Kind(e.table.slots[t]) == Tcb(Ready)
  {
    ReachedKept(false, s);
    hide Reached;
    var u: nat :| u < |s.pcs| && s.pcs[u] == AtBarrier(b);
    var s1 := BegunEarly(s, b, u);
    var k := TickTo(false, s1, u);
    var s2 := Run(false, s1, Ticks(k));
    LeavesLate(s2, b, s.table.tid);
    acts := [Arrive(b)] + (Ticks(k) + [Finish(b)]);
    RunAppend(false, s1, Ticks(k), [Finish(b)]);
    assert acts[1..] == Ticks(k) + [Finish(b)];
    hide Kept, Basic, Next, Guard, Kind, Turn;
  }
}
