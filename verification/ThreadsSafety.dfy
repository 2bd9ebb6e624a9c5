/** What holds over every run: mutual exclusion, first-come order, and that each
    round of a barrier lets its threads go together. */
module ThreadsSafety {
  import opened Sets
  import opened Threads
  import opened ThreadsSync
  import opened ThreadsRun
  import opened ThreadsLists

  // ---- Threads awake inside a call

  ghost function Awake(s: Sys, pc: Pc): (a: set<nat>)
    requires |s.pcs| == |s.table.slots|
  {
    set t: nat | t < |s.pcs| && s.pcs[t] == pc && s.table.slots[t] != Tcb(Blocked)
  }

  /** Whom a step makes awake at `pc`, and whom it takes away. */
  ghost function Comes(s: Sys, act: Act, pc: Pc): set<nat>
    requires Basic(s) && Enabled(s, act)
  {
    match act
    case Unlock(m) => if pc == AtLock(m) && |s.mutexes[m].queue| > 0 then {s.mutexes[m].queue[0]} else {}
    case Arrive(b) =>
      assert BarrierSound(s.table, s.barriers[b]);
      if pc == AtBarrier(b) && s.barriers[b].cnt + 1 == s.barriers[b].bar
      then AsSet(s.barriers[b].tids[..s.barriers[b].cnt]) else {}
    case _ => {}
  }

  ghost function Goes(s: Sys, act: Act, pc: Pc): set<nat>
    requires Basic(s) && Enabled(s, act)
  {
    if (act.Return? || act.Finish?) && pc == s.pcs[s.table.tid] then {s.table.tid} else {}
  }

  lemma AwakeSwitch(handoff: bool, s: Sys, act: Act, pc: Pc)
    requires Basic(s) && Listed(s) && Enabled(s, act) && !pc.Idle?
    requires act.Tick? || act.Exit? || act.Create? || act.Lock?
    ensures Awake(Step(handoff, s, act), pc) == Awake(s, pc)
  {
    hide Turn, FirstFree, Lists, BarrierListed, MutexLive, BarrierSound;
    var t := s.table;
    TurnKinds(t);
    TurnKinds(SetStatus(t, t.tid, Exited));
    TurnKinds(SetStatus(t, t.tid, Blocked));
  }

  lemma AwakeUnlock(handoff: bool, s: Sys, act: Act, pc: Pc)
    requires Basic(s) && Listed(s) && Enabled(s, act) && !pc.Idle? && (act.Unlock? || act.Return?)
    ensures Awake(Step(handoff, s, act), pc) == Awake(s, pc) + Comes(s, act, pc) - Goes(s, act, pc)
  {
    hide BarrierListed, BarrierSound;
    if act.Unlock? {
      var x := s.mutexes[act.m];
      assert MutexLive(s.table, x) && Lists(s.table.slots, s.pcs, AtLock(act.m), x.queue);
      if |x.queue| > 0 { assert x.queue[0] in x.queue; }
    }
    hide Lists, MutexLive;
  }

  lemma AwakeArrive(handoff: bool, s: Sys, b: nat, pc: Pc)
    requires Basic(s) && Listed(s) && Enabled(s, Arrive(b)) && !pc.Idle?
    ensures Awake(Step(handoff, s, Arrive(b)), pc) == Awake(s, pc) + Comes(s, Arrive(b), pc)
  {
    hide Turn, MutexLive;
    var t, x := s.table, s.barriers[b];
    assert BarrierSound(t, x) && BarrierListed(t.slots, s.pcs, b, x);
    if x.cnt + 1 == x.bar {
      hide InCall;
      AwakeLast(handoff, s, b, pc);
    } else {
      hide Lists, Past;
      TurnKinds(SetStatus(t, t.tid, Blocked));
    }
  }

  lemma AwakeLast(handoff: bool, s: Sys, b: nat, pc: Pc)
    requires Basic(s) && Listed(s) && Enabled(s, Arrive(b)) && !pc.Idle? && s.barriers[b].cnt + 1 == s.barriers[b].bar
    ensures Awake(Step(handoff, s, Arrive(b)), pc) == Awake(s, pc) + Comes(s, Arrive(b), pc)
  {
    LastSlots(handoff, s, b);
    var s', q := Step(handoff, s, Arrive(b)), s.barriers[b].tids[..s.barriers[b].cnt];
    assert BarrierListed(s.table.slots, s.pcs, b, s.barriers[b]);
    hide Step, Basic, ListedIn, Past;
  }

  /** The last arrival unblocks just those noted before it. */
  lemma LastSlots(handoff: bool, s: Sys, b: nat)
    requires Basic(s) && Listed(s) && Enabled(s, Arrive(b)) && s.barriers[b].cnt + 1 == s.barriers[b].bar
    ensures var x, s' := s.barriers[b], Step(handoff, s, Arrive(b));
      && x.cnt <= |x.tids| && |s'.table.slots| == |s.table.slots| && s'.pcs == s.pcs
      && forall u :: 0 <= u < |s.pcs| ==>
           (s'.table.slots[u] == Tcb(Blocked) <==> s.table.slots[u] == Tcb(Blocked) && u !in x.tids[..x.cnt])
  {
    hide Turn, MutexLive, ListedIn;
    var t, x := s.table, s.barriers[b];
    assert BarrierSound(t, x);
    var t1, tids := SetStatus(t, t.tid, Blocked), x.tids[x.cnt := t.tid];
    assert tids == x.tids[..x.cnt] + [t.tid];
    assert forall u :: u in tids <==> u in x.tids[..x.cnt] || u == t.tid;
    TurnKinds(t1.(slots := WakeAll(t1.slots, tids)));
  }

  lemma AwakeFinish(handoff: bool, s: Sys, b: nat, pc: Pc)
    requires Basic(s) && Listed(s) && Enabled(s, Finish(b)) && !pc.Idle?
    ensures Awake(Step(handoff, s, Finish(b)), pc) == Awake(s, pc) - Goes(s, Finish(b), pc)
  {
    hide Turn, MutexLive, Lists, BarrierListed;
    ListedFinish(s, b);
    TurnKinds(s.table);
  }

  lemma AwakeStep(handoff: bool, s: Sys, act: Act, pc: Pc)
    requires Basic(s) && Listed(s) && Enabled(s, act) && !pc.Idle?
    ensures Awake(Step(handoff, s, act), pc) == Awake(s, pc) + Comes(s, act, pc) - Goes(s, act, pc)
  {
    hide Basic, ListedIn, Step, Awake;
    match act
    case Tick => AwakeSwitch(handoff, s, act, pc);
    case Exit => AwakeSwitch(handoff, s, act, pc);
    case Create => AwakeSwitch(handoff, s, act, pc);
    case Lock(_) => AwakeSwitch(handoff, s, act, pc);
    case Unlock(_) => AwakeUnlock(handoff, s, act, pc);
    case Return => AwakeUnlock(handoff, s, act, pc);
    case Arrive(b) => AwakeArrive(handoff, s, b, pc);
    case Finish(b) => AwakeFinish(handoff, s, b, pc);
  }

  // ---- Mutual exclusion

  /** Those inside mutex `m`, and those let go from its queue that are about to be. */
  ghost function Claims(s: Sys, m: nat): set<nat>
    requires |s.pcs| == |s.table.slots| && m < |s.inside|
  {
    s.inside[m] + Awake(s, AtLock(m))
  }

  /** The mutex is locked exactly when one thread has a claim, and no two do. */
  ghost predicate Exclusive(s: Sys, m: nat)
    requires |s.pcs| == |s.table.slots| && m < |s.inside| && m < |s.mutexes|
  {
    if s.mutexes[m].locked then exists o :: Claims(s, m) == {o}
    else Claims(s, m) == {} && s.mutexes[m].queue == []
  }

  /** Only a thread inside unlocks. */
  ghost predicate OwnUnlock(s: Sys, act: Act) {
    act.Unlock? ==> act.m < |s.inside| && s.table.tid in s.inside[act.m]
  }

  lemma ExclusiveKept(s: Sys, act: Act, m: nat)
    requires Basic(s) && Listed(s) && Enabled(s, act) && OwnUnlock(s, act)
    requires m < |s.mutexes| && Exclusive(s, m)
    ensures var s' := Step(true, s, act);
      |s'.pcs| == |s'.table.slots| && m < |s'.inside| && m < |s'.mutexes| && Exclusive(s', m)
  {
    hide Turn, Awake, Basic, ListedIn, ArriveStep, FinishStep, FirstFree;
    BasicSizes(s);
    StepSizes(true, s, act);
    AwakeStep(true, s, act, AtLock(m));
    RunnerAwake(s);
    var s' := Step(true, s, act);
    match act
    case Lock(k) =>
      if k == m && !s.mutexes[m].locked { assert Claims(s', m) == {s.table.tid}; }
      else { assert Claims(s', m) == Claims(s, m); }
    case Unlock(k) =>
      if k == m {
        assert Claims(s, m) == {s.table.tid};
        RunnerNotQueued(s, m);
        if |s.mutexes[m].queue| > 0 {
          assert Claims(s', m) == {s.mutexes[m].queue[0]};
        } else {
          assert Claims(s', m) == {};
        }
      } else { assert Claims(s', m) == Claims(s, m); }
    case _ =>
      assert Claims(s', m) == Claims(s, m);
  }

  lemma RunnerNotQueued(s: Sys, m: nat)
    requires Basic(s) && Listed(s) && Enabled(s, Unlock(m))
    ensures s.table.tid !in s.mutexes[m].queue && s.table.tid !in Awake(s, AtLock(m))
  {
  }

  lemma StepSizes(handoff: bool, s: Sys, act: Act)
    requires Basic(s) && Enabled(s, act)
    ensures var s' := Step(handoff, s, act);
      && |s'.pcs| == |s'.table.slots| == |s.pcs|
      && |s'.mutexes| == |s'.inside| == |s.mutexes|
      && |s'.barriers| == |s'.arrived| == |s'.results| == |s.barriers|
  {
    hide Turn, WakeAll, FirstFree;
  }

  lemma BasicSizes(s: Sys)
    requires Basic(s)
    ensures |s.pcs| == |s.table.slots| && |s.inside| == |s.mutexes|
    ensures |s.arrived| == |s.results| == |s.barriers|
  {
  }

  lemma RunnerAwake(s: Sys)
    requires Basic(s)
    ensures s.table.tid < |s.pcs| && s.table.tid in Awake(s, s.pcs[s.table.tid])
  {
  }

  // ---- First come, first served

  /** The threads that are blocked at a place. */
  ghost function BlockedAt(s: Sys, pc: Pc): set<nat> {
    set t: nat | t < |s.pcs| && t < |s.table.slots| && s.pcs[t] == pc && s.table.slots[t] == Tcb(Blocked)
  }

  /** The element of a set of at most one. */
  ghost function Only(a: set<nat>): (q: seq<nat>)
    ensures |a| <= 1 ==> AsSet(q) == a && |q| == |a|
  {
    if a == {} then []
    else
      var t :| t in a;
      assert |a| <= 1 ==> a == {t} by { if |a| <= 1 { One(a, t); } }
      [t]
  }

  lemma One(a: set<nat>, t: nat)
    requires |a| <= 1 && t in a
    ensures a == {t}
  {
    assert |a - {t}| == 0;
  }

  lemma QueueStep(handoff: bool, s: Sys, act: Act, m: nat)
    requires Basic(s) && Enabled(s, act) && m < |s.mutexes|
    ensures m < |Step(handoff, s, act).mutexes|
    ensures var q, q' := s.mutexes[m].queue, Step(handoff, s, act).mutexes[m].queue;
      q' == q || q' == q + [s.table.tid] || (q != [] && q' == q[1..])
  {
    hide Turn, ArriveStep, FinishStep, FirstFree, Basic;
    BasicSizes(s);
  }

  lemma QueueIs(s: Sys, m: nat)
    requires Listed(s) && m < |s.mutexes|
    ensures BlockedAt(s, AtLock(m)) == AsSet(s.mutexes[m].queue) && Distinct(s.mutexes[m].queue)
  {
    assert Lists(s.table.slots, s.pcs, AtLock(m), s.mutexes[m].queue);
  }

  /** At most one thread blocks at a mutex in a step, and it comes last there; at most
      one becomes ready, and it was the first. */
  lemma BlockedMoves(handoff: bool, s: Sys, act: Act, m: nat)
    requires Basic(s) && Listed(s) && Enabled(s, act) && m < |s.mutexes| && Listed(Step(handoff, s, act))
    ensures var s' := Step(handoff, s, act);
      var was, now := BlockedAt(s, AtLock(m)), BlockedAt(s', AtLock(m));
      && |now - was| <= 1 && |was - now| <= 1 && m < |s'.mutexes|
      && s.mutexes[m].queue + Only(now - was) == Only(was - now) + s'.mutexes[m].queue
  {
    QueueStep(handoff, s, act, m);
    var s' := Step(handoff, s, act);
    QueueIs(s, m);
    QueueIs(s', m);
    hide Basic, ListedIn, Step, BlockedAt;
    QueueMoves(s.mutexes[m].queue, s'.mutexes[m].queue, s.table.tid);
  }

  lemma QueueMoves(q: seq<nat>, q': seq<nat>, t: nat)
    requires Distinct(q) && Distinct(q') && (q' == q || q' == q + [t] || (q != [] && q' == q[1..]))
    ensures var was, now := AsSet(q), AsSet(q');
      && |now - was| <= 1 && |was - now| <= 1
      && q + Only(now - was) == Only(was - now) + q'
  {
    if q' == q {
      assert AsSet(q') - AsSet(q) == {};
    } else if q' == q + [t] {
      assert q'[|q|] == t && forall k :: 0 <= k < |q| ==> q'[k] == q[k];
      assert AsSet(q') - AsSet(q) == {t} && AsSet(q) - AsSet(q') == {};
    } else {
      assert q == [q[0]] + q';
      assert AsSet(q) - AsSet(q') == {q[0]} && AsSet(q') - AsSet(q) == {};
    }
  }

  // ---- Barriers

  /** For every call that returned -1 a full round has come, and all others of those
      rounds have returned 0 or are among the `awake`, and about to. */
  ghost predicate Tally(results: seq<int>, arrived: nat, awake: nat, cnt: nat, bar: nat) {
    var r := multiset(results);
    && bar > 0 && arrived == r[-1] * bar + cnt && awake + r[0] == r[-1] * (bar - 1) && |results| == r[-1] + r[0]
  }

  ghost predicate Counted(s: Sys, b: nat)
    requires |s.pcs| == |s.table.slots| && b < |s.barriers| && b < |s.arrived| && b < |s.results|
  {
    Tally(s.results[b], s.arrived[b], |Awake(s, AtBarrier(b))|, s.barriers[b].cnt, s.barriers[b].bar)
  }

  lemma TallyFull(results: seq<int>, arrived: nat, awake: nat, bar: nat)
    requires bar > 0 && Tally(results, arrived, awake, bar - 1, bar)
    ensures Tally(results + [-1], arrived + 1, awake + bar - 1, 0, bar)
  {
  }

  lemma TallyGone(results: seq<int>, arrived: nat, awake: nat, cnt: nat, bar: nat)
    requires awake > 0 && Tally(results, arrived, awake, cnt, bar)
    ensures Tally(results + [0], arrived, awake - 1, cnt, bar)
  {
  }

  lemma CountedArrive(handoff: bool, s: Sys, b: nat)
    requires Basic(s) && Listed(s) && Enabled(s, Arrive(b)) && NoOverlap(s, b) && Counted(s, b)
    ensures var s' := Step(handoff, s, Arrive(b));
      |s'.pcs| == |s'.table.slots| && b < |s'.barriers| && b < |s'.arrived| && b < |s'.results| && Counted(s', b)
  {
    hide Awake, ListedIn, Basic;
    BasicSizes(s);
    StepSizes(handoff, s, Arrive(b));
    AwakeStep(handoff, s, Arrive(b), AtBarrier(b));
    ArriveIs(handoff, s, b);
    var x, s' := s.barriers[b], Step(handoff, s, Arrive(b));
    if x.cnt + 1 == x.bar {
      LastIs(s, b);
      hide Step, Tally;
      TallyFull(s.results[b], s.arrived[b], |Awake(s, AtBarrier(b))|, x.bar);
    } else {
      hide Step;
    }
  }

  /** What an arrival does to the counts of its barrier. */
  lemma ArriveIs(handoff: bool, s: Sys, b: nat)
    requires Basic(s) && Listed(s) && Enabled(s, Arrive(b))
    ensures var x, s' := s.barriers[b], Step(handoff, s, Arrive(b));
      && |s.arrived| == |s'.arrived| == |s.results| == |s'.results| == |s'.barriers| == |s.barriers|
      && x.cnt < x.bar && s'.barriers[b].bar == x.bar && s'.arrived[b] == s.arrived[b] + 1
      && (if x.cnt + 1 == x.bar then s'.barriers[b].cnt == 0 && s'.results[b] == s.results[b] + [-1]
          else s'.barriers[b].cnt == x.cnt + 1 && s'.results[b] == s.results[b])
  {
  }

  /** What the last arrival returns, and how many it wakes. */
  lemma LastIs(s: Sys, b: nat)
    requires Basic(s) && Listed(s) && Enabled(s, Arrive(b)) && s.barriers[b].cnt + 1 == s.barriers[b].bar
    ensures ArriveStep(s.table, s.barriers[b]).3 == Some(-1)
    ensures var c := AsSet(s.barriers[b].tids[..s.barriers[b].cnt]);
      |c| == s.barriers[b].cnt && c !! Awake(s, AtBarrier(b))
  {
    hide Turn, MutexLive;
    ListedLast(s, b);
    assert BarrierListed(s.table.slots, s.pcs, b, s.barriers[b]);
    SetSize(s.barriers[b].tids[..s.barriers[b].cnt]);
  }

  lemma CountedFinish(handoff: bool, s: Sys, b: nat)
    requires Basic(s) && Listed(s) && Enabled(s, Finish(b)) && b < |s.barriers| && Counted(s, b)
    ensures var s' := Step(handoff, s, Finish(b));
      |s'.pcs| == |s'.table.slots| && b < |s'.barriers| && b < |s'.arrived| && b < |s'.results| && Counted(s', b)
  {
    hide Turn, Awake, ListedIn, Lists, MutexLive, TableOk;
    BasicSizes(s);
    StepSizes(handoff, s, Finish(b));
    var s' := Step(handoff, s, Finish(b));
    AwakeStep(handoff, s, Finish(b), AtBarrier(b));
    RunnerAwake(s);
    ListedFinish(s, b);
    assert |Awake(s', AtBarrier(b))| == |Awake(s, AtBarrier(b))| - 1;
    TallyGone(s.results[b], s.arrived[b], |Awake(s, AtBarrier(b))|, s.barriers[b].cnt, s.barriers[b].bar);
  }

  lemma CountedElsewhere(handoff: bool, s: Sys, act: Act, b: nat)
    requires Basic(s) && Listed(s) && Enabled(s, act) && b < |s.barriers| && Counted(s, b)
    requires act != Arrive(b) && act != Finish(b)
    ensures var s' := Step(handoff, s, act);
      |s'.pcs| == |s'.table.slots| && b < |s'.barriers| && b < |s'.arrived| && b < |s'.results| && Counted(s', b)
  {
    hide Turn, Awake, ListedIn, Basic, ArriveStep, FinishStep, FirstFree;
    BasicSizes(s);
    StepSizes(handoff, s, act);
    AwakeStep(handoff, s, act, AtBarrier(b));
    var s' := Step(handoff, s, act);
    assert s'.barriers[b] == s.barriers[b] && s'.results[b] == s.results[b] && s'.arrived[b] == s.arrived[b];
    hide Step;
  }

  lemma CountedKept(handoff: bool, s: Sys, act: Act, b: nat)
    requires Basic(s) && Listed(s) && Enabled(s, act) && (act.Arrive? ==> NoOverlap(s, act.b))
    requires b < |s.barriers| && Counted(s, b)
    ensures var s' := Step(handoff, s, act);
      |s'.pcs| == |s'.table.slots| && b < |s'.barriers| && b < |s'.arrived| && b < |s'.results| && Counted(s', b)
  {
    hide Step, Counted, Basic, ListedIn;
    if act == Arrive(b) { CountedArrive(handoff, s, b); }
    else if act == Finish(b) { CountedFinish(handoff, s, b); }
    else { CountedElsewhere(handoff, s, act, b); }
  }
}
