/** A thread is blocked exactly when it is on a wait list, and on only one. */
module ThreadsLists {
  import opened Sets
  import opened Threads
  import opened ThreadsSync
  import opened ThreadsRun

  /** `q` lists just the blocked threads that are at `pc`, each once. */
  ghost predicate Lists(slots: seq<Slot>, pcs: seq<Pc>, pc: Pc, q: seq<nat>)
    requires |pcs| == |slots|
  {
    && (forall t :: t in q ==> t < |slots| && slots[t] == Tcb(Blocked) && pcs[t] == pc)
    && (forall t :: 0 <= t < |slots| && slots[t] == Tcb(Blocked) && pcs[t] == pc ==> t in q)
    && Distinct(q)
  }

  /** A blocked thread is in a call; one that does not exist or has exited is not. */
  ghost predicate InCall(slots: seq<Slot>, pcs: seq<Pc>)
    requires |pcs| == |slots|
  {
    forall t :: 0 <= t < |slots| ==>
      && (slots[t] == Tcb(Blocked) ==> !pcs[t].Idle?)
      && (slots[t] in {Free, Tcb(Exited)} ==> pcs[t].Idle?)
  }

  /** While a thread woken at a barrier has yet to go on, no new round has begun. */
  ghost predicate Past(slots: seq<Slot>, pcs: seq<Pc>, b: nat, x: BarrierState)
    requires |pcs| == |slots|
  {
    forall t :: 0 <= t < |slots| && pcs[t] == AtBarrier(b) && slots[t] != Tcb(Blocked) ==> x.ret
  }

  ghost predicate BarrierListed(slots: seq<Slot>, pcs: seq<Pc>, b: nat, x: BarrierState)
    requires |pcs| == |slots|
  {
    && x.cnt <= |x.tids| && Lists(slots, pcs, AtBarrier(b), x.tids[..x.cnt]) && Past(slots, pcs, b, x)
  }

  ghost predicate ListedIn(slots: seq<Slot>, pcs: seq<Pc>, mutexes: seq<MutexState>, barriers: seq<BarrierState>) {
    && |pcs| == |slots| && InCall(slots, pcs)
    && (forall m :: 0 <= m < |mutexes| ==> Lists(slots, pcs, AtLock(m), mutexes[m].queue))
    && (forall b :: 0 <= b < |barriers| ==> BarrierListed(slots, pcs, b, barriers[b]))
  }

  ghost predicate Listed(s: Sys) {
    ListedIn(s.table.slots, s.pcs, s.mutexes, s.barriers)
  }

  /** A round of barrier `b` is begun only when all have left the one before. */
  ghost predicate NoOverlap(s: Sys, b: nat)
    requires b < |s.barriers|
  {
    s.barriers[b].cnt == 0 ==> forall t :: 0 <= t < |s.pcs| ==> s.pcs[t] != AtBarrier(b)
  }

  lemma ListedKinds(a: seq<Slot>, b: seq<Slot>, pcs: seq<Pc>, mutexes: seq<MutexState>, barriers: seq<BarrierState>)
    requires SameKinds(a, b) && ListedIn(a, pcs, mutexes, barriers)
    ensures ListedIn(b, pcs, mutexes, barriers)
  {
  }

  /** A thread that was not blocked and is not now leaves the lists alone. */
  lemma ListsAwake(slots: seq<Slot>, pcs: seq<Pc>, pc: Pc, q: seq<nat>, t: nat, slot: Slot, pc': Pc)
    requires |pcs| == |slots| && t < |slots| && Lists(slots, pcs, pc, q)
    requires slots[t] != Tcb(Blocked) && slot != Tcb(Blocked)
    ensures Lists(slots[t := slot], pcs[t := pc'], pc, q)
  {
  }

  /** A thread blocks and joins the list. */
  lemma ListsJoin(slots: seq<Slot>, pcs: seq<Pc>, pc: Pc, q: seq<nat>, t: nat)
    requires |pcs| == |slots| && t < |slots| && Lists(slots, pcs, pc, q) && slots[t] != Tcb(Blocked)
    ensures Lists(slots[t := Tcb(Blocked)], pcs[t := pc], pc, q + [t])
  {
  }

  /** The first one wakes and leaves it. */
  lemma ListsLeave(slots: seq<Slot>, pcs: seq<Pc>, pc: Pc, q: seq<nat>)
    requires |pcs| == |slots| && |q| > 0 && Lists(slots, pcs, pc, q)
    ensures q[0] < |slots| && pcs[q[0]] == pc && Lists(slots[q[0] := Tcb(Ready)], pcs, pc, q[1..])
  {
    assert q[0] in q && q == [q[0]] + q[1..];
    forall t | t in q[1..] ensures t in q && t != q[0] {
      var k :| 0 <= k < |q| - 1 && q[1..][k] == t;
      assert q[k + 1] == t;
    }
  }

  lemma ListedSwitch(s: Sys, act: Act)
    requires Basic(s) && Listed(s) && Enabled(s, act) && (act.Tick? || act.Exit?)
    ensures Listed(Step(false, s, act))
  {
    hide Lists, Turn, Kind, BarrierSound, MutexLive;
    var t := s.table;
    var t1 := if act.Tick? then t else SetStatus(t, t.tid, Exited);
    TurnKinds(t1);
    assert ListedIn(t1.slots, s.pcs, s.mutexes, s.barriers) by {
      if act.Exit? {
        ListedAwake(s, t.tid, Tcb(Exited), Idle);
        assert s.pcs[t.tid := Idle] == s.pcs;
      }
    }
    ListedKinds(t1.slots, Turn(t1).0.slots, s.pcs, s.mutexes, s.barriers);
  }

  /** A thread not blocked and not at a barrier gets a slot and a place where it is
      neither. */
  lemma ListedAwake(s: Sys, u: nat, slot: Slot, pc: Pc)
    requires Listed(s) && u < |s.pcs| && s.table.slots[u] != Tcb(Blocked) && slot != Tcb(Blocked)
    requires pc.Idle?
    ensures ListedIn(s.table.slots[u := slot], s.pcs[u := pc], s.mutexes, s.barriers)
  {
    hide Lists;
    var slots, pcs := s.table.slots, s.pcs;
    forall m | 0 <= m < |s.mutexes| ensures Lists(slots[u := slot], pcs[u := pc], AtLock(m), s.mutexes[m].queue) {
      ListsAwake(slots, pcs, AtLock(m), s.mutexes[m].queue, u, slot, pc);
    }
    forall b | 0 <= b < |s.barriers| ensures BarrierListed(slots[u := slot], pcs[u := pc], b, s.barriers[b]) {
      assert BarrierListed(slots, pcs, b, s.barriers[b]);
      ListsAwake(slots, pcs, AtBarrier(b), s.barriers[b].tids[..s.barriers[b].cnt], u, slot, pc);
    }
  }

  lemma ListedCreate(s: Sys)
    requires Basic(s) && Listed(s) && Enabled(s, Create)
    ensures Listed(Step(false, s, Create))
  {
    hide Lists, BarrierSound, MutexLive, FirstFree;
    var u := FirstFree(s.table.slots, 1);
    if u < |s.table.slots| {
      ListedAwake(s, u, Tcb(Ready), Idle);
      assert s.pcs[u := Idle] == s.pcs;
    }
  }

  lemma ListedReturn(s: Sys)
    requires Basic(s) && Listed(s) && Enabled(s, Return)
    ensures Listed(Step(false, s, Return))
  {
    hide Lists, BarrierSound, MutexLive;
    ListedAwake(s, s.table.tid, Tcb(Running), Idle);
    assert s.table.slots[s.table.tid := Tcb(Running)] == s.table.slots;
  }

  /** All lists but the one for `pc`, when thread `u` comes to it or goes from it. */
  lemma OthersListed(s: Sys, u: nat, slot: Slot, pc: Pc)
    requires Listed(s) && u < |s.pcs| && !pc.Idle? && s.pcs[u] in {Idle, pc}
    ensures forall m :: 0 <= m < |s.mutexes| && pc != AtLock(m) ==>
      Lists(s.table.slots[u := slot], s.pcs[u := pc], AtLock(m), s.mutexes[m].queue)
    ensures forall b :: 0 <= b < |s.barriers| && pc != AtBarrier(b) ==>
      BarrierListed(s.table.slots[u := slot], s.pcs[u := pc], b, s.barriers[b])
  {
  }

  lemma ListedLock(s: Sys, m: nat)
    requires Basic(s) && Listed(s) && Enabled(s, Lock(m))
    ensures Listed(Step(false, s, Lock(m)))
  {
    hide Lists, Turn, Kind, BarrierListed, BarrierSound, MutexLive;
    var t, x := s.table, s.mutexes[m];
    var t1, pcs := SetStatus(t, t.tid, Blocked), s.pcs[t.tid := AtLock(m)];
    var mutexes := s.mutexes[m := MutexState(true, x.queue + [t.tid])];
    TurnKinds(t1);
    if x.locked {
      ListsJoin(t.slots, s.pcs, AtLock(m), x.queue, t.tid);
      OthersListed(s, t.tid, Tcb(Blocked), AtLock(m));
      assert ListedIn(t1.slots, pcs, mutexes, s.barriers);
      ListedKinds(t1.slots, Turn(t1).0.slots, pcs, mutexes, s.barriers);
    }
  }

  lemma ListedUnlock(handoff: bool, s: Sys, m: nat)
    requires Basic(s) && Listed(s) && Enabled(s, Unlock(m))
    ensures Listed(Step(handoff, s, Unlock(m))) && s.table.tid !in s.mutexes[m].queue
  {
    hide Turn, Kind, BarrierListed, BarrierSound;
    var t, x := s.table, s.mutexes[m];
    assert MutexLive(t, x) && Lists(t.slots, s.pcs, AtLock(m), x.queue);
    hide Lists, MutexLive;
    if |x.queue| > 0 {
      var h := x.queue[0];
      ListsLeave(t.slots, s.pcs, AtLock(m), x.queue);
      OthersListed(s, h, Tcb(Ready), AtLock(m));
      assert s.pcs[h := AtLock(m)] == s.pcs;
    }
  }

  lemma ListedFinish(s: Sys, b: nat)
    requires Basic(s) && Listed(s) && Enabled(s, Finish(b))
    ensures Listed(Step(false, s, Finish(b))) && b < |s.barriers| && s.barriers[b].ret
  {
    hide Lists, Turn, Kind, BarrierSound, MutexLive;
    var t := s.table;
    assert PcOk(s, s.pcs[t.tid]) && BarrierListed(t.slots, s.pcs, b, s.barriers[b]);
    TurnKinds(t);
    ListedAwake(s, t.tid, Tcb(Running), Idle);
    assert t.slots[t.tid := Tcb(Running)] == t.slots;
    ListedKinds(t.slots, Turn(t).0.slots, s.pcs[t.tid := Idle], s.mutexes, s.barriers);
  }

  lemma ListedArrive(s: Sys, b: nat)
    requires Basic(s) && Listed(s) && Enabled(s, Arrive(b)) && NoOverlap(s, b)
    requires s.barriers[b].cnt + 1 < s.barriers[b].bar
    ensures Listed(Step(false, s, Arrive(b)))
  {
    hide Turn, Kind, MutexLive, FinishStep;
    var t, x := s.table, s.barriers[b];
    var t1, pcs := SetStatus(t, t.tid, Blocked), s.pcs[t.tid := AtBarrier(b)];
    TurnKinds(t1);
    assert BarrierSound(t, x) && BarrierListed(t.slots, s.pcs, b, x);
    var x1 := BarrierState(x.cnt + 1, x.cnt != 0 && x.ret, x.bar, x.tids[x.cnt := t.tid]);
    assert x1.tids[..x1.cnt] == x.tids[..x.cnt] + [t.tid];
    ListsJoin(t.slots, s.pcs, AtBarrier(b), x.tids[..x.cnt], t.tid);
    OthersListed(s, t.tid, Tcb(Blocked), AtBarrier(b));
    PastArrive(s, b);
    hide Lists, Past, BarrierSound, TableOk, PcOk;
    assert BarrierListed(t1.slots, pcs, b, x1);
    assert ListedIn(t1.slots, pcs, s.mutexes, s.barriers[b := x1]);
    ListedKinds(t1.slots, Turn(t1).0.slots, pcs, s.mutexes, s.barriers[b := x1]);
  }

  lemma PastArrive(s: Sys, b: nat)
    requires Basic(s) && Listed(s) && Enabled(s, Arrive(b)) && NoOverlap(s, b)
    ensures var x, tid := s.barriers[b], s.table.tid;
      Past(s.table.slots[tid := Tcb(Blocked)], s.pcs[tid := AtBarrier(b)], b,
           BarrierState(x.cnt + 1, x.cnt != 0 && x.ret, x.bar, x.tids[x.cnt := tid]))
  {
  }

  /** The whole list of barrier `b` wakes. */
  lemma ListsWoken(slots: seq<Slot>, pcs: seq<Pc>, pc: Pc, q: seq<nat>, woken: seq<nat>)
    requires |pcs| == |slots| && Lists(slots, pcs, pc, q)
    requires forall u :: u in woken ==> u < |slots| && pcs[u] != pc
    ensures Lists(WakeAll(slots, woken), pcs, pc, q)
  {
  }

  /** The last arrival at barrier `b`. */
  lemma ListedLast(s: Sys, b: nat)
    requires Basic(s) && Listed(s) && Enabled(s, Arrive(b)) && s.barriers[b].cnt + 1 == s.barriers[b].bar
    ensures Listed(Step(false, s, Arrive(b)))
    ensures ArriveStep(s.table, s.barriers[b]).3 == Some(-1)
  {
    hide Turn, Kind, MutexLive;
    var t, x := s.table, s.barriers[b];
    assert BarrierSound(t, x) && BarrierListed(t.slots, s.pcs, b, x);
    var tids := x.tids[x.cnt := t.tid];
    assert tids == x.tids[..x.cnt] + [t.tid];
    var t1 := SetStatus(t, t.tid, Blocked);
    var t2 := t1.(slots := WakeAll(t1.slots, tids));
    var barriers := s.barriers[b := BarrierState(0, true, x.bar, Blank(x.bar))];
    LastListed(s, b, t2.slots, tids);
    TurnKinds(t2);
    hide Lists, WakeAll;
    ListedKinds(t2.slots, Turn(t2).0.slots, s.pcs, s.mutexes, barriers);
  }

  lemma LastListed(s: Sys, b: nat, slots: seq<Slot>, tids: seq<nat>)
    requires Basic(s) && Listed(s) && Enabled(s, Arrive(b))
    requires s.barriers[b].cnt <= |s.barriers[b].tids|
    requires tids == s.barriers[b].tids[..s.barriers[b].cnt] + [s.table.tid]
    requires slots == WakeAll(s.table.slots[s.table.tid := Tcb(Blocked)], tids)
    ensures ListedIn(slots, s.pcs, s.mutexes,
                     s.barriers[b := BarrierState(0, true, s.barriers[b].bar, Blank(s.barriers[b].bar))])
  {
    hide Turn, MutexLive;
    var was, x := s.table.slots, s.barriers[b];
    assert BarrierListed(was, s.pcs, b, x);
    assert slots == WakeAll(was, tids);
    assert forall u :: u in tids <==> u in x.tids[..x.cnt] || u == s.table.tid;
    forall m | 0 <= m < |s.mutexes| ensures Lists(slots, s.pcs, AtLock(m), s.mutexes[m].queue) {
      ListsWoken(was, s.pcs, AtLock(m), s.mutexes[m].queue, tids);
    }
    forall k | 0 <= k < |s.barriers| && k != b ensures BarrierListed(slots, s.pcs, k, s.barriers[k]) {
      assert BarrierListed(was, s.pcs, k, s.barriers[k]);
      ListsWoken(was, s.pcs, AtBarrier(k), s.barriers[k].tids[..s.barriers[k].cnt], tids);
    }
  }

  lemma ListedKept(handoff: bool, s: Sys, act: Act)
    requires Basic(s) && Listed(s) && Enabled(s, act) && (act.Arrive? ==> NoOverlap(s, act.b))
    ensures Listed(Step(handoff, s, act))
    ensures act.Unlock? ==> s.table.tid !in s.mutexes[act.m].queue
  {
    hide ListedIn, Turn, UnlockStep, LockStep, ArriveStep, FinishStep;
    match act
    case Tick => ListedSwitch(s, act);
    case Exit => ListedSwitch(s, act);
    case Create => ListedCreate(s);
    case Lock(m) => ListedLock(s, m);
    case Unlock(m) => ListedUnlock(handoff, s, m);
    case Return => ListedReturn(s);
    case Arrive(b) =>
      assert BarrierSound(s.table, s.barriers[b]);
      if s.barriers[b].cnt + 1 < s.barriers[b].bar { ListedArrive(s, b); } else { ListedLast(s, b); }
    case Finish(b) => ListedFinish(s, b);
  }
}
