/** Runs of a whole process: threads that lock, unlock and meet at barriers while
    the timer may switch between them at any moment. */
module ThreadsRun {
  import opened Threads
  import opened ThreadsSync

  /** Where a thread is: in its own code, in `pthread_mutex_lock` past the switch,
      or in `pthread_barrier_wait` past its first one. */
  datatype Pc = Idle | AtLock(m: nat) | AtBarrier(b: nat)

  /** Beside the data of the library: who is between a returned lock and its
      unlock; and for each barrier how many have come and what the calls returned. */
  datatype Sys = Sys(
    table: Table, mutexes: seq<MutexState>, barriers: seq<BarrierState>, pcs: seq<Pc>,
    inside: seq<set<nat>>, arrived: seq<nat>, results: seq<seq<int>>, over: bool)

  /** What the running thread does, or (`Tick`) the timer does to it. */
  datatype Act = Tick | Create | Exit | Lock(m: nat) | Unlock(m: nat) | Return | Arrive(b: nat) | Finish(b: nat)

  predicate Enabled(s: Sys, act: Act) {
    && !s.over && s.table.tid < |s.pcs|
    && match act
       case Tick => true
       case Create => s.pcs[s.table.tid].Idle?
       case Exit => s.pcs[s.table.tid].Idle?
       case Lock(m) => s.pcs[s.table.tid].Idle? && m < |s.mutexes|
       case Unlock(m) => s.pcs[s.table.tid].Idle? && m < |s.mutexes|
       case Return => s.pcs[s.table.tid].AtLock?
       case Arrive(b) => s.pcs[s.table.tid].Idle? && b < |s.barriers|
       case Finish(b) => s.pcs[s.table.tid] == AtBarrier(b)
  }

  ghost predicate TableOk(t: Table) {
    && Sound(t) && t.slots[t.tid] == Tcb(Running) && t.slots[|t.slots| - 1] == Free && Live(t, 0)
  }

  ghost predicate MutexLive(t: Table, x: MutexState) {
    forall k :: 0 <= k < |x.queue| ==> Live(t, x.queue[k])
  }

  ghost predicate PcOk(s: Sys, pc: Pc) {
    && (pc.AtLock? ==> pc.m < |s.mutexes|)
    && (pc.AtBarrier? ==> pc.b < |s.barriers|)
  }

  /** Sizes, indices and live threads: what every step needs. */
  ghost predicate Basic(s: Sys) {
    && TableOk(s.table) && |s.pcs| == |s.table.slots|
    && |s.inside| == |s.mutexes| && |s.arrived| == |s.results| == |s.barriers|
    && (forall m :: 0 <= m < |s.mutexes| ==> MutexLive(s.table, s.mutexes[m]))
    && (forall b :: 0 <= b < |s.barriers| ==> BarrierSound(s.table, s.barriers[b]))
    && (forall t :: 0 <= t < |s.pcs| ==> PcOk(s, s.pcs[t]))
  }

  /** One step; `handoff` is whether a released waiter finds its mutex locked. */
  ghost function Step(handoff: bool, s: Sys, act: Act): (s': Sys)
    requires Basic(s) && Enabled(s, act)
  {
    assert PcOk(s, s.pcs[s.table.tid]);
    var t, tid := s.table, s.table.tid;
    match act
    case Tick =>
      var (t', o) := Turn(t);
      s.(table := t', over := !o.Switched?)
    case Create =>
      var u := FirstFree(t.slots, 1);
      if u < |t.slots| then s.(table := SetStatus(t, u, Ready)) else s
    case Exit =>
      var (t', o) := Turn(SetStatus(t, tid, Exited));
      s.(table := t', over := !o.Switched?)
    case Lock(m) =>
      var (t', x, o) := LockStep(t, s.mutexes[m]);
      var s1 := s.(table := t', mutexes := s.mutexes[m := x], over := o.Some? && !o.value.Switched?);
      if o.None? then s1.(inside := s.inside[m := s.inside[m] + {tid}])
      else s1.(pcs := s.pcs[tid := AtLock(m)])
    case Unlock(m) =>
      var (t', x) := UnlockStep(t, s.mutexes[m], handoff);
      s.(table := t', mutexes := s.mutexes[m := x], inside := s.inside[m := s.inside[m] - {tid}])
    case Return =>
      var m := s.pcs[tid].m;
      s.(pcs := s.pcs[tid := Idle], inside := s.inside[m := s.inside[m] + {tid}])
    case Arrive(b) =>
      var (t', x, o, v) := ArriveStep(t, s.barriers[b]);
      var s1 := s.(table := t', barriers := s.barriers[b := x], arrived := s.arrived[b := s.arrived[b] + 1],
                   over := !o.Switched?);
      if v.None? then s1.(pcs := s.pcs[tid := AtBarrier(b)])
      else s1.(results := s.results[b := s.results[b] + [v.value]])
    case Finish(b) =>
      var (t', x, o, v) := FinishStep(t, s.barriers[b]);
      s.(table := t', barriers := s.barriers[b := x], pcs := s.pcs[tid := Idle],
         results := s.results[b := s.results[b] + [v]], over := !o.Switched?)
  }

  /** The last slot of the table is not handed out. */
  predicate CreateFits(s: Sys)
    requires |s.table.slots| >= 2
  {
    FirstFree(s.table.slots, 1) != |s.table.slots| - 1
  }

  // ---- Switches only trade Running and Ready

  function Kind(slot: Slot): Slot {
    if slot == Tcb(Running) then Tcb(Ready) else slot
  }

  ghost predicate SameKinds(a: seq<Slot>, b: seq<Slot>) {
    |a| == |b| && forall i :: 0 <= i < |a| ==> Kind(a[i]) == Kind(b[i])
  }

  lemma TurnKinds(t: Table)
    requires Sound(t)
    ensures SameKinds(t.slots, Turn(t).0.slots)
    ensures t.slots[|t.slots| - 1] == Free && Live(t, 0) && Turn(t).1.Switched? ==> TableOk(Turn(t).0)
  {
  }

  /** No thread is gone from `a` to `b`. */
  ghost predicate NoneGone(a: Table, b: Table) {
    |a.slots| == |b.slots| && forall i :: 0 <= i < |a.slots| && a.slots[i] != Free ==> b.slots[i] != Free
  }

  lemma LiveKept(s: Sys, t: Table)
    requires Basic(s) && NoneGone(s.table, t)
    ensures forall m :: 0 <= m < |s.mutexes| ==> MutexLive(t, s.mutexes[m])
    ensures forall b :: 0 <= b < |s.barriers| ==> BarrierSound(t, s.barriers[b])
  {
  }

  lemma NoneGoneKinds(a: Table, b: Table)
    requires SameKinds(a.slots, b.slots)
    ensures NoneGone(a, b)
  {
  }

  /** A switch after some change to the running thread's slot, or others that exist. */
  lemma TurnLive(s: Sys, t: Table)
    requires Basic(s) && Sound(t) && t.slots[|t.slots| - 1] == Free && NoneGone(s.table, t)
    ensures Turn(t).1.Switched? ==> TableOk(Turn(t).0)
    ensures forall m :: 0 <= m < |s.mutexes| ==> MutexLive(Turn(t).0, s.mutexes[m])
    ensures forall b :: 0 <= b < |s.barriers| ==> BarrierSound(Turn(t).0, s.barriers[b])
    ensures NoneGone(t, Turn(t).0)
  {
    hide Turn, BarrierSound, MutexLive;
    TurnKinds(t);
    NoneGoneKinds(t, Turn(t).0);
    LiveKept(s, Turn(t).0);
  }

  lemma BasicSwitch(handoff: bool, s: Sys, act: Act)
    requires Basic(s) && Enabled(s, act) && (act.Tick? || act.Exit?)
    ensures Step(handoff, s, act).over || Basic(Step(handoff, s, act))
  {
    hide Turn, BarrierSound, MutexLive;
    TurnLive(s, if act.Tick? then s.table else SetStatus(s.table, s.table.tid, Exited));
  }

  lemma BasicCreate(handoff: bool, s: Sys)
    requires Basic(s) && Enabled(s, Create) && CreateFits(s)
    ensures Basic(Step(handoff, s, Create))
  {
  }

  lemma BasicLock(handoff: bool, s: Sys, m: nat)
    requires Basic(s) && Enabled(s, Lock(m))
    ensures Step(handoff, s, Lock(m)).over || Basic(Step(handoff, s, Lock(m)))
  {
    hide Turn, BarrierSound;
    TurnLive(s, SetStatus(s.table, s.table.tid, Blocked));
  }

  lemma BasicUnlock(handoff: bool, s: Sys, act: Act)
    requires Basic(s) && Enabled(s, act) && (act.Unlock? || act.Return?)
    requires act.Unlock? ==> s.table.tid !in s.mutexes[act.m].queue
    ensures Basic(Step(handoff, s, act))
  {
    hide BarrierSound;
    if act.Unlock? {
      assert MutexLive(s.table, s.mutexes[act.m]);
      if |s.mutexes[act.m].queue| > 0 { LiveKept(s, SetStatus(s.table, s.mutexes[act.m].queue[0], Ready)); }
    }
  }

  /** The part of a barrier call from the barrier on. */
  lemma FinishLive(s: Sys, t: Table, x: BarrierState)
    requires Basic(s) && Sound(t) && t.slots[|t.slots| - 1] == Free && NoneGone(s.table, t) && x.bar > 0
    requires |x.tids| == x.bar && (forall i :: 0 <= i < x.bar ==> Live(t, x.tids[i])) && (x.ret ==> x.cnt == 0)
    ensures var (t', x', o, _) := FinishStep(t, x);
      && (o.Switched? ==> TableOk(t')) && BarrierSound(t', x') && NoneGone(s.table, t')
      && (forall m :: 0 <= m < |s.mutexes| ==> MutexLive(t', s.mutexes[m]))
      && (forall b :: 0 <= b < |s.barriers| ==> BarrierSound(t', s.barriers[b]))
  {
    hide Turn, MutexLive;
    TurnLive(s, t);
    TurnLive(s, t.(slots := WakeAll(t.slots, x.tids)));
  }

  lemma BasicArrive(handoff: bool, s: Sys, b: nat)
    requires Basic(s) && Enabled(s, Arrive(b))
    ensures Step(handoff, s, Arrive(b)).over || Basic(Step(handoff, s, Arrive(b)))
  {
    hide Turn, MutexLive, FinishStep, WakeAll;
    var t, x := s.table, s.barriers[b];
    assert BarrierSound(t, x);
    var t1 := SetStatus(t, t.tid, Blocked);
    TurnLive(s, t1);
    var x1 := BarrierState(x.cnt + 1, x.cnt != 0 && x.ret, x.bar, x.tids[x.cnt := t.tid]);
    if x1.cnt == x1.bar { FinishLive(s, t1, x1); }
  }

  lemma BasicFinish(handoff: bool, s: Sys, b: nat)
    requires Basic(s) && Enabled(s, Finish(b))
    ensures Step(handoff, s, Finish(b)).over || Basic(Step(handoff, s, Finish(b)))
  {
    hide Turn, MutexLive, FinishStep;
    assert PcOk(s, s.pcs[s.table.tid]) && BarrierSound(s.table, s.barriers[b]);
    FinishLive(s, s.table, s.barriers[b]);
  }

  lemma BasicKept(handoff: bool, s: Sys, act: Act)
    requires Basic(s) && Enabled(s, act) && (act.Create? ==> CreateFits(s))
    requires act.Unlock? ==> s.table.tid !in s.mutexes[act.m].queue
    ensures Step(handoff, s, act).over || Basic(Step(handoff, s, act))
  {
    hide Basic, Step;
    match act
    case Tick => BasicSwitch(handoff, s, act);
    case Exit => BasicSwitch(handoff, s, act);
    case Create => BasicCreate(handoff, s);
    case Lock(m) => BasicLock(handoff, s, m);
    case Unlock(_) => BasicUnlock(handoff, s, act);
    case Return => BasicUnlock(handoff, s, act);
    case Arrive(b) => BasicArrive(handoff, s, b);
    case Finish(b) => BasicFinish(handoff, s, b);
  }
}
