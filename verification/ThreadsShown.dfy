/** Two short runs from the start, written out: a mutex handed over and a barrier met. */
module ThreadsShown {
  import opened Threads
  import opened ThreadsSync
  import opened ThreadsRun
  import opened ThreadsLists
  import opened ThreadsSafety
  import opened ThreadsTheorems
  import opened ThreadsCode

  /** Threads 0 and 1, and no other. */
  ghost function Duo(max: nat, a: Slot, b: Slot): (slots: seq<Slot>)
    requires max >= 3
    ensures |slots| == max && slots[0] == a && slots[1] == b && forall i :: 2 <= i < max ==> slots[i] == Free
  {
    seq(max, i => if i == 0 then a else if i == 1 then b else Free)
  }

  lemma DuoIs(slots: seq<Slot>, max: nat, a: Slot, b: Slot)
    requires max >= 3 && |slots| == max && slots[0] == a && slots[1] == b
    requires forall i :: 2 <= i < max ==> slots[i] == Free
    ensures slots == Duo(max, a, b)
  {
  }

  lemma ToOne(max: nat, a: Slot)
    requires max >= 3 && a in {Tcb(Running), Tcb(Blocked)}
    ensures Sound(Table(Duo(max, a, Tcb(Ready)), 0))
    ensures Turn(Table(Duo(max, a, Tcb(Ready)), 0)) == (Table(Duo(max, Kind(a), Tcb(Running)), 1), Switched)
  {
    var slots := Requeue(Table(Duo(max, a, Tcb(Ready)), 0));
    DuoIs(slots, max, Kind(a), Tcb(Ready));
    assert forall q :: 0 <= q < max - 1 && Hit(slots, q) ==> q <= 1;
    PickUnique(slots, 0, 1);
    DuoIs(slots[1 := Tcb(Running)], max, Kind(a), Tcb(Running));
    hide Duo, Pick;
  }

  lemma ToZero(max: nat, b: Slot)
    requires max >= 3 && b in {Tcb(Running), Tcb(Blocked), Tcb(Ready)}
    ensures Sound(Table(Duo(max, Tcb(Ready), b), 1))
    ensures Turn(Table(Duo(max, Tcb(Ready), b), 1)) == (Table(Duo(max, Tcb(Running), Kind(b)), 0), Switched)
  {
    var slots := Requeue(Table(Duo(max, Tcb(Ready), b), 1));
    DuoIs(slots, max, Tcb(Ready), Kind(b));
    assert forall q :: 0 <= q < max - 1 && Hit(slots, q) ==> q <= 1;
    PickUnique(slots, 1, 0);
    DuoIs(slots[0 := Tcb(Running)], max, Tcb(Running), Kind(b));
    hide Duo, Pick;
  }

  /** Both threads stand where they are said to, thread `tid` running. */
  ghost predicate Stand(s: Sys, max: nat, a: Slot, p0: Pc, b: Slot, p1: Pc, tid: nat)
    requires max >= 3
  {
    Kept(s) && s.table == Table(Duo(max, a, b), tid) && |s.pcs| == max && s.pcs[0] == p0 && s.pcs[1] == p1
  }

  /** What a step inside its guard leads to. */
  ghost predicate Leads(s: Sys, act: Act, s': Sys) {
    Guard(s, act) && Next(false, s, act) == s'
  }

  lemma FirstStep(max: nat, n: nat, counts: seq<nat>) returns (s: Sys)
    requires max >= 3 && forall b :: 0 <= b < |counts| ==> counts[b] > 0
    ensures Leads(StartOf(max, n, counts), Create, s)
    ensures Stand(s, max, Tcb(Running), Idle, Tcb(Ready), Idle, 0)
    ensures |s.mutexes| == |s.inside| == n && |s.barriers| == |s.arrived| == |s.results| == |counts|
    ensures forall m :: 0 <= m < n ==> s.mutexes[m] == MutexState(false, []) && s.inside[m] == {}
    ensures forall b :: 0 <= b < |counts| ==>
      s.barriers[b] == BarrierState(0, false, counts[b], Blank(counts[b])) && s.results[b] == []
  {
    var s0 := StartOf(max, n, counts);
    StartIs(max, n, counts);
    StartKept(s0);
    assert s0.table.slots == Duo(max, Tcb(Running), Free);
    assert FirstFree(s0.table.slots, 1) == 1;
    assert Guard(s0, Create) by { KeptBasic(s0); }
    FirstCreated(max, n, counts);
    StepKept(false, s0, Create);
    s := Next(false, s0, Create);
    DuoIs(s.table.slots, max, Tcb(Running), Tcb(Ready));
    hide Kept, Guard, Next;
  }

  lemma KeptBasic(s: Sys)
    requires Kept(s)
    ensures Basic(s) && Listed(s) && !s.over
  {
  }

  /** A free mutex is taken. */
  lemma TakeStep(s: Sys, max: nat, b: Slot, p1: Pc, m: nat) returns (s': Sys)
    requires max >= 3 && Stand(s, max, Tcb(Running), Idle, b, p1, 0)
    requires m < |s.mutexes| == |s.inside| && !s.mutexes[m].locked
    ensures Leads(s, Lock(m), s') && Stand(s', max, Tcb(Running), Idle, b, p1, 0)
    ensures s' == s.(mutexes := s.mutexes[m := MutexState(true, s.mutexes[m].queue)],
                     inside := s.inside[m := s.inside[m] + {0}])
  {
    KeptBasic(s);
    assert Guard(s, Lock(m));
    StepKept(false, s, Lock(m));
    s' := Next(false, s, Lock(m));
    hide Kept, Basic;
  }

  /** The timer switches from thread 0 to thread 1. */
  lemma TickStep(s: Sys, max: nat, p0: Pc, p1: Pc) returns (s': Sys)
    requires max >= 3 && Stand(s, max, Tcb(Running), p0, Tcb(Ready), p1, 0)
    ensures Leads(s, Tick, s') && Stand(s', max, Tcb(Ready), p0, Tcb(Running), p1, 1)
    ensures s' == s.(table := s'.table)
  {
    KeptBasic(s);
    assert Guard(s, Tick);
    ToOne(max, Tcb(Running));
    StepKept(false, s, Tick);
    s' := Next(false, s, Tick);
    hide Kept, Basic, Turn;
  }

  /** Thread 1 finds the mutex taken and thread 0 goes on. */
  lemma BlockStep(s: Sys, max: nat, m: nat) returns (s': Sys)
    requires max >= 3 && Stand(s, max, Tcb(Ready), Idle, Tcb(Running), Idle, 1)
    requires m < |s.mutexes| == |s.inside| && s.mutexes[m] == MutexState(true, [])
    ensures Leads(s, Lock(m), s') && Stand(s', max, Tcb(Running), Idle, Tcb(Blocked), AtLock(m), 0)
    ensures s' == s.(table := s'.table, pcs := s.pcs[1 := AtLock(m)], mutexes := s.mutexes[m := MutexState(true, [1])])
  {
    KeptBasic(s);
    assert Guard(s, Lock(m));
    DuoIs(s.table.slots[1 := Tcb(Blocked)], max, Tcb(Ready), Tcb(Blocked));
    ToZero(max, Tcb(Blocked));
    StepKept(false, s, Lock(m));
    s' := Next(false, s, Lock(m));
    assert [] + [1] == [1];
    hide Kept, Basic, Turn;
  }

  /** Thread 0 unlocks and thread 1 can go on. */
  lemma WakeStep(s: Sys, max: nat, m: nat) returns (s': Sys)
    requires max >= 3 && Stand(s, max, Tcb(Running), Idle, Tcb(Blocked), AtLock(m), 0)
    requires m < |s.mutexes| == |s.inside| && s.mutexes[m] == MutexState(true, [1]) && s.inside[m] == {0}
    ensures Leads(s, Unlock(m), s') && Stand(s', max, Tcb(Running), Idle, Tcb(Ready), AtLock(m), 0)
    ensures s' == s.(table := s'.table, mutexes := s.mutexes[m := MutexState(false, [])], inside := s.inside[m := {}])
  {
    KeptBasic(s);
    assert Guard(s, Unlock(m));
    DuoIs(s.table.slots[1 := Tcb(Ready)], max, Tcb(Running), Tcb(Ready));
    StepKept(false, s, Unlock(m));
    s' := Next(false, s, Unlock(m));
    assert [1][1..] == [] && {0} - {0} == {};
    hide Kept, Basic;
  }

  lemma EnterStep(s: Sys, max: nat, m: nat) returns (s': Sys)
    requires max >= 3 && Stand(s, max, Tcb(Ready), Idle, Tcb(Running), AtLock(m), 1)
    requires m < |s.mutexes| == |s.inside| && s.inside[m] == {}
    ensures Leads(s, Return, s') && Stand(s', max, Tcb(Ready), Idle, Tcb(Running), Idle, 1)
    ensures s' == s.(pcs := s.pcs[1 := Idle], inside := s.inside[m := {1}])
  {
    KeptBasic(s);
    assert Guard(s, Return);
    StepKept(false, s, Return);
    s' := Next(false, s, Return);
    assert {} + {1} == {1};
    hide Kept, Basic;
  }

  lemma {:induction false} LeadsOn(s: Sys, acts: seq<Act>, e: Sys, act: Act, e': Sys)
    requires Guarded(false, s, acts) && Run(false, s, acts) == e && Leads(e, act, e')
    ensures Guarded(false, s, acts + [act]) && Run(false, s, acts + [act]) == e'
  {
    RunAppend(false, s, acts, [act]);
    RunOne(false, e, act);
  }

  /** Thread 0 takes a mutex, thread 1 comes to wait for it, and has it once thread 0
      has given it up; this is a guarded run from the start. */
  lemma HandedOver(max: nat, n: nat, counts: seq<nat>, m: nat)
    requires max >= 3 && m < n && forall b :: 0 <= b < |counts| ==> counts[b] > 0
    ensures var s, acts := StartOf(max, n, counts), [Create, Lock(m), Tick, Lock(m), Unlock(m), Tick, Return];
      && Guarded(false, s, acts)
      && var e := Run(false, s, acts);
      && e.table.tid == 1 && |e.table.slots| == max
      && e.table.slots[0] == Tcb(Ready) && e.table.slots[1] == Tcb(Running)
      && |e.inside| == n && e.inside[m] == {1}
  {
    hide Leads, Stand, StartOf, Guarded, Run;
    var s := StartOf(max, n, counts);
    var s1 := FirstStep(max, n, counts);
    assert {} + {0} == {0};
    var s2 := TakeStep(s1, max, Tcb(Ready), Idle, m);
    var s3 := TickStep(s2, max, Idle, Idle);
    var s4 := BlockStep(s3, max, m);
    var s5 := WakeStep(s4, max, m);
    var s6 := TickStep(s5, max, Idle, AtLock(m));
    var s7 := EnterStep(s6, max, m);
    Nothing(s);
    LeadsOn(s, [], s, Create, s1);
    LeadsOn(s, [] + [Create], s1, Lock(m), s2);
    LeadsOn(s, [] + [Create] + [Lock(m)], s2, Tick, s3);
    LeadsOn(s, [] + [Create] + [Lock(m)] + [Tick], s3, Lock(m), s4);
    LeadsOn(s, [] + [Create] + [Lock(m)] + [Tick] + [Lock(m)], s4, Unlock(m), s5);
    LeadsOn(s, [] + [Create] + [Lock(m)] + [Tick] + [Lock(m)] + [Unlock(m)], s5, Tick, s6);
    LeadsOn(s, [] + [Create] + [Lock(m)] + [Tick] + [Lock(m)] + [Unlock(m)] + [Tick], s6, Return, s7);
    assert [] + [Create] + [Lock(m)] + [Tick] + [Lock(m)] + [Unlock(m)] + [Tick] + [Return]
           == [Create, Lock(m), Tick, Lock(m), Unlock(m), Tick, Return];
    StandIs(s7, max, Tcb(Ready), Idle, Tcb(Running), Idle, 1);
  }

  /** Thread 0 comes to a barrier for two and thread 1 goes on. */
  lemma WaitStep(s: Sys, max: nat, b: nat) returns (s': Sys)
    requires max >= 3 && Stand(s, max, Tcb(Running), Idle, Tcb(Ready), Idle, 0)
    requires b < |s.barriers| == |s.results| && s.barriers[b] == BarrierState(0, false, 2, [0, 0]) && NoOverlap(s, b)
    ensures Leads(s, Arrive(b), s') && Stand(s', max, Tcb(Blocked), AtBarrier(b), Tcb(Running), Idle, 1)
    ensures |s'.barriers| == |s.barriers| && s'.results == s.results
    ensures s'.barriers[b] == BarrierState(1, false, 2, [0, 0])
  {
    KeptBasic(s);
    assert BarrierSound(s.table, s.barriers[b]);
    assert Guard(s, Arrive(b));
    DuoIs(s.table.slots[0 := Tcb(Blocked)], max, Tcb(Blocked), Tcb(Ready));
    ToOne(max, Tcb(Blocked));
    assert [0, 0][0 := 0] == [0, 0];
    StepKept(false, s, Arrive(b));
    s' := Next(false, s, Arrive(b));
    hide Kept, Basic, Turn;
  }

  /** Thread 1 comes to it as the last, and returns -1. */
  lemma FullStep(s: Sys, max: nat, b: nat) returns (s': Sys)
    requires max >= 3 && Stand(s, max, Tcb(Blocked), AtBarrier(b), Tcb(Running), Idle, 1)
    requires b < |s.barriers| == |s.results| && s.barriers[b] == BarrierState(1, false, 2, [0, 0]) && s.results[b] == []
    ensures Leads(s, Arrive(b), s') && Stand(s', max, Tcb(Running), AtBarrier(b), Tcb(Ready), Idle, 0)
    ensures |s'.barriers| == |s.barriers| == |s'.results| && s'.results[b] == [-1]
    ensures s'.barriers[b].ret && s'.barriers[b].bar == 2
  {
    KeptBasic(s);
    assert BarrierSound(s.table, s.barriers[b]);
    assert Guard(s, Arrive(b));
    var t1 := SetStatus(s.table, 1, Blocked);
    var noted: seq<nat> := [0, 1];
    assert [0, 0][1 := 1] == noted && noted[0] == 0 && noted[1] == 1;
    DuoIs(WakeAll(t1.slots, noted), max, Tcb(Ready), Tcb(Ready));
    ToZero(max, Tcb(Ready));
    assert [] + [-1] == [-1];
    StepKept(false, s, Arrive(b));
    s' := Next(false, s, Arrive(b));
    hide Kept, Basic, Turn;
  }

  /** Thread 0 goes on from it, and returns 0. */
  lemma LeaveStep(s: Sys, max: nat, b: nat) returns (s': Sys)
    requires max >= 3 && Stand(s, max, Tcb(Running), AtBarrier(b), Tcb(Ready), Idle, 0)
    requires b < |s.barriers| == |s.results| && s.barriers[b].ret && s.results[b] == [-1]
    ensures Leads(s, Finish(b), s') && Stand(s', max, Tcb(Ready), Idle, Tcb(Running), Idle, 1)
    ensures |s'.results| == |s.results| && s'.results[b] == [-1, 0]
  {
    KeptBasic(s);
    assert BarrierSound(s.table, s.barriers[b]) && PcOk(s, s.pcs[0]);
    assert Guard(s, Finish(b));
    ToOne(max, Tcb(Running));
    assert [-1] + [0] == [-1, 0];
    StepKept(false, s, Finish(b));
    s' := Next(false, s, Finish(b));
    hide Kept, Basic, Turn;
  }

  /** Two threads meet at a barrier for two; the last to come returns -1 and the other
      0, in a guarded run from the start. */
  lemma Met(max: nat, n: nat, counts: seq<nat>, b: nat)
    requires max >= 3 && b < |counts| && counts[b] == 2 && forall k :: 0 <= k < |counts| ==> counts[k] > 0
    ensures var s, acts := StartOf(max, n, counts), [Create, Arrive(b), Arrive(b), Finish(b)];
      && Guarded(false, s, acts)
      && var e := Run(false, s, acts);
      && e.table.tid == 1 && |e.table.slots| == max
      && e.table.slots[0] == Tcb(Ready) && e.table.slots[1] == Tcb(Running)
      && b < |e.results| && e.results[b] == [-1, 0]
  {
    var s := StartOf(max, n, counts);
    var s1 := FirstStep(max, n, counts);
    assert NoOverlap(s1, b) by { FirstApart(max, n, counts, b, s1); }
    hide Leads, Stand, StartOf, Guarded, Run, NoOverlap;
    assert Blank(2) == [0, 0];
    var s2 := WaitStep(s1, max, b);
    var s3 := FullStep(s2, max, b);
    var s4 := LeaveStep(s3, max, b);
    Nothing(s);
    LeadsOn(s, [], s, Create, s1);
    LeadsOn(s, [] + [Create], s1, Arrive(b), s2);
    LeadsOn(s, [] + [Create] + [Arrive(b)], s2, Arrive(b), s3);
    LeadsOn(s, [] + [Create] + [Arrive(b)] + [Arrive(b)], s3, Finish(b), s4);
    assert [] + [Create] + [Arrive(b)] + [Arrive(b)] + [Finish(b)] == [Create, Arrive(b), Arrive(b), Finish(b)];
    StandIs(s4, max, Tcb(Ready), Idle, Tcb(Running), Idle, 1);
  }

  lemma FirstApart(max: nat, n: nat, counts: seq<nat>, b: nat, s: Sys)
    requires max >= 3 && b < |counts| == |s.barriers| && Leads(StartOf(max, n, counts), Create, s)
    ensures NoOverlap(s, b)
  {
    hide Basic, FirstFree;
  }

  lemma Nothing(s: Sys)
    ensures Guarded(false, s, []) && Run(false, s, []) == s
  {
  }

  lemma StandIs(s: Sys, max: nat, a: Slot, p0: Pc, b: Slot, p1: Pc, tid: nat)
    requires max >= 3 && Stand(s, max, a, p0, b, p1, tid)
    ensures s.table == Table(Duo(max, a, b), tid)
  {
  }
}
