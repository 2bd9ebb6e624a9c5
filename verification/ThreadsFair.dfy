/** Round robin over runs: who runs after each step that switches, and how long a
    thread that can run waits at most. */
module ThreadsFair {
  import opened Threads
  import opened ThreadsSync
  import opened ThreadsRun
  import opened ThreadsLists
  import opened ThreadsSafety
  import opened ThreadsTheorems

  /** The step ends in a switch. */
  predicate Switches(s: Sys, act: Act) {
    match act
    case Tick => true
    case Exit => true
    case Lock(m) => m < |s.mutexes| && s.mutexes[m].locked
    case Arrive(_) => true
    case Finish(_) => true
    case _ => false
  }

  /** After a switch of the scheduler the nearest thread runs of those that can; the
      process ends only if there is none. */
  lemma TurnRuns(t: Table)
    requires Sound(t) && t.slots[|t.slots| - 1] == Free
    ensures var (t', o), m := Turn(t), |t.slots| - 1;
      && t.tid < m && |t'.slots| == m + 1 && o != OutOfTable
      && (o.Finished? ==> forall u :: 0 <= u < m ==> t'.slots[u] != Tcb(Ready))
      && (o.Switched? ==>
            && t'.tid < m && t'.slots[t'.tid] == Tcb(Running)
            && forall u :: 0 <= u < m && t'.slots[u] == Tcb(Ready) ==>
                 (if t'.tid > t.tid then t'.tid - t.tid else t'.tid + m - t.tid)
                   <= if u > t.tid then u - t.tid else u + m - t.tid)
  {
    ScheduleNearest(t);
    hide Turn, Requeue;
  }

  /** The table that a switching step hands to the scheduler: the caller where it has
      come to stand, those it has woken ready. */
  ghost function Before(s: Sys, act: Act): (t: Table)
    requires Basic(s) && Enabled(s, act) && Switches(s, act)
    ensures Sound(t) && t.tid == s.table.tid && |t.slots| == |s.table.slots| && t.slots[|t.slots| - 1] == Free
  {
    var t, tid := s.table, s.table.tid;
    match act
    case Tick => t
    case Exit => SetStatus(t, tid, Exited)
    case Lock(_) => SetStatus(t, tid, Blocked)
    case Arrive(b) =>
      assert BarrierSound(t, s.barriers[b]);
      var x, t1 := s.barriers[b], SetStatus(t, tid, Blocked);
      if x.cnt + 1 < x.bar then t1 else t1.(slots := WakeAll(t1.slots, x.tids[x.cnt := tid]))
    case Finish(b) =>
      assert PcOk(s, s.pcs[tid]) && BarrierSound(t, s.barriers[b]);
      if s.barriers[b].ret then t else t.(slots := WakeAll(t.slots, s.barriers[b].tids))
  }

  lemma BeforeTurns(handoff: bool, s: Sys, act: Act)
    requires Basic(s) && Enabled(s, act) && Switches(s, act)
    ensures var s', (t, o) := Step(handoff, s, act), Turn(Before(s, act)); s'.table == t && s'.over == !o.Switched?
  {
    hide Turn, MutexLive;
    match act
    case Arrive(b) => assert BarrierSound(s.table, s.barriers[b]);
    case Finish(b) => assert PcOk(s, s.pcs[s.table.tid]) && BarrierSound(s.table, s.barriers[b]);
    case _ =>
  }

  /** So after each step that switches: the thread that runs is the nearest after the
      caller of all that can run, and the process has ended only if there is none. */
  lemma NearestRuns(handoff: bool, s: Sys, act: Act)
    requires Basic(s) && Enabled(s, act) && Switches(s, act)
    ensures var s', tid, m := Step(handoff, s, act), s.table.tid, |s.table.slots| - 1;
      && tid < m && |s'.table.slots| == m + 1
      && (s'.over ==> forall u :: 0 <= u < m ==> s'.table.slots[u] != Tcb(Ready))
      && (!s'.over ==>
            && s'.table.tid < m && s'.table.slots[s'.table.tid] == Tcb(Running)
            && forall u :: 0 <= u < m && s'.table.slots[u] == Tcb(Ready) ==>
                 (if s'.table.tid > tid then s'.table.tid - tid else s'.table.tid + m - tid)
                   <= if u > tid then u - tid else u + m - tid)
  {
    BeforeTurns(handoff, s, act);
    TurnRuns(Before(s, act));
    hide Step, Turn, Before, Basic;
  }

  /** And where everybody stands: the caller is as its call leaves it, those it wakes
      at a full barrier can run, and all others are as before. */
  lemma SwitchLeaves(handoff: bool, s: Sys, act: Act, u: nat)
    requires Basic(s) && Listed(s) && Enabled(s, act) && Switches(s, act) && u < |s.table.slots|
    ensures |Step(handoff, s, act).table.slots| == |s.pcs| == |s.table.slots|
    ensures act.Arrive? ==>
      act.b < |s.barriers| && s.barriers[act.b].cnt < s.barriers[act.b].bar == |s.barriers[act.b].tids|
    ensures var was, now := s.table.slots[u], Step(handoff, s, act).table.slots[u];
      var full := act.Arrive? && s.barriers[act.b].cnt + 1 == s.barriers[act.b].bar;
      if u == s.table.tid then
        Kind(now) == if act.Exit? then Tcb(Exited) else if act.Lock? || (act.Arrive? && !full) then Tcb(Blocked)
                     else Tcb(Ready)
      else if full && u in s.barriers[act.b].tids[..s.barriers[act.b].cnt] then Kind(now) == Tcb(Ready)
      else Kind(now) == Kind(was)
  {
    BeforeTurns(handoff, s, act);
    TurnKinds(Before(s, act));
    BeforeLeaves(s, act, u);
    hide Step, Turn, MutexLive, Before, ListedIn, BarrierSound;
    BasicSizes(s);
  }

  lemma BeforeLeaves(s: Sys, act: Act, u: nat)
    requires Basic(s) && Listed(s) && Enabled(s, act) && Switches(s, act) && u < |s.table.slots|
    ensures act.Arrive? ==>
      act.b < |s.barriers| && s.barriers[act.b].cnt < s.barriers[act.b].bar == |s.barriers[act.b].tids|
    ensures var was, now := s.table.slots[u], Before(s, act).slots[u];
      var full := act.Arrive? && s.barriers[act.b].cnt + 1 == s.barriers[act.b].bar;
      if u == s.table.tid then
        Kind(now) == if act.Exit? then Tcb(Exited) else if act.Lock? || (act.Arrive? && !full) then Tcb(Blocked)
                     else Tcb(Ready)
      else if full && u in s.barriers[act.b].tids[..s.barriers[act.b].cnt] then Kind(now) == Tcb(Ready)
      else Kind(now) == Kind(was)
  {
    hide Turn, MutexLive, ListedIn;
    match act
    case Arrive(b) =>
      var x := s.barriers[b];
      assert BarrierSound(s.table, x);
      assert x.cnt + 1 == x.bar ==> x.tids[x.cnt := s.table.tid] == x.tids[..x.cnt] + [s.table.tid];
    case Finish(b) =>
      assert PcOk(s, s.pcs[s.table.tid]);
      ListedFinish(s, b);
    case _ =>
  }

  // ---- Bounded wait over runs

  /** The number of steps that switch. */
  ghost function Turns(handoff: bool, s: Sys, acts: seq<Act>): nat
    decreases |acts|
  {
    if acts == [] then 0
    else (if Switches(s, acts[0]) then 1 else 0) + Turns(handoff, Next(handoff, s, acts[0]), acts[1..])
  }

  /** Thread `u` can run in every state of the run but the last. */
  ghost predicate CanRun(handoff: bool, s: Sys, acts: seq<Act>, u: nat)
    decreases |acts|
  {
    acts == [] ||
    (&& u < |s.table.slots| && s.table.slots[u] in {Tcb(Ready), Tcb(Running)}
     && CanRun(handoff, Next(handoff, s, acts[0]), acts[1..], u))
  }

  lemma StaysPut(handoff: bool, s: Sys, act: Act)
    requires Basic(s) && Enabled(s, act) && !Switches(s, act)
    ensures Step(handoff, s, act).table.tid == s.table.tid
    ensures |Step(handoff, s, act).table.slots| == |s.table.slots|
  {
    hide Turn, FirstFree, BarrierSound;
  }

  /** How many slots thread `u` is away from running. */
  ghost function Away(s: Sys, u: nat): int {
    if u == s.table.tid then 0
    else if u > s.table.tid then u - s.table.tid
    else u + (|s.table.slots| - 1) - s.table.tid
  }

  /** One step brings a thread that can run nearer, if it switches, and no farther if
      it does not. */
  lemma OneTurn(handoff: bool, s: Sys, act: Act, u: nat)
    requires Kept(s) && Guard(s, act) && !Next(handoff, s, act).over
    requires u + 1 < |s.table.slots| && u != s.table.tid
    requires var slots := Next(handoff, s, act).table.slots; u < |slots| && slots[u] in {Tcb(Ready), Tcb(Running)}
    ensures var s', m := Next(handoff, s, act), |s.table.slots| - 1;
      && Kept(s') && |s'.table.slots| == m + 1
      && (if Switches(s, act) then 1 else 0) + Away(s', u) <= Away(s, u)
  {
    StepKept(handoff, s, act);
    KeptRuns(s, act);
    var s' := Next(handoff, s, act);
    if Switches(s, act) {
      NearestRuns(handoff, s, act);
      if u != s'.table.tid { OnlyRunning(s', u); }
    } else {
      StaysPut(handoff, s, act);
    }
    hide Kept, Guard, Next, Step, Basic;
  }

  lemma KeptRuns(s: Sys, act: Act)
    requires Kept(s) && Guard(s, act)
    ensures Basic(s) && Listed(s) && Enabled(s, act) && s.table.tid + 1 < |s.table.slots|
    ensures forall handoff :: Next(handoff, s, act) == Step(handoff, s, act)
  {
  }

  lemma OnlyRunning(s: Sys, u: nat)
    requires Kept(s) && u < |s.table.slots| && u != s.table.tid
    ensures s.table.slots[u] != Tcb(Running)
  {
  }

  lemma {:induction false} ComesToRun(handoff: bool, s: Sys, acts: seq<Act>, u: nat) returns (k: nat)
    requires Kept(s) && Guarded(handoff, s, acts) && !Run(handoff, s, acts).over
    requires u + 1 < |s.table.slots| && CanRun(handoff, s, acts, u) && Turns(handoff, s, acts) >= Away(s, u)
    requires var e := Run(handoff, s, acts); u < |e.table.slots| && e.table.slots[u] in {Tcb(Ready), Tcb(Running)}
    ensures k <= |acts| && Run(handoff, s, acts[..k]).table.tid == u && Turns(handoff, s, acts[..k]) <= Away(s, u)
    decreases |acts|
  {
    assert u == s.table.tid ==> Away(s, u) == 0;
    hide Kept, Guard, Next, Switches, Away;
    if u == s.table.tid {
      k := 0;
      assert acts[..0] == [];
    } else {
      AwayFrom(s, acts, u);
      NextCanRun(handoff, s, acts, u);
      OneTurn(handoff, s, acts[0], u);
      k := ComesToRun(handoff, Next(handoff, s, acts[0]), acts[1..], u);
      hide Guarded, Run, CanRun, Turns;
      Unrolled(handoff, s, acts, k);
      k := k + 1;
    }
  }

  lemma Unrolled(handoff: bool, s: Sys, acts: seq<Act>, k: nat)
    requires k < |acts|
    ensures var s', rest := Next(handoff, s, acts[0]), acts[1..];
      && Run(handoff, s, acts[..k + 1]) == Run(handoff, s', rest[..k])
      && Turns(handoff, s, acts[..k + 1]) == (if Switches(s, acts[0]) then 1 else 0) + Turns(handoff, s', rest[..k])
  {
    hide Next, Switches;
    assert acts[..k + 1][1..] == acts[1..][..k];
  }

  lemma AwayFrom(s: Sys, acts: seq<Act>, u: nat)
    requires Kept(s) && u + 1 < |s.table.slots| && u != s.table.tid
    ensures Away(s, u) > 0
  {
  }

  lemma NextCanRun(handoff: bool, s: Sys, acts: seq<Act>, u: nat)
    requires acts != [] && Guarded(handoff, s, acts) && !Run(handoff, s, acts).over && CanRun(handoff, s, acts, u)
    requires var e := Run(handoff, s, acts); u < |e.table.slots| && e.table.slots[u] in {Tcb(Ready), Tcb(Running)}
    ensures var s' := Next(handoff, s, acts[0]);
      !s'.over && u < |s'.table.slots| && s'.table.slots[u] in {Tcb(Ready), Tcb(Running)}
  {
    var s' := Next(handoff, s, acts[0]);
    hide Guard, Next;
    if s'.over { OverEnds(handoff, s', acts[1..]); }
  }

  /** A thread that can run all along a run comes to run within as many switches as it
      is slots away. */
  lemma RunsWithin(handoff: bool, s: Sys, acts: seq<Act>, u: nat) returns (k: nat)
    requires Kept(s) && Guarded(handoff, s, acts) && !Run(handoff, s, acts).over
    requires u + 1 < |s.table.slots| && CanRun(handoff, s, acts, u)
    requires var e := Run(handoff, s, acts); u < |e.table.slots| && e.table.slots[u] in {Tcb(Ready), Tcb(Running)}
    requires Turns(handoff, s, acts)
             >= if u == s.table.tid then 0 else if u > s.table.tid then u - s.table.tid
                else u + (|s.table.slots| - 1) - s.table.tid
    ensures k <= |acts| && Run(handoff, s, acts[..k]).table.tid == u
    ensures Turns(handoff, s, acts[..k])
            <= if u == s.table.tid then 0 else if u > s.table.tid then u - s.table.tid
               else u + (|s.table.slots| - 1) - s.table.tid
  {
    hide Kept, Guarded, Run, CanRun, Turns;
    k := ComesToRun(handoff, s, acts, u);
  }
}
