/** The code takes the steps of the runs. */
module ThreadsCode {
  import opened Threads
  import opened ThreadsSync
  import opened ThreadsRun
  import opened ThreadsLists
  import opened ThreadsTheorems

  ghost predicate MutexShows(x: Mutex, state: MutexState)
    reads x, x.nodes
  {
    x.Valid() && x.View() == state
  }

  ghost predicate Known(nodes: seq<Waiter>, waiters: set<Waiter>) {
    forall k :: 0 <= k < |nodes| ==> nodes[k] in waiters
  }

  ghost predicate Apart(p: seq<Waiter>, q: seq<Waiter>) {
    forall i, j :: 0 <= i < |p| && 0 <= j < |q| ==> p[i] != q[j]
  }

  ghost predicate MutexesShow(mutexes: seq<Mutex>, states: seq<MutexState>, waiters: set<Waiter>)
    reads mutexes, waiters
  {
    && |mutexes| == |states|
    && (forall m :: 0 <= m < |mutexes| ==> Known(mutexes[m].nodes, waiters) && MutexShows(mutexes[m], states[m]))
    && (forall m, n :: 0 <= m < |mutexes| && 0 <= n < |mutexes| && m != n ==>
          mutexes[m] != mutexes[n] && Apart(mutexes[m].nodes, mutexes[n].nodes))
  }

  ghost predicate BarriersShow(barriers: seq<Barrier>, states: seq<BarrierState>, notes: set<array<nat>>)
    reads barriers, notes
  {
    && |barriers| == |states|
    && (forall b :: 0 <= b < |barriers| ==> barriers[b].tids in notes && barriers[b].View() == states[b])
    && (forall b, c :: 0 <= b < c < |barriers| ==> barriers[b] != barriers[c] && barriers[b].tids != barriers[c].tids)
  }

  /** The mutexes but for number `m`, which alone is worked on. */
  ghost predicate OthersShow(mutexes: seq<Mutex>, states: seq<MutexState>, m: nat, nodes: seq<seq<Waiter>>,
          waiters: set<Waiter>)
    requires m < |mutexes| == |states| == |nodes|
    reads set k | 0 <= k < |mutexes| && k != m :: mutexes[k]
    reads set k, i | 0 <= k < |mutexes| && k != m && 0 <= i < |nodes[k]| :: nodes[k][i]
  {
    forall k :: 0 <= k < |mutexes| && k != m ==>
      mutexes[k].nodes == nodes[k] && Known(nodes[k], waiters) && MutexShows(mutexes[k], states[k])
  }

  lemma SetAside(mutexes: seq<Mutex>, states: seq<MutexState>, m: nat,
          waiters: set<Waiter>) returns (nodes: seq<seq<Waiter>>)
    requires MutexesShow(mutexes, states, waiters) && m < |mutexes|
    ensures |nodes| == |mutexes| && OthersShow(mutexes, states, m, nodes, waiters)
    ensures nodes[m] == mutexes[m].nodes && Known(nodes[m], waiters) && MutexShows(mutexes[m], states[m])
    ensures forall j, k :: 0 <= j < |nodes| && 0 <= k < |nodes| && j != k ==>
      mutexes[j] != mutexes[k] && Apart(nodes[j], nodes[k])
  {
    hide MutexShows, Known, Apart;
    nodes := seq(|mutexes|, k requires 0 <= k < |mutexes| reads mutexes => mutexes[k].nodes);
  }

  lemma PutBack(mutexes: seq<Mutex>, states: seq<MutexState>, m: nat, nodes: seq<seq<Waiter>>, waiters: set<Waiter>,
                state: MutexState, waiters': set<Waiter>)
    requires m < |mutexes| == |states| == |nodes| && OthersShow(mutexes, states, m, nodes, waiters)
    requires forall j, k :: 0 <= j < |nodes| && 0 <= k < |nodes| && j != k ==>
      mutexes[j] != mutexes[k] && Apart(nodes[j], nodes[k])
    requires MutexShows(mutexes[m], state) && Known(mutexes[m].nodes, waiters') && waiters <= waiters'
    requires forall i :: 0 <= i < |mutexes[m].nodes| ==>
      mutexes[m].nodes[i] in nodes[m] || mutexes[m].nodes[i] !in waiters
    ensures MutexesShow(mutexes, states[m := state], waiters')
  {
  }

  method DoLock(table: ThreadTable, mutexes: seq<Mutex>, m: nat, ghost s: Sys, ghost waiters: set<Waiter>)
    returns (ghost waiters': set<Waiter>)
    requires table.Valid() && table.started && table.View() == s.table
    requires MutexesShow(mutexes, s.mutexes, waiters)
    requires Basic(s) && Enabled(s, Lock(m))
    modifies table, table.slots, mutexes, waiters
    ensures var s' := Step(false, s, Lock(m));
      && table.View() == s'.table && (!s'.over ==> table.Valid() && table.started)
      && MutexesShow(mutexes, s'.mutexes, waiters')
    ensures fresh(waiters' - waiters) && waiters <= waiters'
  {
    LockBasics(s, m);
    hide Basic, LockStep, Step, Enabled, MutexesShow;
    var o;
    o, waiters' := LockAmong(table, mutexes, m, s.mutexes, waiters);
  }

  method LockAmong(table: ThreadTable, mutexes: seq<Mutex>, m: nat, ghost states: seq<MutexState>,
          ghost waiters: set<Waiter>)
    returns (o: Option<Outcome>, ghost waiters': set<Waiter>)
    requires table.Valid() && table.started && MutexesShow(mutexes, states, waiters) && m < |mutexes| == |states|
    modifies table, table.slots, mutexes, waiters
    ensures var (t', state', o') := LockStep(old(table.View()), states[m]);
      table.View() == t' && o == o' && MutexesShow(mutexes, states[m := state'], waiters')
    ensures o in {None, Some(Switched)} ==> table.Valid() && table.started
    ensures fresh(waiters' - waiters) && waiters <= waiters'
  {
    hide LockStep, MutexesShow, MutexShows;
    var x := mutexes[m];
    ghost var n := |x.nodes|;
    ghost var state := LockStep(table.View(), states[m]).1;
    ghost var nodes := SetAside(mutexes, states, m, waiters);
    o := LockOne(table, x, states[m]);
    waiters' := waiters + (if o.Some? then {x.nodes[n]} else {});
    PutBack(mutexes, states, m, nodes, waiters, state, waiters');
  }

  method LockOne(table: ThreadTable, x: Mutex, ghost state: MutexState) returns (o: Option<Outcome>)
    requires table.Valid() && table.started && MutexShows(x, state)
    modifies x, x.nodes, table`tid, table.slots
    ensures var (t', state', o') := LockStep(old(table.View()), state);
      table.View() == t' && o == o' && MutexShows(x, state')
    ensures o in {None, Some(Switched)} ==> table.Valid()
    ensures o.None? ==> x.nodes == old(x.nodes)
    ensures o.Some? ==> |x.nodes| == |old(x.nodes)| + 1 && x.nodes[..|old(x.nodes)|] == old(x.nodes)
    ensures o.Some? ==> fresh(x.nodes[|old(x.nodes)|])
  {
    o := x.Lock(table);
  }

  lemma LockBasics(s: Sys, m: nat)
    requires Basic(s) && Enabled(s, Lock(m))
    ensures m < |s.mutexes| && Sound(s.table)
    ensures var (t, x, o) := LockStep(s.table, s.mutexes[m]);
      var s' := Step(false, s, Lock(m));
      s'.table == t && s'.mutexes == s.mutexes[m := x] && s'.over == (o.Some? && !o.value.Switched?)
  {
  }

  lemma UnlockBasics(s: Sys, m: nat)
    requires Basic(s) && Enabled(s, Unlock(m))
    ensures m < |s.mutexes| && forall k :: 0 <= k < |s.mutexes[m].queue| ==> Live(s.table, s.mutexes[m].queue[k])
    ensures var (t, x) := UnlockStep(s.table, s.mutexes[m], false);
      var s' := Step(false, s, Unlock(m));
      s'.table == t && s'.mutexes == s.mutexes[m := x]
  {
  }

  method DoUnlock(table: ThreadTable, mutexes: seq<Mutex>, m: nat, ghost s: Sys, ghost waiters: set<Waiter>)
    requires table.Valid() && table.started && table.View() == s.table
    requires MutexesShow(mutexes, s.mutexes, waiters)
    requires Basic(s) && Enabled(s, Unlock(m))
    modifies table.slots, mutexes
    ensures var s' := Step(false, s, Unlock(m)); table.View() == s'.table && MutexesShow(mutexes, s'.mutexes, waiters)
  {
    UnlockBasics(s, m);
    hide Basic, UnlockStep, Step, Enabled, MutexesShow;
    var x := mutexes[m];
    ghost var nodes := SetAside(mutexes, s.mutexes, m, waiters);
    assert forall k :: 0 <= k < |x.nodes| ==> x.nodes[k].tid == s.mutexes[m].queue[k];
    x.Unlock(table);
    PutBack(mutexes, s.mutexes, m, nodes, waiters, UnlockStep(s.table, s.mutexes[m], false).1, waiters);
  }

  method DoArrive(table: ThreadTable, barriers: seq<Barrier>, b: nat, ghost s: Sys, ghost notes: set<array<nat>>)
    returns (value: Option<int>, ghost notes': set<array<nat>>)
    requires table.Valid() && table.started && table.View() == s.table
    requires BarriersShow(barriers, s.barriers, notes)
    requires Basic(s) && Enabled(s, Arrive(b))
    modifies table, table.slots, barriers, notes
    ensures var s' := Step(false, s, Arrive(b));
      && table.View() == s'.table && (!s'.over ==> table.Valid() && table.started)
      && BarriersShow(barriers, s'.barriers, notes')
      && b < |s'.results| && b < |s.results|
      && s'.results[b] == s.results[b] + if value.Some? then [value.value] else []
    ensures fresh(notes' - notes) && notes <= notes'
  {
    hide Turn;
    var x := barriers[b];
    assert BarrierSound(s.table, s.barriers[b]);
    var o;
    o, value := x.Arrive(table);
    notes' := notes + {x.tids};
  }

  method DoFinish(table: ThreadTable, barriers: seq<Barrier>, b: nat, ghost s: Sys, ghost notes: set<array<nat>>)
    returns (value: int, ghost notes': set<array<nat>>)
    requires table.Valid() && table.started && table.View() == s.table
    requires BarriersShow(barriers, s.barriers, notes)
    requires Basic(s) && Enabled(s, Finish(b)) 
    modifies table, table.slots, barriers
    ensures var s' := Step(false, s, Finish(b));
      && table.View() == s'.table && (!s'.over ==> table.Valid() && table.started)
      && BarriersShow(barriers, s'.barriers, notes')
      && b < |s'.results| && b < |s.results| && s'.results[b] == s.results[b] + [value]
    ensures fresh(notes' - notes) && notes <= notes'
  {
    hide Turn;
    var x := barriers[b];
    assert PcOk(s, s.pcs[s.table.tid]);
    assert BarrierSound(s.table, s.barriers[b]);
    var o;
    o, value := x.Finish(table);
    notes' := notes + {x.tids};
  }

  ghost predicate Shows(table: ThreadTable, mutexes: seq<Mutex>, barriers: seq<Barrier>, s: Sys,
                        waiters: set<Waiter>, notes: set<array<nat>>)
    reads table, table.slots, mutexes, barriers, waiters, notes
  {
    && table.Valid() && table.started && table.View() == s.table
    && MutexesShow(mutexes, s.mutexes, waiters) && BarriersShow(barriers, s.barriers, notes)
  }

  /** One step of the running thread, or of the timer. */
  method Do(table: ThreadTable, mutexes: seq<Mutex>, barriers: seq<Barrier>, act: Act, ghost s: Sys,
            ghost waiters: set<Waiter>, ghost notes: set<array<nat>>)
    returns (ghost waiters': set<Waiter>, ghost notes': set<array<nat>>)
    requires Shows(table, mutexes, barriers, s, waiters, notes) && Basic(s) && Enabled(s, act)
    modifies table, table.slots, mutexes, barriers, waiters, notes
    ensures var s' := Step(false, s, act); s'.over || Shows(table, mutexes, barriers, s', waiters', notes')
    ensures fresh(waiters' - waiters) && waiters <= waiters' && fresh(notes' - notes) && notes <= notes'
  {
    hide Turn, MutexesShow, BarriersShow, FirstFree, Basic;
    waiters', notes' := waiters, notes;
    match act
    case Tick => var o := table.Schedule();
    case Create => var r, thread := table.Create();
    case Exit => var o := table.Exit();
    case Lock(m) => waiters' := DoLock(table, mutexes, m, s, waiters);
    case Unlock(m) => DoUnlock(table, mutexes, m, s, waiters);
    case Return =>
    case Arrive(b) =>
      var v;
      v, notes' := DoArrive(table, barriers, b, s, notes);
    case Finish(b) =>
      var v;
      v, notes' := DoFinish(table, barriers, b, s, notes);
  }

  /** A run of the code, as written, is the run on values from the same start. */
  method RunActs(table: ThreadTable, mutexes: seq<Mutex>, barriers: seq<Barrier>, acts: seq<Act>, ghost s: Sys,
                 ghost waiters: set<Waiter>, ghost notes: set<array<nat>>)
    returns (ghost waiters': set<Waiter>, ghost notes': set<array<nat>>)
    requires Shows(table, mutexes, barriers, s, waiters, notes) && Kept(s) && Guarded(false, s, acts)
    modifies table, table.slots, mutexes, barriers, waiters, notes
    ensures var e := Run(false, s, acts); e.over || Shows(table, mutexes, barriers, e, waiters', notes')
  {
    hide Kept, Shows, Guard, Step;
    waiters', notes' := waiters, notes;
    ghost var now := s;
    for n := 0 to |acts|
      invariant now.over || (Kept(now) && Shows(table, mutexes, barriers, now, waiters', notes'))
      invariant Guarded(false, now, acts[n..]) && Run(false, now, acts[n..]) == Run(false, s, acts)
      invariant fresh(waiters' - waiters) && waiters <= waiters' && fresh(notes' - notes) && notes <= notes'
    {
      assert acts[n..][0] == acts[n] && acts[n..][1..] == acts[n + 1..];
      GuardedRuns(now, acts[n]);
      StepKept(false, now, acts[n]);
      waiters', notes' := Do(table, mutexes, barriers, acts[n], now, waiters', notes');
      now := Next(false, now, acts[n]);
    }
  }

  lemma GuardedRuns(s: Sys, act: Act)
    requires Guard(s, act)
    ensures Enabled(s, act) && !s.over
    ensures Kept(s) ==> Basic(s) && Next(false, s, act) == Step(false, s, act)
  {
  }

  // ---- From the start

  function NewStates(counts: seq<nat>): seq<BarrierState> {
    seq(|counts|, b requires 0 <= b < |counts| => BarrierState(0, false, counts[b], Blank(counts[b])))
  }

  /** A process of one thread, with `n` mutexes and barriers of these counts. */
  ghost function StartOf(max: nat, n: nat, counts: seq<nat>): (s: Sys)
    requires max >= 2
  {
    Sys(Table(seq(max, i => if i == 0 then Tcb(Running) else Free), 0),
        seq(n, _ => MutexState(false, [])),
        NewStates(counts),
        seq(max, _ => Idle), seq(n, _ => {}), seq(|counts|, _ => 0), seq(|counts|, _ => []), false)
  }

  lemma StartIs(max: nat, n: nat, counts: seq<nat>)
    requires max >= 2 && forall b :: 0 <= b < |counts| ==> counts[b] > 0
    ensures Start(StartOf(max, n, counts))
  {
  }

  /** The first thread that is created, by which the caller becomes thread 0. */
  lemma FirstCreated(max: nat, n: nat, counts: seq<nat>)
    requires max >= 3 && Guard(StartOf(max, n, counts), Create) && Kept(StartOf(max, n, counts))
    ensures var s, s' := StartOf(max, n, counts), Next(false, StartOf(max, n, counts), Create);
      s' == s.(table := Table(s.table.slots[1 := Tcb(Ready)], 0))
  {
    var s := StartOf(max, n, counts);
    assert FirstFree(s.table.slots, 1) == 1;
    hide Basic, StartOf, FirstFree;
  }

  method NewMutexes(n: nat) returns (mutexes: seq<Mutex>)
    ensures |mutexes| == n && fresh(mutexes)
    ensures MutexesShow(mutexes, seq(n, _ => MutexState(false, [])), {})
  {
    mutexes := [];
    for m := 0 to n
      invariant |mutexes| == m && fresh(mutexes)
      invariant forall k :: 0 <= k < m ==> MutexShows(mutexes[k], MutexState(false, [])) && mutexes[k].nodes == []
      invariant forall j, k :: 0 <= j < k < m ==> mutexes[j] != mutexes[k]
    {
      var x := new Mutex();
      assert |Tids(x.nodes)| == 0;
      mutexes := mutexes + [x];
    }
  }

  method NewBarriers(counts: seq<nat>) returns (barriers: seq<Barrier>, ghost notes: set<array<nat>>)
    ensures |barriers| == |counts| && fresh(barriers) && fresh(notes)
    ensures BarriersShow(barriers, NewStates(counts), notes)
  {
    barriers, notes := [], {};
    for b := 0 to |counts|
      invariant |barriers| == b && fresh(barriers) && fresh(notes)
      invariant forall k :: 0 <= k < b ==>
        barriers[k].tids in notes && barriers[k].View() == BarrierState(0, false, counts[k], Blank(counts[k]))
      invariant forall j, k :: 0 <= j < k < b ==> barriers[j] != barriers[k] && barriers[j].tids != barriers[k].tids
    {
      var x := new Barrier(counts[b]);
      barriers := barriers + [x];
      notes := notes + {x.tids};
    }
  }

  /** A process from its start: mutexes and barriers are made, the first thread is
      created, and then any guarded steps follow. */
  method RunProcess(max: nat, n: nat, counts: seq<nat>, acts: seq<Act>)
    returns (table: ThreadTable, mutexes: seq<Mutex>, barriers: seq<Barrier>, ghost waiters: set<Waiter>,
             ghost notes: set<array<nat>>)
    requires max >= 3 && forall b :: 0 <= b < |counts| ==> counts[b] > 0
    requires Guarded(false, StartOf(max, n, counts), [Create] + acts)
    ensures var e := Run(false, StartOf(max, n, counts), [Create] + acts);
      e.over || Shows(table, mutexes, barriers, e, waiters, notes)
  {
    ghost var s0 := StartOf(max, n, counts);
    StartIs(max, n, counts);
    StartKept(s0);
    assert ([Create] + acts)[1..] == acts;
    FirstCreated(max, n, counts);
    ghost var s := Next(false, s0, Create);
    StepKept(false, s0, Create);
    table := new ThreadTable(max);
    mutexes := NewMutexes(n);
    barriers, notes := NewBarriers(counts);
    var r, thread := table.Create();
    assert FirstFree(s0.table.slots, 1) == 1;
    assert table.slots[..] == s.table.slots;
    assert Shows(table, mutexes, barriers, s, {}, notes);
    waiters, notes := RunActs(table, mutexes, barriers, acts, s, {}, notes);
  }
}
