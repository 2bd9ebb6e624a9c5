/** Mutexes and barriers, over the table of threads. */
module ThreadsSync {
  import opened Threads

  function SetStatus(t: Table, i: nat, status: Status): (t': Table)
    requires i < |t.slots|
    ensures |t'.slots| == |t.slots| && t'.tid == t.tid
  {
    t.(slots := t.slots[i := Tcb(status)])
  }

  /** The thread exists. */
  predicate Live(t: Table, i: nat) {
    i < |t.slots| && t.slots[i] != Free
  }

  // ---- Mutexes

  datatype MutexState = MutexState(locked: bool, queue: seq<nat>)

  /** The caller takes a free mutex, or blocks as the last of its queue. */
  function LockStep(t: Table, m: MutexState): (r: (Table, MutexState, Option<Outcome>))
    requires Sound(t)
  {
    if !m.locked then (t, MutexState(true, m.queue), None)
    else
      var (t', o) := Turn(SetStatus(t, t.tid, Blocked));
      (t', MutexState(true, m.queue + [t.tid]), Some(o))
  }

  /** The longest waiter becomes ready. `handoff` is whether the mutex then stays
      locked, for it: the code as written has it false. */
  function UnlockStep(t: Table, m: MutexState, handoff: bool): (r: (Table, MutexState))
    requires forall k :: 0 <= k < |m.queue| ==> Live(t, m.queue[k])
  {
    if |m.queue| == 0 then (t, MutexState(false, []))
    else
      assert Live(t, m.queue[0]);
      (SetStatus(t, m.queue[0], Ready), MutexState(handoff, m.queue[1..]))
  }

  class Waiter {
    const tid: nat
    var next: Waiter?

    constructor (tid: nat)
      ensures this.tid == tid && next == null
    {
      this.tid := tid;
      next := null;
    }
  }

  ghost function Tids(nodes: seq<Waiter>): (tids: seq<nat>)
    ensures |tids| == |nodes|
  {
    seq(|nodes|, i requires 0 <= i < |nodes| => nodes[i].tid)
  }

  class Mutex {
    var locked: bool
    var head: Waiter?
    var tail: Waiter?
    ghost var nodes: seq<Waiter>

    /** `tail` is the last waiter, or anything at all when none waits. */
    ghost predicate Valid()
      reads this, nodes
    {
      && (forall j, k :: 0 <= j < k < |nodes| ==> nodes[j] != nodes[k])
      && (forall k {:trigger nodes[k].next} :: 0 <= k < |nodes| ==>
            nodes[k].next == if k + 1 < |nodes| then nodes[k + 1] else null)
      && head == (if nodes == [] then null else nodes[0])
      && (nodes != [] ==> tail == nodes[|nodes| - 1])
    }

    ghost function View(): MutexState
      reads this
    {
      MutexState(locked, Tids(nodes))
    }

    constructor ()
      ensures Valid() && View() == MutexState(false, [])
    {
      locked, head, tail, nodes := false, null, null, [];
    }

    method Append(tid: nat)
      requires Valid()
      modifies `head, `tail, `nodes, nodes`next
      ensures Valid() && Tids(nodes) == Tids(old(nodes)) + [tid]
      ensures fresh(nodes[|nodes| - 1]) && nodes[..|nodes| - 1] == old(nodes)
    {
      var new_ := new Waiter(tid);
      if head == null {
        head := new_;
        tail := new_;
      } else {
        tail.next := new_;
        tail := new_;
      }
      nodes := nodes + [new_];
    }

    /** Returns at once with the mutex, or blocks the caller and switches. Before the
        first `pthread_create` the caller has no slot to block in. */
    method Lock(table: ThreadTable) returns (o: Option<Outcome>)
      requires Valid() && table.Valid()
      modifies this, nodes`next, table`tid, table.slots
      ensures Valid()
      ensures table.started ==> (table.View(), View(), o) == LockStep(old(table.View()), old(View()))
      ensures !table.started ==>
        table.View() == old(table.View()) && View() == MutexState(true, old(View()).queue)
        && o == if old(locked) then Some(OutOfTable) else None
      ensures o in {None, Some(Switched)} ==> table.Valid()
      ensures o.None? ==> nodes == old(nodes)
      ensures table.started && o.Some? ==>
        |nodes| == |old(nodes)| + 1 && nodes[..|old(nodes)|] == old(nodes) && fresh(nodes[|old(nodes)|])
    {
      if locked {
        if !table.started { return Some(OutOfTable); }
        table.slots[table.tid] := Tcb(Blocked);
        Append(table.tid);
        var turn := table.Schedule();
        o := Some(turn);
      } else {
        locked := true;
        o := None;
      }
    }

    /** Makes the longest waiter ready. The mutex is open even then. */
    method Unlock(table: ThreadTable)
      requires Valid() && forall k :: 0 <= k < |nodes| ==> Live(table.View(), nodes[k].tid)
      modifies this, table.slots
      ensures Valid() && (table.View(), View()) == UnlockStep(old(table.View()), old(View()), false)
      ensures nodes == if old(nodes) == [] then [] else old(nodes)[1..]
    {
      ghost var was, queue := table.slots[..], Tids(nodes);
      locked := false;
      if head != null {
        assert nodes != [] && queue[0] == head.tid && queue[1..] == Tids(nodes[1..]);
        table.slots[head.tid] := Tcb(Ready);
        head := head.next;
        assert head == if |nodes| > 1 then nodes[1] else null;
        nodes := nodes[1..];
        assert table.slots[..] == was[queue[0] := Tcb(Ready)] && Tids(nodes) == queue[1..];
      }
    }
  }

  // ---- Barriers

  datatype BarrierState = BarrierState(cnt: nat, ret: bool, bar: nat, tids: seq<nat>)

  ghost predicate BarrierSound(t: Table, b: BarrierState) {
    && b.cnt < b.bar == |b.tids| && (b.cnt > 0 ==> !b.ret)
    && forall i :: 0 <= i < b.bar ==> Live(t, b.tids[i])
  }

  function WakeAll(slots: seq<Slot>, tids: seq<nat>): (s: seq<Slot>)
    ensures |s| == |slots|
    ensures forall i :: 0 <= i < |slots| ==> s[i] == if i in tids then Tcb(Ready) else slots[i]
  {
    seq(|slots|, i requires 0 <= i < |slots| => if i in tids then Tcb(Ready) else slots[i])
  }

  function Blank(n: nat): (z: seq<nat>)
    ensures |z| == n
  {
    seq(n, _ => 0)
  }

  /** What a thread does once it is past the barrier: unless `ret` says that this
      has been done, it wakes the threads noted and is the one to return -1. */
  function FinishStep(t: Table, b: BarrierState): (r: (Table, BarrierState, Outcome, int))
    requires Sound(t) && Live(t, 0) && |b.tids| == b.bar && forall i :: 0 <= i < b.bar ==> Live(t, b.tids[i])
  {
    if b.ret then
      var (t', o) := Turn(t);
      (t', b, o, 0)
    else
      var (t', o) := Turn(t.(slots := WakeAll(t.slots, b.tids)));
      (t', BarrierState(0, true, b.bar, Blank(b.bar)), o, -1)
  }

  /** The caller is noted and blocks; the last one goes on. */
  function ArriveStep(t: Table, b: BarrierState): (r: (Table, BarrierState, Outcome, Option<int>))
    requires Sound(t) && Live(t, 0) && BarrierSound(t, b)
  {
    var t1 := SetStatus(t, t.tid, Blocked);
    var b1 := BarrierState(b.cnt + 1, b.cnt != 0 && b.ret, b.bar, b.tids[b.cnt := t.tid]);
    if b1.cnt < b1.bar then
      var (t', o) := Turn(t1);
      (t', b1, o, None)
    else
      var (t', b', o, v) := FinishStep(t1, b1);
      (t', b', o, Some(v))
  }

  class Barrier {
    var cnt: nat
    var ret: bool
    const bar: nat
    var tids: array<nat>

    function View(): BarrierState
      reads this, tids
    {
      BarrierState(cnt, ret, bar, tids[..])
    }

    constructor (count: nat)
      ensures View() == BarrierState(0, false, count, Blank(count)) && fresh(tids)
    {
      cnt, ret, bar := 0, false, count;
      tids := new nat[count](_ => 0);
      new;
      assert tids[..] == Blank(count);
    }

    method WakeNoted(table: ThreadTable)
      requires tids.Length == bar && forall i :: 0 <= i < bar ==> Live(table.View(), tids[i])
      modifies table.slots
      ensures table.slots[..] == WakeAll(old(table.slots[..]), tids[..])
    {
      for ii := 0 to bar
        invariant table.slots[..] == WakeAll(old(table.slots[..]), tids[..ii])
      {
        table.slots[tids[ii]] := Tcb(Ready);
        assert tids[..ii + 1] == tids[..ii] + [tids[ii]];
      }
      assert tids[..bar] == tids[..];
    }

    /** From the barrier on, up to the switch before the return of `value`. */
    method Finish(table: ThreadTable) returns (o: Outcome, value: int)
      requires table.Valid() && table.started && Live(table.View(), 0)
      requires tids.Length == bar && forall i :: 0 <= i < bar ==> Live(table.View(), tids[i])
      modifies this, table`tid, table.slots
      ensures (table.View(), View(), o, value) == FinishStep(old(table.View()), old(View()))
      ensures o.Switched? ==> table.Valid()
      ensures tids == old(tids) || fresh(tids)
    {
      if !ret {
        WakeNoted(table);
        tids := new nat[bar](_ => 0);
        assert tids[..] == Blank(bar);
        cnt := 0;
        ret := true;
        o := table.Schedule();
        value := -1;
      } else {
        o := table.Schedule();
        value := 0;
      }
    }

    /** From the call up to the first switch: a value is there for the last thread
        to arrive, and the others still have to come by `Finish`. A barrier for no
        thread has no room for a note. */
    method Arrive(table: ThreadTable) returns (o: Outcome, value: Option<int>)
      requires table.Valid() && table.started && Live(table.View(), 0)
      requires if bar == 0 then cnt == tids.Length == 0 else BarrierSound(table.View(), View())
      modifies this, tids, table`tid, table.slots
      ensures bar == 0 ==> o == OutOfTable && table.View() == old(table.View())
      ensures bar > 0 ==> (table.View(), View(), o, value) == ArriveStep(old(table.View()), old(View()))
      ensures o.Switched? ==> table.Valid()
      ensures tids == old(tids) || fresh(tids)
    {
      if cnt == 0 { ret := false; }
      if cnt == tids.Length { return OutOfTable, None; }
      tids[cnt] := table.tid;
      cnt := cnt + 1;
      table.slots[table.tid] := Tcb(Blocked);
      if cnt < bar {
        o := table.Schedule();
        value := None;
      } else {
        var v;
        o, v := Finish(table);
        value := Some(v);
      }
    }
  }
}
