/** The table of threads, and the round-robin scheduler over it. */
module Threads {
  datatype Option<T> = None | Some(value: T)

  datatype Status = Exited | Running | Ready | Blocked

  datatype Slot = Free | Tcb(status: Status)

  /** The slots, and which thread runs. */
  datatype Table = Table(slots: seq<Slot>, tid: nat)

  /** What became of a call that switches: another thread runs, the process has
      exited, or something past the end of a table, or not there yet, was used. */
  datatype Outcome = Switched | Finished | OutOfTable

  ghost predicate Sound(t: Table) {
    && |t.slots| >= 2 && t.tid < |t.slots| && t.slots[t.tid] != Free
    && forall i :: 0 <= i < |t.slots| && i != t.tid ==> t.slots[i] != Tcb(Running)
  }

  // ---- The ring of slots 0 to m - 1

  function Succ(p: nat, m: nat): (q: nat)
    requires p < m
    ensures q < m
  {
    if p + 1 == m then 0 else p + 1
  }

  /** How far ahead of `p` on the ring `q` is, `p` itself being a full turn away. */
  function Gap(p: nat, q: nat, m: nat): (g: nat)
    requires p < m && q < m
    ensures 1 <= g <= m
  {
    if q > p then q - p else q + m - p
  }

  /** A look at slot `p` ends the search. The last slot of the table is looked at
      only right after a thread before it that cannot run. */
  predicate Hit(slots: seq<Slot>, p: nat)
    requires p + 1 < |slots|
  {
    || slots[p] == Tcb(Ready)
    || (p + 2 == |slots| && slots[p] in {Tcb(Exited), Tcb(Blocked)} && slots[p + 1] == Tcb(Ready))
  }

  /** The thread it ends with. */
  function HitThread(slots: seq<Slot>, p: nat): (t: nat)
    requires p + 1 < |slots| && Hit(slots, p)
    ensures t < |slots| && slots[t] == Tcb(Ready)
    ensures slots[|slots| - 1] != Tcb(Ready) ==> t == p
  {
    if slots[p] == Tcb(Ready) then p else p + 1
  }

  /** The first hit from `p` on, up to and including `tid`. */
  function PickFrom(slots: seq<Slot>, tid: nat, p: nat): (r: Option<nat>)
    requires p + 1 < |slots| && tid + 1 < |slots|
    ensures r.Some? ==> r.value + 1 < |slots| && Hit(slots, r.value)
    ensures r.Some? ==> Gap(tid, p, |slots| - 1) <= Gap(tid, r.value, |slots| - 1)
    ensures forall q :: 0 <= q < |slots| - 1 && Gap(tid, p, |slots| - 1) <= Gap(tid, q, |slots| - 1) && Hit(slots, q) ==>
      r.Some? && Gap(tid, r.value, |slots| - 1) <= Gap(tid, q, |slots| - 1)
    decreases if p == tid then 0 else Gap(p, tid, |slots| - 1)
  {
    if Hit(slots, p) then Some(p) else if p == tid then None else PickFrom(slots, tid, Succ(p, |slots| - 1))
  }

  /** The first hit after `tid` in ring order, `tid` itself last. */
  function Pick(slots: seq<Slot>, tid: nat): (r: Option<nat>)
    requires tid + 1 < |slots|
    ensures r.Some? ==> r.value + 1 < |slots| && Hit(slots, r.value)
    ensures forall q :: 0 <= q < |slots| - 1 && Hit(slots, q) ==>
      r.Some? && Gap(tid, r.value, |slots| - 1) <= Gap(tid, q, |slots| - 1)
  {
    PickFrom(slots, tid, Succ(tid, |slots| - 1))
  }

  /** Only one slot can be the first hit. */
  lemma PickUnique(slots: seq<Slot>, tid: nat, p: nat)
    requires tid + 1 < |slots| && p + 1 < |slots| && Hit(slots, p)
    requires forall q :: 0 <= q < |slots| - 1 && Hit(slots, q) ==> Gap(tid, p, |slots| - 1) <= Gap(tid, q, |slots| - 1)
    ensures Pick(slots, tid) == Some(p)
  {
  }

  // ---- The search as a walk that may go round more than once

  /** No hit among the slots walked over, all of them if `full`; `cnt` live ones. */
  ghost predicate Searched(slots: seq<Slot>, tid: nat, pos: nat, full: bool, cnt: nat) {
    var m := |slots| - 1;
    && tid < m && pos < m
    && if full then forall q :: 0 <= q < m ==> !Hit(slots, q)
       else cnt < Gap(tid, pos, m) && forall q :: 0 <= q < m && Gap(tid, q, m) < Gap(tid, pos, m) ==> !Hit(slots, q)
  }

  /** How many slots lie before the next live one at most, `tid` being live. */
  ghost function Left(tid: nat, pos: nat, m: nat): (g: nat)
    requires tid < m && pos < m
  {
    if pos == tid then 0 else Gap(pos, tid, m)
  }

  lemma SearchStart(slots: seq<Slot>, tid: nat)
    requires tid + 1 < |slots|
    ensures Searched(slots, tid, Succ(tid, |slots| - 1), false, 0)
  {
  }

  lemma SearchOn(slots: seq<Slot>, tid: nat, pos: nat, full: bool, cnt: nat)
    requires Searched(slots, tid, pos, full, cnt) && !Hit(slots, pos)
    ensures Searched(slots, tid, Succ(pos, |slots| - 1), full || pos == tid, cnt)
    ensures Searched(slots, tid, Succ(pos, |slots| - 1), full || pos == tid, cnt + 1)
    ensures pos != tid ==> Left(tid, Succ(pos, |slots| - 1), |slots| - 1) < Left(tid, pos, |slots| - 1)
  {
  }

  lemma SearchEnds(slots: seq<Slot>, tid: nat, pos: nat, full: bool, cnt: nat)
    requires Searched(slots, tid, pos, full, cnt)
    ensures Hit(slots, pos) ==> Pick(slots, tid) == Some(pos)
    ensures cnt >= |slots| - 1 ==> Pick(slots, tid) == None
  {
  }

  /** A running thread is made ready before the search. */
  function Requeue(t: Table): (slots: seq<Slot>)
    requires t.tid < |t.slots|
    ensures |slots| == |t.slots|
  {
    if t.slots[t.tid] == Tcb(Running) then t.slots[t.tid := Tcb(Ready)] else t.slots
  }

  function Turn(t: Table): (r: (Table, Outcome))
    requires Sound(t)
    ensures |r.0.slots| == |t.slots| && (r.1.Switched? ==> Sound(r.0) && r.0.slots[r.0.tid] == Tcb(Running))
  {
    var slots := Requeue(t);
    if t.tid + 1 == |slots| then (Table(slots, t.tid), OutOfTable)
    else
      match Pick(slots, t.tid)
      case None => (Table(slots, t.tid), Finished)
      case Some(p) =>
        var u := HitThread(slots, p);
        (Table(slots[u := Tcb(Running)], u), Switched)
  }

  /** With the last slot unused, the process exits only if no thread is ready, and
      else the nearest ready one after `tid` runs. */
  lemma ScheduleNearest(t: Table)
    requires Sound(t) && t.slots[|t.slots| - 1] == Free
    ensures var slots, (t', o) := Requeue(t), Turn(t);
      var m := |slots| - 1;
      && t.tid < m && o != OutOfTable
      && (o.Finished? <==> forall q :: 0 <= q < m ==> slots[q] != Tcb(Ready))
      && (o.Switched? ==>
           && t'.tid < m && slots[t'.tid] == Tcb(Ready) && t'.slots == slots[t'.tid := Tcb(Running)]
           && forall q :: 0 <= q < m && slots[q] == Tcb(Ready) ==> Gap(t.tid, t'.tid, m) <= Gap(t.tid, q, m))
  {
    var slots := Requeue(t);
    assert forall q :: 0 <= q < |slots| - 1 ==> (Hit(slots, q) <==> slots[q] == Tcb(Ready));
  }

  /** The thread in the last slot runs just when it is ready, the one before it is
      there but cannot run, and nobody nearer is ready; and its own next call of the
      scheduler reads past the end of the table. */
  lemma LastSlot(t: Table)
    requires Sound(t) && t.tid + 1 < |t.slots|
    ensures var slots, (t', o), m := Requeue(t), Turn(t), |t.slots| - 1;
      && (o.Switched? && t'.tid == m <==>
           && slots[m] == Tcb(Ready) && slots[m - 1] in {Tcb(Exited), Tcb(Blocked)}
           && forall q :: 0 <= q < m && Gap(t.tid, q, m) < Gap(t.tid, m - 1, m) ==> slots[q] != Tcb(Ready))
      && (o.Switched? && t'.tid == m ==> Turn(t').1 == OutOfTable)
  {
    var slots, m := Requeue(t), |t.slots| - 1;
    assert forall q :: 0 <= q < m - 1 ==> (Hit(slots, q) <==> slots[q] == Tcb(Ready));
    if slots[m] == Tcb(Ready) && slots[m - 1] in {Tcb(Exited), Tcb(Blocked)} {
      assert Hit(slots, m - 1);
    }
  }

  /** A ready thread that is not chosen is nearer to its turn. */
  lemma TurnNearer(t: Table, u: nat)
    requires Sound(t) && t.slots[|t.slots| - 1] == Free
    requires u + 1 < |t.slots| && Requeue(t)[u] == Tcb(Ready)
    ensures Turn(t).1.Switched? && Turn(t).0.tid + 1 < |t.slots|
    ensures var c, m := Turn(t).0.tid, |t.slots| - 1; c == u || Gap(c, u, m) < Gap(t.tid, u, m)
  {
    ScheduleNearest(t);
  }

  /** `calls[k]` is the table at the k-th call of the scheduler; between two calls
      other things may change, but not which thread runs. */
  ghost predicate Calls(calls: seq<Table>, m: nat) {
    && (forall k :: 0 <= k < |calls| ==> Sound(calls[k]) && |calls[k].slots| == m + 1 && calls[k].slots[m] == Free)
    && forall k :: 0 <= k < |calls| - 1 ==> calls[k + 1].tid == Turn(calls[k]).0.tid
  }

  /** Round robin: a thread ready at every call runs after at most as many calls as
      it is slots away, so within one turn of the ring. */
  lemma {:induction false} BoundedWait(calls: seq<Table>, m: nat, u: nat) returns (k: nat)
    requires Calls(calls, m) && u < m && calls != [] && calls[0].tid < m
    requires forall k :: 0 <= k < |calls| ==> Requeue(calls[k])[u] == Tcb(Ready)
    requires Gap(calls[0].tid, u, m) <= |calls|
    ensures k < Gap(calls[0].tid, u, m) && Turn(calls[k]).1.Switched? && Turn(calls[k]).0.tid == u
    decreases |calls|
  {
    hide Requeue, Turn, Gap;
    TurnNearer(calls[0], u);
    k := 0;
    if Turn(calls[0]).0.tid != u {
      var rest := calls[1..];
      assert forall j :: 0 <= j < |rest| ==> rest[j] == calls[j + 1];
      assert Gap(Turn(calls[0]).0.tid, u, m) >= 1;
      k := BoundedWait(rest, m, u);
      k := k + 1;
    }
  }

  // ---- New threads

  /** The first free slot from `k` on. */
  function FirstFree(slots: seq<Slot>, k: nat): (r: nat)
    requires k <= |slots|
    ensures k <= r <= |slots| && (r < |slots| ==> slots[r] == Free)
    ensures forall i :: k <= i < r ==> slots[i] != Free
    decreases |slots| - k
  {
    if k == |slots| || slots[k] == Free then k else FirstFree(slots, k + 1)
  }

  class ThreadTable {
    const max: nat
    const slots: array<Slot>
    var tid: nat
    var started: bool

    ghost predicate Valid()
      reads this, slots
    {
      && slots.Length == max >= 2
      && if started then Sound(View()) else tid == 0 && forall i :: 0 <= i < max ==> slots[i] == Free
    }

    ghost function View(): Table
      reads this, slots
    {
      Table(slots[..], tid)
    }

    constructor (max: nat)
      requires max >= 2
      ensures Valid() && fresh(slots) && !started && this.max == max
    {
      this.max := max;
      slots := new Slot[max](_ => Free);
      tid, started := 0, false;
    }

    /** The walk takes the last slot for slot 0. */
    ghost function Ring(next: nat): nat {
      if next + 1 == max then 0 else next
    }

    /** Looks for a thread to run, from the slot after the caller's on. The loop
        ends: each round counts one more live slot or comes nearer to the caller's. */
    method Search() returns (found: bool, next: nat)
      requires slots.Length == max && tid + 1 < max && slots[tid] != Free
      requires forall i :: 0 <= i < max ==> slots[i] != Tcb(Running)
      ensures found <==> Pick(slots[..], tid).Some?
      ensures found ==> next == HitThread(slots[..], Pick(slots[..], tid).value)
    {
      hide Gap, Pick, Searched, Left;
      ghost var s, m := slots[..], max - 1;
      next := tid + 1;
      var cnt: nat := 0;
      ghost var full := false;
      SearchStart(s, tid);
      while true
        invariant next < max && cnt < max && Searched(s, tid, Ring(next), full, cnt)
        decreases max - cnt, Left(tid, Ring(next), m)
      {
        if next == max - 1 { next := 0; }
        ghost var at := next;
        if slots[next] != Free {
          SearchEnds(s, tid, at, full, cnt);
          ghost var status := slots[at].status;
          assert status.Exited? || status.Blocked? || status.Ready? || status.Running?;
          if slots[next] == Tcb(Exited) || slots[next] == Tcb(Blocked) { next := next + 1; }
          if slots[next] == Tcb(Ready) {
            if !Hit(s, at) {
              SearchOn(s, tid, at, full, cnt);
              SearchEnds(s, tid, next, full || at == tid, cnt);
            }
            return true, next;
          }
          assert next == at + 1 && !Hit(s, at);
          SearchOn(s, tid, at, full, cnt);
          full := full || at == tid;
          cnt := cnt + 1;
          if cnt == max {
            SearchEnds(s, tid, Ring(next), full, cnt);
            return false, next;
          }
        } else {
          SearchOn(s, tid, at, full, cnt);
          next := next + 1;
        }
      }
    }

    /** Switches to the nearest thread that can run. */
    method Schedule() returns (o: Outcome)
      requires Valid() && started
      modifies `tid, slots
      ensures (View(), o) == Turn(old(View()))
      ensures o.Switched? ==> Valid()
    {
      ghost var before := View();
      if slots[tid] == Tcb(Running) { slots[tid] := Tcb(Ready); }
      assert slots[..] == Requeue(before);
      if tid + 1 == max { return OutOfTable; }
      var found, next := Search();
      if !found { return Finished; }
      tid := next;
      slots[tid] := Tcb(Running);
      o := Switched;
    }

    /** Gives the lowest free slot to a new thread. The first call also enters the
        caller as thread 0. */
    method Create() returns (r: int, thread: nat)
      requires Valid()
      modifies this, slots
      ensures Valid() && started
      ensures old(started) ==> tid == old(tid)
      ensures !old(started) ==> tid == 0 && thread == 1 && r == 0 && slots[0] == Tcb(Running)
      ensures var was := if old(started) then old(slots[..]) else old(slots[..])[0 := Tcb(Running)];
        thread == FirstFree(was, 1) && (r == if thread < max then 0 else -1)
        && slots[..] == if thread < max then was[thread := Tcb(Ready)] else was
    {
      if !started {
        started := true;
        slots[0] := Tcb(Running);
        tid := 0;
      }
      thread := 1;
      while slots[thread] != Free
        invariant 1 <= thread < max && FirstFree(slots[..], 1) == FirstFree(slots[..], thread)
        decreases max - thread
      {
        if thread == max - 1 { return -1, max; }
        thread := thread + 1;
      }
      slots[thread] := Tcb(Ready);
      r := 0;
    }

    /** Marks the running thread, whose slot stays taken, and switches away. */
    method Exit() returns (o: Outcome)
      requires Valid() && started
      modifies `tid, slots
      ensures (View(), o) == Turn(Table(old(slots[..])[old(tid) := Tcb(Exited)], old(tid)))
      ensures o.Switched? ==> Valid()
    {
      slots[tid] := Tcb(Exited);
      o := Schedule();
    }
  }
}
