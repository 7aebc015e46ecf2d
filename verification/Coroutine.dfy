/**
 * The cooperative scheduler (cpp/cppcoro/01.coroutine_ucontext.cpp).
 *
 * A coroutine body is cut at its yields into segments; a context switch runs one
 * segment to its end.  Bodies do not create or resume coroutines themselves.
 * `trace` is history: which segment ran, under the id the body could read with
 * `current`.
 */
module Coroutines {
  import opened Bytes

  const SCHEDULER_ID := 0

  datatype State = Ready | Running | Suspend | Dead

  /** A coroutine object: how often its body yields, and the segment its saved context continues with. */
  datatype Coroutine = Coroutine(id: nat, pauses: nat, state: State, ctx: nat)

  type Table = map<nat, Coroutine>

  datatype Step = Step(id: nat, seg: nat)

  function At(cs: Table, id: nat): nat { if id in cs then cs[id].ctx else 0 }

  function End(cs: Table, id: nat): nat { if id in cs then cs[id].pauses + 1 else 0 }

  // ----- what a fair run is

  /** The round in which a segment runs. */
  function Round(e: Step, start: Table): int { e.seg as int - At(start, e.id) as int }

  predicate Within(e: Step, start: Table, upto: Table) {
    At(start, e.id) <= e.seg < At(upto, e.id)
  }

  /** From the positions in `start` to those in `upto`: every segment between them once, round by round. */
  ghost predicate RoundRobin(t: seq<Step>, start: Table, upto: Table) {
    && (forall id {:trigger At(upto, id)} :: At(start, id) <= At(upto, id))
    && (forall i {:trigger t[i]} | 0 <= i < |t| :: Within(t[i], start, upto))
    && (forall e: Step {:trigger Within(e, start, upto)} | Within(e, start, upto) :: e in t)
    && (forall i, j {:trigger t[i], t[j]} | 0 <= i < j < |t| :: t[i] != t[j] && Round(t[i], start) <= Round(t[j], start))
  }

  /** Segments that `id` ran, in the order of the trace. */
  function Own(t: seq<Step>, id: nat): seq<nat> {
    if t == [] then []
    else Own(t[..|t| - 1], id) + if t[|t| - 1].id == id then [t[|t| - 1].seg] else []
  }

  /** a, a + 1, ..., b - 1. */
  function Count(a: nat, b: nat): (s: seq<nat>)
    ensures |s| == if a <= b then b - a else 0
    ensures forall i | 0 <= i < |s| :: s[i] == a + i
  {
    if b <= a then [] else Count(a, b - 1) + [b - 1]
  }

  /** `upto'` is `upto` with the position of `id` moved to n. */
  ghost predicate Moved(upto: Table, upto': Table, id: nat, n: nat) {
    At(upto', id) == n && forall x {:trigger At(upto', x)} {:trigger At(upto, x)} | x != id :: At(upto', x) == At(upto, x)
  }

  /** One more segment, in a round that is not behind the others. */
  lemma {:induction false} RunOne(t: seq<Step>, start: Table, upto: Table, upto': Table, id: nat)
    requires RoundRobin(t, start, upto) && Moved(upto, upto', id, At(upto, id) + 1)
    requires forall i | 0 <= i < |t| :: Round(t[i], start) <= At(upto, id) - At(start, id)
    ensures RoundRobin(t + [Step(id, At(upto, id))], start, upto')
  {
    var e := Step(id, At(upto, id));
    var t' := t + [e];
    assert !Within(e, start, upto);
    forall x: Step | Within(x, start, upto') ensures x in t' {
      if x != e { assert Within(x, start, upto); }
    }
    forall i | 0 <= i < |t'| ensures Within(t'[i], start, upto') {
      if i < |t| { assert Within(t[i], start, upto); }
    }
  }

  /** The last segment was the newest of its coroutine; what came before is a fair run too. */
  lemma {:induction false} Peel(t: seq<Step>, start: Table, upto: Table, upto': Table)
    requires RoundRobin(t, start, upto) && t != []
    requires var e := t[|t| - 1]; Moved(upto, upto', e.id, e.seg)
    ensures var e := t[|t| - 1];
            At(upto, e.id) == e.seg + 1 && RoundRobin(t[..|t| - 1], start, upto')
  {
    var e, s := t[|t| - 1], t[..|t| - 1];
    var newest := Step(e.id, At(upto, e.id) - 1);
    assert Within(newest, start, upto);
    assert Round(newest, start) <= Round(e, start) by {
      var at :| 0 <= at < |t| && t[at] == newest;
    }
    forall i | 0 <= i < |s| ensures Within(s[i], start, upto') {
      assert s[i] == t[i] && t[i] != e && Within(t[i], start, upto);
    }
    forall x: Step | Within(x, start, upto') ensures x in s {
      assert Within(x, start, upto);
      var j :| 0 <= j < |t| && t[j] == x;
      assert x != e;
      assert s[j] == x;
    }
  }

  /** The table without the last segment. */
  function Before(t: seq<Step>, upto: Table): Table
    requires t != []
  {
    var e := t[|t| - 1];
    if e.id in upto then upto[e.id := upto[e.id].(ctx := e.seg)] else upto
  }

  lemma {:induction false} PeelLast(t: seq<Step>, start: Table, upto: Table)
    requires RoundRobin(t, start, upto) && t != []
    ensures var e := t[|t| - 1];
            e.id in upto && upto[e.id].ctx == e.seg + 1 && RoundRobin(t[..|t| - 1], start, Before(t, upto))
  {
    var e := t[|t| - 1];
    assert Within(e, start, upto);
    Peel(t, start, upto, Before(t, upto));
  }

  /** Every coroutine runs its segments in its own order, none left out. */
  lemma {:induction false} OwnOrder(t: seq<Step>, start: Table, upto: Table, id: nat)
    requires RoundRobin(t, start, upto)
    ensures Own(t, id) == Count(At(start, id), At(upto, id))
    decreases |t|
  {
    if t == [] {
      assert !Within(Step(id, At(start, id)), start, upto);
    } else {
      PeelLast(t, start, upto);
      OwnOrder(t[..|t| - 1], start, Before(t, upto), id);
      assert At(upto, id) >= At(start, id);
    }
  }

  /** The positions reached when `t` has run. */
  function Positions(t: seq<Step>, start: Table): Table {
    map id | id in start :: start[id].(ctx := start[id].ctx + |Own(t, id)|)
  }

  /** At every moment the run so far is a fair run to the positions reached. */
  lemma {:induction false} PrefixFair(t: seq<Step>, start: Table, upto: Table, n: nat)
    requires RoundRobin(t, start, upto) && n <= |t| && start.Keys == upto.Keys
    ensures RoundRobin(t[..n], start, Positions(t[..n], start))
    decreases |t|
  {
    if n == |t| {
      forall id ensures At(upto, id) == At(Positions(t, start), id) { OwnOrder(t, start, upto, id); }
      SamePositions(t, start, upto, Positions(t, start));
      assert t[..n] == t;
    } else {
      PeelLast(t, start, upto);
      PrefixFair(t[..|t| - 1], start, Before(t, upto), n);
      assert t[..|t| - 1][..n] == t[..n];
    }
  }

  lemma SamePositions(t: seq<Step>, start: Table, upto: Table, upto': Table)
    requires RoundRobin(t, start, upto) && forall id :: At(upto, id) == At(upto', id)
    ensures RoundRobin(t, start, upto')
  {
    forall i | 0 <= i < |t| ensures Within(t[i], start, upto') { assert Within(t[i], start, upto); }
    forall e: Step | Within(e, start, upto') ensures e in t { assert Within(e, start, upto); }
    forall id ensures At(start, id) <= At(upto', id) { assert At(upto, id) == At(upto', id); }
  }

  lemma InRun(t: seq<Step>, start: Table, upto: Table, e: Step)
    requires RoundRobin(t, start, upto)
    ensures e in t <==> Within(e, start, upto)
  {
  }

  /** A segment of an earlier round has run before one of a later round. */
  lemma {:induction false} EarlierFirst(t: seq<Step>, start: Table, upto: Table, n: nat, e: Step, f: Step)
    requires RoundRobin(t, start, upto) && n <= |t| && e in t[..n] && f in t
    requires Round(f, start) < Round(e, start)
    ensures f in t[..n]
  {
    var i :| 0 <= i < n && t[i] == e;
    var j :| 0 <= j < |t| && t[j] == f;
    assert j < n;
    assert t[..n][j] == f;
  }

  /** Fairness: at no moment is one coroutine two segments ahead of another that is not at its end. */
  lemma {:induction false} NeverTwoAhead(t: seq<Step>, start: Table, upto: Table, n: nat, a: nat, b: nat)
    requires RoundRobin(t, start, upto) && n <= |t| && start.Keys == upto.Keys
    ensures |Own(t[..n], a)| <= |Own(t[..n], b)| + 1 || At(start, b) + |Own(t[..n], b)| >= At(upto, b)
  {
    var p, now := t[..n], Positions(t[..n], start);
    PrefixFair(t, start, upto, n);
    OwnOrder(p, start, now, a);
    OwnOrder(p, start, now, b);
    var nb := |Own(p, b)|;
    if |Own(p, a)| >= nb + 2 && At(start, b) + nb < At(upto, b) {
      var ahead, behind := Step(a, At(start, a) + nb + 1), Step(b, At(start, b) + nb);
      InRun(p, start, now, ahead);
      InRun(t, start, upto, behind);
      EarlierFirst(t, start, upto, n, ahead, behind);
      InRun(p, start, now, behind);
      assert false;
    }
  }

  // ----- rounds

  function Min(a: nat, b: nat): nat { if a < b then a else b }

  /** The most segments any coroutine has left. */
  ghost function Longest(cs: Table): (n: nat)
    ensures forall id | id in cs :: End(cs, id) - At(cs, id) <= n
    ensures n > 0 ==> exists id | id in cs :: End(cs, id) - At(cs, id) == n
  {
    if cs == map[] then 0
    else
      var id :| id in cs;
      var rest := cs - {id};
      var n, left := Longest(rest), End(cs, id) - At(cs, id);
      assert forall x | x in rest :: End(rest, x) == End(cs, x) && At(rest, x) == At(cs, x);
      assert forall x | x in cs :: x == id || x in rest;
      if left > n then left else n
  }

  predicate StepAt(start: Table, cs: Table, k: nat, rest: set<nat>, id: nat) {
    && (id in start <==> id in cs) && End(start, id) == End(cs, id) && At(start, id) <= End(cs, id)
    && At(cs, id) == Min(At(start, id) + if id in rest then k else k + 1, End(cs, id))
  }

  /** After k rounds everyone has run k more segments, or all it has; those not in `rest` are a round ahead. */
  ghost predicate InStep(start: Table, cs: Table, k: nat, rest: set<nat>) {
    forall id {:trigger StepAt(start, cs, k, rest, id)} :: StepAt(start, cs, k, rest, id)
  }

  /** A fair run that is in round k, with the turns of `rest` still to come. */
  ghost predicate Fair(run: seq<Step>, start: Table, cs: Table, k: nat, rest: set<nat>) {
    RoundRobin(run, start, cs) && InStep(start, cs, k, rest)
  }

  /** Someone in `ids` has a k-th segment left. */
  ghost predicate Unfinished(start: Table, k: nat, ids: set<nat>) {
    exists id | id in ids :: At(start, id) + k < End(start, id)
  }

  // ----- the scheduler

  /** At rest the state says how far the body is. */
  predicate AtRest(c: Coroutine) {
    && (c.state == Ready ==> c.ctx == 0)
    && (c.state == Suspend ==> 0 < c.ctx <= c.pauses)
    && (c.state == Dead <==> c.ctx == c.pauses + 1)
    && c.state != Running && c.ctx <= c.pauses + 1
  }

  predicate Named(cs: Table, id: nat) {
    id in cs ==> id != SCHEDULER_ID && cs[id].id == id
  }

  predicate RestsAt(cs: Table, id: nat) {
    Named(cs, id) && (id in cs ==> AtRest(cs[id]))
  }

  /** Nothing runs. */
  ghost predicate Idle(cs: Table, runningId: nat) {
    runningId == SCHEDULER_ID && forall id {:trigger RestsAt(cs, id)} :: RestsAt(cs, id)
  }

  /** One coroutine runs, and `runningId` names it. */
  ghost predicate Busy(cs: Table, runningId: nat) {
    && runningId in cs && Named(cs, runningId) && cs[runningId].state == Running && cs[runningId].ctx <= cs[runningId].pauses
    && forall id {:trigger RestsAt(cs, id)} | id != runningId :: RestsAt(cs, id)
  }

  /** The table after one more segment of `id`. */
  function Ran(cs: Table, id: nat): Table
    requires id in cs
  {
    var n := cs[id].ctx + 1;
    cs[id := cs[id].(ctx := n, state := if n <= cs[id].pauses then Suspend else Dead)]
  }

  lemma {:induction false} RanOnce(cs: Table, id: nat)
    requires Idle(cs, SCHEDULER_ID) && id in cs && cs[id].state != Dead
    ensures Idle(Ran(cs, id), SCHEDULER_ID) && Moved(cs, Ran(cs, id), id, At(cs, id) + 1) && At(cs, id) < End(cs, id)
  {
    assert RestsAt(cs, id);
    forall x ensures RestsAt(Ran(cs, id), x) { assert RestsAt(cs, x); }
  }

  /** What the turn of `id` does to a fair run. */
  lemma {:induction false} TurnTaken(run: seq<Step>, start: Table, cs: Table, k: nat, rest: set<nat>, id: nat)
    requires Idle(cs, SCHEDULER_ID) && Fair(run, start, cs, k, rest) && id in rest && id in cs
    ensures cs[id].state != Dead <==> At(start, id) + k < End(start, id)
    ensures cs[id].state == Dead ==> Fair(run, start, cs, k, rest - {id})
    ensures cs[id].state != Dead ==> Fair(run + [Step(id, cs[id].ctx)], start, Ran(cs, id), k, rest - {id})
  {
    assert RestsAt(cs, id) && StepAt(start, cs, k, rest, id);
    if cs[id].state != Dead {
      RanOnce(cs, id);
      RoundsSoFar(run, start, cs, k, rest);
      RunOne(run, start, cs, Ran(cs, id), id);
      forall x ensures StepAt(start, Ran(cs, id), k, rest - {id}, x) { assert StepAt(start, cs, k, rest, x); }
    } else {
      forall x ensures StepAt(start, cs, k, rest - {id}, x) { assert StepAt(start, cs, k, rest, x); }
    }
  }

  lemma {:induction false} RoundsSoFar(t: seq<Step>, start: Table, cs: Table, k: nat, rest: set<nat>)
    requires Fair(t, start, cs, k, rest)
    ensures forall i | 0 <= i < |t| :: Round(t[i], start) <= k
  {
    forall i | 0 <= i < |t| ensures Round(t[i], start) <= k {
      assert Within(t[i], start, cs) && StepAt(start, cs, k, rest, t[i].id);
    }
  }

  lemma {:induction false} OneLess(start: Table, k: nat, ids: set<nat>, rest: set<nat>, id: nat)
    requires id in rest && id in ids
    ensures Unfinished(start, k, ids - (rest - {id})) <==> Unfinished(start, k, ids - rest) || At(start, id) + k < End(start, id)
  {
    if At(start, id) + k < End(start, id) {
      assert id in ids - (rest - {id});
    }
    if x :| x in ids - rest && At(start, x) + k < End(start, x) {
      assert x in ids - (rest - {id});
    }
  }

  /** A round in which nobody had anything left ends the run; any other brings it closer to its end. */
  lemma {:induction false} RoundsLeft(start: Table, cs: Table, k: nat)
    requires InStep(start, cs, k, {}) && k <= Longest(start)
    ensures Unfinished(start, k, start.Keys) ==> k < Longest(start) && InStep(start, cs, k + 1, start.Keys)
    ensures !Unfinished(start, k, start.Keys) ==> k == Longest(start) && forall id :: At(cs, id) == End(cs, id)
  {
    if Unfinished(start, k, start.Keys) {
      var next := k + 1;
      forall id ensures StepAt(start, cs, next, start.Keys, id) { assert StepAt(start, cs, k, {}, id); }
    } else {
      forall id {:trigger At(cs, id)} ensures At(cs, id) == End(cs, id) {
        assert StepAt(start, cs, k, {}, id);
        assert id in start ==> At(start, id) + k >= End(start, id);
      }
      assert forall id | id in start :: End(start, id) - At(start, id) <= k;
    }
  }

  class Scheduler {
    var coroutines: Table
    var runningId: nat
    var allocId: nat
    ghost var trace: seq<Step>

    constructor ()
      ensures Idle(coroutines, runningId) && coroutines == map[] && allocId == 1 && trace == []
    {
      coroutines, runningId, allocId, trace := map[], SCHEDULER_ID, 1, [];
    }

    /** `create`; the id counter wraps, and then meets the scheduler's own id. */
    method Create(pauses: nat) returns (id: nat)
      requires Idle(coroutines, runningId)
      modifies this`coroutines, this`allocId
      ensures id == old(allocId) && allocId == (old(allocId) + 1) % U32
      ensures coroutines == old(coroutines)[id := Coroutine(id, pauses, Ready, 0)]
      ensures Idle(coroutines, runningId) <==> id != SCHEDULER_ID
    {
      id := allocId;
      allocId := (allocId + 1) % U32;
      coroutines := coroutines[id := Coroutine(id, pauses, Ready, 0)];
      forall x | x != id ensures RestsAt(coroutines, x) { assert RestsAt(old(coroutines), x); }
      assert RestsAt(coroutines, id) <==> id != SCHEDULER_ID;
    }

    /** The body runs to its next yield or its end; `runningId` is what it reads with `current`. */
    method RunSegment()
      requires Busy(coroutines, runningId)
      modifies this`coroutines, this`trace
      ensures var c := old(coroutines)[runningId];
              coroutines == old(coroutines)[runningId := c.(ctx := c.ctx + 1)] && trace == old(trace) + [Step(runningId, c.ctx)]
    {
      var c := coroutines[runningId];
      trace := trace + [Step(runningId, c.ctx)];
      coroutines := coroutines[runningId := c.(ctx := c.ctx + 1)];
    }

    /** `yield`; outside a coroutine it does nothing. */
    method Yield()
      requires runningId != SCHEDULER_ID ==> runningId in coroutines
      modifies this`runningId, this`coroutines
      ensures runningId == SCHEDULER_ID
      ensures var id := old(runningId);
              coroutines == if id == SCHEDULER_ID then old(coroutines) else old(coroutines)[id := old(coroutines)[id].(state := Suspend)]
    {
      var id := runningId;
      if id == SCHEDULER_ID { return; }
      coroutines := coroutines[id := coroutines[id].(state := Suspend)];
      runningId := SCHEDULER_ID;
    }

    /** The end of `coroutine_entry`. */
    method Exit()
      requires runningId in coroutines
      modifies this`runningId, this`coroutines
      ensures runningId == SCHEDULER_ID
      ensures var id := old(runningId); coroutines == old(coroutines)[id := old(coroutines)[id].(state := Dead)]
    {
      coroutines := coroutines[runningId := coroutines[runningId].(state := Dead)];
      runningId := SCHEDULER_ID;
    }

    /** `swapcontext` into the running coroutine, until control is back in the scheduler. */
    method SwapIn()
      requires Busy(coroutines, runningId)
      modifies this`coroutines, this`runningId, this`trace
      ensures runningId == SCHEDULER_ID && coroutines == Ran(old(coroutines), old(runningId))
      ensures trace == old(trace) + [Step(old(runningId), old(coroutines)[old(runningId)].ctx)]
    {
      RunSegment();
      if coroutines[runningId].ctx <= coroutines[runningId].pauses { Yield(); } else { Exit(); }
    }

    /** `resume`: one segment of a coroutine that is not dead; a dead one stays dead. */
    method Resume(id: nat)
      requires Idle(coroutines, runningId) && id in coroutines
      modifies this`coroutines, this`runningId, this`trace
      ensures Idle(coroutines, runningId)
      ensures if old(coroutines)[id].state == Dead then coroutines == old(coroutines) && trace == old(trace)
              else coroutines == Ran(old(coroutines), id) && trace == old(trace) + [Step(id, old(coroutines)[id].ctx)]
    {
      var c := coroutines[id];
      if c.state == Dead { return; }
      RanOnce(coroutines, id);
      Switch(coroutines, id);
      ghost var cs := coroutines;
      match c.state {
        case Ready =>
          // a fresh stack, about to enter the body
          coroutines := coroutines[id := c.(ctx := 0, state := Running)];
          runningId := id;
          SwapIn();
          assert coroutines == Ran(cs, id);
        case Suspend =>
          coroutines := coroutines[id := c.(state := Running)];
          runningId := id;
          SwapIn();
          assert coroutines == Ran(cs, id);
        case _ =>
      }
    }

    /** One round of `schedule`; the map yields its keys in any order. */
    method Pass(ghost before: seq<Step>, ghost run: seq<Step>, ghost start: Table, ghost k: nat) returns (active: bool, ghost run': seq<Step>)
      requires Idle(coroutines, runningId) && trace == before + run
      requires Fair(run, start, coroutines, k, start.Keys) && start.Keys == coroutines.Keys
      modifies this`coroutines, this`runningId, this`trace
      ensures Idle(coroutines, runningId) && trace == before + run'
      ensures Fair(run', start, coroutines, k, {}) && start.Keys == coroutines.Keys
      ensures active <==> Unfinished(start, k, start.Keys)
    {
      active, run' := false, run;
      var rest := coroutines.Keys;
      while rest != {}
        invariant Idle(coroutines, runningId) && trace == before + run'
        invariant Fair(run', start, coroutines, k, rest) && start.Keys == coroutines.Keys && rest <= start.Keys
        invariant active <==> Unfinished(start, k, start.Keys - rest)
        decreases |rest|
      {
        var id :| id in rest;
        TurnTaken(run', start, coroutines, k, rest, id);
        OneLess(start, k, start.Keys, rest, id);
        if coroutines[id].state != Dead {
          active := true;
          run' := run' + [Step(id, coroutines[id].ctx)];
          Resume(id);
        }
        rest := rest - {id};
      }
      assert start.Keys - {} == start.Keys;
    }

    /** `schedule` ends, with every coroutine run to its end in fair rounds. */
    method Schedule() returns (ghost run: seq<Step>, ghost rounds: nat)
      requires Idle(coroutines, runningId)
      modifies this`coroutines, this`runningId, this`trace
      ensures Idle(coroutines, runningId) && coroutines.Keys == old(coroutines).Keys
      ensures forall id | id in coroutines :: coroutines[id].state == Dead && End(coroutines, id) == End(old(coroutines), id)
      ensures trace == old(trace) + run && RoundRobin(run, old(coroutines), coroutines)
      ensures rounds == Longest(old(coroutines))
    {
      ghost var start, before := coroutines, trace;
      run, rounds := [], 0;
      forall id ensures StepAt(start, start, 0, start.Keys, id) { assert RestsAt(start, id); }
      while true
        invariant Idle(coroutines, runningId) && trace == before + run && start.Keys == coroutines.Keys
        invariant Fair(run, start, coroutines, rounds, start.Keys) && rounds <= Longest(start)
        decreases Longest(start) - rounds
      {
        var active;
        active, run := Pass(before, run, start, rounds);
        RoundsLeft(start, coroutines, rounds);
        if !active { break; }
        rounds := rounds + 1;
      }
      forall id | id in coroutines ensures coroutines[id].state == Dead && End(coroutines, id) == End(start, id) {
        assert RestsAt(coroutines, id) && StepAt(start, coroutines, rounds, {}, id);
      }
    }
  }

  /** Marking `id` as running makes the scheduler busy with it. */
  lemma Switch(cs: Table, id: nat)
    requires Idle(cs, SCHEDULER_ID) && id in cs && cs[id].state != Dead
    ensures Busy(cs[id := cs[id].(state := Running)], id)
    ensures cs[id].state == Suspend || (cs[id].state == Ready && cs[id].ctx == 0)
  {
    assert RestsAt(cs, id);
    var now := cs[id := cs[id].(state := Running)];
    forall x {:trigger RestsAt(now, x)} | x != id ensures RestsAt(now, x) { assert RestsAt(cs, x); }
  }
}
