/**
 * Two runs of the signal machine: a slot called though at no moment of its turn it
 * was both connected and unblocked, and a slot called after it was taken off the
 * list (cpp/sigslot/palacaze/include/sigslot/signal.hpp).
 */
module SignalExamples {
  import opened Options
  import opened SlotGroups
  import opened SignalThreads
  import opened SignalRuns

  const ONE: Groups<Sid> := [Group(0, [0])]
  const EMPTIED: Groups<Sid> := [Group(0, [])]
  const FREE := SlotRec(0, 0, true, false)
  const BLOCKED := SlotRec(0, 0, true, true)
  const CUT_OFF := SlotRec(0, 0, false, true)
  const LATE := SlotRec(0, 0, false, false)

  // ----- a run given with its states

  predicate LinkAt(t: seq<State>, es: seq<Event>, m: int) {
    0 <= m < |es| && m + 1 < |t| ==> Next(t[m], es[m]) == t[m + 1]
  }

  /** From `t[0]` every event leads from state to state. */
  ghost predicate Linked(t: seq<State>, es: seq<Event>) {
    |t| == |es| + 1 && forall m {:trigger LinkAt(t, es, m)} :: LinkAt(t, es, m)
  }

  lemma {:induction false} RunIsLinked(past: seq<Event>, es: seq<Event>)
    ensures Linked(States(past, es), es)
  {
    var t := States(past, es);
    forall m ensures LinkAt(t, es, m) {
      if 0 <= m < |es| { StatesNext(past, es, m); }
    }
  }

  lemma {:induction false} LinkedSame(t: seq<State>, u: seq<State>, es: seq<Event>, m: nat)
    requires Linked(t, es) && Linked(u, es) && t[0] == u[0] && m <= |es|
    ensures t[m] == u[m]
    decreases m
  {
    if m > 0 {
      LinkedSame(t, u, es, m - 1);
      assert LinkAt(t, es, m - 1) && LinkAt(u, es, m - 1);
    }
  }

  lemma LinkedTo(past: seq<Event>, t: seq<State>, es: seq<Event>)
    requires Linked(t, es) && t[0] == Exec(past)
    ensures Exec(past + es) == t[|es|]
  {
    RunIsLinked(past, es);
    Ends(past, es);
    LinkedSame(t, States(past, es), es, |es|);
  }

  /** The machine with slot 0 known and nothing out of the ordinary. */
  function Plain(slot: SlotRec, heap: map<Pid, Payload>, sig: Pid, next: Pid, mutex: Option<Aid>, acts: map<Aid, Pc>): State {
    State(map[0 := slot], heap, sig, next, [], mutex, acts, false, if slot.connected then multiset{} else multiset{0}, false)
  }

  // ----- slot 0 is connected

  function Adding(mutex: Option<Aid>, list: Groups<Sid>, pc: Pc): State {
    Plain(FREE, map[0 := Payload(1, list)], 0, 1, mutex, map[0 := pc])
  }

  const CONNECT: seq<Event> := [BeginConnect(0, 0, 0), Run(0), Run(0), Run(0), Run(0)]

  const CONNECTING: seq<State> := [
    Init(),
    Adding(None, [], WriteWait(OpAdd(0))),
    Adding(Some(0), [], WriteLocked(OpAdd(0))),
    Adding(Some(0), [], WriteUnique(OpAdd(0))),
    Adding(Some(0), ONE, WriteDone(OpAdd(0))),
    Adding(None, ONE, Written(OpAdd(0)))]

  lemma Adds()
    ensures ApplyOp([], map[0 := FREE], OpAdd(0)) == (ONE, map[0 := FREE])
  {
    var gs: Groups<Sid> := [];
    assert Seek(gs, 0) == 0 && gs[..0] == [] && gs[0..] == [];
    assert Add(gs, 0, 0) == ONE;
    assert map[0 := FREE][0 := FREE] == map[0 := FREE];
  }

  lemma AddStep()
    ensures Next(Adding(Some(0), [], WriteUnique(OpAdd(0))), Run(0)) == Adding(Some(0), ONE, WriteDone(OpAdd(0)))
  {
    Adds();
  }

  lemma ConnectSteps(m: int)
    ensures LinkAt(CONNECTING, CONNECT, m)
  {
    if m <= 1 {
      ConnectFirst(m);
    } else if m == 3 {
      AddStep();
    }
  }

  lemma ConnectFirst(m: int)
    requires m <= 1
    ensures LinkAt(CONNECTING, CONNECT, m)
  {
    if m == 0 { } else if m == 1 { }
  }

  lemma Connects()
    ensures Exec(CONNECT) == Adding(None, ONE, Written(OpAdd(0)))
  {
    forall m ensures LinkAt(CONNECTING, CONNECT, m) { ConnectSteps(m); }
    LinkedTo([], CONNECTING, CONNECT);
    assert [] + CONNECT == CONNECT;
  }

  // ----- an emission begins

  /** Slot 0 as given; the emission is at `pc`. */
  function Walk(slot: SlotRec, count: nat, mutex: Option<Aid>, pc: Pc): State {
    Plain(slot, map[0 := Payload(count, ONE)], 0, 1, mutex, map[0 := Written(OpAdd(0)), 1 := pc])
  }

  const EMIT: seq<Event> := [BeginEmit(1), Run(1), Run(1), Run(1), Run(1)]

  function Emitting(slot: SlotRec): seq<State> {
    [Plain(slot, map[0 := Payload(1, ONE)], 0, 1, None, map[0 := Written(OpAdd(0))]),
     Walk(slot, 1, None, EmitWait),
     Walk(slot, 1, Some(1), EmitLocked),
     Walk(slot, 1, Some(1), EmitCopied(0)),
     Walk(slot, 2, Some(1), EmitCounted(0, ONE)),
     Walk(slot, 2, None, Walking(0, ONE, []))]
  }

  lemma EmitSteps(slot: SlotRec, m: int)
    ensures LinkAt(Emitting(slot), EMIT, m)
  {
    if m <= 1 {
      EmitFirst(slot, m);
    } else if m <= 3 {
      EmitSecond(slot, m);
    }
  }

  lemma EmitFirst(slot: SlotRec, m: int)
    requires m <= 1
    ensures LinkAt(Emitting(slot), EMIT, m)
  {
    if m == 0 { } else if m == 1 { }
  }

  lemma EmitSecond(slot: SlotRec, m: int)
    requires 2 <= m <= 3
    ensures LinkAt(Emitting(slot), EMIT, m)
  {
    if m == 2 { }
  }

  lemma Emits(past: seq<Event>, slot: SlotRec)
    requires Exec(past) == Emitting(slot)[0]
    ensures Exec(past + EMIT) == Walk(slot, 2, None, Walking(0, ONE, []))
  {
    forall m ensures LinkAt(Emitting(slot), EMIT, m) { EmitSteps(slot, m); }
    LinkedTo(past, Emitting(slot), EMIT);
  }

  lemma Flat()
    ensures Flatten(ONE) == [0] && Flatten(EMPTIED) == []
  {
    assert ONE[1..] == [] && EMPTIED[1..] == [];
  }

  // ----- called at no moment

  const BEFORE: seq<Event> := CONNECT + [SetBlocked(0, true)] + EMIT
  const MIDDLE: seq<Event> := [BeginDisconnect(2, 0), SetBlocked(0, false)]

  lemma Before()
    ensures Exec(BEFORE) == Walk(BLOCKED, 2, None, Walking(0, ONE, []))
  {
    Connects();
    NextIs(CONNECT, SetBlocked(0, true));
    BlockStep();
    Emits(CONNECT + [SetBlocked(0, true)], BLOCKED);
  }

  lemma BlockStep()
    ensures Next(Adding(None, ONE, Written(OpAdd(0))), SetBlocked(0, true)) == Emitting(BLOCKED)[0]
  {
  }

  /** The states between the two loads. */
  const TURNING: seq<State> := [
    Walk(BLOCKED, 2, None, Testing(0, ONE, [], 0)),
    Plain(CUT_OFF, map[0 := Payload(2, ONE)], 0, 1, None, map[0 := Written(OpAdd(0)), 1 := Testing(0, ONE, [], 0), 2 := WriteWait(OpClean(0))]),
    Plain(LATE, map[0 := Payload(2, ONE)], 0, 1, None, map[0 := Written(OpAdd(0)), 1 := Testing(0, ONE, [], 0), 2 := WriteWait(OpClean(0))])]

  lemma TestStep()
    ensures TurnDue(Walk(BLOCKED, 2, None, Walking(0, ONE, [])), 1, 0)
    ensures Next(Walk(BLOCKED, 2, None, Walking(0, ONE, [])), Run(1)) == TURNING[0]
  {
    Flat();
  }

  lemma TurnSteps(m: int)
    ensures LinkAt(TURNING, MIDDLE, m) && Disconnects(TURNING[0], MIDDLE[0], 0)
  {
    if m == 0 {
    } else if m == 1 {
    }
  }

  /**
   * The slot is blocked; the emission sees it connected; it is disconnected, then
   * unblocked; the emission sees it unblocked and calls it.
   */
  lemma CalledThoughNeverBoth()
    ensures LoadsApart(BEFORE, MIDDLE, 1, 0)
    ensures forall m: nat | m <= |MIDDLE| :: !Both(Between(BEFORE, MIDDLE, 1)[m], 0)
    ensures Exec(Whole(BEFORE, MIDDLE, 1) + [Run(1)]) == CALLED
  {
    Apart();
    NoMoment();
    Called();
  }

  const CALLED: State := To(TURNING[2], 1, Walking(0, ONE, [Turn(0, true)]))

  lemma Apart()
    ensures LoadsApart(BEFORE, MIDDLE, 1, 0)
  {
    Before();
    TestStep();
  }

  lemma Called()
    ensures Exec(Whole(BEFORE, MIDDLE, 1) + [Run(1)]) == CALLED
  {
    Middle();
    NextIs(Whole(BEFORE, MIDDLE, 1), Run(1));
    CallStep();
  }

  lemma CallStep()
    ensures Next(TURNING[2], Run(1)) == CALLED
  {
    assert TURNING[2].acts[1] == Testing(0, ONE, [], 0);
    assert [] + [Turn(0, true)] == [Turn(0, true)];
  }

  lemma Middle()
    ensures Exec(Whole(BEFORE, MIDDLE, 1)) == TURNING[2]
    ensures Linked(TURNING, MIDDLE) && TURNING[0] == Exec(BEFORE + [Run(1)])
  {
    Before();
    TestStep();
    NextIs(BEFORE, Run(1));
    forall m ensures LinkAt(TURNING, MIDDLE, m) { TurnSteps(m); }
    LinkedTo(BEFORE + [Run(1)], TURNING, MIDDLE);
  }

  lemma NoMoment()
    ensures forall m: nat | m <= |MIDDLE| :: !Both(Between(BEFORE, MIDDLE, 1)[m], 0)
  {
    Middle();
    RunIsLinked(BEFORE + [Run(1)], MIDDLE);
    Ends(BEFORE + [Run(1)], MIDDLE);
    forall m: nat | m <= |MIDDLE| ensures !Both(Between(BEFORE, MIDDLE, 1)[m], 0) {
      LinkedSame(TURNING, Between(BEFORE, MIDDLE, 1), MIDDLE, m);
    }
  }

  // ----- called after it was taken off the list

  const REMOVE: seq<Event> := [BeginRemoval(2, OpGroup(0)), Run(2), Run(2), Run(2), Run(2), Run(2), Run(2), Run(2)]

  /** The emission has taken its snapshot, payload 0; the removal is at `pc`. */
  function Aside(heap: map<Pid, Payload>, sig: Pid, next: Pid, mutex: Option<Aid>, pc: Pc): State {
    Plain(FREE, heap, sig, next, mutex, map[0 := Written(OpAdd(0)), 1 := Walking(0, ONE, []), 2 := pc])
  }

  const REMOVING: seq<State> := [
    Walk(FREE, 2, None, Walking(0, ONE, [])),
    Aside(map[0 := Payload(2, ONE)], 0, 1, None, WriteWait(OpGroup(0))),
    Aside(map[0 := Payload(2, ONE)], 0, 1, Some(2), WriteLocked(OpGroup(0))),
    Aside(map[0 := Payload(2, ONE)], 0, 1, Some(2), WriteShared(OpGroup(0))),
    Aside(map[0 := Payload(2, ONE), 1 := Payload(1, ONE)], 0, 2, Some(2), WriteCopied(OpGroup(0), 1)),
    Aside(map[0 := Payload(2, ONE), 1 := Payload(1, ONE)], 1, 2, Some(2), WriteSwapped(OpGroup(0), 0)),
    Aside(map[0 := Payload(1, ONE), 1 := Payload(1, ONE)], 1, 2, Some(2), WriteUnique(OpGroup(0))),
    Aside(map[0 := Payload(1, ONE), 1 := Payload(1, EMPTIED)], 1, 2, Some(2), WriteDone(OpGroup(0))),
    Aside(map[0 := Payload(1, ONE), 1 := Payload(1, EMPTIED)], 1, 2, None, Written(OpGroup(0)))]

  lemma Empties()
    ensures ApplyOp(ONE, map[0 := FREE], OpGroup(0)) == (EMPTIED, map[0 := FREE])
  {
    assert GroupOf(ONE, 0) == 0 && ONE[0 := Group(0, [])] == EMPTIED;
  }

  lemma EmptyStep()
    ensures Next(REMOVING[6], Run(2)) == REMOVING[7]
  {
    Empties();
  }

  lemma RemoveSteps(m: int)
    ensures LinkAt(REMOVING, REMOVE, m)
  {
    if m <= 1 {
      RemoveFirst(m);
    } else if m <= 3 {
      RemoveSecond(m);
    } else if m <= 5 {
      RemoveThird(m);
    } else if m == 6 {
      EmptyStep();
    }
  }

  lemma RemoveFirst(m: int)
    requires m <= 1
    ensures LinkAt(REMOVING, REMOVE, m)
  {
    if m == 0 { } else if m == 1 { }
  }

  lemma RemoveSecond(m: int)
    requires 2 <= m <= 3
    ensures LinkAt(REMOVING, REMOVE, m)
  {
    if m == 2 { }
  }

  lemma RemoveThird(m: int)
    requires 4 <= m <= 5
    ensures LinkAt(REMOVING, REMOVE, m)
  {
    if m == 4 { }
  }

  const REMOVED: seq<Event> := CONNECT + EMIT + REMOVE

  /** Group 0 is emptied while the emission walks; slot 0, off the list but still connected, is called. */
  lemma CalledAfterRemoval()
    ensures Exec(REMOVED) == REMOVING[8] && !Listed(REMOVING[8], 0)
    ensures Exec(REMOVED + [Run(1)] + [Run(1)]) == To(REMOVING[8], 1, Walking(0, ONE, [Turn(0, true)]))
  {
    Connects();
    Emits(CONNECT, FREE);
    forall m ensures LinkAt(REMOVING, REMOVE, m) { RemoveSteps(m); }
    LinkedTo(CONNECT + EMIT, REMOVING, REMOVE);
    NextIs(REMOVED, Run(1));
    NextIs(REMOVED + [Run(1)], Run(1));
    LateTest();
    LateTurn();
  }

  function Tested(): State { To(REMOVING[8], 1, Testing(0, ONE, [], 0)) }

  lemma LateTest()
    ensures !Listed(REMOVING[8], 0) && Next(REMOVING[8], Run(1)) == Tested()
  {
    Flat();
  }

  lemma LateTurn()
    ensures Next(Tested(), Run(1)) == To(REMOVING[8], 1, Walking(0, ONE, [Turn(0, true)]))
  {
    var st := Tested();
    assert st.acts[1] == Testing(0, ONE, [], 0);
    assert [] + [Turn(0, true)] == [Turn(0, true)];
    assert st.acts[1 := Walking(0, ONE, [Turn(0, true)])] == REMOVING[8].acts[1 := Walking(0, ONE, [Turn(0, true)])];
  }
}
