/**
 * What whole runs of the signal machine mean for one slot: the two loads of a
 * turn, slots taken off the list during an emission, and what a completed
 * connect or disconnect promises to later emissions
 * (cpp/sigslot/palacaze/include/sigslot/signal.hpp).
 */
module SignalRuns {
  import opened Options
  import opened SlotGroups
  import opened SignalThreads

  ghost function ListOf(st: State): Groups<Sid> {
    if st.sig in st.heap then st.heap[st.sig].value else []
  }

  ghost predicate Listed(st: State, s: Sid) { s in Flatten(ListOf(st)) }

  /** The change that this event carries out. */
  function Changing(st: State, e: Event): Option<Op> {
    if e.Run? && e.a in st.acts && st.acts[e.a].WriteUnique? then Some(st.acts[e.a].op) else None
  }

  /** This event disconnects the slot. */
  predicate Disconnects(st: State, e: Event, s: Sid) {
    e.BeginDisconnect? && e.s == s && e.a !in st.acts && MayDisconnect(st, s)
  }

  // ----- one event

  lemma {:induction false} StepList(st: State, a: Aid)
    requires Inv(st) && a in st.acts && !st.acts[a].WriteUnique?
    ensures ListOf(Step(st, a)) == ListOf(st) && Step(st, a).slots == st.slots
  {
    Grip(st, a);
    StepNoCrash(st, a);
    match st.acts[a] {
      case EmitWait | EmitLocked | EmitCounted(_, _) | EmitFreeing(_, _, _) | Emitted(_, _) => EmitRefines(st, a);
      case EmitCopied(_) => BeginRefines(st, a);
      case Walking(_, start, log) => if |log| < |Flatten(start)| { TestRefines(st, a); } else { EndRefines(st, a); }
      case Testing(_, _, _, _) => TurnRefines(st, a);
      case WriteShared(_) | WriteCopied(_, _) | WriteSwapped(_, _) | WriteFreeing(_, _) => CopyRefines(st, a);
      case WriteWait(_) | WriteLocked(_) | WriteDone(_) | Written(_) => LockRefines(st, a);
    }
    assert Abs(Step(st, a)).list == Abs(st).list && Abs(Step(st, a)).slots == Abs(st).slots;
  }

  /** A change lists exactly its survivors and leaves every flag alone. */
  lemma {:induction false} ChangeList(st: State, a: Aid)
    requires Inv(st) && a in st.acts && st.acts[a].WriteUnique?
    ensures var st', op := Step(st, a), st.acts[a].op;
            && (forall x :: Listed(st', x) <==> Survives(ListOf(st), st.slots, op, x))
            && SameFlags(st.slots, st'.slots)
  {
    var op := st.acts[a].op;
    if op.OpAdd? { assert Pending(st.acts[a], op.s) && PendingOk(st, a, op.s); }
    ApplyOpOk(ListOf(st), st.slots, op);
  }

  lemma {:induction false} ListBy(st: State, e: Event, s: Sid)
    requires Inv(st)
    ensures Changing(st, e).None? ==> (Listed(Next(st, e), s) <==> Listed(st, s))
    ensures Changing(st, e).Some? ==> (Listed(Next(st, e), s) <==> Survives(ListOf(st), st.slots, Changing(st, e).value, s))
  {
    if e.Run? && e.a in st.acts {
      if st.acts[e.a].WriteUnique? { ChangeList(st, e.a); } else { StepList(st, e.a); }
    }
  }

  /** Only its own disconnect, and its own block and unblock, touch the flags of a slot. */
  lemma {:induction false} FlagsBy(st: State, e: Event, s: Sid)
    requires Inv(st) && s in st.slots
    ensures var t := Next(st, e).slots;
            && s in t && t[s].group == st.slots[s].group
            && (t[s].connected <==> st.slots[s].connected && !Disconnects(st, e, s))
            && t[s].blocked == if e.SetBlocked? && e.s == s then e.b else st.slots[s].blocked
  {
    if e.Run? && e.a in st.acts {
      if st.acts[e.a].WriteUnique? { ChangeList(st, e.a); } else { StepList(st, e.a); }
    }
  }

  /** A step moves its own activity only, and asks for nothing new. */
  lemma {:induction false} StepMoves(st: State, a: Aid)
    requires Inv(st) && a in st.acts
    ensures Moved(st, Step(st, a), a)
    ensures forall s :: Pending(Step(st, a).acts[a], s) ==> Pending(st.acts[a], s) || s !in st.slots
  {
    Grip(st, a);
    StepNoCrash(st, a);
    StepMem(st, a);
    StepOthersKeep(st, Step(st, a), a);
    StepLists(st, a);
  }

  lemma {:induction false} OnlyItself(st: State, e: Event, a: Aid)
    requires Inv(st) && a in st.acts && e != Run(a)
    ensures a in Next(st, e).acts && Next(st, e).acts[a] == st.acts[a]
  {
    if e.Run? && e.a in st.acts { StepMoves(st, e.a); }
  }

  /** A known slot is not about to be listed by anybody new. */
  lemma {:induction false} PendingBy(st: State, e: Event, s: Sid)
    requires Inv(st) && s in st.slots
    ensures forall b | b in Next(st, e).acts && Pending(Next(st, e).acts[b], s) :: b in st.acts && Pending(st.acts[b], s)
  {
    if e.Run? && e.a in st.acts { StepMoves(st, e.a); }
  }

  lemma {:induction false} AskedBy(st: State, e: Event, b: Aid, s: Sid)
    requires Inv(st) && b in Next(st, e).acts && Asked(Next(st, e).acts[b]) == Some(OpClean(s))
    ensures (b in st.acts && Asked(st.acts[b]) == Some(OpClean(s))) || Disconnects(st, e, s)
  {
    if e.Run? && e.a in st.acts {
      StepMoves(st, e.a);
      if b == e.a { StepAsks(st, b); }
    }
  }

  lemma {:induction false} StepAsks(st: State, a: Aid)
    requires a in st.acts && a in Step(st, a).acts
    ensures Asked(Step(st, a).acts[a]) == Asked(st.acts[a]) || Asked(Step(st, a).acts[a]) == None
  {
    if IsEmit(st.acts[a]) {
      EmitStays(st, a);
    } else {
      match st.acts[a]
      case WriteUnique(op) => ChangeMovesOn(st, a, op);
      case WriteShared(_) | WriteCopied(_, _) | WriteSwapped(_, _) | WriteFreeing(_, _) => CopyMoves(st, a);
      case _ => LockMoves(st, a);
    }
  }

  lemma {:induction false} EmitStays(st: State, a: Aid)
    requires a in st.acts && IsEmit(st.acts[a])
    ensures a in Step(st, a).acts && IsEmit(Step(st, a).acts[a])
    ensures forall op :: !Done(Step(st, a).acts[a], op)
  {
    match st.acts[a]
    case Walking(p, start, log) => if p in st.heap { WalkStays(st, a, p, start, log); }
    case _ =>
  }

  lemma {:induction false} WalkStays(st: State, a: Aid, p: Pid, start: Groups<Sid>, log: seq<Turn>)
    requires a in st.acts && IsEmit(st.acts[a]) && p in st.heap
    ensures a in WalkStep(st, a, p, start, log).acts && IsEmit(WalkStep(st, a, p, start, log).acts[a])
  {
  }

  lemma {:induction false} LockMoves(st: State, a: Aid)
    requires a in st.acts
    requires var pc := st.acts[a]; pc.WriteWait? || pc.WriteLocked? || pc.WriteDone? || pc.Written?
    ensures a in Step(st, a).acts
    ensures Asked(Step(st, a).acts[a]) == Asked(st.acts[a])
    ensures forall op :: Done(Step(st, a).acts[a], op) ==> Done(st.acts[a], op)
  {
  }

  lemma {:induction false} CopyMoves(st: State, a: Aid)
    requires a in st.acts
    requires var pc := st.acts[a]; pc.WriteShared? || pc.WriteCopied? || pc.WriteSwapped? || pc.WriteFreeing?
    ensures a in Step(st, a).acts && Asked(Step(st, a).acts[a]) == Asked(st.acts[a])
    ensures forall op :: !Done(Step(st, a).acts[a], op)
  {
  }

  lemma {:induction false} ChangeMovesOn(st: State, a: Aid, op: Op)
    requires a in st.acts && st.acts[a] == WriteUnique(op)
    ensures a in Step(st, a).acts && (Step(st, a).acts[a] == WriteUnique(op) || Step(st, a).acts[a] == WriteDone(op))
  {
  }

  /** A change that becomes done in this event is carried out by it. */
  lemma {:induction false} DoneBy(st: State, e: Event, w: Aid, op: Op)
    requires Inv(st) && w in Next(st, e).acts && Done(Next(st, e).acts[w], op)
    ensures (w in st.acts && Done(st.acts[w], op)) || (e == Run(w) && Changing(st, e) == Some(op))
  {
    if e.Run? && e.a in st.acts {
      StepMoves(st, e.a);
      if w == e.a { StepDone(st, w, op); }
    }
  }

  lemma {:induction false} StepDone(st: State, a: Aid, op: Op)
    requires a in st.acts && a in Step(st, a).acts && Done(Step(st, a).acts[a], op)
    ensures Done(st.acts[a], op) || st.acts[a] == WriteUnique(op)
  {
    if IsEmit(st.acts[a]) {
      EmitStays(st, a);
    } else {
      match st.acts[a]
      case WriteUnique(o) => ChangeMovesOn(st, a, o);
      case WriteShared(_) | WriteCopied(_, _) | WriteSwapped(_, _) | WriteFreeing(_, _) => CopyMoves(st, a);
      case _ => LockMoves(st, a);
    }
  }

  /** The change is carried out; the lock may still be held. */
  predicate Done(pc: Pc, op: Op) { pc == WriteDone(op) || pc == Written(op) }

  // ----- the states along a run

  ghost predicate Connected(st: State, s: Sid) { s in st.slots && st.slots[s].connected }

  ghost predicate Blocked(st: State, s: Sid) { s in st.slots && st.slots[s].blocked }

  ghost predicate Both(st: State, s: Sid) { s in st.slots && st.slots[s].connected && !st.slots[s].blocked }

  /** Known, off the list, and nobody is about to list it. */
  ghost predicate Gone(st: State, s: Sid) {
    !Listed(st, s) && Settled(st, s)
  }

  ghost predicate Settled(st: State, s: Sid) {
    s in st.slots && forall b | b in st.acts :: !Pending(st.acts[b], s)
  }

  /** The states when 0, 1, ... events of `more` have followed `es`. */
  ghost function States(es: seq<Event>, more: seq<Event>): (t: seq<State>)
    ensures |t| == |more| + 1
  {
    seq(|more| + 1, m requires 0 <= m <= |more| => Exec(es + more[..m]))
  }

  /** What one event means for slot `s`. */
  ghost predicate SlotStep(x: State, e: Event, y: State, s: Sid) {
    && (s in x.slots ==>
          && s in y.slots && y.slots[s].group == x.slots[s].group
          && (y.slots[s].connected <==> x.slots[s].connected && !Disconnects(x, e, s))
          && y.slots[s].blocked == if e.SetBlocked? && e.s == s then e.b else x.slots[s].blocked)
    && (Listed(x, s) && !TakesOff(x, e, s) ==> Listed(y, s))
    && (Gone(x, s) ==> Gone(y, s))
  }

  /** This event takes `s` off the list. */
  ghost predicate TakesOff(st: State, e: Event, s: Sid) {
    Changing(st, e).Some? && !Survives(ListOf(st), st.slots, Changing(st, e).value, s)
  }

  ghost predicate StepAt(t: seq<State>, more: seq<Event>, s: Sid, m: int) {
    0 <= m < |more| && m + 1 < |t| ==> SlotStep(t[m], more[m], t[m + 1], s)
  }

  ghost predicate SlotRun(t: seq<State>, more: seq<Event>, s: Sid) {
    |t| == |more| + 1 && forall m {:trigger StepAt(t, more, s, m)} :: StepAt(t, more, s, m)
  }

  /** The refinement, state by state. */
  ghost predicate SpecAt(t: seq<State>, m: int) {
    0 <= m < |t| - 1 ==> SpecStep(Abs(t[m]), Abs(t[m + 1]))
  }

  ghost predicate SpecRun(t: seq<State>) {
    t != [] && forall m {:trigger SpecAt(t, m)} :: SpecAt(t, m)
  }

  lemma {:induction false} NextIs(es: seq<Event>, e: Event)
    ensures Exec(es + [e]) == Next(Exec(es), e)
  {
    assert (es + [e])[..|es|] == es;
  }

  lemma {:induction false} SlotStepOk(st: State, e: Event, s: Sid)
    requires Inv(st)
    ensures SlotStep(st, e, Next(st, e), s)
  {
    ListBy(st, e, s);
    if s in st.slots {
      FlagsBy(st, e, s);
      PendingBy(st, e, s);
    }
    if Gone(st, s) { StaysOff(st, e, s); }
  }

  lemma {:induction false} StaysOff(st: State, e: Event, s: Sid)
    requires Inv(st) && Gone(st, s)
    ensures !Listed(Next(st, e), s)
  {
    ListBy(st, e, s);
    if e.Run? && e.a in st.acts { assert !Pending(st.acts[e.a], s); }
  }

  lemma {:induction false} RunIsSlotRun(es: seq<Event>, more: seq<Event>, s: Sid)
    ensures SlotRun(States(es, more), more, s)
  {
    var t := States(es, more);
    forall m ensures StepAt(t, more, s, m) {
      if 0 <= m < |more| {
        RunKeepsInv(es + more[..m]);
        StatesNext(es, more, m);
        SlotStepOk(Exec(es + more[..m]), more[m], s);
      }
    }
  }

  lemma {:induction false} StatesNext(es: seq<Event>, more: seq<Event>, m: nat)
    requires m < |more|
    ensures States(es, more)[m] == Exec(es + more[..m]) && States(es, more)[m + 1] == Next(Exec(es + more[..m]), more[m])
  {
    OneMore(es, more, m);
    NextIs(es + more[..m], more[m]);
  }

  lemma OneMore(es: seq<Event>, more: seq<Event>, m: nat)
    requires m < |more|
    ensures es + more[..m] + [more[m]] == es + more[..m + 1]
  {
  }

  lemma {:induction false} RunIsSpecRun(es: seq<Event>, more: seq<Event>)
    ensures SpecRun(States(es, more))
  {
    var t := States(es, more);
    forall m ensures SpecAt(t, m) {
      if 0 <= m < |more| {
        RunRefines(es + more[..m], more[m]);
        OneMore(es, more, m);
      }
    }
  }

  lemma {:induction false} Ends(es: seq<Event>, more: seq<Event>)
    ensures States(es, more)[0] == Exec(es) && States(es, more)[|more|] == Exec(es + more)
  {
    assert es + more[..0] == es && more[..|more|] == more;
  }

  // ----- one slot along a run

  lemma {:induction false} StaysKnown(t: seq<State>, more: seq<Event>, m: nat, s: Sid)
    requires SlotRun(t, more, s) && m <= |more| && s in t[0].slots
    ensures s in t[m].slots && t[m].slots[s].group == t[0].slots[s].group
    decreases m
  {
    if m > 0 {
      StaysKnown(t, more, m - 1, s);
      assert StepAt(t, more, s, m - 1);
    }
  }

  /** Connected after m events exactly when it was before and none of them disconnected it. */
  lemma {:induction false} ConnectedAfter(t: seq<State>, more: seq<Event>, m: nat, s: Sid)
    requires SlotRun(t, more, s) && m <= |more| && s in t[0].slots
    ensures Connected(t[m], s) <==> Connected(t[0], s) && forall d: nat | d < m :: !Disconnects(t[d], more[d], s)
    decreases m
  {
    if m > 0 {
      ConnectedAfter(t, more, m - 1, s);
      StaysKnown(t, more, m - 1, s);
      assert StepAt(t, more, s, m - 1);
    }
  }

  lemma {:induction false} StaysBlocked(t: seq<State>, more: seq<Event>, m: nat, s: Sid)
    requires SlotRun(t, more, s) && m <= |more| && Blocked(t[0], s) && forall u | 0 <= u < m :: more[u] != SetBlocked(s, false)
    ensures Blocked(t[m], s)
    decreases m
  {
    if m > 0 {
      StaysBlocked(t, more, m - 1, s);
      assert StepAt(t, more, s, m - 1);
    }
  }

  /** A slot blocked at first and unblocked later has a first unblock. */
  lemma {:induction false} FirstUnblock(t: seq<State>, more: seq<Event>, m: nat, s: Sid) returns (u: nat)
    requires SlotRun(t, more, s) && m <= |more| && Blocked(t[0], s) && !Blocked(t[m], s)
    ensures u < m && more[u] == SetBlocked(s, false) && forall v | 0 <= v < u :: more[v] != SetBlocked(s, false)
    decreases m
  {
    if forall v | 0 <= v < m :: more[v] != SetBlocked(s, false) { StaysBlocked(t, more, m, s); }
    var v: nat :| v < m && more[v] == SetBlocked(s, false);
    u := Earliest(more, v, s);
  }

  lemma {:induction false} Earliest(more: seq<Event>, v: nat, s: Sid) returns (u: nat)
    requires v < |more| && more[v] == SetBlocked(s, false)
    ensures u <= v && more[u] == SetBlocked(s, false) && forall w | 0 <= w < u :: more[w] != SetBlocked(s, false)
    decreases v
  {
    if w: nat :| w < v && more[w] == SetBlocked(s, false) { u := Earliest(more, w, s); } else { u := v; }
  }

  /** In `more` nobody touches the flags of `s`. */
  ghost predicate FlagsAlone(t: seq<State>, more: seq<Event>, s: Sid)
    requires |t| == |more| + 1
  {
    forall m: nat | m < |more| :: !Disconnects(t[m], more[m], s) && !(more[m].SetBlocked? && more[m].s == s)
  }

  lemma {:induction false} FlagsStay(t: seq<State>, more: seq<Event>, m: nat, s: Sid)
    requires SlotRun(t, more, s) && m <= |more| && s in t[0].slots && FlagsAlone(t, more, s)
    ensures s in t[m].slots && Connected(t[m], s) == Connected(t[0], s) && Blocked(t[m], s) == Blocked(t[0], s)
    decreases m
  {
    if m > 0 {
      FlagsStay(t, more, m - 1, s);
      assert StepAt(t, more, s, m - 1);
    }
  }

  /** A slot on the list stays on it until an event takes it off. */
  lemma {:induction false} StaysListed(t: seq<State>, more: seq<Event>, m: nat, s: Sid)
    requires SlotRun(t, more, s) && m <= |more| && Listed(t[0], s) && forall j: nat | j < m :: !TakesOff(t[j], more[j], s)
    ensures Listed(t[m], s)
    decreases m
  {
    if m > 0 {
      StaysListed(t, more, m - 1, s);
      assert StepAt(t, more, s, m - 1);
    }
  }

  lemma {:induction false} StaysGone(t: seq<State>, more: seq<Event>, m: nat, s: Sid)
    requires SlotRun(t, more, s) && m <= |more| && Gone(t[0], s)
    ensures Gone(t[m], s)
    decreases m
  {
    if m > 0 {
      StaysGone(t, more, m - 1, s);
      assert StepAt(t, more, s, m - 1);
    }
  }

  // ----- the two loads of a turn

  /** Emission `a` stands before the turn of `s`. */
  ghost predicate TurnDue(st: State, a: Aid, s: Sid) {
    && a in st.acts && st.acts[a].Walking?
    && var pc := st.acts[a]; |pc.log| < |Flatten(pc.start)| && Flatten(pc.start)[|pc.log|] == s
  }

  lemma {:induction false} FirstLoad(st: State, a: Aid, s: Sid)
    requires Inv(st) && TurnDue(st, a, s)
    ensures s in st.slots
    ensures var pc := st.acts[a];
            Next(st, Run(a)) == To(st, a, if Connected(st, s) then Testing(pc.p, pc.start, pc.log, s)
                                          else Walking(pc.p, pc.start, pc.log + [Turn(s, false)]))
  {
    assert WalkOk(st, st.acts[a]);
    assert s in Flatten(st.acts[a].start);
  }

  lemma {:induction false} SecondLoad(st: State, a: Aid)
    requires Inv(st) && a in st.acts && st.acts[a].Testing?
    ensures var pc := st.acts[a];
            pc.s in st.slots && Next(st, Run(a)) == To(st, a, Walking(pc.p, pc.start, pc.log + [Turn(pc.s, !Blocked(st, pc.s))]))
  {
    assert WalkOk(st, st.acts[a]);
    assert st.acts[a].s in Flatten(st.acts[a].start);
  }

  /** Nobody else moves activity `a`. */
  ghost predicate ActAt(t: seq<State>, more: seq<Event>, a: Aid, m: int) {
    0 <= m < |more| && m + 1 < |t| && a in t[m].acts && more[m] != Run(a) ==> a in t[m + 1].acts && t[m + 1].acts[a] == t[m].acts[a]
  }

  ghost predicate ActRun(t: seq<State>, more: seq<Event>, a: Aid) {
    |t| == |more| + 1 && forall m {:trigger ActAt(t, more, a, m)} :: ActAt(t, more, a, m)
  }

  lemma {:induction false} RunIsActRun(es: seq<Event>, more: seq<Event>, a: Aid)
    ensures ActRun(States(es, more), more, a)
  {
    var t := States(es, more);
    forall m ensures ActAt(t, more, a, m) {
      if 0 <= m < |more| {
        StatesNext(es, more, m);
        if a in t[m].acts && more[m] != Run(a) {
          RunKeepsInv(es + more[..m]);
          OnlyItself(Exec(es + more[..m]), more[m], a);
        }
      }
    }
  }

  lemma {:induction false} StaysPut(t: seq<State>, more: seq<Event>, m: nat, a: Aid)
    requires ActRun(t, more, a) && m <= |more| && a in t[0].acts && Run(a) !in more
    ensures a in t[m].acts && t[m].acts[a] == t[0].acts[a]
    decreases m
  {
    if m > 0 {
      StaysPut(t, more, m - 1, a);
      assert ActAt(t, more, a, m - 1);
    }
  }

  /** The turn of `s` in a run: `es` up to its first load, `mid` between the loads. */
  ghost predicate LoadsApart(es: seq<Event>, mid: seq<Event>, a: Aid, s: Sid) {
    TurnDue(Exec(es), a, s) && Connected(Exec(es), s) && Run(a) !in mid
  }

  /** The run up to the second load. */
  ghost function Whole(es: seq<Event>, mid: seq<Event>, a: Aid): seq<Event> { es + [Run(a)] + mid }

  /** The states between the loads. */
  ghost function Between(es: seq<Event>, mid: seq<Event>, a: Aid): (t: seq<State>)
    ensures |t| == |mid| + 1
  {
    States(es + [Run(a)], mid)
  }

  /** A slot connected at the first load is called exactly when it is unblocked at the second. */
  lemma {:induction false} CalledBySecondLoad(es: seq<Event>, mid: seq<Event>, a: Aid, s: Sid)
    requires LoadsApart(es, mid, a, s)
    ensures var pc, end := Exec(es).acts[a], Exec(Whole(es, mid, a));
            Exec(Whole(es, mid, a) + [Run(a)]) == To(end, a, Walking(pc.p, pc.start, pc.log + [Turn(s, !Blocked(end, s))]))
  {
    RunKeepsInv(es);
    FirstLoad(Exec(es), a, s);
    NextIs(es, Run(a));
    RunIsActRun(es + [Run(a)], mid, a);
    Ends(es + [Run(a)], mid);
    StaysPut(Between(es, mid, a), mid, |mid|, a);
    RunKeepsInv(Whole(es, mid, a));
    SecondLoad(Exec(Whole(es, mid, a)), a);
    NextIs(Whole(es, mid, a), Run(a));
  }

  lemma {:induction false} BetweenLoads(es: seq<Event>, mid: seq<Event>, a: Aid, s: Sid)
    requires LoadsApart(es, mid, a, s)
    ensures var t := Between(es, mid, a);
            SlotRun(t, mid, s) && t[0].slots == Exec(es).slots && s in t[0].slots && t[|mid|] == Exec(Whole(es, mid, a))
  {
    RunKeepsInv(es);
    FirstLoad(Exec(es), a, s);
    NextIs(es, Run(a));
    Ends(es + [Run(a)], mid);
    RunIsSlotRun(es + [Run(a)], mid, s);
  }

  /** A disconnect of `s` stands before every unblock of it. */
  ghost predicate DisconnectedFirst(t: seq<State>, mid: seq<Event>, s: Sid)
    requires |t| == |mid| + 1
  {
    exists d: nat | d < |mid| :: Disconnects(t[d], mid[d], s) && forall u | 0 <= u < d :: mid[u] != SetBlocked(s, false)
  }

  /**
   * The turn calls the slot though at no moment of it the slot was both connected
   * and unblocked: exactly when the slot was blocked at the first load, unblocked
   * at the second, and disconnected before it was first unblocked.
   */
  lemma {:induction false} CalledAtNoMoment(es: seq<Event>, mid: seq<Event>, a: Aid, s: Sid)
    requires LoadsApart(es, mid, a, s)
    ensures var t, end := Between(es, mid, a), Exec(Whole(es, mid, a));
            (!Blocked(end, s) && forall m: nat | m <= |mid| :: !Both(t[m], s))
            <==> (Blocked(Exec(es), s) && !Blocked(end, s) && DisconnectedFirst(t, mid, s))
  {
    BetweenLoads(es, mid, a, s);
    NeverBothIff(Between(es, mid, a), mid, s);
  }

  lemma {:induction false} NeverBothIff(t: seq<State>, mid: seq<Event>, s: Sid)
    requires SlotRun(t, mid, s) && Connected(t[0], s)
    ensures !Blocked(t[|mid|], s) && (forall m: nat | m <= |mid| :: !Both(t[m], s))
       <==> Blocked(t[0], s) && !Blocked(t[|mid|], s) && DisconnectedFirst(t, mid, s)
  {
    if !Blocked(t[|mid|], s) && forall m: nat | m <= |mid| :: !Both(t[m], s) {
      assert !Both(t[0], s);
      NeverBoth(t, mid, s);
    }
    if Blocked(t[0], s) && DisconnectedFirst(t, mid, s) { BlockedThenGone(t, mid, s); }
  }

  lemma {:induction false} NeverBoth(t: seq<State>, mid: seq<Event>, s: Sid)
    requires SlotRun(t, mid, s) && Connected(t[0], s) && Blocked(t[0], s) && !Blocked(t[|mid|], s)
    requires forall m: nat | m <= |mid| :: !Both(t[m], s)
    ensures DisconnectedFirst(t, mid, s)
  {
    var u := FirstUnblock(t, mid, |mid|, s);
    StaysKnown(t, mid, u, s);
    assert StepAt(t, mid, s, u);
    assert !Both(t[u + 1], s);
    ConnectedAfter(t, mid, u, s);
    var d: nat :| d < u && Disconnects(t[d], mid[d], s);
  }

  lemma {:induction false} BlockedThenGone(t: seq<State>, mid: seq<Event>, s: Sid)
    requires SlotRun(t, mid, s) && Connected(t[0], s) && Blocked(t[0], s) && DisconnectedFirst(t, mid, s)
    ensures forall m: nat | m <= |mid| :: !Both(t[m], s)
  {
    var d: nat :| d < |mid| && Disconnects(t[d], mid[d], s) && forall u | 0 <= u < d :: mid[u] != SetBlocked(s, false);
    forall m: nat | m <= |mid| ensures !Both(t[m], s) {
      if m <= d { StaysBlocked(t, mid, m, s); } else { ConnectedAfter(t, mid, m, s); }
    }
  }

  /** With no unblock between the loads, a call means that the slot was connected and unblocked at the first. */
  lemma {:induction false} OneMomentWithoutUnblock(es: seq<Event>, mid: seq<Event>, a: Aid, s: Sid)
    requires LoadsApart(es, mid, a, s) && SetBlocked(s, false) !in mid
    ensures !Blocked(Exec(Whole(es, mid, a)), s) ==> Both(Exec(es), s)
  {
    BetweenLoads(es, mid, a, s);
    if Blocked(Exec(es), s) { StaysBlocked(Between(es, mid, a), mid, |mid|, s); }
  }

  // ----- slots taken off the list during an emission

  /** What one event does to an emission: nothing, the first load of a turn, or the second. */
  lemma {:induction false} SpecEmissionMoves(x: Spec, y: Spec, a: Aid)
    requires SpecStep(x, y) && a in x.emissions
    ensures a in y.emissions
    ensures y.emissions[a] == x.emissions[a] || (exists s :: SpecTests(x, y, a, s)) || (exists s :: SpecTurns(x, y, a, s))
  {
  }

  /** The turn of the k-th slot has not begun. */
  ghost predicate Ahead(e: Emission, k: nat) {
    k < |Flatten(e.start)| && (|e.log| < k || (|e.log| == k && !e.passed))
  }

  /** How far the turn of the k-th slot is, and what it then says, when the flags are as given all the time. */
  ghost predicate TurnSays(e: Emission, k: nat, s: Sid, connected: bool, blocked: bool) {
    && (|e.log| == k && e.passed ==> connected)
    && (|e.log| > k ==> e.log[k] == Turn(s, connected && !blocked))
  }

  lemma {:induction false} TurnSaysNext(x: Spec, y: Spec, a: Aid, k: nat, s: Sid, connected: bool, blocked: bool)
    requires SpecStep(x, y) && a in x.emissions && s in x.slots && x.slots[s].connected == connected && x.slots[s].blocked == blocked
    requires var e := x.emissions[a]; k < |Flatten(e.start)| && Flatten(e.start)[k] == s && TurnSays(e, k, s, connected, blocked)
    ensures a in y.emissions && y.emissions[a].start == x.emissions[a].start && TurnSays(y.emissions[a], k, s, connected, blocked)
  {
    SpecEmissionMoves(x, y, a);
  }

  /**
   * Whatever changes of the list take effect meanwhile, also changes that take the
   * slot off it: when its turn comes, the slot is called exactly when its own
   * flags, if left alone, say so.
   */
  lemma {:induction false} RemovalStopsNoCall(es: seq<Event>, more: seq<Event>, a: Aid, k: nat)
    requires a in Abs(Exec(es)).emissions && Ahead(Abs(Exec(es)).emissions[a], k)
    requires FlagsAlone(States(es, more), more, Flatten(Abs(Exec(es)).emissions[a].start)[k])
    ensures var s := Flatten(Abs(Exec(es)).emissions[a].start)[k];
            var y := Abs(Exec(es + more)).emissions;
            && s in Exec(es).slots && a in y
            && (|y[a].log| > k ==> y[a].log[k] == Turn(s, Both(Exec(es), s)))
  {
    var s := Flatten(Abs(Exec(es)).emissions[a].start)[k];
    RunKeepsInv(es);
    SnapshotKnown(Exec(es), a, k);
    Ends(es, more);
    RunIsSlotRun(es, more, s);
    RunIsSpecRun(es, more);
    TurnSaysAlong(States(es, more), more, |more|, a, Abs(Exec(es)).emissions[a], k, s);
  }

  lemma {:induction false} SnapshotKnown(st: State, a: Aid, k: nat)
    requires Inv(st) && a in Abs(st).emissions && k < |Flatten(Abs(st).emissions[a].start)|
    ensures Flatten(Abs(st).emissions[a].start)[k] in st.slots
  {
    assert WalkOk(st, st.acts[a]);
    assert Flatten(Abs(st).emissions[a].start)[k] in Flatten(Abs(st).emissions[a].start);
  }

  ghost predicate SaysAt(x: Spec, a: Aid, e: Emission, k: nat, s: Sid, connected: bool, blocked: bool) {
    a in x.emissions && x.emissions[a].start == e.start && TurnSays(x.emissions[a], k, s, connected, blocked)
  }

  lemma {:induction false} SaysNext(x: State, y: State, a: Aid, e: Emission, k: nat, s: Sid, connected: bool, blocked: bool)
    requires SpecStep(Abs(x), Abs(y)) && SaysAt(Abs(x), a, e, k, s, connected, blocked)
    requires k < |Flatten(e.start)| && Flatten(e.start)[k] == s
    requires s in x.slots && Connected(x, s) == connected && Blocked(x, s) == blocked
    ensures SaysAt(Abs(y), a, e, k, s, connected, blocked)
  {
    TurnSaysNext(Abs(x), Abs(y), a, k, s, connected, blocked);
  }

  lemma {:induction false} TurnSaysAlong(t: seq<State>, more: seq<Event>, m: nat, a: Aid, e: Emission, k: nat, s: Sid)
    requires SlotRun(t, more, s) && SpecRun(t) && m <= |more|
    requires a in Abs(t[0]).emissions && Abs(t[0]).emissions[a] == e && Ahead(e, k)
    requires s == Flatten(e.start)[k] && s in t[0].slots && FlagsAlone(t, more, s)
    ensures SaysAt(Abs(t[m]), a, e, k, s, Connected(t[0], s), Blocked(t[0], s))
    decreases m
  {
    if m > 0 {
      TurnSaysAlong(t, more, m - 1, a, e, k, s);
      FlagsStay(t, more, m - 1, s);
      assert SpecAt(t, m - 1);
      SaysNext(t[m - 1], t[m], a, e, k, s, Connected(t[0], s), Blocked(t[0], s));
    }
  }

  // ----- what a completed connect or disconnect means for later emissions

  /** A change that is done was carried out by one step of the run. */
  lemma {:induction false} DoneWasCarriedOut(es: seq<Event>, w: Aid, op: Op) returns (k: nat)
    requires w in Exec(es).acts && Done(Exec(es).acts[w], op)
    ensures k < |es| && es[k] == Run(w) && Changing(Exec(es[..k]), Run(w)) == Some(op)
    decreases |es|
  {
    var n := |es| - 1;
    assert es[..n] + [es[n]] == es;
    NextIs(es[..n], es[n]);
    RunKeepsInv(es[..n]);
    DoneBy(Exec(es[..n]), es[n], w, op);
    if w in Exec(es[..n]).acts && Done(Exec(es[..n]).acts[w], op) {
      k := DoneWasCarriedOut(es[..n], w, op);
      assert es[..n][..k] == es[..k];
    } else {
      k := n;
    }
  }

  /** An emission begins with the list of that moment. */
  lemma {:induction false} SpecBeginsWithList(x: Spec, y: Spec, a: Aid)
    requires SpecStep(x, y) && a !in x.emissions && a in y.emissions
    ensures y.emissions[a].start == x.list
  {
  }

  /** The moment at which an emission that is there now, and was not there before, began. */
  lemma {:induction false} BeganAt(t: seq<State>, m: nat, a: Aid) returns (j: nat)
    requires SpecRun(t) && m < |t| && a !in Abs(t[0]).emissions && a in Abs(t[m]).emissions
    ensures j < m && Abs(t[m]).emissions[a].start == Abs(t[j]).list
    decreases m
  {
    var x, y := Abs(t[m - 1]), Abs(t[m]);
    assert SpecAt(t, m - 1);
    if a in x.emissions {
      j := BeganAt(t, m - 1, a);
      SpecKeepsEmission(x, y, a);
    } else {
      SpecBeginsWithList(x, y, a);
      j := m - 1;
    }
  }

  /** Emission `a` begins in `more`, after `es`. */
  ghost predicate BeginsIn(es: seq<Event>, more: seq<Event>, a: Aid) {
    a !in Abs(Exec(es)).emissions && a in Abs(Exec(es + more)).emissions
  }

  /**
   * From the step that carries out a connect, every emission that begins has the
   * slot in its list, unless an event took the slot off before.
   */
  lemma {:induction false} ConnectedIsSeen(es: seq<Event>, w: Aid, s: Sid, more: seq<Event>, a: Aid)
    requires Changing(Exec(es), Run(w)) == Some(OpAdd(s)) && BeginsIn(es + [Run(w)], more, a)
    ensures var t := States(es + [Run(w)], more);
            || s in Flatten(Abs(Exec(es + [Run(w)] + more)).emissions[a].start)
            || exists j: nat | j < |more| :: TakesOff(t[j], more[j], s)
  {
    var t := States(es + [Run(w)], more);
    RunKeepsInv(es);
    NextIs(es, Run(w));
    ListBy(Exec(es), Run(w), s);
    Ends(es + [Run(w)], more);
    RunIsSlotRun(es + [Run(w)], more, s);
    RunIsSpecRun(es + [Run(w)], more);
    SeenAlong(t, more, s, a);
  }

  lemma {:induction false} SeenAlong(t: seq<State>, more: seq<Event>, s: Sid, a: Aid)
    requires SlotRun(t, more, s) && SpecRun(t) && Listed(t[0], s)
    requires a !in Abs(t[0]).emissions && a in Abs(t[|more|]).emissions
    ensures s in Flatten(Abs(t[|more|]).emissions[a].start) || exists j: nat | j < |more| :: TakesOff(t[j], more[j], s)
  {
    var j := BeganAt(t, |more|, a);
    if forall i: nat | i < |more| :: !TakesOff(t[i], more[i], s) { StaysListed(t, more, j, s); }
  }

  /** Who cleans up a slot finds it known and not about to be listed. */
  ghost predicate CleansOk(st: State) {
    forall b, s | b in st.acts && Asked(st.acts[b]) == Some(OpClean(s)) :: Settled(st, s)
  }

  lemma {:induction false} CleansOkAlways(es: seq<Event>)
    ensures CleansOk(Exec(es))
  {
    if es != [] {
      var n := |es| - 1;
      CleansOkAlways(es[..n]);
      RunKeepsInv(es[..n]);
      CleansOkNext(Exec(es[..n]), es[n]);
    }
  }

  lemma {:induction false} CleansOkNext(st: State, e: Event)
    requires Inv(st) && CleansOk(st)
    ensures CleansOk(Next(st, e))
  {
    var st' := Next(st, e);
    forall b, s | b in st'.acts && Asked(st'.acts[b]) == Some(OpClean(s)) ensures Settled(st', s) {
      AskedBy(st, e, b, s);
      assert Settled(st, s);
      SettledNext(st, e, s);
    }
  }

  lemma {:induction false} SettledNext(st: State, e: Event, s: Sid)
    requires Inv(st) && Settled(st, s)
    ensures Settled(Next(st, e), s)
  {
    FlagsBy(st, e, s);
    PendingBy(st, e, s);
  }

  /** From the step that carries out a disconnect, no emission that begins has the slot in its list, ever. */
  lemma {:induction false} DisconnectedIsNeverSeen(es: seq<Event>, w: Aid, s: Sid, more: seq<Event>, a: Aid)
    requires Changing(Exec(es), Run(w)) == Some(OpClean(s)) && BeginsIn(es + [Run(w)], more, a)
    ensures s !in Flatten(Abs(Exec(es + [Run(w)] + more)).emissions[a].start)
  {
    var t := States(es + [Run(w)], more);
    RunKeepsInv(es);
    CleansOkAlways(es);
    NextIs(es, Run(w));
    CleanLeaves(Exec(es), w, s);
    Ends(es + [Run(w)], more);
    RunIsSlotRun(es + [Run(w)], more, s);
    RunIsSpecRun(es + [Run(w)], more);
    var j := BeganAt(t, |more|, a);
    StaysGone(t, more, j, s);
  }

  lemma {:induction false} CleanLeaves(st: State, w: Aid, s: Sid)
    requires Inv(st) && CleansOk(st) && Changing(st, Run(w)) == Some(OpClean(s))
    ensures Gone(Next(st, Run(w)), s)
  {
    assert Settled(st, s);
    SettledNext(st, Run(w), s);
    ListBy(st, Run(w), s);
  }

  // ----- what an emission keeps

  lemma {:induction false} KeptAlong(t: seq<State>, m: nat, a: Aid)
    requires SpecRun(t) && m < |t| && a in Abs(t[0]).emissions
    ensures var x, y := Abs(t[0]).emissions, Abs(t[m]).emissions;
            a in y && y[a].start == x[a].start && x[a].log <= y[a].log
    decreases m
  {
    if m > 0 {
      KeptAlong(t, m - 1, a);
      assert SpecAt(t, m - 1);
      SpecKeepsEmission(Abs(t[m - 1]), Abs(t[m]), a);
    }
  }

  /** Whatever runs meanwhile, an emission keeps the list it began with and the turns it took. */
  lemma {:induction false} EmissionKept(es: seq<Event>, more: seq<Event>, a: Aid)
    requires a in Abs(Exec(es)).emissions
    ensures var x, y := Abs(Exec(es)).emissions, Abs(Exec(es + more)).emissions;
            a in y && y[a].start == x[a].start && x[a].log <= y[a].log
  {
    RunIsSpecRun(es, more);
    Ends(es, more);
    KeptAlong(States(es, more), |more|, a);
  }

  /** A slot not yet made, or not yet added, when an emission took its snapshot is never called by that emission. */
  lemma {:induction false} AddedLaterNeverCalled(es: seq<Event>, more: seq<Event>, a: Aid, s: Sid)
    requires a in Abs(Exec(es)).emissions
    requires s !in Exec(es).slots || exists w :: w in Exec(es).acts && Pending(Exec(es).acts[w], s)
    ensures var y := Abs(Exec(es + more)).emissions;
            a in y && forall t :: t in y[a].log ==> t.slot != s
  {
    RunKeepsInv(es);
    NotInStart(Exec(es), a, s);
    EmissionKept(es, more, a);
    RunKeepsInv(es + more);
    LogInStart(Exec(es + more), a);
  }

  lemma {:induction false} NotInStart(st: State, a: Aid, s: Sid)
    requires Inv(st) && a in Abs(st).emissions
    requires s !in st.slots || exists w :: w in st.acts && Pending(st.acts[w], s)
    ensures s !in Flatten(Abs(st).emissions[a].start)
  {
    assert WalkOk(st, st.acts[a]);
    if w :| w in st.acts && Pending(st.acts[w], s) { assert PendingOk(st, w, s); }
  }

  lemma {:induction false} LogInStart(st: State, a: Aid)
    requires Inv(st) && a in Abs(st).emissions
    ensures var e := Abs(st).emissions[a];
            forall t :: t in e.log ==> t.slot in Flatten(e.start)
  {
    assert WalkOk(st, st.acts[a]);
  }
}
