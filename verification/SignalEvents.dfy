/**
 * The signal machine read off its events: which emissions and changes there are,
 * where a slot's group comes from, and that nothing gets stuck
 * (cpp/sigslot/palacaze/include/sigslot/signal.hpp).
 */
module SignalEvents {
  import opened Options
  import opened SlotGroups
  import opened SignalThreads
  import opened SignalRuns

  /** The event that begins activity `a`. */
  predicate Begins(e: Event, a: Aid) {
    match e
    case BeginEmit(b) => a == b
    case BeginConnect(b, _, _) => a == b
    case BeginDisconnect(b, _) => a == b
    case BeginRemoval(b, _) => a == b
    case _ => false
  }

  /** No event has begun it. */
  ghost predicate New(es: seq<Event>, a: Aid) {
    forall k | 0 <= k < |es| :: !Begins(es[k], a)
  }

  // ----- one more event

  lemma {:induction false} Last(es: seq<Event>)
    requires es != []
    ensures Exec(es) == Next(Exec(es[..|es| - 1]), es[|es| - 1]) && Inv(Exec(es[..|es| - 1]))
  {
    RunKeepsInv(es[..|es| - 1]);
  }

  lemma {:induction false} ActsBy(st: State, e: Event, a: Aid)
    requires Inv(st) && a in Next(st, e).acts
    ensures a in st.acts || Begins(e, a)
  {
    if e.Run? && e.a in st.acts { StepMoves(st, e.a); }
  }

  lemma {:induction false} ActsStay(st: State, e: Event, a: Aid)
    requires Inv(st) && a in st.acts
    ensures a in Next(st, e).acts
  {
    if e.Run? && e.a in st.acts { StepMoves(st, e.a); }
  }

  /** Who is there was begun by an event. */
  lemma {:induction false} NewIsNot(es: seq<Event>, a: Aid)
    requires New(es, a)
    ensures a !in Exec(es).acts
  {
    if es != [] {
      var n := |es| - 1;
      Last(es);
      NewIsNot(es[..n], a) by { forall k | 0 <= k < n ensures !Begins(es[..n][k], a) { assert es[..n][k] == es[k]; } }
      if a in Exec(es).acts { ActsBy(Exec(es[..n]), es[n], a); }
    }
  }

  // ----- which emissions there are

  /** The signal was blocked last, and not unblocked since. */
  ghost predicate Silenced(es: seq<Event>) {
    exists k | 0 <= k < |es| :: es[k] == SetSignalBlock(true) && forall j | k < j < |es| :: !es[j].SetSignalBlock?
  }

  lemma {:induction false} SilencedSnoc(es: seq<Event>, e: Event)
    ensures Silenced(es + [e]) <==> if e.SetSignalBlock? then e.b else Silenced(es)
  {
    var r := es + [e];
    assert forall k | 0 <= k < |es| :: r[k] == es[k];
    assert r[|es|] == e;
    if e == SetSignalBlock(true) {
      assert r[|es|] == SetSignalBlock(true);
    } else if !e.SetSignalBlock? && Silenced(es) {
      var k :| 0 <= k < |es| && es[k] == SetSignalBlock(true) && forall j | k < j < |es| :: !es[j].SetSignalBlock?;
      assert r[k] == SetSignalBlock(true);
    }
  }

  lemma {:induction false} BlockBy(st: State, e: Event)
    requires Inv(st)
    ensures Next(st, e).block == if e.SetSignalBlock? then e.b else st.block
  {
    if e.Run? && e.a in st.acts { StepBlock(st, e.a); }
  }

  lemma {:induction false} StepBlock(st: State, a: Aid)
    requires a in st.acts
    ensures Step(st, a).block == st.block
  {
    if IsEmit(st.acts[a]) { EmitBlock(st, a); } else { WriteBlock(st, a); }
  }

  lemma {:induction false} EmitBlock(st: State, a: Aid)
    requires a in st.acts
    ensures EmitStep(st, a, st.acts[a]).block == st.block
  {
    match st.acts[a]
    case Walking(p, start, log) =>
    case _ =>
  }

  lemma {:induction false} WriteBlock(st: State, a: Aid)
    requires a in st.acts
    ensures WriteStep(st, a, st.acts[a]).block == st.block
  {
    match st.acts[a]
    case WriteUnique(op) =>
    case _ =>
  }

  lemma {:induction false} BlockIs(es: seq<Event>)
    ensures Exec(es).block <==> Silenced(es)
  {
    if es != [] {
      var n := |es| - 1;
      Last(es);
      BlockIs(es[..n]);
      BlockBy(Exec(es[..n]), es[n]);
      SilencedSnoc(es[..n], es[n]);
      assert es[..n] + [es[n]] == es;
    }
  }

  /** A blocked signal emits nothing: every emission there is was begun while the signal was not blocked. */
  lemma {:induction false} EmitsOnlyUnblocked(es: seq<Event>, a: Aid)
    requires a in Exec(es).acts && IsEmit(Exec(es).acts[a])
    ensures exists k | 0 <= k < |es| :: es[k] == BeginEmit(a) && !Silenced(es[..k])
  {
    var n := |es| - 1;
    Last(es);
    var st := Exec(es[..n]);
    if a in st.acts {
      EmitBy(st, es[n], a);
      EmitsOnlyUnblocked(es[..n], a);
      var k :| 0 <= k < n && es[..n][k] == BeginEmit(a) && !Silenced(es[..n][..k]);
      assert es[k] == BeginEmit(a) && es[..n][..k] == es[..k];
    } else {
      BlockIs(es[..n]);
      EmitBegins(st, es[n], a);
    }
  }

  lemma {:induction false} EmitBy(st: State, e: Event, a: Aid)
    requires Inv(st) && a in st.acts && a in Next(st, e).acts && IsEmit(Next(st, e).acts[a])
    ensures IsEmit(st.acts[a])
  {
    if e == Run(a) {
      if !IsEmit(st.acts[a]) { WriteStays(st, a); }
    } else {
      OnlyItself(st, e, a);
    }
  }

  lemma {:induction false} WriteStays(st: State, a: Aid)
    requires a in st.acts && !IsEmit(st.acts[a])
    ensures a in Step(st, a).acts && !IsEmit(Step(st, a).acts[a])
  {
    match st.acts[a]
    case WriteUnique(op) => ChangeMovesOn(st, a, op);
    case _ =>
  }

  lemma {:induction false} EmitBegins(st: State, e: Event, a: Aid)
    requires Inv(st) && a !in st.acts && a in Next(st, e).acts && IsEmit(Next(st, e).acts[a])
    ensures e == BeginEmit(a) && !st.block
  {
    ActsBy(st, e, a);
  }

  /** An emission that is asked for begins exactly when the signal is not blocked; otherwise nothing happens at all. */
  lemma {:induction false} EmissionBeginsIff(es: seq<Event>, a: Aid)
    requires New(es, a)
    ensures a in Exec(es + [BeginEmit(a)]).acts <==> !Silenced(es)
    ensures !Silenced(es) ==> Exec(es + [BeginEmit(a)]).acts[a] == EmitWait
    ensures Silenced(es) ==> Exec(es + [BeginEmit(a)]) == Exec(es)
  {
    NextIs(es, BeginEmit(a));
    NewIsNot(es, a);
    BlockIs(es);
  }

  // ----- which changes there are

  /** The change an activity is about. */
  function OpOf(pc: Pc): Option<Op> {
    match pc
    case WriteWait(op) => Some(op)
    case WriteLocked(op) => Some(op)
    case WriteShared(op) => Some(op)
    case WriteCopied(op, _) => Some(op)
    case WriteSwapped(op, _) => Some(op)
    case WriteFreeing(op, _) => Some(op)
    case WriteUnique(op) => Some(op)
    case WriteDone(op) => Some(op)
    case Written(op) => Some(op)
    case _ => None
  }

  /** This event asks for the change. */
  predicate AsksFor(e: Event, a: Aid, op: Op) {
    match e
    case BeginConnect(b, s, _) => a == b && op == OpAdd(s)
    case BeginDisconnect(b, s) => a == b && op == OpClean(s)
    case BeginRemoval(b, o) => a == b && op == o
    case _ => false
  }

  lemma {:induction false} StepOp(st: State, a: Aid)
    requires a in st.acts
    ensures a in Step(st, a).acts && OpOf(Step(st, a).acts[a]) == OpOf(st.acts[a])
  {
    if IsEmit(st.acts[a]) {
      EmitStays(st, a);
    } else {
      match st.acts[a]
      case WriteUnique(op) => ChangeMovesOn(st, a, op);
      case _ =>
    }
  }

  lemma {:induction false} OpBy(st: State, e: Event, a: Aid, op: Op)
    requires Inv(st) && a in Next(st, e).acts && OpOf(Next(st, e).acts[a]) == Some(op)
    ensures if a in st.acts then OpOf(st.acts[a]) == Some(op) else AsksFor(e, a, op)
  {
    if a in st.acts {
      if e == Run(a) { StepOp(st, a); } else { OnlyItself(st, e, a); }
    } else {
      ActsBy(st, e, a);
    }
  }

  /** Every change there is, at whatever point, is the one that some event asked for. */
  lemma {:induction false} ChangeWasAskedFor(es: seq<Event>, a: Aid, op: Op)
    requires a in Exec(es).acts && OpOf(Exec(es).acts[a]) == Some(op)
    ensures exists k | 0 <= k < |es| :: AsksFor(es[k], a, op)
  {
    var n := |es| - 1;
    Last(es);
    OpBy(Exec(es[..n]), es[n], a, op);
    if a in Exec(es[..n]).acts {
      ChangeWasAskedFor(es[..n], a, op);
      var k :| 0 <= k < n && AsksFor(es[..n][k], a, op);
      assert AsksFor(es[k], a, op);
    }
  }

  /** A removal that is asked for begins. */
  lemma {:induction false} RemovalBegins(es: seq<Event>, a: Aid, op: Op)
    requires New(es, a) && !op.OpAdd? && !op.OpClean?
    ensures var st := Exec(es + [BeginRemoval(a, op)]);
            a in st.acts && st.acts[a] == WriteWait(op)
  {
    NextIs(es, BeginRemoval(a, op));
    NewIsNot(es, a);
  }

  /** A disconnect of a slot that a finished connect made, and that nobody disconnected, succeeds. */
  lemma {:induction false} DisconnectSucceeds(es: seq<Event>, w: Aid, a: Aid, s: Sid)
    requires New(es, a) && w in Exec(es).acts && Exec(es).acts[w] == Written(OpAdd(s))
    requires forall k | 0 <= k < |es| :: !(es[k].BeginDisconnect? && es[k].s == s)
    ensures var st := Exec(es + [BeginDisconnect(a, s)]);
            && s in st.slots && !st.slots[s].connected
            && a in st.acts && st.acts[a] == WriteWait(OpClean(s)) && st.wins[s] == 1
  {
    NextIs(es, BeginDisconnect(a, s));
    NewIsNot(es, a);
    AddedIsSettled(es, w, s);
    StillConnected(es, s);
    DisconnectWinsOnce(es, s);
  }

  lemma {:induction false} StillConnected(es: seq<Event>, s: Sid)
    requires forall k | 0 <= k < |es| :: !(es[k].BeginDisconnect? && es[k].s == s)
    ensures s in Exec(es).slots ==> Exec(es).slots[s].connected
  {
    if es != [] {
      var n := |es| - 1;
      Last(es);
      forall k | 0 <= k < n ensures !(es[..n][k].BeginDisconnect? && es[..n][k].s == s) { assert es[..n][k] == es[k]; }
      StillConnected(es[..n], s);
      if s in Exec(es[..n]).slots { FlagsBy(Exec(es[..n]), es[n], s); } else if s in Exec(es).slots { SlotBy(Exec(es[..n]), es[n], s); }
    }
  }

  /** Only the event that connects it makes a slot. */
  lemma {:induction false} SlotBy(st: State, e: Event, s: Sid)
    requires Inv(st) && s !in st.slots && s in Next(st, e).slots
    ensures e.BeginConnect? && e.s == s && e.a !in st.acts && Next(st, e).slots[s] == SlotRec(e.gid, 0, true, false)
  {
    if e.Run? && e.a in st.acts {
      if st.acts[e.a].WriteUnique? { ChangeList(st, e.a); } else { StepList(st, e.a); }
    }
  }

  lemma {:induction false} AddedIsSettled(es: seq<Event>, w: Aid, s: Sid)
    requires w in Exec(es).acts && Done(Exec(es).acts[w], OpAdd(s))
    ensures Settled(Exec(es), s)
    decreases |es|
  {
    var n := |es| - 1;
    Last(es);
    var st := Exec(es[..n]);
    DoneBy(st, es[n], w, OpAdd(s));
    if w in st.acts && Done(st.acts[w], OpAdd(s)) {
      AddedIsSettled(es[..n], w, s);
      SettledNext(st, es[n], s);
    } else {
      AddSettles(st, w, s);
    }
  }

  lemma {:induction false} AddSettles(st: State, w: Aid, s: Sid)
    requires Inv(st) && Changing(st, Run(w)) == Some(OpAdd(s)) && w in Next(st, Run(w)).acts && Done(Next(st, Run(w)).acts[w], OpAdd(s))
    ensures Settled(Next(st, Run(w)), s)
  {
    assert Pending(st.acts[w], s) && PendingOk(st, w, s);
    StepMoves(st, w);
    FlagsBy(st, Run(w), s);
    PendingBy(st, Run(w), s);
  }

  // ----- where a slot comes from

  /** A slot has the group it was connected with. */
  lemma {:induction false} GroupFromConnect(es: seq<Event>, s: Sid)
    requires s in Exec(es).slots
    ensures exists k | 0 <= k < |es| :: es[k].BeginConnect? && es[k].s == s && es[k].gid == Exec(es).slots[s].group
  {
    var n := |es| - 1;
    Last(es);
    var st := Exec(es[..n]);
    if s in st.slots {
      FlagsBy(st, es[n], s);
      GroupFromConnect(es[..n], s);
      var k :| 0 <= k < n && es[..n][k].BeginConnect? && es[..n][k].s == s && es[..n][k].gid == st.slots[s].group;
      assert es[k] == es[..n][k];
    } else {
      SlotBy(st, es[n], s);
    }
  }

  /** A connect of a slot nobody connected before begins, with its group, connected and unblocked. */
  lemma {:induction false} ConnectBegins(es: seq<Event>, a: Aid, s: Sid, gid: int)
    requires New(es, a) && forall k | 0 <= k < |es| :: !(es[k].BeginConnect? && es[k].s == s)
    ensures var st := Exec(es + [BeginConnect(a, s, gid)]);
            && s in st.slots && st.slots[s].group == gid && st.slots[s].connected && !st.slots[s].blocked
            && a in st.acts && st.acts[a] == WriteWait(OpAdd(s))
  {
    NextIs(es, BeginConnect(a, s, gid));
    NewIsNot(es, a);
    if s in Exec(es).slots { GroupFromConnect(es, s); }
  }

  // ----- what a change does to the list

  /** The step that carries out a change: who is on the list then. */
  lemma {:induction false} ListAfterChange(es: seq<Event>, a: Aid, x: Sid)
    requires a in Exec(es).acts && Exec(es).acts[a].WriteUnique?
    ensures var st := Exec(es);
            Listed(Exec(es + [Run(a)]), x) <==>
              match st.acts[a].op
              case OpAdd(s) => Listed(st, x) || x == s
              case OpClean(s) => Listed(st, x) && x != s
              case OpPrune(gone) => Listed(st, x) && x !in gone
              case OpGroup(gid) => Listed(st, x) && x in st.slots && st.slots[x].group != gid
              case OpClear => false
  {
    RunKeepsInv(es);
    NextIs(es, Run(a));
    ListBy(Exec(es), Run(a), x);
  }

  // ----- nothing gets stuck

  predicate Finished(pc: Pc) { pc.Emitted? || pc.Written? }

  /** It does not wait for a mutex that somebody has. */
  ghost predicate CanMove(st: State, a: Aid) {
    a in st.acts && !Finished(st.acts[a]) && (st.mutex.None? || !(st.acts[a].EmitWait? || st.acts[a].WriteWait?))
  }

  /** Whenever something is under way, something can move. */
  lemma {:induction false} NoDeadlock(es: seq<Event>, a: Aid)
    requires a in Exec(es).acts && !Finished(Exec(es).acts[a])
    ensures exists b :: CanMove(Exec(es), b)
  {
    var st := Exec(es);
    RunKeepsInv(es);
    if st.mutex.None? {
      assert CanMove(st, a);
    } else {
      var b := st.mutex.value;
      Grip(st, b);
      assert CanMove(st, b);
    }
  }

  /** An upper bound on the steps an activity still takes. */
  ghost function Rank(list: Groups<Sid>, pc: Pc): nat {
    match pc
    case EmitWait => 2 * |Flatten(list)| + 8
    case EmitLocked => 2 * |Flatten(list)| + 7
    case EmitCopied(_) => 2 * |Flatten(list)| + 6
    case EmitCounted(_, start) => 2 * |Flatten(start)| + 5
    case Walking(_, start, log) => if |log| <= |Flatten(start)| then 2 * (|Flatten(start)| - |log|) + 4 else 4
    case Testing(_, start, log, _) => if |log| <= |Flatten(start)| then 2 * (|Flatten(start)| - |log|) + 3 else 3
    case EmitFreeing(_, _, _) => 1
    case Emitted(_, _) => 0
    case WriteWait(_) => 9
    case WriteLocked(_) => 8
    case WriteShared(_) => 7
    case WriteCopied(_, _) => 6
    case WriteSwapped(_, _) => 5
    case WriteFreeing(_, _) => 4
    case WriteUnique(_) => 3
    case WriteDone(_) => 2
    case Written(_) => 0
  }

  ghost function RankOf(st: State, a: Aid): nat
    requires a in st.acts
  {
    Rank(ListOf(st), st.acts[a])
  }

  lemma {:induction false} SnapshotProgress(st: State, a: Aid)
    requires Gripped(st, a) && CanMove(st, a)
    requires var pc := st.acts[a]; pc.EmitWait? || pc.EmitLocked? || pc.EmitCopied? || pc.EmitCounted?
    ensures a in Step(st, a).acts && Rank(ListOf(st), Step(st, a).acts[a]) < RankOf(st, a)
  {
  }

  lemma {:induction false} WalkProgress(st: State, a: Aid)
    requires Gripped(st, a) && WalkInv(st) && st.acts[a].Walking? && !Step(st, a).crashed
    ensures a in Step(st, a).acts && Rank(ListOf(st), Step(st, a).acts[a]) < RankOf(st, a)
  {
    assert WalkOk(st, st.acts[a]);
  }

  lemma {:induction false} TestProgress(st: State, a: Aid)
    requires Gripped(st, a) && WalkInv(st) && st.acts[a].Testing? && !Step(st, a).crashed
    ensures a in Step(st, a).acts && Rank(ListOf(st), Step(st, a).acts[a]) < RankOf(st, a)
  {
    assert WalkOk(st, st.acts[a]);
  }

  lemma {:induction false} EmitProgress(st: State, a: Aid)
    requires Gripped(st, a) && WalkInv(st) && CanMove(st, a) && IsEmit(st.acts[a]) && !Step(st, a).crashed
    ensures a in Step(st, a).acts && Rank(ListOf(st), Step(st, a).acts[a]) < RankOf(st, a)
  {
    match st.acts[a]
    case EmitWait | EmitLocked | EmitCopied(_) | EmitCounted(_, _) => SnapshotProgress(st, a);
    case Walking(_, _, _) => WalkProgress(st, a);
    case Testing(_, _, _, _) => TestProgress(st, a);
    case EmitFreeing(_, _, _) =>
  }

  lemma {:induction false} ChangeProgress(st: State, a: Aid, list: Groups<Sid>)
    requires Gripped(st, a) && st.acts[a].WriteUnique? && !Step(st, a).crashed
    ensures a in Step(st, a).acts && Rank(list, Step(st, a).acts[a]) < Rank(list, st.acts[a])
  {
    ChangeMovesOn(st, a, st.acts[a].op);
  }

  lemma {:induction false} LockProgress(st: State, a: Aid, list: Groups<Sid>)
    requires Gripped(st, a) && CanMove(st, a) && !Step(st, a).crashed
    requires var pc := st.acts[a]; pc.WriteWait? || pc.WriteLocked? || pc.WriteDone?
    ensures a in Step(st, a).acts && Rank(list, Step(st, a).acts[a]) < Rank(list, st.acts[a])
  {
  }

  lemma {:induction false} CopyProgress(st: State, a: Aid, list: Groups<Sid>)
    requires Gripped(st, a) && !Step(st, a).crashed
    requires var pc := st.acts[a]; pc.WriteShared? || pc.WriteCopied? || pc.WriteSwapped? || pc.WriteFreeing?
    ensures a in Step(st, a).acts && Rank(list, Step(st, a).acts[a]) < Rank(list, st.acts[a])
  {
  }

  lemma {:induction false} WriteProgress(st: State, a: Aid, list: Groups<Sid>)
    requires Gripped(st, a) && CanMove(st, a) && !IsEmit(st.acts[a]) && !Step(st, a).crashed
    ensures a in Step(st, a).acts && Rank(list, Step(st, a).acts[a]) < Rank(list, st.acts[a])
  {
    match st.acts[a]
    case WriteUnique(op) => ChangeProgress(st, a, list);
    case WriteShared(_) | WriteCopied(_, _) | WriteSwapped(_, _) | WriteFreeing(_, _) => CopyProgress(st, a, list);
    case WriteWait(_) | WriteLocked(_) | WriteDone(_) => LockProgress(st, a, list);
  }

  /** Every step of an activity that can move brings it closer to its end. */
  lemma {:induction false} StepProgress(st: State, a: Aid)
    requires Inv(st) && CanMove(st, a)
    ensures a in Step(st, a).acts && RankOf(Step(st, a), a) < RankOf(st, a)
  {
    Grip(st, a);
    StepNoCrash(st, a);
    if IsEmit(st.acts[a]) {
      EmitProgress(st, a);
      StepList(st, a);
    } else {
      WriteProgress(st, a, ListOf(st));
      WriteStays(st, a);
    }
  }

  /** The mutex is free or its own. */
  ghost predicate MayRun(st: State, a: Aid) {
    a in st.acts && (st.mutex.None? || st.mutex == Some(a))
  }

  lemma {:induction false} StillMayRun(st: State, a: Aid)
    requires Inv(st) && MayRun(st, a)
    ensures MayRun(Step(st, a), a)
  {
    Grip(st, a);
    StepNoCrash(st, a);
    StepMem(st, a);
  }

  lemma {:induction false} MayRunMoves(st: State, a: Aid)
    requires Inv(st) && MayRun(st, a) && !Finished(st.acts[a])
    ensures CanMove(st, a)
  {
    Grip(st, a);
  }

  /** n steps of `a`. */
  function Times(a: Aid, n: nat): seq<Event> { seq(n, _ => Run(a)) }

  lemma {:induction false} StepCloser(st: State, a: Aid)
    requires Inv(st) && MayRun(st, a) && !Finished(st.acts[a])
    ensures MayRun(Step(st, a), a) && RankOf(Step(st, a), a) < RankOf(st, a)
  {
    MayRunMoves(st, a);
    StepProgress(st, a);
    StillMayRun(st, a);
  }

  lemma NextRun(es: seq<Event>, a: Aid)
    requires a in Exec(es).acts
    ensures Exec(es + [Run(a)]) == Step(Exec(es), a)
  {
    NextIs(es, Run(a));
  }

  lemma {:induction false} OneStepCloser(es: seq<Event>, a: Aid)
    requires MayRun(Exec(es), a) && !Finished(Exec(es).acts[a])
    ensures MayRun(Exec(es + [Run(a)]), a) && RankOf(Exec(es + [Run(a)]), a) < RankOf(Exec(es), a)
  {
    RunKeepsInv(es);
    NextRun(es, a);
    StepCloser(Exec(es), a);
  }

  ghost predicate FinishesAfter(es: seq<Event>, a: Aid, n: nat) {
    var st := Exec(es + Times(a, n));
    MayRun(st, a) && Finished(st.acts[a])
  }

  lemma OneMoreTime(es: seq<Event>, a: Aid, n: nat)
    ensures es + Times(a, 0) == es && es + [Run(a)] + Times(a, n) == es + Times(a, n + 1)
  {
  }

  lemma {:induction false} FinishesWithin(es: seq<Event>, a: Aid, r: nat) returns (n: nat)
    requires MayRun(Exec(es), a) && RankOf(Exec(es), a) <= r
    ensures n <= r && FinishesAfter(es, a, n)
    decreases r
  {
    n := 0;
    OneMoreTime(es, a, 0);
    if !Finished(Exec(es).acts[a]) {
      OneStepCloser(es, a);
      n := FinishesWithin(es + [Run(a)], a, r - 1);
      OneMoreTime(es, a, n);
      n := n + 1;
    }
  }

  /** An activity finishes by its own steps alone, in a bounded number of them, whenever nobody else holds the mutex. */
  lemma {:induction false} FinishesAlone(es: seq<Event>, a: Aid) returns (n: nat)
    requires MayRun(Exec(es), a)
    ensures n <= RankOf(Exec(es), a)
    ensures var st := Exec(es + Times(a, n));
            a in st.acts && Finished(st.acts[a])
  {
    n := FinishesWithin(es, a, RankOf(Exec(es), a));
  }
}
