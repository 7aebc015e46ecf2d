/**
 * The thread-safe signal as a machine of atomic steps.  The slot list lives in
 * reference-counted payloads; writers and snapshot takers hold the mutex, an
 * emission walks and releases its snapshot outside it
 * (cpp/sigslot/palacaze/include/sigslot/signal.hpp).
 *
 * Every emission and every change of the list is an activity with its own
 * program counter.  A callback that connects, disconnects or emits is one more
 * activity whose steps fall between two turns of the emission that called it, so
 * re-entrant runs are runs of this machine.  A step that would touch a freed
 * payload, an unknown slot or a zero count sets `crashed`.
 */
module SignalThreads {
  import opened Options
  import opened SlotGroups

  type Sid = nat // slots
  type Pid = nat // payloads
  type Aid = nat // activities

  datatype SlotRec = SlotRec(group: int, index: nat, connected: bool, blocked: bool)

  type Table = map<Sid, SlotRec>

  datatype Payload = Payload(count: nat, value: Groups<Sid>)

  /** A change of the list: `add_slot`, `clean`, `disconnect_if`, `disconnect(gid)`, `disconnect_all`. */
  datatype Op = OpAdd(s: Sid) | OpClean(s: Sid) | OpPrune(gone: set<Sid>) | OpGroup(gid: int) | OpClear

  datatype Turn = Turn(slot: Sid, called: bool)

  datatype Pc =
    | EmitWait
    | EmitLocked
    | EmitCopied(p: Pid)                                                 // pointer copied, not counted yet
    | EmitCounted(p: Pid, start: Groups<Sid>)
    | Walking(p: Pid, start: Groups<Sid>, log: seq<Turn>)                // outside the lock
    | Testing(p: Pid, start: Groups<Sid>, log: seq<Turn>, s: Sid)        // the next slot was seen connected
    | EmitFreeing(p: Pid, start: Groups<Sid>, log: seq<Turn>)            // this release brought the count to zero
    | Emitted(start: Groups<Sid>, log: seq<Turn>)
    | WriteWait(op: Op)
    | WriteLocked(op: Op)
    | WriteShared(op: Op)                                                // `unique()` said no
    | WriteCopied(op: Op, q: Pid)                                        // the copy, still a temporary
    | WriteSwapped(op: Op, p: Pid)                                       // the temporary now holds the old payload
    | WriteFreeing(op: Op, p: Pid)
    | WriteUnique(op: Op)                                                // may change the value in place
    | WriteDone(op: Op)
    | Written(op: Op)

  /** `start` in an emission's pc is history: no step reads it. */
  datatype State = State(
    slots: Table,
    heap: map<Pid, Payload>,
    sig: Pid,
    nextPid: nat,
    freed: seq<Pid>,
    mutex: Option<Aid>,
    acts: map<Aid, Pc>,
    block: bool,
    wins: multiset<Sid>,
    crashed: bool)

  datatype Event =
    | BeginEmit(a: Aid)
    | BeginConnect(a: Aid, s: Sid, gid: int)
    | BeginDisconnect(a: Aid, s: Sid)
    | BeginRemoval(a: Aid, op: Op)
    | SetBlocked(s: Sid, b: bool)
    | SetSignalBlock(b: bool)
    | Run(a: Aid)

  function Init(): State {
    State(map[], map[0 := Payload(1, [])], 0, 1, [], None, map[], false, multiset{}, false)
  }

  // ----- changes of the list, with the index bookkeeping

  function GroupOf(gs: Groups<Sid>, gid: int): (k: nat)
    ensures k <= |gs|
    ensures k < |gs| ==> gs[k].gid == gid
    ensures forall i :: 0 <= i < k ==> gs[i].gid != gid
  {
    if gs == [] || gs[0].gid == gid then 0 else 1 + GroupOf(gs[1..], gid)
  }

  function SetIndex(t: Table, s: Sid, i: nat): Table {
    if s in t then t[s := t[s].(index := i)] else t
  }

  /** The loop of `disconnect_if` over one group, from position `i` on. */
  function PruneFrom(slts: seq<Sid>, i: nat, gone: set<Sid>, t: Table): (seq<Sid>, Table)
    requires i <= |slts|
    decreases |slts| - i
  {
    if i == |slts| then (slts, t)
    else if slts[i] in gone then
      PruneFrom(SwapPop(slts, i), i, gone, SetIndex(t, slts[|slts| - 1], i))
    else PruneFrom(slts, i + 1, gone, t)
  }

  function Prune(gs: Groups<Sid>, gone: set<Sid>, t: Table): (Groups<Sid>, Table) {
    if gs == [] then ([], t)
    else
      var (head, t1) := PruneFrom(gs[0].slts, 0, gone, t);
      var (tail, t2) := Prune(gs[1..], gone, t1);
      ([Group(gs[0].gid, head)] + tail, t2)
  }

  function ApplyOp(gs: Groups<Sid>, t: Table, op: Op): (Groups<Sid>, Table) {
    match op
    case OpAdd(s) =>
      if s !in t then (gs, t)
      else
        var gid := t[s].group;
        var k := Seek(gs, gid);
        (Add(gs, gid, s), SetIndex(t, s, if k < |gs| && gs[k].gid == gid then |gs[k].slts| else 0))
    case OpClean(s) =>
      if s !in t then (gs, t)
      else
        var k := GroupOf(gs, t[s].group);
        var i := t[s].index;
        if k < |gs| && i < |gs[k].slts| && gs[k].slts[i] == s
        then (RemoveAt(gs, k, i), SetIndex(t, gs[k].slts[|gs[k].slts| - 1], i))
        else (gs, t)
    case OpPrune(gone) => Prune(gs, gone, t)
    case OpGroup(gid) =>
      var k := GroupOf(gs, gid);
      (if k < |gs| then gs[k := Group(gid, [])] else gs, t)
    case OpClear => ([], t)
  }

  // ----- steps

  function Crash(st: State): State {
    st.(crashed := true)
  }

  function To(st: State, a: Aid, pc: Pc): State {
    st.(acts := st.acts[a := pc])
  }

  function Lock(st: State, a: Aid, pc: Pc): State {
    if st.mutex.None? then To(st.(mutex := Some(a)), a, pc) else st
  }

  /** Destructor of a handle: decrement, and remember whether this reached zero. */
  function Release(st: State, a: Aid, p: Pid, last: Pc, others: Pc): State {
    if p !in st.heap || st.heap[p].count == 0 then Crash(st)
    else
      var n := st.heap[p].count - 1;
      To(st.(heap := st.heap[p := st.heap[p].(count := n)]), a, if n == 0 then last else others)
  }

  function Free(st: State, a: Aid, p: Pid, pc: Pc): State {
    if p !in st.heap then Crash(st)
    else To(st.(heap := st.heap - {p}, freed := st.freed + [p]), a, pc)
  }

  /** Next step of an emission: snapshot under the mutex, walk and release outside it. */
  function EmitStep(st: State, a: Aid, pc: Pc): State {
    match pc
    case EmitWait => Lock(st, a, EmitLocked)
    case EmitLocked => To(st, a, EmitCopied(st.sig))
    case EmitCopied(p) =>
      if p !in st.heap then Crash(st)
      else To(st.(heap := st.heap[p := st.heap[p].(count := st.heap[p].count + 1)]), a, EmitCounted(p, st.heap[p].value))
    case EmitCounted(p, start) => To(st.(mutex := None), a, Walking(p, start, []))
    case Walking(p, start, log) => if p in st.heap then WalkStep(st, a, p, start, log) else Crash(st)
    case Testing(p, start, log, s) =>
      if p !in st.heap || s !in st.slots then Crash(st)
      else To(st, a, Walking(p, start, log + [Turn(s, !st.slots[s].blocked)]))
    case EmitFreeing(p, start, log) => Free(st, a, p, Emitted(start, log))
    case _ => st
  }

  /**
   * The next slot of the snapshot: a turn reads `connected` in one step and, if
   * that was set, `blocked` in another.  At the end, release.
   */
  function WalkStep(st: State, a: Aid, p: Pid, start: Groups<Sid>, log: seq<Turn>): State
    requires p in st.heap
  {
    var flat := Flatten(st.heap[p].value);
    if |log| < |flat| then
      var s := flat[|log|];
      if s !in st.slots then Crash(st)
      else To(st, a, if st.slots[s].connected then Testing(p, start, log, s) else Walking(p, start, log + [Turn(s, false)]))
    else Release(st, a, p, EmitFreeing(p, start, log), Emitted(start, log))
  }

  /** Next step of a change: `write()` makes the payload unique, then the list is changed in place. */
  function WriteStep(st: State, a: Aid, pc: Pc): State {
    match pc
    case WriteWait(op) => Lock(st, a, WriteLocked(op))
    case WriteLocked(op) =>
      if st.sig !in st.heap then Crash(st)
      else To(st, a, if st.heap[st.sig].count == 1 then WriteUnique(op) else WriteShared(op))
    case WriteShared(op) =>
      if st.sig !in st.heap then Crash(st)
      else
        var q := st.nextPid;
        To(st.(heap := st.heap[q := Payload(1, st.heap[st.sig].value)], nextPid := q + 1), a, WriteCopied(op, q))
    case WriteCopied(op, q) => To(st.(sig := q), a, WriteSwapped(op, st.sig))
    case WriteSwapped(op, p) => Release(st, a, p, WriteFreeing(op, p), WriteUnique(op))
    case WriteFreeing(op, p) => Free(st, a, p, WriteUnique(op))
    case WriteUnique(op) => if st.sig in st.heap then Change(st, a, op) else Crash(st)
    case WriteDone(op) => To(st.(mutex := None), a, Written(op))
    case _ => st
  }

  function Change(st: State, a: Aid, op: Op): State
    requires st.sig in st.heap
  {
    var (v, t) := ApplyOp(st.heap[st.sig].value, st.slots, op);
    To(st.(heap := st.heap[st.sig := st.heap[st.sig].(value := v)], slots := t), a, WriteDone(op))
  }

  predicate IsEmit(pc: Pc) {
    pc.EmitWait? || pc.EmitLocked? || pc.EmitCopied? || pc.EmitCounted? || pc.Walking? || pc.Testing? || pc.EmitFreeing? || pc.Emitted?
  }

  function Step(st: State, a: Aid): State
    requires a in st.acts
  {
    if IsEmit(st.acts[a]) then EmitStep(st, a, st.acts[a]) else WriteStep(st, a, st.acts[a])
  }

  /** A slot still connected, whose `connect` has already listed it: before that nobody has the connection. */
  predicate MayDisconnect(st: State, s: Sid) {
    s in st.slots && st.slots[s].connected && forall b | b in st.acts :: !Pending(st.acts[b], s)
  }

  /** One event; an event whose guard fails changes nothing. */
  function Next(st: State, e: Event): State {
    match e
    case BeginEmit(a) => if a !in st.acts && !st.block then To(st, a, EmitWait) else st
    case BeginConnect(a, s, gid) =>
      if a !in st.acts && s !in st.slots
      then To(st.(slots := st.slots[s := SlotRec(gid, 0, true, false)]), a, WriteWait(OpAdd(s)))
      else st
    case BeginDisconnect(a, s) =>
      if a !in st.acts && MayDisconnect(st, s)
      then To(st.(slots := st.slots[s := st.slots[s].(connected := false)], wins := st.wins + multiset{s}), a, WriteWait(OpClean(s)))
      else st
    case BeginRemoval(a, op) =>
      if a !in st.acts && !op.OpAdd? && !op.OpClean? then To(st, a, WriteWait(op)) else st
    case SetBlocked(s, b) =>
      if s in st.slots then st.(slots := st.slots[s := st.slots[s].(blocked := b)]) else st
    case SetSignalBlock(b) => st.(block := b)
    case Run(a) => if a in st.acts then Step(st, a) else st
  }

  /** The state after a run: any interleaving is some sequence of events. */
  function Exec(es: seq<Event>): State {
    if es == [] then Init() else Next(Exec(es[..|es| - 1]), es[|es| - 1])
  }

  // ----- invariant

  predicate Locked(pc: Pc) {
    match pc
    case EmitLocked | EmitCopied(_) | EmitCounted(_, _) => true
    case WriteLocked(_) | WriteShared(_) | WriteCopied(_, _) | WriteSwapped(_, _) => true
    case WriteFreeing(_, _) | WriteUnique(_) | WriteDone(_) => true
    case _ => false
  }

  ghost predicate MutexInv(st: State) {
    && (st.mutex.Some? ==> st.mutex.value in st.acts)
    && forall a :: a in st.acts ==> (Locked(st.acts[a]) <==> st.mutex == Some(a))
  }

  /** A live handle on payload `p`, apart from the signal's own. */
  predicate Holds(pc: Pc, p: Pid) {
    match pc
    case EmitCounted(q, _) => q == p
    case Walking(q, _, _) => q == p
    case Testing(q, _, _, _) => q == p
    case WriteCopied(_, q) => q == p
    case WriteSwapped(_, q) => q == p
    case _ => false
  }

  predicate Freeing(pc: Pc, p: Pid) {
    match pc
    case EmitFreeing(q, _, _) => q == p
    case WriteFreeing(_, q) => q == p
    case _ => false
  }

  ghost function Holders(acts: map<Aid, Pc>, p: Pid): set<Aid> {
    set a | a in acts && Holds(acts[a], p)
  }

  /** Number of live handles on `p`. */
  ghost function Handles(st: State, p: Pid): nat {
    |Holders(st.acts, p)| + if st.sig == p then 1 else 0
  }

  /** Each payload's count is its number of live handles, and every handle is on a live payload. */
  ghost predicate CountInv(st: State) {
    && (forall p :: p in st.heap ==> st.heap[p].count == Handles(st, p))
    && st.sig in st.heap
    && (forall a, p :: a in st.acts && Holds(st.acts[a], p) ==> p in st.heap)
  }

  /** A payload at zero is being freed by exactly one activity, and only such a one. */
  ghost predicate FreeInv(st: State) {
    && (forall a, p :: a in st.acts && Freeing(st.acts[a], p) ==> p in st.heap && st.heap[p].count == 0)
    && (forall a, b, p :: a in st.acts && b in st.acts && Freeing(st.acts[a], p) && Freeing(st.acts[b], p) ==> a == b)
    && (forall p :: p in st.heap && st.heap[p].count == 0 ==> exists a :: a in st.acts && Freeing(st.acts[a], p))
  }

  /** Every payload ever made is live or freed, never both, and freed once. */
  ghost predicate LedgerInv(st: State) {
    && (forall p :: p in st.heap ==> p < st.nextPid)
    && (forall i :: 0 <= i < |st.freed| ==> st.freed[i] < st.nextPid && st.freed[i] !in st.heap)
    && (forall i, j :: 0 <= i < j < |st.freed| ==> st.freed[i] != st.freed[j])
    && (forall p: nat :: p < st.nextPid ==> p in st.heap || p in st.freed)
  }

  /** What a writer or a snapshot taker relies on while it holds the mutex. */
  ghost predicate OwnerInv(st: State, pc: Pc)
    requires st.sig in st.heap
  {
    match pc
    case EmitCopied(p) => p == st.sig
    case WriteCopied(_, q) => q in st.heap && q != st.sig && st.heap[q].value == st.heap[st.sig].value && st.heap[q].count == 1
    case WriteSwapped(_, p) => p != st.sig && st.heap[st.sig].count == 1
    case WriteFreeing(_, p) => p != st.sig && st.heap[st.sig].count == 1
    case WriteUnique(_) => st.heap[st.sig].count == 1
    case _ => true
  }

  ghost predicate OwnersInv(st: State) {
    && st.sig in st.heap
    && forall a :: a in st.acts ==> OwnerInv(st, st.acts[a])
  }

  /** A group whose slots are known, of that group, and at their stored index. */
  ghost predicate Placed(g: Group<Sid>, t: Table) {
    forall i :: 0 <= i < |g.slts| ==> g.slts[i] in t && t[g.slts[i]].group == g.gid && t[g.slts[i]].index == i
  }

  ghost predicate ListInv(gs: Groups<Sid>, t: Table) {
    && Ascending(gs)
    && forall g :: 0 <= g < |gs| ==> Placed(gs[g], t)
  }

  /** What stays true of a list after it stopped being the signal's current one. */
  ghost predicate SnapshotOk(gs: Groups<Sid>, t: Table) {
    && Ascending(gs)
    && Distinct(gs)
    && forall s :: s in Flatten(gs) ==> s in t
  }

  /** The log holds the turns taken so far, in the order of the snapshot. */
  ghost predicate LogOf(start: Groups<Sid>, log: seq<Turn>) {
    && |log| <= |Flatten(start)|
    && forall k :: 0 <= k < |log| ==> log[k].slot == Flatten(start)[k]
  }

  ghost predicate WalkOk(st: State, pc: Pc) {
    match pc
    case EmitCounted(p, start) => p in st.heap && st.heap[p].value == start && SnapshotOk(start, st.slots)
    case Walking(p, start, log) => p in st.heap && st.heap[p].value == start && SnapshotOk(start, st.slots) && LogOf(start, log)
    case Testing(p, start, log, s) =>
      && p in st.heap && st.heap[p].value == start && SnapshotOk(start, st.slots) && LogOf(start, log)
      && |log| < |Flatten(start)| && s == Flatten(start)[|log|]
    case EmitFreeing(p, start, log) => SnapshotOk(start, st.slots) && LogOf(start, log) && |log| == |Flatten(start)|
    case Emitted(start, log) => SnapshotOk(start, st.slots) && LogOf(start, log) && |log| == |Flatten(start)|
    case _ => true
  }

  ghost predicate WalkInv(st: State) {
    forall a :: a in st.acts ==> WalkOk(st, st.acts[a])
  }

  predicate Pending(pc: Pc, s: Sid) {
    match pc
    case WriteWait(op) => op == OpAdd(s)
    case WriteLocked(op) => op == OpAdd(s)
    case WriteShared(op) => op == OpAdd(s)
    case WriteCopied(op, _) => op == OpAdd(s)
    case WriteSwapped(op, _) => op == OpAdd(s)
    case WriteFreeing(op, _) => op == OpAdd(s)
    case WriteUnique(op) => op == OpAdd(s)
    case _ => false
  }

  function StartOf(pc: Pc): Groups<Sid> {
    match pc
    case EmitCounted(_, start) => start
    case Walking(_, start, _) => start
    case Testing(_, start, _, _) => start
    case EmitFreeing(_, start, _) => start
    case Emitted(start, _) => start
    case _ => []
  }

  /** A slot still to be added is known, unlisted, in no emission's snapshot, and added by one activity only. */
  ghost predicate PendingOk(st: State, a: Aid, s: Sid) {
    && s in st.slots
    && (st.sig in st.heap ==> s !in Flatten(st.heap[st.sig].value))
    && (forall b :: b in st.acts ==> s !in Flatten(StartOf(st.acts[b])))
    && (forall b :: b in st.acts && Pending(st.acts[b], s) ==> a == b)
  }

  ghost predicate PendingInv(st: State) {
    forall a, s :: a in st.acts && Pending(st.acts[a], s) ==> PendingOk(st, a, s)
  }

  ghost predicate WinsInv(st: State) {
    forall s :: st.wins[s] == if s in st.slots && !st.slots[s].connected then 1 else 0
  }

  /** The memory side: mutex, counts, ownership. */
  ghost predicate MemInv(st: State) {
    && MutexInv(st)
    && CountInv(st)
    && FreeInv(st)
    && LedgerInv(st)
    && OwnersInv(st)
  }

  /** The list side: order, indices, snapshots, pending additions. */
  ghost predicate ListsInv(st: State) {
    && st.sig in st.heap
    && ListInv(st.heap[st.sig].value, st.slots)
    && WalkInv(st)
    && PendingInv(st)
    && WinsInv(st)
  }

  ghost predicate Inv(st: State) {
    !st.crashed && MemInv(st) && ListsInv(st)
  }

  // ----- counting handles

  lemma {:induction false} HoldersUpdate(acts: map<Aid, Pc>, a: Aid, pc: Pc, p: Pid)
    ensures |Holders(acts[a := pc], p)| ==
            |Holders(acts, p)| - (if a in acts && Holds(acts[a], p) then 1 else 0) + (if Holds(pc, p) then 1 else 0)
  {
    var before, after := Holders(acts, p), Holders(acts[a := pc], p);
    assert before - {a} == after - {a};
    assert |before| == |before - {a}| + if a in before then 1 else 0;
    assert |after| == |after - {a}| + if a in after then 1 else 0;
  }

  // ----- changes of the list keep the index in step

  /** Only stored indices of slots of group `gid` differ. */
  ghost predicate OnlyIndices(t: Table, u: Table, gid: int) {
    && u.Keys == t.Keys
    && forall s :: s in t ==> u[s] == t[s].(index := u[s].index) && (t[s].group != gid ==> u[s] == t[s])
  }

  ghost predicate SameFlags(t: Table, u: Table) {
    && u.Keys == t.Keys
    && forall s :: s in t ==> u[s] == t[s].(index := u[s].index)
  }

  lemma {:induction false} ListDistinct(gs: Groups<Sid>, t: Table)
    requires ListInv(gs, t)
    ensures Distinct(gs)
    ensures forall s :: s in Flatten(gs) ==> s in t
  {
    forall g, i, h, j | At(gs, g, i) && At(gs, h, j) && gs[g].slts[i] == gs[h].slts[j]
      ensures g == h && i == j
    {
      assert Placed(gs[g], t) && Placed(gs[h], t);
    }
    forall k | 0 <= k < |Flatten(gs)| ensures Flatten(gs)[k] in t {
      var (g, i) := Locate(gs, k);
      assert Placed(gs[g], t);
    }
  }

  lemma PlacedElsewhere(g: Group<Sid>, t: Table, u: Table, gid: int)
    requires Placed(g, t) && OnlyIndices(t, u, gid) && g.gid != gid
    ensures Placed(g, u)
  {
  }

  /** One swap-and-pop, with the moved slot's index written. */
  lemma SwapPopPlaced(gid: int, slts: seq<Sid>, i: nat, t: Table)
    requires i < |slts| && Placed(Group(gid, slts), t)
    ensures var u := SetIndex(t, slts[|slts| - 1], i);
            Placed(Group(gid, SwapPop(slts, i)), u) && OnlyIndices(t, u, gid)
  {
    var g := Group(gid, slts);
    assert g.slts[|slts| - 1] in t;
    forall k | 0 <= k < |slts| - 1 ensures slts[k] != slts[|slts| - 1] {
      assert t[g.slts[k]].index == k && t[g.slts[|slts| - 1]].index == |slts| - 1;
    }
  }

  /** The pruned group holds exactly the slots not in `gone`, each at its index. */
  lemma {:induction false} PruneFromKeeps(gid: int, slts: seq<Sid>, i: nat, gone: set<Sid>, t: Table)
    requires i <= |slts| && Placed(Group(gid, slts), t)
    requires forall k :: 0 <= k < i ==> slts[k] !in gone
    ensures var (r, u) := PruneFrom(slts, i, gone, t);
            && Placed(Group(gid, r), u)
            && OnlyIndices(t, u, gid)
            && forall x :: x in r <==> x in slts && x !in gone
    decreases |slts| - i
  {
    if i == |slts| {
    } else if slts[i] in gone {
      SwapPopPlaced(gid, slts, i, t);
      PruneFromKeeps(gid, SwapPop(slts, i), i, gone, SetIndex(t, slts[|slts| - 1], i));
      SwapPopMembers(slts, i);
    } else {
      PruneFromKeeps(gid, slts, i + 1, gone, t);
    }
  }

  lemma SwapPopMembers(slts: seq<Sid>, i: nat)
    requires i < |slts|
    ensures forall x :: x in slts <==> x in SwapPop(slts, i) || x == slts[i]
  {
    var r, n := SwapPop(slts, i), |slts| - 1;
    forall x | x in slts && x != slts[i] ensures x in r {
      var k :| 0 <= k < |slts| && slts[k] == x;
      if k == n { assert r[i] == x; } else { assert r[k] == x; }
    }
  }

  lemma {:induction false} PruneKeeps(gs: Groups<Sid>, gone: set<Sid>, t: Table)
    requires ListInv(gs, t)
    ensures var (r, u) := Prune(gs, gone, t);
            && ListInv(r, u)
            && SameFlags(t, u)
            && |r| == |gs|
            && (forall g :: 0 <= g < |gs| ==> r[g].gid == gs[g].gid)
            && (forall s :: s in t && (forall g :: 0 <= g < |gs| ==> gs[g].gid != t[s].group) ==> u[s] == t[s])
            && (forall x :: x in Flatten(r) <==> x in Flatten(gs) && x !in gone)
  {
    if gs != [] {
      var g0, rest := gs[0], gs[1..];
      var (head, t1) := PruneFrom(g0.slts, 0, gone, t);
      assert Placed(g0, t) && g0 == Group(g0.gid, g0.slts);
      PruneFromKeeps(g0.gid, g0.slts, 0, gone, t);
      forall g | 0 <= g < |rest| ensures Placed(rest[g], t1) {
        assert Placed(gs[g + 1], t);
        PlacedElsewhere(rest[g], t, t1, g0.gid);
      }
      PruneKeeps(rest, gone, t1);
      var (tail, t2) := Prune(rest, gone, t1);
      var r := [Group(g0.gid, head)] + tail;
      assert Placed(r[0], t2) by {
        forall i | 0 <= i < |head| ensures head[i] in t1 && t2[head[i]] == t1[head[i]] {
          assert Placed(Group(g0.gid, head), t1) && Group(g0.gid, head).slts[i] == head[i];
          assert forall g :: 0 <= g < |rest| ==> rest[g].gid == gs[g + 1].gid != g0.gid;
        }
      }
      assert r[1..] == tail;
      forall g | 0 <= g < |r| ensures Placed(r[g], t2) {
        if g > 0 { assert r[g] == tail[g - 1]; }
      }
      PruneRest(gs, t, t1, t2);
    }
  }

  lemma PruneRest(gs: Groups<Sid>, t: Table, t1: Table, t2: Table)
    requires gs != []
    requires OnlyIndices(t, t1, gs[0].gid) && SameFlags(t1, t2)
    requires forall s :: s in t1 && (forall g :: 0 <= g < |gs[1..]| ==> gs[1..][g].gid != t1[s].group) ==> t2[s] == t1[s]
    ensures SameFlags(t, t2)
    ensures forall s :: s in t && (forall g :: 0 <= g < |gs| ==> gs[g].gid != t[s].group) ==> t2[s] == t[s]
  {
    forall s | s in t && (forall g :: 0 <= g < |gs| ==> gs[g].gid != t[s].group) ensures t2[s] == t[s] {
      assert t[s].group != gs[0].gid && t1[s] == t[s];
      assert forall g :: 0 <= g < |gs[1..]| ==> gs[1..][g] == gs[g + 1];
    }
  }

  /** Which slots a change leaves listed. */
  predicate Survives(gs: Groups<Sid>, t: Table, op: Op, x: Sid) {
    match op
    case OpAdd(s) => x in Flatten(gs) || x == s
    case OpClean(s) => x in Flatten(gs) && x != s
    case OpPrune(gone) => x in Flatten(gs) && x !in gone
    case OpGroup(gid) => x in Flatten(gs) && x in t && t[x].group != gid
    case OpClear => false
  }

  /** Every change keeps the list in order with exact indices, and leaves exactly the intended slots. */
  lemma {:induction false} ApplyOpOk(gs: Groups<Sid>, t: Table, op: Op)
    requires ListInv(gs, t)
    requires op.OpAdd? ==> op.s in t && op.s !in Flatten(gs)
    ensures var (r, u) := ApplyOp(gs, t, op);
            && ListInv(r, u)
            && SameFlags(t, u)
            && forall x :: x in Flatten(r) <==> Survives(gs, t, op, x)
  {
    match op
    case OpAdd(s) => AddOk(gs, t, s);
    case OpClean(s) => CleanOk(gs, t, s);
    case OpPrune(gone) => PruneKeeps(gs, gone, t);
    case OpGroup(gid) => GroupOk(gs, t, gid);
    case OpClear =>
  }

  lemma {:induction false} AddOk(gs: Groups<Sid>, t: Table, s: Sid)
    requires ListInv(gs, t)
    requires s in t && s !in Flatten(gs)
    ensures var (r, u) := ApplyOp(gs, t, OpAdd(s));
            && ListInv(r, u)
            && SameFlags(t, u)
            && forall x :: x in Flatten(r) <==> x in Flatten(gs) || x == s
  {
    var gid := t[s].group;
    var k := Seek(gs, gid);
    var (r, u) := ApplyOp(gs, t, OpAdd(s));
    AddKeepsOrder(gs, gid, s);
    AddMembers(gs, gid, s);
    forall g | 0 <= g < |gs| ensures Placed(gs[g], u) {
      Unlisted(gs, g, s);
    }
    forall g | 0 <= g < |r| ensures Placed(r[g], u) {
      if g != k { assert r[g] in gs; }
    }
  }

  lemma {:induction false} AddMembers(gs: Groups<Sid>, gid: int, s: Sid)
    ensures forall x :: x in Flatten(Add(gs, gid, s)) <==> x in Flatten(gs) || x == s
  {
    AddAddsOne(gs, gid, s);
    var r, f := Flatten(Add(gs, gid, s)), Flatten(gs);
    assert forall x :: (x in r <==> x in multiset(r)) && (x in f <==> x in multiset(f));
  }

  lemma {:induction false} RemoveMembers(gs: Groups<Sid>, k: nat, i: nat)
    requires Distinct(gs) && At(gs, k, i)
    ensures forall x :: x in Flatten(RemoveAt(gs, k, i)) <==> x in Flatten(gs) && x != gs[k].slts[i]
  {
    RemoveAtRemovesOne(gs, k, i);
    OnceListed(gs, k, i);
    var r, f := Flatten(RemoveAt(gs, k, i)), Flatten(gs);
    assert forall x :: (x in r <==> x in multiset(r)) && (x in f <==> x in multiset(f));
  }

  lemma {:induction false} Unlisted(gs: Groups<Sid>, g: nat, s: Sid)
    requires g < |gs| && s !in Flatten(gs)
    ensures s !in gs[g].slts
  {
    FlattenAround(gs, g);
  }

  lemma {:induction false} CleanOk(gs: Groups<Sid>, t: Table, s: Sid)
    requires ListInv(gs, t)
    ensures var (r, u) := ApplyOp(gs, t, OpClean(s));
            && ListInv(r, u)
            && SameFlags(t, u)
            && forall x :: x in Flatten(r) <==> x in Flatten(gs) && x != s
  {
    ListDistinct(gs, t);
    if s !in t { return; }
    var k, i := GroupOf(gs, t[s].group), t[s].index;
    if k < |gs| && i < |gs[k].slts| && gs[k].slts[i] == s {
      DropOk(gs, t, k, i);
    } else {
      forall n | 0 <= n < |Flatten(gs)| ensures Flatten(gs)[n] != s {
        var (g, j) := Locate(gs, n);
        assert Placed(gs[g], t);
      }
    }
  }

  lemma {:induction false} DropOk(gs: Groups<Sid>, t: Table, k: nat, i: nat)
    requires ListInv(gs, t) && At(gs, k, i)
    ensures var r, u := RemoveAt(gs, k, i), SetIndex(t, gs[k].slts[|gs[k].slts| - 1], i);
            && ListInv(r, u)
            && SameFlags(t, u)
            && forall x :: x in Flatten(r) <==> x in Flatten(gs) && x != gs[k].slts[i]
  {
    var r, u := RemoveAt(gs, k, i), SetIndex(t, gs[k].slts[|gs[k].slts| - 1], i);
    ListDistinct(gs, t);
    assert Placed(gs[k], t) && gs[k] == Group(gs[k].gid, gs[k].slts);
    SwapPopPlaced(gs[k].gid, gs[k].slts, i, t);
    forall g | 0 <= g < |r| ensures Placed(r[g], u) {
      if g != k {
        assert gs[g].gid != gs[k].gid;
        PlacedElsewhere(gs[g], t, u, gs[k].gid);
      }
    }
    RemoveMembers(gs, k, i);
  }

  lemma {:induction false} OnceListed(gs: Groups<Sid>, k: nat, i: nat)
    requires Distinct(gs) && At(gs, k, i)
    ensures multiset(Flatten(gs))[gs[k].slts[i]] == 1
  {
    var f, s := Flatten(gs), gs[k].slts[i];
    InFlatten(gs, s);
    assert Lists(gs, s);
    var n :| 0 <= n < |f| && f[n] == s;
    assert f == f[..n] + [s] + f[n + 1..];
    forall m | 0 <= m < |f| && m != n ensures f[m] != s {
      if m < n { DistinctFlattens(gs, m, n); } else { DistinctFlattens(gs, n, m); }
    }
    assert s !in f[..n] && s !in f[n + 1..];
    assert s !in multiset(f[..n]) && s !in multiset(f[n + 1..]);
  }

  lemma {:induction false} GroupOk(gs: Groups<Sid>, t: Table, gid: int)
    requires ListInv(gs, t)
    ensures var (r, u) := ApplyOp(gs, t, OpGroup(gid));
            && ListInv(r, u)
            && SameFlags(t, u)
            && forall x :: x in Flatten(r) <==> Survives(gs, t, OpGroup(gid), x)
  {
    var (r, u) := ApplyOp(gs, t, OpGroup(gid));
    ListDistinct(gs, t);
    forall x ensures x in Flatten(r) <==> x in Flatten(gs) && x in t && t[x].group != gid {
      InFlatten(r, x);
      InFlatten(gs, x);
      if Lists(r, x) {
        var g, i :| At(r, g, i) && r[g].slts[i] == x;
        assert Placed(gs[g], t) && At(gs, g, i);
      }
      if Lists(gs, x) && t[x].group != gid {
        var g, i :| At(gs, g, i) && gs[g].slts[i] == x;
        assert Placed(gs[g], t) && At(r, g, i);
      }
    }
  }

  // ----- every step keeps the invariant

  lemma {:induction false} HolderCounts(st: State, a: Aid, p: Pid)
    requires CountInv(st) && a in st.acts && Holds(st.acts[a], p)
    ensures p in st.heap && st.heap[p].count >= 1
    ensures p == st.sig ==> st.heap[p].count >= 2
  {
    assert a in Holders(st.acts, p);
  }

  /** The program counter before the move; a new activity starts out holding nothing. */
  function PcOf(st: State, a: Aid): Pc {
    if a in st.acts then st.acts[a] else EmitWait
  }

  /** Between `st` and `st'` only activity `a` moved. */
  ghost predicate Moved(st: State, st': State, a: Aid) {
    a in st'.acts && st'.acts == st.acts[a := st'.acts[a]]
  }

  ghost predicate MutexMoves(st: State, st': State, a: Aid) {
    && (Locked(PcOf(st', a)) <==> st'.mutex == Some(a))
    && (st'.mutex == st.mutex || (st.mutex == None && st'.mutex == Some(a)) || (st.mutex == Some(a) && st'.mutex == None))
  }

  lemma {:induction false} MutexMove(st: State, st': State, a: Aid)
    requires MutexInv(st) && Moved(st, st', a) && MutexMoves(st, st', a)
    ensures MutexInv(st')
  {
  }

  /** Change in the number of handles on `p` caused by `a`'s move and by the signal's own handle. */
  function Delta(st: State, st': State, a: Aid, p: Pid): int {
    (if Holds(PcOf(st', a), p) then 1 else 0) - (if Holds(PcOf(st, a), p) then 1 else 0)
    + (if st'.sig == p then 1 else 0) - (if st.sig == p then 1 else 0)
  }

  ghost predicate CountMoves(st: State, st': State, a: Aid) {
    && st'.sig in st'.heap
    && (forall p :: Holds(PcOf(st', a), p) ==> p in st'.heap)
    && (forall p :: p in st.heap && p !in st'.heap ==> st.heap[p].count == 0)
    && (forall p :: p in st'.heap && p in st.heap ==> st'.heap[p].count == st.heap[p].count + Delta(st, st', a, p))
    && (forall p :: p in st'.heap && p !in st.heap ==> st'.heap[p].count == Delta(st, st', a, p))
  }

  lemma {:induction false} CountMove(st: State, st': State, a: Aid)
    requires CountInv(st) && Moved(st, st', a) && CountMoves(st, st', a)
    ensures CountInv(st')
  {
    forall p | p in st'.heap ensures st'.heap[p].count == Handles(st', p) {
      HoldersUpdate(st.acts, a, st'.acts[a], p);
      if p !in st.heap { assert Holders(st.acts, p) == {}; }
    }
    forall b, p | b in st'.acts && Holds(st'.acts[b], p) ensures p in st'.heap {
      if b != a { HolderCounts(st, b, p); }
    }
  }

  ghost predicate FreeMoves(st: State, st': State, a: Aid) {
    && (forall p :: Freeing(PcOf(st', a), p) ==> p in st'.heap && st'.heap[p].count == 0)
    && (forall p :: Freeing(PcOf(st', a), p) && !Freeing(PcOf(st, a), p) ==> p in st.heap && st.heap[p].count > 0)
    && (forall p :: p in st.heap && st.heap[p].count == 0 && !Freeing(PcOf(st, a), p) ==> p in st'.heap && st'.heap[p].count == 0)
    && (forall p :: p in st'.heap && st'.heap[p].count == 0 ==>
          Freeing(PcOf(st', a), p) || (p in st.heap && st.heap[p].count == 0 && !Freeing(PcOf(st, a), p)))
  }

  lemma {:induction false} FreeMove(st: State, st': State, a: Aid)
    requires FreeInv(st) && Moved(st, st', a) && FreeMoves(st, st', a)
    ensures FreeInv(st')
  {
    forall p | p in st'.heap && st'.heap[p].count == 0 ensures exists b :: b in st'.acts && Freeing(st'.acts[b], p) {
      if Freeing(st'.acts[a], p) {
      } else {
        var b :| b in st.acts && Freeing(st.acts[b], p);
        assert b != a && st'.acts[b] == st.acts[b];
      }
    }
  }

  ghost predicate LedgerMoves(st: State, st': State) {
    || (st'.heap.Keys == st.heap.Keys && st'.freed == st.freed && st'.nextPid == st.nextPid)
    || (st'.heap.Keys == st.heap.Keys + {st.nextPid} && st'.freed == st.freed && st'.nextPid == st.nextPid + 1)
    || (exists p :: p in st.heap && st'.heap.Keys == st.heap.Keys - {p} && st'.freed == st.freed + [p] && st'.nextPid == st.nextPid)
  }

  lemma {:induction false} LedgerMove(st: State, st': State)
    requires LedgerInv(st) && LedgerMoves(st, st')
    ensures LedgerInv(st')
  {
    forall p: nat | p < st'.nextPid ensures p in st'.heap || p in st'.freed {
      if p in st.heap { assert p in st.heap.Keys; }
    }
    forall i | 0 <= i < |st'.freed| ensures st'.freed[i] < st'.nextPid && st'.freed[i] !in st'.heap {
      assert i < |st.freed| ==> st.freed[i] !in st.heap.Keys;
      assert st'.freed[i] !in st'.heap.Keys;
    }
    forall p | p in st'.heap ensures p < st'.nextPid { assert p in st'.heap.Keys; }
  }

  /**
   * What the mutex holder relies on survives the others: they touch neither the
   * signal's pointer nor the count or value of a payload with a single handle.
   */
  ghost predicate OwnerMoves(st: State, st': State, a: Aid) {
    && st.sig in st.heap && st'.sig in st'.heap
    && OwnerInv(st', PcOf(st', a))
    && (st.mutex.Some? && st.mutex.value != a ==>
          && st'.sig == st.sig
          && (forall p :: p in st.heap && st.heap[p].count == 1 && !Holds(PcOf(st, a), p) ==> p in st'.heap && st'.heap[p] == st.heap[p])
          && st'.heap[st'.sig].value == st.heap[st.sig].value)
  }

  lemma {:induction false} OwnersMove(st: State, st': State, a: Aid)
    requires MutexInv(st) && CountInv(st) && OwnersInv(st) && Moved(st, st', a) && OwnerMoves(st, st', a)
    ensures OwnersInv(st')
  {
    forall b | b in st'.acts ensures OwnerInv(st', st'.acts[b]) {
      if b != a && Locked(st.acts[b]) {
        assert st.mutex == Some(b) && OwnerInv(st, st.acts[b]);
        match st.acts[b]
        case WriteCopied(_, q) => OnlyHolder(st, b, a, q);
        case _ => SigUnheld(st, a);
      }
    }
  }

  lemma {:induction false} OnlyHolder(st: State, b: Aid, a: Aid, p: Pid)
    requires CountInv(st) && b in st.acts && a != b && Holds(st.acts[b], p) && p in st.heap && st.heap[p].count == 1
    ensures !Holds(PcOf(st, a), p)
    ensures p != st.sig
  {
    HolderCounts(st, b, p);
    if a in st.acts && Holds(st.acts[a], p) {
      assert {a, b} <= Holders(st.acts, p);
      CardinalityOfSubset({a, b}, Holders(st.acts, p));
    }
  }

  lemma {:induction false} SigUnheld(st: State, a: Aid)
    requires CountInv(st)
    ensures st.heap[st.sig].count == 1 ==> !Holds(PcOf(st, a), st.sig)
  {
    if a in st.acts && Holds(st.acts[a], st.sig) { HolderCounts(st, a, st.sig); }
  }

  lemma {:induction false} CardinalityOfSubset(x: set<Aid>, y: set<Aid>)
    requires x <= y
    ensures |x| <= |y|
  {
    assert y == x + (y - x);
  }

  ghost predicate TableGrows(t: Table, u: Table) {
    forall s :: s in t ==> s in u
  }

  /** Payloads held by others keep their value; `a`'s own emission record is in order. */
  ghost predicate WalkMoves(st: State, st': State, a: Aid) {
    && TableGrows(st.slots, st'.slots)
    && WalkOk(st', PcOf(st', a))
    && (forall b, p :: b in st.acts && b != a && Holds(st.acts[b], p) && p in st.heap ==>
          p in st'.heap && st'.heap[p].value == st.heap[p].value)
  }

  lemma {:induction false} WalkMove(st: State, st': State, a: Aid)
    requires WalkInv(st) && Moved(st, st', a) && WalkMoves(st, st', a)
    ensures WalkInv(st')
  {
    forall b | b in st'.acts ensures WalkOk(st', st'.acts[b]) {
      if b != a { assert WalkOk(st, st.acts[b]); }
    }
  }

  ghost predicate PendingMoves(st: State, st': State, a: Aid) {
    && TableGrows(st.slots, st'.slots)
    && st.sig in st.heap && st'.sig in st'.heap
    && (forall s :: Pending(PcOf(st', a), s) ==> Pending(PcOf(st, a), s) || s !in st.slots)
    && (forall s :: s in Flatten(st'.heap[st'.sig].value) ==>
          s in Flatten(st.heap[st.sig].value) || (Pending(PcOf(st, a), s) && !Pending(PcOf(st', a), s)))
    && (forall s :: s in Flatten(StartOf(PcOf(st', a))) ==>
          s in Flatten(StartOf(PcOf(st, a))) || s in Flatten(st.heap[st.sig].value))
    && (forall s :: Pending(PcOf(st', a), s) ==> s in st'.slots)
  }

  lemma {:induction false} PendingMove(st: State, st': State, a: Aid)
    requires PendingInv(st) && WalkInv(st) && st.sig in st.heap && ListInv(st.heap[st.sig].value, st.slots)
    requires Moved(st, st', a) && PendingMoves(st, st', a)
    ensures PendingInv(st')
  {
    ListDistinct(st.heap[st.sig].value, st.slots);
    forall b, s | b in st'.acts && Pending(st'.acts[b], s) ensures PendingOk(st', b, s)
    {
      if s in st.slots {
        assert b in st.acts && Pending(st.acts[b], s) && PendingOk(st, b, s);
      } else {
        assert b == a;
        forall c | c in st'.acts ensures s !in Flatten(StartOf(st'.acts[c])) {
          assert c in st.acts ==> WalkOk(st, st.acts[c]);
        }
      }
    }
  }

  ghost predicate WinsMoves(st: State, st': State) {
    && st'.wins == st.wins
    && forall s :: (s in st'.slots && !st'.slots[s].connected) <==> (s in st.slots && !st.slots[s].connected)
  }

  /** Values of payloads in use stay, except that of the signal's own payload when nobody else uses it. */
  ghost predicate ValuesKept(st: State, st': State) {
    forall p :: p in st.heap && st.heap[p].count >= 1 && (p == st.sig ==> st.heap[p].count >= 2) ==>
      p in st'.heap && st'.heap[p].value == st.heap[p].value
  }

  ghost predicate MemMoves(st: State, st': State, a: Aid) {
    && Moved(st, st', a)
    && ValuesKept(st, st')
    && MutexMoves(st, st', a)
    && CountMoves(st, st', a)
    && FreeMoves(st, st', a)
    && LedgerMoves(st, st')
    && OwnerMoves(st, st', a)
  }

  lemma {:induction false} MemMovesKeep(st: State, st': State, a: Aid)
    requires MemInv(st) && MemMoves(st, st', a)
    ensures MemInv(st')
  {
    MutexMove(st, st', a);
    CountMove(st, st', a);
    FreeMove(st, st', a);
    LedgerMove(st, st');
    OwnersMove(st, st', a);
  }

  ghost predicate ListMoves(st: State, st': State, a: Aid) {
    && Moved(st, st', a)
    && PendingMoves(st, st', a)
    && ListInv(st'.heap[st'.sig].value, st'.slots)
    && WalkMoves(st, st', a)
    && WinsMoves(st, st')
  }

  lemma {:induction false} ListMovesKeep(st: State, st': State, a: Aid)
    requires ListsInv(st) && ListMoves(st, st', a)
    ensures ListsInv(st')
  {
    WalkMove(st, st', a);
    PendingMove(st, st', a);
  }

  // ----- the seven kinds of moves, memory side

  ghost predicate SameHandles(x: Pc, y: Pc) {
    forall p :: (Holds(x, p) <==> Holds(y, p)) && (Freeing(x, p) <==> Freeing(y, p))
  }

  lemma {:induction false} QuietMem(st: State, st': State, a: Aid)
    requires Moved(st, st', a) && SameHandles(PcOf(st, a), PcOf(st', a))
    requires st.sig in st.heap && MutexMoves(st, st', a)
    requires forall p :: Holds(PcOf(st, a), p) || Freeing(PcOf(st, a), p) ==> p in st.heap
    requires forall p :: Freeing(PcOf(st, a), p) ==> st.heap[p].count == 0
    requires st'.heap == st.heap && st'.sig == st.sig && st'.freed == st.freed && st'.nextPid == st.nextPid
    requires OwnerInv(st', PcOf(st', a))
    ensures MemMoves(st, st', a)
  {
  }

  /** A handle on `p` is added to `n` or dropped from it. */
  lemma {:induction false} RecountMem(st: State, st': State, a: Aid, p: Pid, n: nat)
    requires st.sig in st.heap && MutexMoves(st, st', a) && Moved(st, st', a)
    requires p in st.heap && st'.heap == st.heap[p := st.heap[p].(count := n)]
    requires st'.sig == st.sig && st'.freed == st.freed && st'.nextPid == st.nextPid
    requires forall q :: q != p ==> (Holds(PcOf(st, a), q) <==> Holds(PcOf(st', a), q))
    requires forall q :: Holds(PcOf(st', a), q) ==> q in st.heap
    requires n == st.heap[p].count + Delta(st, st', a, p) && st.heap[p].count > 0
    requires Holds(PcOf(st, a), p) || (st.mutex == Some(a) && p == st.sig)
    requires forall q :: !Freeing(PcOf(st, a), q)
    requires forall q :: Freeing(PcOf(st', a), q) <==> q == p && n == 0
    requires OwnerInv(st', PcOf(st', a))
    ensures MemMoves(st, st', a)
  {
  }

  lemma {:induction false} FreedMem(st: State, st': State, a: Aid, p: Pid)
    requires st.sig in st.heap && MutexMoves(st, st', a) && Moved(st, st', a)
    requires p in st.heap && st'.heap == st.heap - {p} && st'.freed == st.freed + [p]
    requires st'.sig == st.sig && st'.nextPid == st.nextPid
    requires forall q :: Freeing(PcOf(st, a), q) <==> q == p
    requires st.heap[p].count == 0 && p != st.sig
    requires forall q :: !Holds(PcOf(st, a), q) && !Holds(PcOf(st', a), q) && !Freeing(PcOf(st', a), q)
    requires st'.sig in st'.heap ==> OwnerInv(st', PcOf(st', a))
    ensures MemMoves(st, st', a)
  {
  }

  lemma {:induction false} CopiedMem(st: State, st': State, a: Aid)
    requires st.sig in st.heap && LedgerInv(st) && MutexMoves(st, st', a) && Moved(st, st', a)
    requires st.mutex == Some(a)
    requires st'.heap == st.heap[st.nextPid := Payload(1, st.heap[st.sig].value)] && st'.nextPid == st.nextPid + 1
    requires st'.sig == st.sig && st'.freed == st.freed
    requires forall q :: !Holds(PcOf(st, a), q) && (Holds(PcOf(st', a), q) <==> q == st.nextPid)
    requires forall q :: !Freeing(PcOf(st, a), q) && !Freeing(PcOf(st', a), q)
    requires OwnerInv(st', PcOf(st', a))
    ensures MemMoves(st, st', a)
  {
  }

  lemma {:induction false} SwappedMem(st: State, st': State, a: Aid, q: Pid)
    requires st.sig in st.heap && MutexMoves(st, st', a) && Moved(st, st', a)
    requires st.mutex == Some(a)
    requires q in st.heap && q != st.sig && st'.heap == st.heap && st'.sig == q
    requires st'.freed == st.freed && st'.nextPid == st.nextPid
    requires forall p :: (Holds(PcOf(st, a), p) <==> p == q) && (Holds(PcOf(st', a), p) <==> p == st.sig)
    requires forall p :: !Freeing(PcOf(st, a), p) && !Freeing(PcOf(st', a), p)
    requires OwnerInv(st', PcOf(st', a))
    ensures MemMoves(st, st', a)
  {
  }

  lemma {:induction false} ChangedMem(st: State, st': State, a: Aid, v: Groups<Sid>)
    requires st.sig in st.heap && MutexMoves(st, st', a) && Moved(st, st', a)
    requires forall p :: !Freeing(PcOf(st, a), p) && !Holds(PcOf(st, a), p)
    requires forall p :: !Freeing(PcOf(st', a), p) && !Holds(PcOf(st', a), p)
    requires st.mutex == Some(a) && st.heap[st.sig].count == 1
    requires st'.heap == st.heap[st.sig := st.heap[st.sig].(value := v)]
    requires st'.sig == st.sig && st'.freed == st.freed && st'.nextPid == st.nextPid
    requires OwnerInv(st', PcOf(st', a))
    ensures MemMoves(st, st', a)
  {
  }

  /** What an activity may assume about the payload it holds or frees. */
  ghost predicate Gripped(st: State, a: Aid) {
    && a in st.acts
    && st.sig in st.heap && st.heap[st.sig].count > 0 && OwnerInv(st, st.acts[a])
    && (Locked(st.acts[a]) <==> st.mutex == Some(a))
    && (forall p :: Holds(st.acts[a], p) ==> p in st.heap && st.heap[p].count > 0)
    && (forall p :: Freeing(st.acts[a], p) ==> p in st.heap && st.heap[p].count == 0 && p != st.sig)
  }

  lemma {:induction false} Grip(st: State, a: Aid)
    requires MemInv(st) && a in st.acts
    ensures Gripped(st, a)
  {
    forall p | Holds(st.acts[a], p) ensures p in st.heap && st.heap[p].count > 0 { HolderCounts(st, a, p); }
    assert st.heap[st.sig].count == Handles(st, st.sig);
  }

  lemma {:induction false} StayMem(st: State, a: Aid)
    requires Gripped(st, a)
    ensures MemMoves(st, st, a)
  {
    assert st.acts == st.acts[a := st.acts[a]];
    QuietMem(st, st, a);
  }

  lemma {:induction false} EmitStepMem(st: State, a: Aid)
    requires Gripped(st, a) && !Step(st, a).crashed
    requires var pc := st.acts[a]; pc.EmitWait? || pc.EmitLocked? || pc.EmitCopied? || pc.EmitCounted? || pc.EmitFreeing? || pc.Emitted?
    ensures MemMoves(st, Step(st, a), a)
  {
    var st' := Step(st, a);
    match st.acts[a]
    case EmitWait => if st.mutex.None? { QuietMem(st, st', a); } else { StayMem(st, a); }
    case EmitLocked => QuietMem(st, st', a);
    case EmitCopied(p) => RecountMem(st, st', a, p, st.heap[p].count + 1);
    case EmitCounted(p, start) => QuietMem(st, st', a);
    case EmitFreeing(p, start, log) => FreedMem(st, st', a, p);
    case Emitted(_, _) => StayMem(st, a);
  }

  lemma {:induction false} WalkStepMem(st: State, a: Aid)
    requires Gripped(st, a) && !Step(st, a).crashed && (st.acts[a].Walking? || st.acts[a].Testing?)
    ensures MemMoves(st, Step(st, a), a)
  {
    var st' := Step(st, a);
    var p := st.acts[a].p;
    assert Holds(st.acts[a], p);
    if st'.heap == st.heap { QuietMem(st, st', a); } else { RecountMem(st, st', a, p, st.heap[p].count - 1); }
  }

  lemma {:induction false} LockStepMem(st: State, a: Aid)
    requires Gripped(st, a) && !Step(st, a).crashed
    requires var pc := st.acts[a]; pc.WriteWait? || pc.WriteLocked? || pc.WriteDone? || pc.Written?
    ensures MemMoves(st, Step(st, a), a)
  {
    var st' := Step(st, a);
    match st.acts[a]
    case WriteWait(_) => if st.mutex.None? { QuietMem(st, st', a); } else { StayMem(st, a); }
    case WriteLocked(_) => QuietMem(st, st', a);
    case WriteDone(_) => QuietMem(st, st', a);
    case Written(_) => StayMem(st, a);
  }

  lemma {:induction false} CopyStepMem(st: State, a: Aid)
    requires Gripped(st, a) && LedgerInv(st) && !Step(st, a).crashed
    requires var pc := st.acts[a]; pc.WriteShared? || pc.WriteCopied?
    ensures MemMoves(st, Step(st, a), a)
  {
    var st' := Step(st, a);
    match st.acts[a]
    case WriteShared(_) => CopiedMem(st, st', a);
    case WriteCopied(_, q) => SwappedMem(st, st', a, q);
  }

  lemma {:induction false} ReleaseStepMem(st: State, a: Aid)
    requires Gripped(st, a) && !Step(st, a).crashed
    requires var pc := st.acts[a]; pc.WriteSwapped? || pc.WriteFreeing? || pc.WriteUnique?
    ensures MemMoves(st, Step(st, a), a)
  {
    var st' := Step(st, a);
    match st.acts[a]
    case WriteSwapped(_, p) => RecountMem(st, st', a, p, st.heap[p].count - 1);
    case WriteFreeing(_, p) => FreedMem(st, st', a, p);
    case WriteUnique(op) => ChangedMem(st, st', a, ApplyOp(st.heap[st.sig].value, st.slots, op).0);
  }

  // ----- the list side

  /** Every payload somebody else holds keeps its value. */
  ghost predicate OthersKeep(st: State, st': State, a: Aid) {
    forall b, p :: b in st.acts && b != a && Holds(st.acts[b], p) && p in st.heap ==>
      p in st'.heap && st'.heap[p].value == st.heap[p].value
  }

  /** The list itself does not change. */
  lemma {:induction false} QuietList(st: State, st': State, a: Aid)
    requires ListsInv(st) && Moved(st, st', a) && OthersKeep(st, st', a)
    requires st'.slots == st.slots && st'.wins == st.wins
    requires st'.sig in st'.heap && st'.heap[st'.sig].value == st.heap[st.sig].value
    requires WalkOk(st', PcOf(st', a))
    requires StartOf(PcOf(st', a)) == StartOf(PcOf(st, a)) || StartOf(PcOf(st', a)) == st.heap[st.sig].value
    requires forall s :: Pending(PcOf(st', a), s) ==> a in st.acts && Pending(st.acts[a], s)
    ensures ListMoves(st, st', a)
  {
    forall s | Pending(PcOf(st', a), s) ensures s in st'.slots { assert PendingOk(st, a, s); }
  }

  lemma {:induction false} ChangedList(st: State, a: Aid, op: Op)
    requires ListsInv(st) && Gripped(st, a) && st.acts[a] == WriteUnique(op) && OthersKeep(st, Step(st, a), a)
    ensures ListMoves(st, Step(st, a), a)
  {
    var gs, t := st.heap[st.sig].value, st.slots;
    if op.OpAdd? { assert Pending(st.acts[a], op.s) && PendingOk(st, a, op.s); }
    ApplyOpOk(gs, t, op);
    ChangeMoves(st, a, op, ApplyOp(gs, t, op).0, ApplyOp(gs, t, op).1);
  }

  /** The move of a change whose result `v`, `u` is known to be in order. */
  lemma {:induction false} ChangeMoves(st: State, a: Aid, op: Op, v: Groups<Sid>, u: Table)
    requires st.sig in st.heap && a in st.acts && st.acts[a] == WriteUnique(op)
    requires ListInv(v, u) && SameFlags(st.slots, u)
    requires forall x :: x in Flatten(v) ==> x in Flatten(st.heap[st.sig].value) || op == OpAdd(x)
    requires OthersKeep(st, To(st.(heap := st.heap[st.sig := st.heap[st.sig].(value := v)], slots := u), a, WriteDone(op)), a)
    ensures ListMoves(st, To(st.(heap := st.heap[st.sig := st.heap[st.sig].(value := v)], slots := u), a, WriteDone(op)), a)
  {
  }

  lemma {:induction false} StepOthersKeep(st: State, st': State, a: Aid)
    requires CountInv(st) && ValuesKept(st, st')
    ensures OthersKeep(st, st', a)
  {
    forall b: Aid, p: Pid | b in st.acts && b != a && Holds(st.acts[b], p)
      ensures p in st.heap && st.heap[p].count >= 1 && (p == st.sig ==> st.heap[p].count >= 2)
    {
      HolderCounts(st, b, p);
    }
  }

  lemma {:induction false} EmitStepList(st: State, a: Aid)
    requires ListsInv(st) && Gripped(st, a) && OthersKeep(st, Step(st, a), a) && !Step(st, a).crashed
    requires var pc := st.acts[a]; pc.EmitWait? || pc.EmitLocked? || pc.EmitCopied? || pc.EmitCounted? || pc.EmitFreeing? || pc.Emitted?
    ensures ListMoves(st, Step(st, a), a)
  {
    var st' := Step(st, a);
    assert WalkOk(st, st.acts[a]);
    match st.acts[a]
    case EmitWait => if st.mutex.Some? { assert st.acts == st.acts[a := st.acts[a]]; } QuietList(st, st', a);
    case EmitLocked => QuietList(st, st', a);
    case EmitCopied(p) =>
      ListDistinct(st.heap[st.sig].value, st.slots);
      QuietList(st, st', a);
    case EmitCounted(p, start) => assert Holds(st.acts[a], p); QuietList(st, st', a);
    case EmitFreeing(p, start, log) => assert Freeing(st.acts[a], p); QuietList(st, st', a);
    case Emitted(_, _) => assert st.acts == st.acts[a := st.acts[a]]; QuietList(st, st', a);
  }

  lemma {:induction false} TurnList(st: State, a: Aid)
    requires ListsInv(st) && Gripped(st, a) && OthersKeep(st, Step(st, a), a) && !Step(st, a).crashed
    requires st.acts[a].Walking? && |st.acts[a].log| < |Flatten(st.acts[a].start)|
    ensures ListMoves(st, Step(st, a), a)
  {
    assert WalkOk(st, st.acts[a]);
    QuietList(st, Step(st, a), a);
  }

  lemma {:induction false} TestList(st: State, a: Aid)
    requires ListsInv(st) && Gripped(st, a) && OthersKeep(st, Step(st, a), a) && !Step(st, a).crashed && st.acts[a].Testing?
    ensures ListMoves(st, Step(st, a), a)
  {
    assert WalkOk(st, st.acts[a]);
    QuietList(st, Step(st, a), a);
  }

  lemma {:induction false} EndList(st: State, a: Aid)
    requires ListsInv(st) && Gripped(st, a) && OthersKeep(st, Step(st, a), a) && !Step(st, a).crashed
    requires st.acts[a].Walking? && |st.acts[a].log| >= |Flatten(st.acts[a].start)|
    ensures ListMoves(st, Step(st, a), a)
  {
    assert WalkOk(st, st.acts[a]);
    QuietList(st, Step(st, a), a);
  }

  lemma {:induction false} LockStepList(st: State, a: Aid)
    requires ListsInv(st) && Gripped(st, a) && OthersKeep(st, Step(st, a), a) && !Step(st, a).crashed
    requires var pc := st.acts[a]; pc.WriteWait? || pc.WriteLocked? || pc.WriteDone? || pc.Written?
    ensures ListMoves(st, Step(st, a), a)
  {
    var st' := Step(st, a);
    match st.acts[a]
    case WriteWait(_) => if st.mutex.Some? { assert st.acts == st.acts[a := st.acts[a]]; } QuietList(st, st', a);
    case WriteLocked(_) => QuietList(st, st', a);
    case WriteDone(_) => QuietList(st, st', a);
    case Written(_) => assert st.acts == st.acts[a := st.acts[a]]; QuietList(st, st', a);
  }

  lemma {:induction false} CopyStepList(st: State, a: Aid)
    requires ListsInv(st) && Gripped(st, a) && OthersKeep(st, Step(st, a), a) && !Step(st, a).crashed && st.sig < st.nextPid
    requires var pc := st.acts[a]; pc.WriteShared? || pc.WriteCopied? || pc.WriteSwapped? || pc.WriteFreeing?
    ensures ListMoves(st, Step(st, a), a)
  {
    var st' := Step(st, a);
    match st.acts[a]
    case WriteShared(_) => QuietList(st, st', a);
    case WriteCopied(_, q) => QuietList(st, st', a);
    case WriteSwapped(_, p) => QuietList(st, st', a);
    case WriteFreeing(_, p) => QuietList(st, st', a);
  }

  lemma {:induction false} StepNoCrash(st: State, a: Aid)
    requires Gripped(st, a) && WalkInv(st)
    ensures !Step(st, a).crashed || st.crashed
  {
    assert WalkOk(st, st.acts[a]);
    match st.acts[a]
    case Walking(p, start, log) =>
      assert Holds(st.acts[a], p);
      if |log| < |Flatten(start)| { assert Flatten(start)[|log|] in Flatten(start); }
    case Testing(p, start, log, s) =>
      assert Holds(st.acts[a], p) && Flatten(start)[|log|] in Flatten(start);
    case WriteSwapped(op, p) => assert Holds(st.acts[a], p);
    case EmitFreeing(p, _, _) => assert Freeing(st.acts[a], p);
    case WriteFreeing(_, p) => assert Freeing(st.acts[a], p);
    case _ =>
  }

  lemma {:induction false} StepMem(st: State, a: Aid)
    requires Gripped(st, a) && LedgerInv(st) && !Step(st, a).crashed
    ensures MemMoves(st, Step(st, a), a)
  {
    match st.acts[a]
    case EmitWait | EmitLocked | EmitCopied(_) | EmitCounted(_, _) | EmitFreeing(_, _, _) | Emitted(_, _) => EmitStepMem(st, a);
    case Walking(_, _, _) | Testing(_, _, _, _) => WalkStepMem(st, a);
    case WriteSwapped(_, _) | WriteFreeing(_, _) | WriteUnique(_) => ReleaseStepMem(st, a);
    case WriteShared(_) | WriteCopied(_, _) => CopyStepMem(st, a);
    case _ => LockStepMem(st, a);
  }

  lemma {:induction false} StepLists(st: State, a: Aid)
    requires ListsInv(st) && Gripped(st, a) && OthersKeep(st, Step(st, a), a) && !Step(st, a).crashed && LedgerInv(st)
    ensures ListMoves(st, Step(st, a), a)
  {
    match st.acts[a]
    case EmitWait | EmitLocked | EmitCopied(_) | EmitCounted(_, _) | EmitFreeing(_, _, _) | Emitted(_, _) => EmitStepList(st, a);
    case Walking(_, start, log) => if |log| < |Flatten(start)| { TurnList(st, a); } else { EndList(st, a); }
    case Testing(_, _, _, _) => TestList(st, a);
    case WriteUnique(op) => ChangedList(st, a, op);
    case WriteShared(_) | WriteCopied(_, _) | WriteSwapped(_, _) | WriteFreeing(_, _) => CopyStepList(st, a);
    case _ => LockStepList(st, a);
  }

  /** Any single atomic step of any activity keeps the invariant. */
  lemma {:induction false} StepKeepsInv(st: State, a: Aid)
    requires Inv(st) && a in st.acts
    ensures Inv(Step(st, a))
  {
    Grip(st, a);
    StepNoCrash(st, a);
    StepMem(st, a);
    StepOthersKeep(st, Step(st, a), a);
    StepLists(st, a);
    MemMovesKeep(st, Step(st, a), a);
    ListMovesKeep(st, Step(st, a), a);
  }

  // ----- events from outside

  lemma {:induction false} SameMem(st: State, st': State)
    requires MemInv(st)
    requires st'.mutex == st.mutex && st'.acts == st.acts && st'.heap == st.heap
    requires st'.sig == st.sig && st'.freed == st.freed && st'.nextPid == st.nextPid
    ensures MemInv(st')
  {
    assert forall p :: Handles(st', p) == Handles(st, p);
  }

  lemma {:induction false} BeginMem(st: State, st': State, a: Aid, pc: Pc)
    requires MemInv(st) && a !in st.acts && (pc.EmitWait? || pc.WriteWait?)
    requires st'.mutex == st.mutex && st'.acts == st.acts[a := pc] && st'.heap == st.heap
    requires st'.sig == st.sig && st'.freed == st.freed && st'.nextPid == st.nextPid
    ensures MemInv(st')
  {
    assert !Locked(pc) && st.mutex != Some(a);
    QuietMem(st, st', a);
    MemMovesKeep(st, st', a);
  }

  lemma {:induction false} BeginLists(st: State, st': State, a: Aid, pc: Pc)
    requires ListsInv(st) && a !in st.acts && (pc.EmitWait? || (pc.WriteWait? && !pc.op.OpAdd?))
    requires st' == To(st, a, pc)
    ensures ListsInv(st')
  {
    QuietList(st, st', a);
    ListMovesKeep(st, st', a);
  }

  lemma {:induction false} ConnectLists(st: State, a: Aid, s: Sid, gid: int)
    requires ListsInv(st) && a !in st.acts && s !in st.slots
    ensures ListsInv(Next(st, BeginConnect(a, s, gid)))
  {
    var st' := Next(st, BeginConnect(a, s, gid));
    forall g | 0 <= g < |st.heap[st.sig].value| ensures Placed(st.heap[st.sig].value[g], st'.slots) {
      assert Placed(st.heap[st.sig].value[g], st.slots);
    }
    ListMovesKeep(st, st', a);
  }

  /** Flags of slots change; nothing in the invariant but the win count looks at them. */
  lemma {:induction false} FlagsLists(st: State, st': State)
    requires ListsInv(st) && SameFlagged(st.slots, st'.slots) && WinsInv(st')
    requires st'.heap == st.heap && st'.sig == st.sig && st'.acts == st.acts
    ensures ListsInv(st')
  {
    var gs := st.heap[st.sig].value;
    forall g | 0 <= g < |gs| ensures Placed(gs[g], st'.slots) { assert Placed(gs[g], st.slots); }
    forall a | a in st'.acts ensures WalkOk(st', st'.acts[a]) { assert WalkOk(st, st.acts[a]); }
    forall a, s | a in st'.acts && Pending(st'.acts[a], s) ensures PendingOk(st', a, s) { assert PendingOk(st, a, s); }
  }

  /** Same slots, groups and indices; flags may differ. */
  ghost predicate SameFlagged(t: Table, u: Table) {
    && u.Keys == t.Keys
    && forall s :: s in t ==> u[s].group == t[s].group && u[s].index == t[s].index
  }

  lemma {:induction false} DisconnectKeepsInv(st: State, a: Aid, s: Sid)
    requires Inv(st) && a !in st.acts && MayDisconnect(st, s)
    ensures Inv(Next(st, BeginDisconnect(a, s)))
  {
    var st' := Next(st, BeginDisconnect(a, s));
    var mid := st.(slots := st'.slots, wins := st'.wins);
    FlagsLists(st, mid);
    BeginLists(mid, st', a, WriteWait(OpClean(s)));
    BeginMem(st, st', a, WriteWait(OpClean(s)));
  }

  lemma {:induction false} BeginKeepsInv(st: State, a: Aid, pc: Pc)
    requires Inv(st) && a !in st.acts && (pc.EmitWait? || (pc.WriteWait? && !pc.op.OpAdd?))
    ensures Inv(To(st, a, pc))
  {
    BeginMem(st, To(st, a, pc), a, pc);
    BeginLists(st, To(st, a, pc), a, pc);
  }

  lemma {:induction false} ConnectKeepsInv(st: State, a: Aid, s: Sid, gid: int)
    requires Inv(st) && a !in st.acts && s !in st.slots
    ensures Inv(Next(st, BeginConnect(a, s, gid)))
  {
    BeginMem(st, Next(st, BeginConnect(a, s, gid)), a, WriteWait(OpAdd(s)));
    ConnectLists(st, a, s, gid);
  }

  lemma {:induction false} FlagKeepsInv(st: State, t: Table, block: bool)
    requires Inv(st) && SameFlagged(st.slots, t) && WinsInv(st.(slots := t))
    ensures Inv(st.(slots := t, block := block))
  {
    SameMem(st, st.(slots := t, block := block));
    FlagsLists(st, st.(slots := t, block := block));
  }

  /** Every event, of any activity, keeps the invariant. */
  lemma {:induction false} NextKeepsInv(st: State, e: Event)
    requires Inv(st)
    ensures Inv(Next(st, e))
  {
    match e
    case BeginEmit(a) => if a !in st.acts { BeginKeepsInv(st, a, EmitWait); }
    case BeginConnect(a, s, gid) => if a !in st.acts && s !in st.slots { ConnectKeepsInv(st, a, s, gid); }
    case BeginDisconnect(a, s) => if a !in st.acts && MayDisconnect(st, s) { DisconnectKeepsInv(st, a, s); }
    case BeginRemoval(a, op) => if a !in st.acts && !op.OpAdd? { BeginKeepsInv(st, a, WriteWait(op)); }
    case SetBlocked(s, b) => if s in st.slots { FlagKeepsInv(st, Next(st, e).slots, st.block); }
    case SetSignalBlock(b) => FlagKeepsInv(st, st.slots, b);
    case Run(a) => if a in st.acts { StepKeepsInv(st, a); }
  }

  /**
   * Safety of every interleaving: no step touches freed memory, counts are the
   * numbers of live handles, payloads are freed once, the list is in order with
   * exact indices, and every snapshot in use still has its first value.
   */
  lemma {:induction false} RunKeepsInv(es: seq<Event>)
    ensures Inv(Exec(es))
  {
    if es == [] {
      InitInv();
    } else {
      RunKeepsInv(es[..|es| - 1]);
      NextKeepsInv(Exec(es[..|es| - 1]), es[|es| - 1]);
    }
  }

  lemma {:induction false} InitInv()
    ensures Inv(Init())
  {
    assert Holders(map[], 0) == {};
  }

  // ----- the simple specification: a list by value, and emissions that walk the list they started with

  /** `passed`: in its present turn the emission has seen the slot connected. */
  datatype Emission = Emission(start: Groups<Sid>, log: seq<Turn>, passed: bool)

  /** `changes`: who asked for which change that has not taken effect yet. */
  datatype Spec = Spec(
    list: Groups<Sid>, slots: Table, block: bool, wins: multiset<Sid>,
    emissions: map<Aid, Emission>, changes: map<Aid, Op>)

  predicate Recorded(pc: Pc) {
    pc.EmitCounted? || pc.Walking? || pc.Testing? || pc.EmitFreeing? || pc.Emitted?
  }

  function Turns(pc: Pc): seq<Turn> {
    match pc
    case Walking(_, _, log) => log
    case Testing(_, _, log, _) => log
    case EmitFreeing(_, _, log) => log
    case Emitted(_, log) => log
    case _ => []
  }

  function Record(pc: Pc): Emission { Emission(StartOf(pc), Turns(pc), pc.Testing?) }

  ghost function Emissions(acts: map<Aid, Pc>): map<Aid, Emission> {
    map a | a in acts && Recorded(acts[a]) :: Record(acts[a])
  }

  /** A change before the step that carries it out. */
  function Asked(pc: Pc): Option<Op> {
    match pc
    case WriteWait(op) => Some(op)
    case WriteLocked(op) => Some(op)
    case WriteShared(op) => Some(op)
    case WriteCopied(op, _) => Some(op)
    case WriteSwapped(op, _) => Some(op)
    case WriteFreeing(op, _) => Some(op)
    case WriteUnique(op) => Some(op)
    case _ => None
  }

  ghost function Changes(acts: map<Aid, Pc>): map<Aid, Op> {
    map a | a in acts && Asked(acts[a]).Some? :: Asked(acts[a]).value
  }

  ghost function Abs(st: State): Spec {
    Spec(if st.sig in st.heap then st.heap[st.sig].value else [], st.slots, st.block, st.wins, Emissions(st.acts), Changes(st.acts))
  }

  ghost predicate SpecBegins(x: Spec, y: Spec, a: Aid) {
    a !in x.emissions && y == x.(emissions := x.emissions[a := Emission(x.list, [], false)])
  }

  /** Whose turn it is in emission `a`. */
  ghost predicate NextSlot(x: Spec, a: Aid, s: Sid) {
    && a in x.emissions
    && var e := x.emissions[a];
       |e.log| < |Flatten(e.start)| && s == Flatten(e.start)[|e.log|] && s in x.slots
  }

  /** First half of a turn: a slot that is not connected now is passed over. */
  ghost predicate SpecTests(x: Spec, y: Spec, a: Aid, s: Sid) {
    && NextSlot(x, a, s) && !x.emissions[a].passed
    && var e := x.emissions[a];
       y == x.(emissions := x.emissions[a := if x.slots[s].connected then e.(passed := true) else e.(log := e.log + [Turn(s, false)])])
  }

  /** Second half: the slot is called exactly when it is unblocked now. */
  ghost predicate SpecTurns(x: Spec, y: Spec, a: Aid, s: Sid) {
    && NextSlot(x, a, s) && x.emissions[a].passed
    && var e := x.emissions[a];
       y == x.(emissions := x.emissions[a := Emission(e.start, e.log + [Turn(s, !x.slots[s].blocked)], false)])
  }

  /** The change `a` asked for takes effect, once. */
  ghost predicate SpecChanges(x: Spec, y: Spec, a: Aid) {
    && a in x.changes
    && y == x.(list := y.list, slots := y.slots, changes := x.changes - {a})
    && (y.list, y.slots) == ApplyOp(x.list, x.slots, x.changes[a])
  }

  ghost predicate SpecAsks(x: Spec, y: Spec, a: Aid) {
    && a !in x.changes && a in y.changes && !y.changes[a].OpAdd? && !y.changes[a].OpClean?
    && y == x.(changes := x.changes[a := y.changes[a]])
  }

  ghost predicate SpecConnects(x: Spec, y: Spec, a: Aid, s: Sid) {
    && a !in x.changes && s !in x.slots && s in y.slots
    && y == x.(slots := x.slots[s := SlotRec(y.slots[s].group, 0, true, false)], changes := x.changes[a := OpAdd(s)])
  }

  ghost predicate SpecDisconnects(x: Spec, y: Spec, a: Aid, s: Sid) {
    && a !in x.changes && s in x.slots && x.slots[s].connected && OpAdd(s) !in x.changes.Values
    && y == x.(slots := x.slots[s := x.slots[s].(connected := false)], wins := x.wins + multiset{s}, changes := x.changes[a := OpClean(s)])
  }

  ghost predicate SpecBlocks(x: Spec, y: Spec, s: Sid) {
    && s in x.slots && s in y.slots
    && y == x.(slots := x.slots[s := x.slots[s].(blocked := y.slots[s].blocked)])
  }

  ghost predicate SpecStep(x: Spec, y: Spec) {
    || x == y
    || (exists a :: SpecBegins(x, y, a))
    || (exists a, s :: SpecTests(x, y, a, s))
    || (exists a, s :: SpecTurns(x, y, a, s))
    || (exists a :: SpecChanges(x, y, a))
    || (exists a :: SpecAsks(x, y, a))
    || (exists a, s :: SpecConnects(x, y, a, s))
    || (exists a, s :: SpecDisconnects(x, y, a, s))
    || (exists s :: SpecBlocks(x, y, s))
    || y == x.(block := y.block)
  }

  lemma {:induction false} EmissionsMove(acts: map<Aid, Pc>, a: Aid, pc: Pc)
    ensures Recorded(pc) ==> Emissions(acts[a := pc]) == Emissions(acts)[a := Record(pc)]
    ensures !Recorded(pc) && !(a in acts && Recorded(acts[a])) ==> Emissions(acts[a := pc]) == Emissions(acts)
    ensures a in acts && Recorded(acts[a]) && Recorded(pc) && Record(pc) == Record(acts[a]) ==>
              Emissions(acts[a := pc]) == Emissions(acts)
  {
  }

  lemma {:induction false} ChangesMove(acts: map<Aid, Pc>, a: Aid, pc: Pc)
    ensures Asked(pc).Some? ==> Changes(acts[a := pc]) == Changes(acts)[a := Asked(pc).value]
    ensures Asked(pc).None? ==> Changes(acts[a := pc]) == Changes(acts) - {a}
    ensures Asked(pc) == (if a in acts then Asked(acts[a]) else None) ==> Changes(acts[a := pc]) == Changes(acts)
  {
  }

  /** A step that leaves list, flags and this activity's record alone is invisible. */
  lemma {:induction false} Invisible(st: State, st': State, a: Aid)
    requires Moved(st, st', a) && st.sig in st.heap && st'.sig in st'.heap
    requires st'.slots == st.slots && st'.block == st.block && st'.wins == st.wins
    requires st'.heap[st'.sig].value == st.heap[st.sig].value
    requires Recorded(PcOf(st', a)) <==> Recorded(PcOf(st, a))
    requires Record(PcOf(st', a)) == Record(PcOf(st, a)) && Asked(PcOf(st', a)) == Asked(PcOf(st, a))
    ensures Abs(st') == Abs(st)
  {
    EmissionsMove(st.acts, a, st'.acts[a]);
    ChangesMove(st.acts, a, st'.acts[a]);
  }

  /** A step of an emission that changes its record only. */
  lemma {:induction false} OwnRecord(st: State, st': State, a: Aid)
    requires Moved(st, st', a) && st.sig in st.heap && st'.sig in st'.heap
    requires st'.slots == st.slots && st'.block == st.block && st'.wins == st.wins
    requires st'.heap[st'.sig].value == st.heap[st.sig].value
    requires Recorded(PcOf(st', a)) && Asked(PcOf(st, a)) == None
    ensures Abs(st') == Abs(st).(emissions := Abs(st).emissions[a := Record(PcOf(st', a))])
  {
    EmissionsMove(st.acts, a, st'.acts[a]);
    ChangesMove(st.acts, a, st'.acts[a]);
  }

  lemma {:induction false} EmitRefines(st: State, a: Aid)
    requires Gripped(st, a) && WalkInv(st) && !Step(st, a).crashed
    requires var pc := st.acts[a]; pc.EmitWait? || pc.EmitLocked? || pc.EmitCounted? || pc.EmitFreeing? || pc.Emitted?
    ensures Abs(Step(st, a)) == Abs(st)
  {
    assert st.acts == st.acts[a := st.acts[a]];
    Invisible(st, Step(st, a), a);
  }

  lemma {:induction false} BeginRefines(st: State, a: Aid)
    requires Gripped(st, a) && !Step(st, a).crashed && st.acts[a].EmitCopied?
    ensures SpecBegins(Abs(st), Abs(Step(st, a)), a)
  {
    OwnRecord(st, Step(st, a), a);
  }

  lemma {:induction false} TestRefines(st: State, a: Aid)
    requires Gripped(st, a) && WalkInv(st) && !Step(st, a).crashed && st.acts[a].Walking?
    requires |st.acts[a].log| < |Flatten(st.acts[a].start)|
    ensures SpecTests(Abs(st), Abs(Step(st, a)), a, Flatten(st.acts[a].start)[|st.acts[a].log|])
  {
    assert WalkOk(st, st.acts[a]);
    var s := Flatten(st.acts[a].start)[|st.acts[a].log|];
    assert s in Flatten(st.acts[a].start);
    OwnRecord(st, Step(st, a), a);
  }

  lemma {:induction false} TurnRefines(st: State, a: Aid)
    requires Gripped(st, a) && WalkInv(st) && !Step(st, a).crashed && st.acts[a].Testing?
    ensures SpecTurns(Abs(st), Abs(Step(st, a)), a, st.acts[a].s)
  {
    assert WalkOk(st, st.acts[a]);
    assert st.acts[a].s in Flatten(st.acts[a].start);
    OwnRecord(st, Step(st, a), a);
  }

  lemma {:induction false} EndRefines(st: State, a: Aid)
    requires Gripped(st, a) && WalkInv(st) && !Step(st, a).crashed && st.acts[a].Walking?
    requires |st.acts[a].log| >= |Flatten(st.acts[a].start)|
    ensures Abs(Step(st, a)) == Abs(st)
  {
    assert WalkOk(st, st.acts[a]);
    Invisible(st, Step(st, a), a);
  }

  lemma {:induction false} LockRefines(st: State, a: Aid)
    requires Gripped(st, a) && !Step(st, a).crashed
    requires var pc := st.acts[a]; pc.WriteWait? || pc.WriteLocked? || pc.WriteDone? || pc.Written?
    ensures Abs(Step(st, a)) == Abs(st)
  {
    assert st.acts == st.acts[a := st.acts[a]];
    Invisible(st, Step(st, a), a);
  }

  lemma {:induction false} CopyRefines(st: State, a: Aid)
    requires Gripped(st, a) && !Step(st, a).crashed && st.sig < st.nextPid
    requires var pc := st.acts[a]; pc.WriteShared? || pc.WriteCopied? || pc.WriteSwapped? || pc.WriteFreeing?
    ensures Abs(Step(st, a)) == Abs(st)
  {
    Invisible(st, Step(st, a), a);
  }

  lemma {:induction false} ChangeRefines(st: State, a: Aid)
    requires Gripped(st, a) && st.acts[a].WriteUnique?
    ensures SpecChanges(Abs(st), Abs(Step(st, a)), a)
  {
    EmissionsMove(st.acts, a, Step(st, a).acts[a]);
    ChangesMove(st.acts, a, Step(st, a).acts[a]);
  }

  lemma {:induction false} StepRefines(st: State, a: Aid)
    requires Gripped(st, a) && WalkInv(st) && !Step(st, a).crashed && st.sig < st.nextPid
    ensures SpecStep(Abs(st), Abs(Step(st, a)))
  {
    match st.acts[a]
    case EmitWait | EmitLocked | EmitCounted(_, _) | EmitFreeing(_, _, _) | Emitted(_, _) => EmitRefines(st, a);
    case EmitCopied(_) => BeginRefines(st, a);
    case Walking(_, start, log) => if |log| < |Flatten(start)| { TestRefines(st, a); } else { EndRefines(st, a); }
    case Testing(_, _, _, _) => TurnRefines(st, a);
    case WriteUnique(_) => ChangeRefines(st, a);
    case WriteShared(_) | WriteCopied(_, _) | WriteSwapped(_, _) | WriteFreeing(_, _) => CopyRefines(st, a);
    case _ => LockRefines(st, a);
  }

  /** A new activity is seen by the change it asks for. */
  lemma {:induction false} NewActivity(st: State, a: Aid, pc: Pc)
    requires a !in st.acts && (pc.EmitWait? || pc.WriteWait?)
    ensures Emissions(st.acts[a := pc]) == Emissions(st.acts) && a !in Changes(st.acts)
    ensures Changes(st.acts[a := pc]) == if pc.EmitWait? then Changes(st.acts) else Changes(st.acts)[a := pc.op]
  {
    EmissionsMove(st.acts, a, pc);
    ChangesMove(st.acts, a, pc);
  }

  lemma {:induction false} DisconnectRefines(st: State, a: Aid, s: Sid)
    requires st.sig in st.heap && a !in st.acts && MayDisconnect(st, s)
    ensures SpecDisconnects(Abs(st), Abs(Next(st, BeginDisconnect(a, s))), a, s)
  {
    NewActivity(st, a, WriteWait(OpClean(s)));
  }

  lemma {:induction false} OutsideRefines(st: State, e: Event)
    requires st.sig in st.heap && !e.Run?
    ensures SpecStep(Abs(st), Abs(Next(st, e)))
  {
    match e
    case BeginEmit(a) => if a !in st.acts { NewActivity(st, a, EmitWait); }
    case BeginConnect(a, s, gid) =>
      if a !in st.acts && s !in st.slots {
        NewActivity(st, a, WriteWait(OpAdd(s)));
        assert SpecConnects(Abs(st), Abs(Next(st, e)), a, s);
      }
    case BeginDisconnect(a, s) => if a !in st.acts && MayDisconnect(st, s) { DisconnectRefines(st, a, s); }
    case BeginRemoval(a, op) =>
      if a !in st.acts && !op.OpAdd? && !op.OpClean? {
        NewActivity(st, a, WriteWait(op));
        assert SpecAsks(Abs(st), Abs(Next(st, e)), a);
      }
    case SetBlocked(s, b) => if s in st.slots { assert SpecBlocks(Abs(st), Abs(Next(st, e)), s); }
    case SetSignalBlock(b) =>
  }

  /** Every run of the machine is a run of the simple specification. */
  lemma {:induction false} RunRefines(es: seq<Event>, e: Event)
    ensures SpecStep(Abs(Exec(es)), Abs(Exec(es + [e])))
  {
    var st := Exec(es);
    assert (es + [e])[..|es|] == es;
    RunKeepsInv(es);
    if e.Run? && e.a in st.acts {
      Grip(st, e.a);
      StepNoCrash(st, e.a);
      StepRefines(st, e.a);
    } else if !e.Run? {
      OutsideRefines(st, e);
    }
  }

  // ----- what this means for emissions, payloads and connections

  /** The list an emission holds is, at every moment, the one it started with; nobody has freed it. */
  lemma {:induction false} SnapshotNeverChanges(es: seq<Event>, a: Aid)
    requires a in Exec(es).acts && Exec(es).acts[a].Walking?
    ensures var st := Exec(es);
            var pc := st.acts[a];
            && pc.p in st.heap && pc.p !in st.freed
            && st.heap[pc.p].value == pc.start
            && st.heap[pc.p].count == Handles(st, pc.p) >= 1
  {
    RunKeepsInv(es);
    var st := Exec(es);
    assert WalkOk(st, st.acts[a]);
    HolderCounts(st, a, st.acts[a].p);
  }

  /** When nothing is under way, the only payload left is the signal's own; every other one was freed exactly once. */
  lemma {:induction false} NothingLeaks(es: seq<Event>)
    requires forall a :: a in Exec(es).acts ==> Exec(es).acts[a].Emitted? || Exec(es).acts[a].Written?
    ensures var st := Exec(es);
            && st.heap.Keys == {st.sig} && st.heap[st.sig].count == 1
            && (forall p: nat :: p < st.nextPid && p != st.sig ==> multiset(st.freed)[p] == 1)
  {
    RunKeepsInv(es);
    var st := Exec(es);
    forall p ensures Holders(st.acts, p) == {} { }
    forall p | p in st.heap ensures p == st.sig {
      assert st.heap[p].count == Handles(st, p);
    }
    forall p: nat | p < st.nextPid && p != st.sig ensures multiset(st.freed)[p] == 1 {
      assert p in st.freed;
      OccursOnce(st.freed, p);
    }
  }

  lemma {:induction false} OccursOnce(s: seq<Pid>, x: Pid)
    requires x in s && forall i, j :: 0 <= i < j < |s| ==> s[i] != s[j]
    ensures multiset(s)[x] == 1
  {
    var n :| 0 <= n < |s| && s[n] == x;
    assert s == s[..n] + [x] + s[n + 1..];
    assert x !in multiset(s[..n]) && x !in multiset(s[n + 1..]);
  }

  /** However many threads race, disconnecting one slot succeeds at most once, and exactly when it is no longer connected. */
  lemma {:induction false} DisconnectWinsOnce(es: seq<Event>, s: Sid)
    ensures var st := Exec(es);
            st.wins[s] == if s in st.slots && !st.slots[s].connected then 1 else 0
  {
    RunKeepsInv(es);
  }

  /** The signal's list is always in order, indexed, and free of duplicates. */
  lemma {:induction false} ListAlwaysIndexed(es: seq<Event>)
    ensures var st := Exec(es);
            && st.sig in st.heap
            && ListInv(st.heap[st.sig].value, st.slots)
            && Distinct(st.heap[st.sig].value)
  {
    RunKeepsInv(es);
    var st := Exec(es);
    ListDistinct(st.heap[st.sig].value, st.slots);
  }

  /** A finished emission took one turn per slot of its starting list, in ascending group order, none twice. */
  lemma {:induction false} EmissionIsOneOrderedPass(es: seq<Event>, a: Aid)
    requires a in Exec(es).acts && Exec(es).acts[a].Emitted?
    ensures var pc := Exec(es).acts[a];
            var flat := Flatten(pc.start);
            && |pc.log| == |flat|
            && (forall k :: 0 <= k < |flat| ==> pc.log[k].slot == flat[k])
            && (forall m, n :: 0 <= m < n < |flat| ==> flat[m] != flat[n])
            && (forall m: nat, n: nat :: m <= n < |flat| ==> pc.start[Locate(pc.start, m).0].gid <= pc.start[Locate(pc.start, n).0].gid)
  {
    RunKeepsInv(es);
    var st := Exec(es);
    assert WalkOk(st, st.acts[a]);
    var start := st.acts[a].start;
    forall m, n | 0 <= m < n < |Flatten(start)| ensures Flatten(start)[m] != Flatten(start)[n] { DistinctFlattens(start, m, n); }
    forall m: nat, n: nat | m <= n < |Flatten(start)| ensures start[Locate(start, m).0].gid <= start[Locate(start, n).0].gid {
      VisitsAscending(start, m, n);
    }
  }

  /** In the specification an emission keeps its starting list and its log only grows. */
  lemma {:induction false} SpecKeepsEmission(x: Spec, y: Spec, a: Aid)
    requires SpecStep(x, y) && a in x.emissions
    ensures a in y.emissions && y.emissions[a].start == x.emissions[a].start && x.emissions[a].log <= y.emissions[a].log
  {
  }
}
