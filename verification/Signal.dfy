/**
 * A signal and its slots as objects updated in place: the stored index of every
 * slot has to follow the swap-with-last removals of the list
 * (cpp/sigslot/palacaze/include/sigslot/signal.hpp).
 */
module Signals {
  import opened SlotGroups

  class Slot {
    const group: int
    var index: nat
    var connected: bool
    var blocked: bool

    constructor (gid: int)
      ensures group == gid && index == 0 && connected && !blocked
    {
      group, index, connected, blocked := gid, 0, true, false;
    }
  }

  ghost function Slots(gs: Groups<Slot>): set<Slot> {
    set g, i | 0 <= g < |gs| && 0 <= i < |gs[g].slts| :: gs[g].slts[i]
  }

  /** The index stored in each slot of one group is its position there. */
  ghost predicate Indexed(g: Group<Slot>)
    reads g.slts
  {
    forall i :: 0 <= i < |g.slts| ==> g.slts[i].group == g.gid && g.slts[i].index == i
  }

  function Last(g: Group<Slot>): Slot
    requires g.slts != []
  {
    g.slts[|g.slts| - 1]
  }

  /** Exactly the slots of `s` that fail the condition, as often as in `s`. */
  ghost predicate Kept(s: seq<Slot>, cond: Slot -> bool, r: seq<Slot>) {
    && (forall x: Slot :: x in r ==> !cond(x) && x in s)
    && (forall x: Slot :: x in s && !cond(x) ==> multiset(r)[x] == multiset(s)[x])
  }

  /** Slots an emission calls: connected and unblocked ones, in visiting order. */
  ghost function Live(s: seq<Slot>): seq<Slot>
    reads s
  {
    if s == [] then [] else (if s[0].connected && !s[0].blocked then [s[0]] else []) + Live(s[1..])
  }

  class Signal {
    var groups: Groups<Slot>
    var block: bool

    constructor ()
      ensures Valid() && groups == [] && !block
    {
      groups, block := [], false;
    }

    ghost predicate Valid()
      reads this, Slots(groups)
    {
      && Ascending(groups)
      && forall g :: 0 <= g < |groups| ==> Indexed(groups[g])
    }

    /** What the index is for: no slot is listed twice. */
    lemma NoSlotTwice()
      requires Valid()
      ensures Distinct(groups)
    {
      forall g, i, h, j | At(groups, g, i) && At(groups, h, j) && groups[g].slts[i] == groups[h].slts[j]
        ensures g == h && i == j
      {
        assert Indexed(groups[g]) && Indexed(groups[h]);
      }
    }

    method FindGroup(gid: int) returns (it: nat)
      ensures it == Seek(groups, gid)
    {
      it := 0;
      while it < |groups| && groups[it].gid < gid
        invariant it <= |groups|
        invariant forall i :: 0 <= i < it ==> groups[i].gid < gid
      {
        it := it + 1;
      }
      SeekIs(groups, gid, it);
    }

    /** `add_slot`: the slot goes to the end of the group of its own id. */
    method AddSlot(s: Slot)
      requires Valid()
      requires s !in Slots(groups)
      modifies `groups, s`index
      ensures Valid()
      ensures groups == Add(old(groups), s.group, s)
      ensures multiset(Flatten(groups)) == multiset(Flatten(old(groups))) + multiset{s}
    {
      ghost var before := groups;
      var it := EnsureGroup(s.group);
      Append(it, s);
      AddInTwoSteps(before, s.group, s);
      AddAddsOne(before, s.group, s);
    }

    method EnsureGroup(gid: int) returns (it: nat)
      requires Valid()
      modifies `groups
      ensures Valid() && Slots(groups) <= Slots(old(groups))
      ensures groups == WithGroup(old(groups), gid)
      ensures it == Seek(old(groups), gid)
    {
      it := FindGroup(gid);
      WithGroupKeeps(groups, gid);
      if it == |groups| || groups[it].gid != gid {
        groups := groups[..it] + [Group(gid, [])] + groups[it..];
      }
    }

    method Append(it: nat, s: Slot)
      requires Valid() && s !in Slots(groups)
      requires it < |groups| && groups[it].gid == s.group
      modifies `groups, s`index
      ensures Valid()
      ensures groups == old(groups)[it := Group(s.group, old(groups)[it].slts + [s])]
    {
      ghost var before := groups;
      assert forall g :: 0 <= g < |groups| ==> s !in groups[g].slts;
      s.index := |groups[it].slts|;
      groups := groups[it := Group(s.group, groups[it].slts + [s])];
      assert forall g :: 0 <= g < |groups| && g != it ==> Indexed(before[g]);
    }

    /** The body of `swap; index() = i; pop_back` on group `k`. */
    method DropAt(k: nat, i: nat)
      requires Valid()
      requires At(groups, k, i)
      modifies `groups, Last(groups[k])`index
      ensures Valid()
      ensures groups == RemoveAt(old(groups), k, i)
    {
      var slts := groups[k].slts;
      var last := Last(groups[k]);
      assert Indexed(groups[k]);
      NoSlotTwice();
      ghost var before := groups;
      last.index := i;
      groups := groups[k := Group(groups[k].gid, SwapPop(slts, i))];
      forall g | 0 <= g < |groups| ensures Indexed(groups[g]) {
        if g != k {
          forall j | 0 <= j < |groups[g].slts| ensures groups[g].slts[j] != last {
            assert At(before, g, j) && At(before, k, |slts| - 1);
          }
        }
      }
    }

    /** `clean`: takes out exactly the given slot, if it is still listed. */
    method Clean(state: Slot)
      requires Valid()
      modifies `groups, Slots(groups)`index
      ensures Valid()
      ensures multiset(Flatten(groups)) == multiset(Flatten(old(groups))) - multiset{state}
      ensures |groups| == |old(groups)|
      ensures forall g :: 0 <= g < |groups| ==> groups[g].gid == old(groups)[g].gid
      ensures forall g :: 0 <= g < |groups| && groups[g].gid != state.group ==> groups[g] == old(groups)[g]
    {
      var idx, gid := state.index, state.group;
      var k := 0;
      while k < |groups|
        invariant k <= |groups|
        invariant forall g :: 0 <= g < k ==> groups[g].gid != gid
      {
        if groups[k].gid == gid {
          if idx < |groups[k].slts| && groups[k].slts[idx] == state {
            RemoveAtRemovesOne(groups, k, idx);
            DropAt(k, idx);
          } else {
            NotListed(state);
          }
          return;
        }
        k := k + 1;
      }
      NotListed(state);
    }

    /** A slot that is not where its own fields say is not listed at all. */
    lemma NotListed(s: Slot)
      requires Valid()
      requires forall k :: 0 <= k < |groups| && groups[k].gid == s.group ==>
                 !(s.index < |groups[k].slts| && groups[k].slts[s.index] == s)
      ensures multiset(Flatten(groups)) == multiset(Flatten(groups)) - multiset{s}
    {
      forall k | 0 <= k < |Flatten(groups)| ensures Flatten(groups)[k] != s {
        var (g, i) := Locate(groups, k);
        assert Indexed(groups[g]);
      }
    }

    /** `connection.disconnect`: an exchange of the flag, then `clean`. */
    method Disconnect(s: Slot) returns (ret: bool)
      requires Valid()
      modifies `groups, Slots(groups)`index, s`connected
      ensures Valid()
      ensures ret == old(s.connected) && !s.connected
      ensures multiset(Flatten(groups)) == multiset(Flatten(old(groups))) - if ret then multiset{s} else multiset{}
    {
      ret, s.connected := s.connected, false;
      if ret { Clean(s); }
    }

    /** The inner loop of `disconnect_if`, on one group. */
    method PruneGroup(k: nat, cond: Slot -> bool) returns (count: nat)
      requires Valid()
      requires k < |groups|
      modifies `groups, groups[k].slts`index
      ensures Valid()
      ensures |groups| == |old(groups)| && groups == old(groups)[k := groups[k]]
      ensures groups[k].gid == old(groups)[k].gid
      ensures Kept(old(groups)[k].slts, cond, groups[k].slts)
      ensures |groups[k].slts| + count == |old(groups)[k].slts|
    {
      var i := 0;
      count := 0;
      ghost var was := groups[k].slts;
      while i < |groups[k].slts|
        invariant Valid()
        invariant |groups| == |old(groups)| && groups == old(groups)[k := groups[k]]
        invariant groups[k].gid == old(groups)[k].gid
        invariant i <= |groups[k].slts|
        invariant |groups[k].slts| + count == |was|
        invariant forall j :: 0 <= j < i ==> !cond(groups[k].slts[j])
        invariant Remaining(was, cond, groups[k].slts)
        decreases |groups[k].slts| - i
      {
        ghost var cur := groups[k].slts;
        if cond(groups[k].slts[i]) {
          assert Last(groups[k]) in cur;
          DropAt(k, i);
          count := count + 1;
          RemainingAfter(was, cond, cur, i);
        } else {
          i := i + 1;
        }
      }
    }

    /** `disconnect_if`: every group keeps exactly the slots that fail the condition. */
    method DisconnectIf(cond: Slot -> bool) returns (count: nat)
      requires Valid()
      modifies `groups, Slots(groups)`index
      ensures Valid()
      ensures |groups| == |old(groups)|
      ensures forall g :: 0 <= g < |groups| ==>
                groups[g].gid == old(groups)[g].gid && Kept(old(groups)[g].slts, cond, groups[g].slts)
      ensures |Flatten(groups)| + count == |Flatten(old(groups))|
    {
      count := 0;
      ghost var was := groups;
      var k := 0;
      while k < |groups|
        invariant Valid()
        invariant k <= |groups| == |was|
        invariant Slots(groups) <= Slots(was)
        invariant groups[k..] == was[k..]
        invariant forall g :: 0 <= g < k ==>
                    groups[g].gid == was[g].gid && Kept(was[g].slts, cond, groups[g].slts)
        invariant |Flatten(groups)| + count == |Flatten(was)|
      {
        ghost var cur := groups;
        assert groups[k] == was[k] by { assert groups[k..][0] == was[k..][0]; }
        var n := PruneGroup(k, cond);
        count := count + n;
        FlattenAround(cur, k);
        FlattenAround(groups, k);
        assert groups[..k] == cur[..k] && groups[k + 1..] == cur[k + 1..];
        assert groups[k + 1..] == was[k + 1..] by { assert cur[k..][1..] == was[k..][1..]; }
        PruneShrinks(was, cur, groups, k, cond);
        k := k + 1;
      }
    }

    /** `disconnect(gid)`: empties one group, whatever the flags of its slots. */
    method DisconnectGroup(gid: int) returns (count: nat)
      requires Valid()
      modifies `groups
      ensures Valid()
      ensures |Flatten(groups)| + count == |Flatten(old(groups))|
      ensures |groups| == |old(groups)|
      ensures forall g :: 0 <= g < |groups| ==>
                groups[g] == if old(groups)[g].gid == gid then Group(gid, []) else old(groups)[g]
    {
      var k := 0;
      while k < |groups|
        invariant k <= |groups|
        invariant forall g :: 0 <= g < k ==> groups[g].gid != gid
      {
        if groups[k].gid == gid {
          count := |groups[k].slts|;
          ghost var cur := groups;
          groups := groups[k := Group(gid, [])];
          FlattenAround(cur, k);
          FlattenAround(groups, k);
          assert groups[..k] == cur[..k] && groups[k + 1..] == cur[k + 1..];
          return;
        }
        k := k + 1;
      }
      count := 0;
    }

    method SlotCount() returns (count: nat)
      ensures count == |Flatten(groups)|
    {
      count := 0;
      for k := 0 to |groups|
        invariant count == |Flatten(groups[..k])|
      {
        FlattenAround(groups[..k + 1], k);
        assert groups[..k + 1][..k] == groups[..k] && groups[..k + 1][k + 1..] == [];
        count := count + |groups[k].slts|;
      }
      assert groups[..|groups|] == groups;
    }

    /** An emission whose callbacks leave the signal alone: the nested loops visit the flat order. */
    method Emit() returns (called: seq<Slot>)
      ensures called == if block then [] else Live(Flatten(groups))
    {
      called := [];
      if block { return; }
      ghost var all := Live(Flatten(groups));
      assert groups[0..] == groups;
      for k := 0 to |groups|
        invariant all == called + Live(Flatten(groups[k..]))
      {
        LiveFrom(groups, k);
        ghost var rest := Live(Flatten(groups[k + 1..]));
        assert all == called + Live(groups[k].slts) + rest;
        var more := EmitGroup(groups[k].slts);
        called := called + more;
        assert all == called + rest;
        assert rest == Live(Flatten(groups[k + 1..]));
      }
    }
  }

  method EmitGroup(slts: seq<Slot>) returns (called: seq<Slot>)
    ensures called == Live(slts)
  {
    called := [];
    for i := 0 to |slts|
      invariant called + Live(slts[i..]) == Live(slts)
    {
      var s := slts[i];
      LiveStep(slts, i, called);
      if s.connected && !s.blocked { called := called + [s]; }
    }
  }

  lemma LiveStep(s: seq<Slot>, i: nat, called: seq<Slot>)
    requires i < |s|
    ensures called + Live(s[i..]) == (if s[i].connected && !s[i].blocked then called + [s[i]] else called) + Live(s[i + 1..])
  {
    assert s[i..][0] == s[i] && s[i..][1..] == s[i + 1..];
    assert called + ([s[i]] + Live(s[i + 1..])) == called + [s[i]] + Live(s[i + 1..]);
  }

  lemma {:induction false} LiveFrom(gs: Groups<Slot>, k: nat)
    requires k < |gs|
    ensures Live(Flatten(gs[k..])) == Live(gs[k].slts) + Live(Flatten(gs[k + 1..]))
  {
    assert gs[k..][0] == gs[k] && gs[k..][1..] == gs[k + 1..];
    LiveConcat(gs[k].slts, Flatten(gs[k + 1..]));
  }

  /** `at` are the positions in `s` of what an emission calls. */
  ghost predicate Positions(s: seq<Slot>, at: seq<nat>)
    reads s
  {
    && |at| == |Live(s)|
    && (forall k :: 0 <= k < |at| ==> at[k] < |s| && s[at[k]] == Live(s)[k])
    && (forall j, k :: 0 <= j < k < |at| ==> at[j] < at[k])
    && (forall i: nat :: i < |s| ==> (i in at <==> s[i].connected && !s[i].blocked))
  }

  lemma {:induction false} OneOn(rest: seq<nat>) returns (moved: seq<nat>)
    ensures OneUp(rest, moved)
    ensures forall i: nat :: i in moved <==> i > 0 && i - 1 in rest
  {
    if rest == [] { return []; }
    moved := OneOn(rest[1..]);
    moved := [rest[0] + 1] + moved;
  }

  lemma {:induction false} Skipped(s: seq<Slot>, rest: seq<nat>, moved: seq<nat>)
    requires s != [] && !(s[0].connected && !s[0].blocked) && Positions(s[1..], rest)
    requires OneUp(rest, moved) && forall i: nat :: i in moved <==> i > 0 && i - 1 in rest
    ensures Positions(s, moved)
  {
    forall i: nat | i < |s| ensures i in moved <==> s[i].connected && !s[i].blocked {
      if i > 0 { assert s[i] == s[1..][i - 1]; }
    }
  }

  ghost predicate OneUp(rest: seq<nat>, moved: seq<nat>) {
    |moved| == |rest| && forall k :: 0 <= k < |rest| ==> moved[k] == rest[k] + 1
  }

  lemma {:induction false} TakenPlaces(s: seq<Slot>, rest: seq<nat>, moved: seq<nat>, k: nat)
    requires s != [] && s[0].connected && !s[0].blocked && Positions(s[1..], rest) && OneUp(rest, moved) && k <= |rest|
    ensures var at := [0] + moved; |Live(s)| == |rest| + 1 && at[k] < |s| && s[at[k]] == Live(s)[k]
  {
    assert Live(s) == [s[0]] + Live(s[1..]);
    if k > 0 {
      var p := rest[k - 1];
      assert ([0] + moved)[k] == p + 1 && p < |s[1..]| && s[1..][p] == s[p + 1];
    }
  }

  lemma TakenOrder(rest: seq<nat>, moved: seq<nat>)
    requires OneUp(rest, moved) && forall j, k :: 0 <= j < k < |rest| ==> rest[j] < rest[k]
    ensures var at := [0] + moved; forall j, k :: 0 <= j < k < |at| ==> at[j] < at[k]
  {
  }

  lemma {:induction false} Taken(s: seq<Slot>, rest: seq<nat>, moved: seq<nat>)
    requires s != [] && s[0].connected && !s[0].blocked && Positions(s[1..], rest)
    requires OneUp(rest, moved) && forall i: nat :: i in moved <==> i > 0 && i - 1 in rest
    ensures Positions(s, [0] + moved)
  {
    var at := [0] + moved;
    TakenPlaces(s, rest, moved, 0);
    forall k | 0 <= k < |at| ensures at[k] < |s| && s[at[k]] == Live(s)[k] { TakenPlaces(s, rest, moved, k); }
    TakenOrder(rest, moved);
    forall i: nat | i < |s| ensures i in at <==> s[i].connected && !s[i].blocked {
      if i > 0 { assert s[i] == s[1..][i - 1]; }
    }
  }

  /** An emission calls the connected and unblocked slots, all of them, in the order in which they are listed. */
  lemma {:induction false} LiveInOrder(s: seq<Slot>) returns (at: seq<nat>)
    ensures Positions(s, at)
  {
    at := [];
    if s != [] {
      var rest := LiveInOrder(s[1..]);
      at := OneOn(rest);
      if s[0].connected && !s[0].blocked {
        Taken(s, rest, at);
        at := [0] + at;
      } else {
        Skipped(s, rest, at);
      }
    }
  }

  lemma {:induction false} LiveConcat(a: seq<Slot>, b: seq<Slot>)
    ensures Live(a + b) == Live(a) + Live(b)
  {
    if a == [] {
      assert a + b == b;
    } else {
      assert (a + b)[0] == a[0] && (a + b)[1..] == a[1..] + b;
      LiveConcat(a[1..], b);
    }
  }

  ghost function WithGroup(gs: Groups<Slot>, gid: int): (r: Groups<Slot>)
    ensures Seek(gs, gid) < |r| && r[Seek(gs, gid)].gid == gid
  {
    var k := Seek(gs, gid);
    if k < |gs| && gs[k].gid == gid then gs else gs[..k] + [Group(gid, [])] + gs[k..]
  }

  /** Creating the missing group first and appending afterwards is `Add`. */
  lemma AddInTwoSteps(gs: Groups<Slot>, gid: int, s: Slot)
    ensures var k, made := Seek(gs, gid), WithGroup(gs, gid);
            Add(gs, gid, s) == made[k := Group(gid, made[k].slts + [s])]
  {
    var k, made := Seek(gs, gid), WithGroup(gs, gid);
    if made != gs {
      assert made[k].slts + [s] == [s];
      assert made[k := Group(gid, [s])] == gs[..k] + [Group(gid, [s])] + gs[k..];
    }
  }

  lemma WithGroupKeeps(gs: Groups<Slot>, gid: int)
    ensures var r := WithGroup(gs, gid);
            && (Ascending(gs) ==> Ascending(r))
            && (forall g :: 0 <= g < |r| ==> r[g] == Group(gid, []) || r[g] in gs)
            && Slots(r) <= Slots(gs)
  {
    var r := WithGroup(gs, gid);
    forall g, i | 0 <= g < |r| && 0 <= i < |r[g].slts| ensures r[g].slts[i] in Slots(gs) {
      assert r[g] in gs;
      var h :| 0 <= h < |gs| && gs[h] == r[g];
      assert gs[h].slts[i] in Slots(gs);
    }
  }

  lemma PruneShrinks(was: Groups<Slot>, cur: Groups<Slot>, now: Groups<Slot>, k: nat, cond: Slot -> bool)
    requires k < |now| == |cur| == |was| && now == cur[k := now[k]]
    requires Slots(cur) <= Slots(was)
    requires Kept(was[k].slts, cond, now[k].slts)
    ensures Slots(now) <= Slots(was)
  {
    forall g, i | 0 <= g < |now| && 0 <= i < |now[g].slts| ensures now[g].slts[i] in Slots(was) {
      if g == k {
        assert now[k].slts[i] in was[k].slts;
      } else {
        assert cur[g].slts[i] in Slots(cur);
      }
    }
  }

  lemma {:induction false} SeekIs(gs: Groups<Slot>, gid: int, k: nat)
    requires k <= |gs|
    requires forall i :: 0 <= i < k ==> gs[i].gid < gid
    requires k < |gs| ==> gid <= gs[k].gid
    ensures Seek(gs, gid) == k
  {
    if k > 0 { SeekIs(gs[1..], gid, k - 1); }
  }

  /** Loop invariant of the pruning: only slots that satisfy the condition have gone. */
  ghost predicate Remaining(s: seq<Slot>, cond: Slot -> bool, r: seq<Slot>) {
    && (forall x: Slot :: x in r ==> x in s)
    && (forall x: Slot :: x in s && !cond(x) ==> multiset(r)[x] == multiset(s)[x])
  }

  lemma RemainingAfter(s: seq<Slot>, cond: Slot -> bool, r: seq<Slot>, i: nat)
    requires Remaining(s, cond, r)
    requires i < |r| && cond(r[i])
    ensures Remaining(s, cond, SwapPop(r, i))
  {
    SwapPopMultiset(r, i);
  }
}
