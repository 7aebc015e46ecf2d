/**
 * The slot list of a signal: slots kept in groups, groups kept in ascending
 * order of id (cpp/sigslot/palacaze/include/sigslot/signal.hpp).  The list is a
 * value here, so that the class `Signal` and the thread-level machine share it.
 */
module SlotGroups {

  datatype Group<T> = Group(gid: int, slts: seq<T>)

  type Groups<T> = seq<Group<T>>

  ghost predicate Ascending<T>(gs: Groups<T>) {
    forall i, j :: 0 <= i < j < |gs| ==> gs[i].gid < gs[j].gid
  }

  predicate At<T>(gs: Groups<T>, g: int, i: int) {
    0 <= g < |gs| && 0 <= i < |gs[g].slts|
  }

  ghost predicate Lists<T(!new)>(gs: Groups<T>, s: T) {
    exists g, i :: At(gs, g, i) && gs[g].slts[i] == s
  }

  /** No slot stands at two places of the list. */
  ghost predicate Distinct<T>(gs: Groups<T>) {
    forall g, i, h, j :: At(gs, g, i) && At(gs, h, j) && gs[g].slts[i] == gs[h].slts[j] ==> g == h && i == j
  }

  /** The order in which an emission visits the slots. */
  function Flatten<T>(gs: Groups<T>): seq<T> {
    if gs == [] then [] else gs[0].slts + Flatten(gs[1..])
  }

  /** Position of the first group whose id is not below `gid`. */
  function Seek<T>(gs: Groups<T>, gid: int): (k: nat)
    ensures k <= |gs|
    ensures forall i :: 0 <= i < k ==> gs[i].gid < gid
    ensures k < |gs| ==> gid <= gs[k].gid
  {
    if gs == [] || gid <= gs[0].gid then 0 else 1 + Seek(gs[1..], gid)
  }

  /** `add_slot`: append to the group of that id, created in place when missing. */
  function Add<T>(gs: Groups<T>, gid: int, s: T): Groups<T> {
    var k := Seek(gs, gid);
    if k < |gs| && gs[k].gid == gid
    then gs[k := Group(gid, gs[k].slts + [s])]
    else gs[..k] + [Group(gid, [s])] + gs[k..]
  }

  /** Swap the slot at `i` with the last one, then drop the last one. */
  function SwapPop<T>(s: seq<T>, i: nat): (r: seq<T>)
    requires i < |s|
    ensures |r| == |s| - 1
    ensures forall k :: 0 <= k < |r| ==> r[k] == if k == i then s[|s| - 1] else s[k]
  {
    s[i := s[|s| - 1]][..|s| - 1]
  }

  lemma {:induction false} SwapPopMultiset<T>(s: seq<T>, i: nat)
    requires i < |s|
    ensures multiset(SwapPop(s, i)) == multiset(s) - multiset{s[i]}
  {
    var n := |s| - 1;
    var a, x, last := s[..i], s[i], s[n];
    if i == n {
      assert s == SwapPop(s, i) + [x];
    } else {
      var b := s[i + 1..n];
      assert SwapPop(s, i) == a + [last] + b;
      assert s == a + [x] + b + [last];
    }
  }

  /** `clean`: what happens to the list when the slot at place (g, i) goes. */
  function RemoveAt<T>(gs: Groups<T>, g: nat, i: nat): (r: Groups<T>)
    requires At(gs, g, i)
  {
    gs[g := Group(gs[g].gid, SwapPop(gs[g].slts, i))]
  }

  lemma {:induction false} FlattenConcat<T>(a: Groups<T>, b: Groups<T>)
    ensures Flatten(a + b) == Flatten(a) + Flatten(b)
  {
    if a == [] {
      assert a + b == b;
    } else {
      var x, ra, rb := a[0].slts, Flatten(a[1..]), Flatten(b);
      assert (a + b)[0] == a[0] && (a + b)[1..] == a[1..] + b;
      FlattenConcat(a[1..], b);
      assert x + (ra + rb) == (x + ra) + rb;
    }
  }

  /** Splits the visiting order around one group. */
  lemma {:induction false} FlattenAround<T>(gs: Groups<T>, g: nat)
    requires g < |gs|
    ensures Flatten(gs) == Flatten(gs[..g]) + gs[g].slts + Flatten(gs[g + 1..])
  {
    FlattenConcat(gs[..g], gs[g..]);
    assert gs[..g] + gs[g..] == gs;
    assert gs[g..][0] == gs[g] && gs[g..][1..] == gs[g + 1..];
  }

  /** The slots of a list: those before a group, in it, and after it. */
  lemma {:induction false} ContentsAround<T>(gs: Groups<T>, g: nat)
    requires g < |gs|
    ensures multiset(Flatten(gs)) ==
            multiset(Flatten(gs[..g])) + multiset(gs[g].slts) + multiset(Flatten(gs[g + 1..]))
  {
    FlattenAround(gs, g);
  }

  lemma AddKeepsOrder<T>(gs: Groups<T>, gid: int, s: T)
    requires Ascending(gs)
    ensures Ascending(Add(gs, gid, s))
  {
  }

  lemma {:induction false} Spliced<T>(pre: Groups<T>, g: Group<T>, post: Groups<T>)
    ensures multiset(Flatten(pre + [g] + post)) == multiset(g.slts) + multiset(Flatten(pre + post))
  {
    var gs := pre + [g] + post;
    ContentsAround(gs, |pre|);
    assert gs[..|pre|] == pre && gs[|pre| + 1..] == post;
    FlattenConcat(pre, post);
  }

  /** Adding a slot adds exactly that slot. */
  lemma {:induction false} AddAddsOne<T>(gs: Groups<T>, gid: int, s: T)
    ensures multiset(Flatten(Add(gs, gid, s))) == multiset(Flatten(gs)) + multiset{s}
  {
    var k := Seek(gs, gid);
    if k < |gs| && gs[k].gid == gid {
      AppendAddsOne(gs, k, s);
    } else {
      Spliced(gs[..k], Group(gid, [s]), gs[k..]);
      assert gs == gs[..k] + gs[k..];
    }
  }

  lemma {:induction false} AppendAddsOne<T>(gs: Groups<T>, k: nat, s: T)
    requires k < |gs|
    ensures multiset(Flatten(gs[k := Group(gs[k].gid, gs[k].slts + [s])])) == multiset(Flatten(gs)) + multiset{s}
  {
    var g := Group(gs[k].gid, gs[k].slts + [s]);
    assert gs[k := g] == gs[..k] + [g] + gs[k + 1..];
    assert gs == gs[..k] + [gs[k]] + gs[k + 1..];
    Spliced(gs[..k], g, gs[k + 1..]);
    Spliced(gs[..k], gs[k], gs[k + 1..]);
  }

  /** Removing the slot at (g, i) removes one occurrence of it and nothing else. */
  lemma {:induction false} RemoveAtRemovesOne<T>(gs: Groups<T>, g: nat, i: nat)
    requires At(gs, g, i)
    ensures multiset(Flatten(RemoveAt(gs, g, i))) == multiset(Flatten(gs)) - multiset{gs[g].slts[i]}
  {
    var r := RemoveAt(gs, g, i);
    SwapPopMultiset(gs[g].slts, i);
    ContentsAround(gs, g);
    ContentsAround(r, g);
    assert r[..g] == gs[..g] && r[g + 1..] == gs[g + 1..];
    assert gs[g].slts[i] in multiset(gs[g].slts);
  }

  /** A list without duplicates visits every slot at most once. */
  lemma {:induction false} DistinctFlattens<T>(gs: Groups<T>, m: nat, n: nat)
    requires Distinct(gs)
    requires m < n < |Flatten(gs)|
    ensures Flatten(gs)[m] != Flatten(gs)[n]
  {
    var (g, i) := Locate(gs, m);
    var (h, j) := Locate(gs, n);
    if g == h && i == j { LocateInjective(gs, m, n); }
  }

  /** Place of the k-th visited slot. */
  function Locate<T>(gs: Groups<T>, k: nat): (r: (nat, nat))
    requires k < |Flatten(gs)|
    ensures At(gs, r.0, r.1) && gs[r.0].slts[r.1] == Flatten(gs)[k]
  {
    if k < |gs[0].slts| then (0, k)
    else var (g, i) := Locate(gs[1..], k - |gs[0].slts|); (g + 1, i)
  }

  lemma {:induction false} LocateInjective<T>(gs: Groups<T>, m: nat, n: nat)
    requires m < n < |Flatten(gs)|
    ensures Locate(gs, m) != Locate(gs, n)
  {
    var d := |gs[0].slts|;
    if d <= m { LocateInjective(gs[1..], m - d, n - d); }
  }

  /** The visiting order is by ascending group id. */
  lemma VisitsAscending<T>(gs: Groups<T>, m: nat, n: nat)
    requires Ascending(gs)
    requires m <= n < |Flatten(gs)|
    ensures gs[Locate(gs, m).0].gid <= gs[Locate(gs, n).0].gid
  {
    LocateMonotone(gs, m, n);
  }

  lemma {:induction false} LocateMonotone<T>(gs: Groups<T>, m: nat, n: nat)
    requires m <= n < |Flatten(gs)|
    ensures Locate(gs, m).0 <= Locate(gs, n).0
  {
    var d := |gs[0].slts|;
    if d <= m { LocateMonotone(gs[1..], m - d, n - d); }
  }

  lemma {:induction false} InFlatten<T(!new)>(gs: Groups<T>, s: T)
    ensures s in Flatten(gs) <==> Lists(gs, s)
  {
    if s in Flatten(gs) {
      var k :| 0 <= k < |Flatten(gs)| && Flatten(gs)[k] == s;
      var (g, i) := Locate(gs, k);
      assert At(gs, g, i);
    }
    if Lists(gs, s) {
      var g, i :| At(gs, g, i) && gs[g].slts[i] == s;
      FlattenAround(gs, g);
    }
  }
}
