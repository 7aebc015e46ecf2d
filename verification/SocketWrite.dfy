/**
 * `writeIovec` and the loop of `sendPdu` over the vectors
 * (cpp/samba/client/OpenSmbC/src/Smb2Socket.cpp).  The results of the `writev`
 * calls are given.  The counts are `size_t`, but each is returned as an `int` and
 * added up as a `size_t` again.
 */
module SocketWrite {
  import opened Bytes

  /** One call: bytes taken, to be tried again, or an error. */
  datatype Call = Took(n: nat) | Again | Failed

  /** What `writeIovec` has sent, what it returns, and the calls it has not made; `Waiting` asks for more results. */
  datatype Write = Waiting(sent: seq<byte>) | Returned(sent: seq<byte>, rc: int, rest: seq<Call>)

  /** `writev` takes no more than it is given. */
  function AtMost(n: nat, room: nat): nat { if n <= room then n else room }

  /** The loop of `writeIovec` when `done` bytes are written. */
  function Push(v: seq<byte>, done: nat, calls: seq<Call>): Write
    requires done <= |v|
    decreases |calls|
  {
    if done == |v| then Returned(v, Int32(|v|), calls)
    else if calls == [] then Waiting(v[..done])
    else match calls[0]
      case Failed => Returned(v[..done], -1, calls[1..])
      case Again => Push(v, done, calls[1..])
      case Took(n) => Push(v, done + AtMost(n, |v| - done), calls[1..])
  }

  /** An `int` added to a `size_t`. */
  function AddInt(total: nat, rc: int): nat { (total + rc) % U64 }

  /** What the vectors come to: `Early` at a count of zero, `Through` with the total at the end. */
  datatype Pushed = Stuck(sent: seq<byte>) | Early(sent: seq<byte>) | Through(sent: seq<byte>, total: nat)

  function Before(s: seq<byte>, p: Pushed): Pushed {
    match p
    case Stuck(t) => Stuck(s + t)
    case Early(t) => Early(s + t)
    case Through(t, total) => Through(s + t, total)
  }

  /** The loop of `sendPdu`.  Its test for an error is on an unsigned number: only a zero ends it. */
  function PushAll(vs: seq<seq<byte>>, total: nat, calls: seq<Call>): Pushed {
    if vs == [] then Through([], total)
    else match Push(vs[0], 0, calls)
      case Waiting(s) => Stuck(s)
      case Returned(s, rc, rest) =>
        if rc == 0 then Early(s) else Before(s, PushAll(vs[1..], AddInt(total, rc), rest))
  }

  /** By how much the counts fall short of the lengths. */
  function Missing(vs: seq<seq<byte>>, calls: seq<Call>): int {
    if vs == [] then 0
    else match Push(vs[0], 0, calls)
      case Waiting(_) => 0
      case Returned(_, rc, rest) => |vs[0]| - rc + Missing(vs[1..], rest)
  }

  // ----- the loops

  method WriteIovec(v: seq<byte>, calls: seq<Call>) returns (w: Write)
    ensures w == Push(v, 0, calls)
  {
    var done: nat, i: nat := 0, 0;
    assert calls[0..] == calls;
    while done < |v|
      invariant done <= |v| && i <= |calls|
      invariant Push(v, done, calls[i..]) == Push(v, 0, calls)
      decreases |calls| - i
    {
      if i == |calls| { return Waiting(v[..done]); }
      assert calls[i..][0] == calls[i] && calls[i..][1..] == calls[i + 1..];
      match calls[i] {
        case Failed => return Returned(v[..done], -1, calls[i + 1..]);
        case Again =>
        case Took(n) => done := done + AtMost(n, |v| - done);
      }
      i := i + 1;
    }
    w := Returned(v, Int32(|v|), calls[i..]);
  }

  method WriteVectors(vs: seq<seq<byte>>, total: nat, calls: seq<Call>) returns (p: Pushed)
    ensures p == PushAll(vs, total, calls)
  {
    var sent: seq<byte>, sum, rest, i := [], total, calls, 0;
    assert vs[0..] == vs;
    BeforeNothing(PushAll(vs, total, calls));
    while i < |vs|
      invariant i <= |vs|
      invariant Before(sent, PushAll(vs[i..], sum, rest)) == PushAll(vs, total, calls)
    {
      assert vs[i..][0] == vs[i] && vs[i..][1..] == vs[i + 1..];
      var w := WriteIovec(vs[i], rest);
      match w {
        case Waiting(s) => return Stuck(sent + s);
        case Returned(s, rc, left) =>
          if rc == 0 { return Early(sent + s); }
          BeforeBefore(sent, s, PushAll(vs[i + 1..], AddInt(sum, rc), left));
          sent, sum, rest := sent + s, AddInt(sum, rc), left;
      }
      i := i + 1;
    }
    p := Through(sent, sum);
  }

  lemma BeforeNothing(p: Pushed)
    ensures Before([], p) == p
  {
  }

  lemma BeforeBefore(s: seq<byte>, t: seq<byte>, p: Pushed)
    ensures Before(s, Before(t, p)) == Before(s + t, p)
  {
    Associate(s, t, p.sent);
  }

  // ----- one vector

  /** It is written whole and its length is returned as an `int`, or a part of it is and -1 is returned. */
  lemma {:induction false} PushGives(v: seq<byte>, done: nat, calls: seq<Call>)
    requires done <= |v|
    ensures var w := Push(v, done, calls);
            && (w.Waiting? ==> |w.sent| < |v|)
            && (w.Returned? ==> (w.sent == v && w.rc == Int32(|v|)) || (|w.sent| < |v| && w.rc == -1))
    ensures Failed !in calls ==>
              var w := Push(v, done, calls);
              w.Returned? ==> w.sent == v && w.rc == Int32(|v|) && Failed !in w.rest
    decreases |calls|
  {
    if done < |v| && calls != [] {
      assert Failed !in calls ==> calls[0] != Failed && Failed !in calls[1..];
      match calls[0] {
        case Failed =>
        case Again => PushGives(v, done, calls[1..]);
        case Took(n) => PushGives(v, done + AtMost(n, |v| - done), calls[1..]);
      }
    }
  }

  /** A vector whose count comes back as zero: an empty one, or one of a multiple of 2^32 bytes. */
  predicate Stops(v: seq<byte>) { |v| % U32 == 0 }

  lemma {:induction false} StopsIff(v: seq<byte>)
    ensures Int32(|v|) == 0 <==> Stops(v)
  {
    Int32Is(|v|);
  }

  // ----- all vectors

  /** A count that falls short is missing in the total, modulo 2^64. */
  lemma {:induction false} TotalFallsShort(vs: seq<seq<byte>>, total: nat, calls: seq<Call>)
    requires total < U64
    ensures var p := PushAll(vs, total, calls);
            p.Through? ==> p.total == (total + |Flat(vs)| - Missing(vs, calls)) % U64
    decreases |vs|
  {
    if vs != [] {
      var w := Push(vs[0], 0, calls);
      if w.Returned? && w.rc != 0 {
        TotalFallsShort(vs[1..], AddInt(total, w.rc), w.rest);
        WrapInt(total + w.rc, |Flat(vs[1..])| - Missing(vs[1..], w.rest));
      }
    }
  }

  lemma {:induction false} WrapInt(x: int, y: int)
    ensures (x % U64 + y) % U64 == (x + y) % U64
  {
    var q := x / U64;
    assert x == U64 * q + x % U64;
    var z := x % U64 + y;
    assert z == U64 * (z / U64) + z % U64;
    DivModUnique(x + y, U64, q + z / U64, z % U64);
  }

  /** The vectors up to the first that stops the loop. */
  function UpToStop(vs: seq<seq<byte>>): seq<seq<byte>> {
    if vs == [] then [] else if Stops(vs[0]) then [vs[0]] else [vs[0]] + UpToStop(vs[1..])
  }

  lemma UpToStopFlat(vs: seq<seq<byte>>)
    requires vs != []
    ensures Flat(UpToStop(vs)) == if Stops(vs[0]) then vs[0] else vs[0] + Flat(UpToStop(vs[1..]))
  {
    var w := UpToStop(vs);
    assert w[0] == vs[0] && w[1..] == if Stops(vs[0]) then [] else UpToStop(vs[1..]);
  }

  ghost predicate AnyStops(vs: seq<seq<byte>>) {
    exists i :: 0 <= i < |vs| && Stops(vs[i])
  }

  /** The lengths in multiples of 2^32, each rounded to the nearest: what a count returned as an `int` loses. */
  function Rounded(vs: seq<seq<byte>>): nat {
    if vs == [] then 0 else (|vs[0]| + 0x8000_0000) / U32 + Rounded(vs[1..])
  }

  /** Without an error, how the bytes are taken makes no difference. */
  lemma {:induction false} NoError(vs: seq<seq<byte>>, total: nat, calls: seq<Call>)
    requires Failed !in calls
    ensures var p := PushAll(vs, total, calls);
            !p.Stuck? ==>
              && p.sent == Flat(UpToStop(vs))
              && (p.Early? <==> AnyStops(vs))
              && (p.Through? ==> Missing(vs, calls) == U32 * Rounded(vs))
    decreases |vs|
  {
    if vs != [] {
      var w := Push(vs[0], 0, calls);
      PushGives(vs[0], 0, calls);
      StopsIff(vs[0]);
      UpToStopFlat(vs);
      AnyStopsStep(vs);
      if w.Returned? && w.rc != 0 {
        NoError(vs[1..], AddInt(total, w.rc), w.rest);
        Int32Loses(|vs[0]|);
      }
    }
  }

  lemma AnyStopsStep(vs: seq<seq<byte>>)
    requires vs != []
    ensures AnyStops(vs) <==> Stops(vs[0]) || AnyStops(vs[1..])
  {
    if AnyStops(vs) {
      var i :| 0 <= i < |vs| && Stops(vs[i]);
      if i > 0 { assert vs[1..][i - 1] == vs[i]; }
    }
    if AnyStops(vs[1..]) {
      var i :| 0 <= i < |vs[1..]| && Stops(vs[1..][i]);
      assert Stops(vs[i + 1]);
    }
  }

  lemma {:induction false} Int32Loses(n: nat)
    ensures n - Int32(n) == U32 * ((n + 0x8000_0000) / U32)
  {
    Int32Is(n);
    var q, r := n / U32, n % U32;
    assert n == U32 * q + r;
    if r < 0x8000_0000 { DivModUnique(n + 0x8000_0000, U32, q, r + 0x8000_0000); }
    else { DivModUnique(n + 0x8000_0000, U32, q + 1, r - 0x8000_0000); }
  }

  // ----- with errors

  ghost predicate AllShort(vs: seq<seq<byte>>) {
    forall i :: 0 <= i < |vs| ==> |vs[i]| < 0x8000_0000
  }

  /** No error stops the loop; only an empty vector does. */
  lemma {:induction false} OnlyEmptyStops(vs: seq<seq<byte>>, total: nat, calls: seq<Call>)
    requires AllShort(vs)
    ensures var p := PushAll(vs, total, calls);
            !p.Stuck? ==> (p.Early? <==> [] in vs)
    decreases |vs|
  {
    if vs != [] {
      var w := Push(vs[0], 0, calls);
      PushGives(vs[0], 0, calls);
      assert [] in vs <==> vs[0] == [] || [] in vs[1..];
      if w.Returned? && w.rc != 0 { OnlyEmptyStops(vs[1..], AddInt(total, w.rc), w.rest); }
    }
  }

  /** Nothing is missing exactly when everything was sent. */
  lemma {:induction false} MissingIff(vs: seq<seq<byte>>, total: nat, calls: seq<Call>)
    requires AllShort(vs)
    ensures var p := PushAll(vs, total, calls);
            p.Through? ==>
              && 0 <= Missing(vs, calls) <= 2 * |Flat(vs)|
              && |p.sent| <= |Flat(vs)|
              && (Missing(vs, calls) == 0 <==> p.sent == Flat(vs))
              && (|p.sent| == |Flat(vs)| ==> p.sent == Flat(vs))
    decreases |vs|
  {
    if vs != [] {
      var w := Push(vs[0], 0, calls);
      PushGives(vs[0], 0, calls);
      if w.Returned? && w.rc != 0 { MissingIff(vs[1..], AddInt(total, w.rc), w.rest); }
    }
  }

  /** What goes out is never longer than the vectors up to one that stops the loop for sure. */
  lemma {:induction false} SentBound(vs: seq<seq<byte>>, total: nat, calls: seq<Call>, i: nat)
    requires i < |vs| && vs[i] == []
    ensures var p := PushAll(vs, total, calls);
            !p.Through? && |p.sent| <= |Flat(vs[..i])|
    decreases |vs|
  {
    var w := Push(vs[0], 0, calls);
    PushGives(vs[0], 0, calls);
    if i == 0 {
      assert w == Returned([], 0, calls);
    } else {
      assert vs[..i][0] == vs[0] && vs[..i][1..] == vs[1..][..i - 1];
      if w.Returned? && w.rc != 0 { SentBound(vs[1..], AddInt(total, w.rc), w.rest, i - 1); }
    }
  }

  /** When every call fails, nothing is sent, and an empty vector still ends the loop as on success. */
  lemma {:induction false} AllFail(vs: seq<seq<byte>>, total: nat, calls: seq<Call>)
    requires [] in vs && |calls| >= |vs| && forall i :: 0 <= i < |calls| ==> calls[i] == Failed
    ensures PushAll(vs, total, calls) == Early([])
    decreases |vs|
  {
    if vs[0] != [] {
      assert Push(vs[0], 0, calls) == Returned([], -1, calls[1..]);
      assert [] in vs[1..];
      AllFail(vs[1..], AddInt(total, -1), calls[1..]);
    }
  }
}
