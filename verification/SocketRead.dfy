/**
 * `readIovec`: a buffer is filled by as many `readv` calls as it takes
 * (cpp/samba/client/OpenSmbC/src/Smb2Socket.cpp).  The results of the calls are
 * given: how many bytes came, 0 at the end of the stream, -1 for an error.  They
 * are kept in unsigned 64-bit variables, and their sum is returned as an `int`.
 */
module SocketRead {
  import opened Bytes

  /** What the calls leave: the buffer, the bytes taken off the stream, the count that is returned; `None` asks for more results. */
  datatype Read = Waiting | Closed | Filled(buf: seq<byte>, taken: nat, count: int)

  /** `total` after an error: -1 as an unsigned number is added. */
  function AfterError(total: nat): nat { (total + (U64 - 1)) % U64 }

  /** The loop from a buffer filled up to `total`, with `taken` bytes of the stream gone. */
  function Fill(stream: seq<byte>, buf: seq<byte>, total: nat, taken: nat, results: seq<int>): Read
    decreases |results|
  {
    if total >= |buf| then Filled(buf, taken, Int32(total))
    else if results == [] then Waiting
    else
      if results[0] == 0 then Closed
      else
        var s := AfterCall(stream, buf, total, taken, results[0]);
        Fill(stream, s.buf, s.total, s.taken, results[1..])
  }

  datatype Progress = Progress(buf: seq<byte>, total: nat, taken: nat)

  /** One call that does not find the end of the stream. */
  function AfterCall(stream: seq<byte>, buf: seq<byte>, total: nat, taken: nat, r: int): (s: Progress)
    requires total < |buf|
    ensures |s.buf| == |buf|
  {
    if r < 0 then Progress(buf, AfterError(total), taken)
    else
      var k := Least(r, |buf| - total, |stream| - taken);
      Progress(PutBytes(buf, total, Slice(stream, taken, k)), total + k, taken + k)
  }

  /** `readv` gives no more than was asked for, and no more than there is. */
  function Least(r: int, room: int, left: int): nat {
    if r <= room && r <= left && r >= 0 then r else if room <= left && room >= 0 then room else if left >= 0 then left else 0
  }

  function Slice(s: seq<byte>, i: nat, k: nat): (b: seq<byte>) {
    if i + k <= |s| then s[i..i + k] else []
  }

  /** Errors among the results that the loop uses after a first byte has come. */
  function LateErrors(n: nat, total: nat, stream: nat, taken: nat, results: seq<int>): nat
    decreases |results|
  {
    if total >= n || results == [] || results[0] == 0 then 0
    else if results[0] < 0 then
      (if total == 0 then 0 else 1 + LateErrors(n, total - 1, stream, taken, results[1..]))
    else
      var k := Least(results[0], n - total, stream - taken);
      LateErrors(n, total + k, stream, taken + k, results[1..])
  }

  /** The loop of the source. */
  method ReadIovec(stream: seq<byte>, n: nat, results: seq<int>) returns (r: Read)
    requires n < U64
    ensures r == Fill(stream, Zeros(n), 0, 0, results)
  {
    var buf := new byte[n];
    var total: nat, taken: nat, i := 0, 0, 0;
    Clear(buf);
    assert results[0..] == results;
    while total < n
      invariant i <= |results|
      invariant Fill(stream, buf[..], total, taken, results[i..]) == Fill(stream, Zeros(n), 0, 0, results)
      decreases |results| - i
    {
      if i == |results| { return Waiting; }
      FillNext(stream, buf[..], total, taken, results, i);
      if results[i] == 0 { return Closed; }
      total, taken := Call(stream, buf, total, taken, results[i]);
      i := i + 1;
    }
    r := Filled(buf[..], taken, Int32(total));
  }

  method Call(stream: seq<byte>, buf: array<byte>, total: nat, taken: nat, r: int) returns (total': nat, taken': nat)
    requires total < buf.Length
    modifies buf
    ensures Progress(buf[..], total', taken') == AfterCall(stream, old(buf[..]), total, taken, r)
  {
    if r < 0 { return (total + (U64 - 1)) % U64, taken; }
    var k := Least(r, buf.Length - total, |stream| - taken);
    WriteBytes(buf, total, Slice(stream, taken, k));
    return total + k, taken + k;
  }

  lemma FillNext(stream: seq<byte>, buf: seq<byte>, total: nat, taken: nat, results: seq<int>, i: nat)
    requires i < |results| && total < |buf|
    ensures var s := AfterCall(stream, buf, total, taken, results[i]);
            Fill(stream, buf, total, taken, results[i..]) ==
              if results[i] == 0 then Closed else Fill(stream, s.buf, s.total, s.taken, results[i + 1..])
  {
    assert results[i..][0] == results[i] && results[i..][1..] == results[i + 1..];
  }

  method Clear(a: array<byte>)
    modifies a
    ensures a[..] == Zeros(a.Length)
  {
    for i := 0 to a.Length
      invariant forall k :: 0 <= k < i ==> a[k] == 0
    {
      a[i] := 0;
    }
  }

  lemma {:induction false} WrapsBack(total: nat)
    requires total < U64
    ensures AfterError(total) == (if total == 0 then U64 - 1 else total - 1) && Int32(U64 - 1) == -1
  {
    if total > 0 { DivModUnique(total + (U64 - 1), U64, 1, total - 1); }
    Int32Is(U64 - 1);
  }

  /** One call: where it leads, and whether it was a late error. */
  lemma {:induction false} OneCall(stream: seq<byte>, buf: seq<byte>, total: nat, taken: nat, results: seq<int>)
    returns (stop: bool, next: seq<byte>, total': nat, taken': nat, late: nat)
    requires |buf| < U64 - 1 && total < |buf| && taken <= |stream| && results != [] && results[0] != 0
    ensures stop ==> Fill(stream, buf, total, taken, results) == Filled(buf, taken, -1)
    ensures !stop ==> Fill(stream, buf, total, taken, results) == Fill(stream, next, total', taken', results[1..])
    ensures !stop ==> LateErrors(|buf|, total, |stream|, taken, results) == late + LateErrors(|buf|, total', |stream|, taken', results[1..])
    ensures !stop ==> |next| == |buf| && total' <= |buf| && taken <= taken' <= |stream| && taken' - total' == taken - total + late
    ensures !stop && late == 0 ==> total <= total' && next[..total'] == buf[..total] + stream[taken..taken']
  {
    WrapsBack(total);
    stop, next, total', taken', late := false, buf, total, taken, 0;
    if results[0] < 0 {
      if total == 0 { stop := true; } else { total', late := total - 1, 1; }
    } else {
      var k := Least(results[0], |buf| - total, |stream| - taken);
      next, total', taken' := PutBytes(buf, total, Slice(stream, taken, k)), total + k, taken + k;
    }
  }

  /** A filled buffer took one byte more off the stream for every error after its first byte. */
  lemma {:induction false} FillTakes(stream: seq<byte>, buf: seq<byte>, total: nat, taken: nat, results: seq<int>)
    requires |buf| < U64 - 1 && total <= |buf| && taken <= |stream|
    ensures var f := Fill(stream, buf, total, taken, results);
            f.Filled? && f.count >= 0 ==>
              f.count == Int32(|buf|) && f.taken == taken + (|buf| - total) + LateErrors(|buf|, total, |stream|, taken, results) && taken <= f.taken <= |stream|
    decreases |results|
  {
    if total < |buf| && results != [] && results[0] != 0 {
      var stop, next, total', taken', late := OneCall(stream, buf, total, taken, results);
      if !stop { FillTakes(stream, next, total', taken', results[1..]); }
    }
  }

  /** Without such an error it holds exactly the next bytes of the stream. */
  lemma {:induction false} FillIsNext(stream: seq<byte>, buf: seq<byte>, total: nat, taken: nat, results: seq<int>)
    requires |buf| < U64 - 1 && total <= |buf| && taken <= |stream|
    requires LateErrors(|buf|, total, |stream|, taken, results) == 0
    ensures var f := Fill(stream, buf, total, taken, results);
            f.Filled? && f.count >= 0 ==> taken <= f.taken <= |stream| && f.buf == buf[..total] + stream[taken..f.taken]
    decreases |results|
  {
    if total < |buf| && results != [] && results[0] != 0 {
      var stop, next, total', taken', late := OneCall(stream, buf, total, taken, results);
      if !stop {
        FillIsNext(stream, next, total', taken', results[1..]);
        var f := Fill(stream, buf, total, taken, results);
        if f.Filled? && f.count >= 0 { Glued(buf[..total], stream, taken, taken', f.taken); }
      }
    } else if total == |buf| {
      assert buf[..total] + stream[taken..taken] == buf;
    }
  }

  /** A read that succeeds keeps its place in the stream exactly when no error came after its first byte. */
  lemma {:induction false} ReadInStepIff(stream: seq<byte>, n: nat, results: seq<int>)
    requires n < U64 - 1
    ensures var f := Fill(stream, Zeros(n), 0, 0, results);
            f.Filled? && f.count >= 0 ==>
              && (f.taken == n <==> LateErrors(n, 0, |stream|, 0, results) == 0)
              && (f.taken == n ==> n <= |stream| && f.buf == stream[..n])
  {
    FillTakes(stream, Zeros(n), 0, 0, results);
    if LateErrors(n, 0, |stream|, 0, results) == 0 { FillIsNext(stream, Zeros(n), 0, 0, results); }
  }

  /** A buffer of 2^31 bytes or more, up to 2^32, is never read with success, however its bytes come. */
  lemma {:induction false} LongReadFails(stream: seq<byte>, n: nat, results: seq<int>)
    requires 0x8000_0000 <= n < U32
    ensures var f := Fill(stream, Zeros(n), 0, 0, results);
            f.Filled? ==> f.count < 0
  {
    FillTakes(stream, Zeros(n), 0, 0, results);
  }

  /** Two bytes of which one has come, an error, and two more: the read succeeds, one byte of the stream is lost. */
  lemma {:induction false} ErrorLosesAByte()
    ensures Fill([1, 2, 3], Zeros(2), 0, 0, [1, -1, 2]) == Filled([2, 3], 3, 2)
  {
    var s: seq<byte> := [1, 2, 3];
    var rs := [1, -1, 2];
    WrapsBack(1);
    assert rs[1..] == [-1, 2] && rs[1..][1..] == [2] && rs[1..][1..][1..] == [];
    assert PutBytes(Zeros(2), 0, Slice(s, 0, 1)) == [1, 0];
    assert PutBytes([1, 0], 0, Slice(s, 1, 2)) == [2, 3];
    assert Fill(s, [2, 3], 2, 3, []) == Filled([2, 3], 3, 2);
    assert Fill(s, [1, 0], 0, 1, [2]) == Filled([2, 3], 3, 2);
    assert Fill(s, [1, 0], 1, 1, [-1, 2]) == Filled([2, 3], 3, 2);
  }
}
