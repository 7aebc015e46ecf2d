/**
 * Little-endian fields in byte buffers, as `smb2_iovec` reads and writes them
 * (cpp/samba/client/OpenSmbC/src/DataTypes.cpp).
 */
module Bytes {

  type byte = x: int | 0 <= x < 256

  /** Quantities of 32 and of 64 bits wrap at these. */
  const U32 := 0x1_0000_0000
  const U64 := 0x1_0000_0000_0000_0000

  type int32 = x: int | -0x8000_0000 <= x < 0x8000_0000

  /** Read as a signed 32-bit number. */
  function Int32(n: nat): int32 {
    if n < 0x8000_0000 then n else if n < U32 then n - U32 else Int32(n - U32)
  }

  lemma {:induction false} Int32Is(n: nat)
    ensures Int32(n) == if n % U32 < 0x8000_0000 then n % U32 else n % U32 - U32
  {
    if n >= U32 {
      Int32Is(n - U32);
      assert n == U32 * (n / U32) + n % U32;
      DivModUnique(n - U32, U32, n / U32 - 1, n % U32);
    }
  }

  function Pow256(n: nat): (p: nat)
    ensures p > 0
  {
    if n == 0 then 1 else 256 * Pow256(n - 1)
  }

  function ToLE(n: nat, v: nat): (s: seq<byte>)
    ensures |s| == n
    decreases n, v
  {
    if n == 0 then [] else [v % 256] + ToLE(n - 1, v / 256)
  }

  function FromLE(s: seq<byte>): nat {
    if s == [] then 0 else s[0] + 256 * FromLE(s[1..])
  }

  /** The low byte stands first. */
  lemma {:induction false} ByteAt(n: nat, v: nat, i: nat)
    requires i < n
    ensures ToLE(n, v)[i] == v / Pow256(i) % 256
    decreases n
  {
    assert ToLE(n, v) == [v % 256] + ToLE(n - 1, v / 256);
    if i > 0 {
      ByteAt(n - 1, v / 256, i - 1);
      DivTwice(v, Pow256(i - 1));
    }
  }

  lemma {:induction false} DivTwice(v: nat, m: nat)
    requires m > 0
    ensures v / 256 / m == v / (256 * m)
  {
    var q, r := v / 256, v % 256;
    var a, b := q / m, q % m;
    assert v == (256 * m) * a + (256 * b + r);
    DivModUnique(v, 256 * m, a, 256 * b + r);
  }

  lemma {:induction false} FromLEBound(s: seq<byte>)
    ensures FromLE(s) < Pow256(|s|)
  {
    if s != [] { FromLEBound(s[1..]); }
  }

  /** A field of n bytes holds the value modulo 256^n. */
  lemma {:induction false} FromToLE(n: nat, v: nat)
    ensures FromLE(ToLE(n, v)) == v % Pow256(n)
    decreases n
  {
    if n > 0 {
      FromToLE(n - 1, v / 256);
      assert ToLE(n, v)[1..] == ToLE(n - 1, v / 256);
      ModSplit(v, Pow256(n - 1));
    }
  }

  lemma {:induction false} ModSplit(v: nat, m: nat)
    requires m > 0
    ensures v % (256 * m) == v % 256 + 256 * ((v / 256) % m)
  {
    var q, r := v / 256, v % 256;
    var a, b := q / m, q % m;
    assert v == (256 * m) * a + (256 * b + r);
    assert 0 <= 256 * b + r < 256 * m;
    DivModUnique(v, 256 * m, a, 256 * b + r);
  }

  lemma {:induction false} DivModUnique(v: int, d: nat, q: int, r: nat)
    requires d > 0 && v == d * q + r && r < d
    ensures v / d == q && v % d == r
  {
    var q', r' := v / d, v % d;
    assert v == d * q' + r';
    var k := q - q';
    assert d * k == r' - r by { Distribute(d, q, q'); }
    if k >= 1 {
      MulAtLeast(d, k);
    } else if k <= -1 {
      MulAtLeast(d, -k);
    }
  }

  lemma Distribute(d: int, x: int, y: int)
    ensures d * (x - y) == d * x - d * y
  {
  }

  lemma MulAtLeast(d: int, k: int)
    requires d >= 0 && k >= 1
    ensures d * k >= d
  {
  }

  lemma {:induction false} ToFromLE(s: seq<byte>)
    ensures ToLE(|s|, FromLE(s)) == s
  {
    if s != [] {
      ToFromLE(s[1..]);
      assert FromLE(s) % 256 == s[0] && FromLE(s) / 256 == FromLE(s[1..]);
    }
  }

  /** Four bytes, most significant first. */
  function BigEndian(s: seq<byte>): nat
    requires |s| == 4
  {
    (s[0] as int) * 0x100_0000 + (s[1] as int) * 0x1_0000 + (s[2] as int) * 0x100 + s[3] as int
  }

  predicate Fits(n: nat, v: nat) {
    v < Pow256(n)
  }

  lemma FieldFits()
    ensures Pow256(1) == 0x100 && Pow256(2) == 0x1_0000 && Pow256(4) == 0x1_0000_0000 && Pow256(8) == 0x1_0000_0000_0000_0000
  {
    assert Pow256(3) == 0x100_0000;
    assert Pow256(5) == 0x100_0000_0000 && Pow256(6) == 0x1_0000_0000_0000 && Pow256(7) == 0x100_0000_0000_0000;
  }

  /** Overwrite `bytes` at `off`, or leave the buffer alone when they do not fit. */
  function PutBytes(buf: seq<byte>, off: nat, bytes: seq<byte>): (r: seq<byte>)
    ensures |r| == |buf|
  {
    if off + |bytes| <= |buf| then buf[..off] + bytes + buf[off + |bytes|..] else buf
  }

  /** `smb2_set_uint8/16/32/64`: n is the width in bytes. */
  function Put(buf: seq<byte>, off: nat, n: nat, v: nat): (r: seq<byte>)
    ensures |r| == |buf|
  {
    PutBytes(buf, off, ToLE(n, v))
  }

  /** `smb2_get_uint8/16/32/64`; a field outside the buffer leaves the target, here zero, unset. */
  function Get(buf: seq<byte>, off: nat, n: nat): nat {
    if off + n <= |buf| then FromLE(buf[off..off + n]) else 0
  }

  lemma GetPutBytes(buf: seq<byte>, off: nat, bytes: seq<byte>)
    requires off + |bytes| <= |buf|
    ensures PutBytes(buf, off, bytes)[off..off + |bytes|] == bytes
  {
  }

  /** Where the bytes of a field stand, the field is read. */
  lemma {:induction false} FieldAt(v: seq<byte>, off: nat, n: nat, x: nat)
    requires off + n <= |v| && v[off..off + n] == ToLE(n, x) && Fits(n, x)
    ensures Get(v, off, n) == x
  {
    FromToLE(n, x);
    DivModUnique(x, Pow256(n), 0, x);
  }

  lemma GetPut(buf: seq<byte>, off: nat, n: nat, v: nat)
    requires off + n <= |buf| && Fits(n, v)
    ensures Get(Put(buf, off, n, v), off, n) == v
  {
    GetPutBytes(buf, off, ToLE(n, v));
    FromToLE(n, v);
    DivModUnique(v, Pow256(n), 0, v);
  }

  /** A write leaves every range outside it as it was. */
  lemma PutElsewhere(buf: seq<byte>, off: nat, bytes: seq<byte>, lo: nat, hi: nat)
    requires lo <= hi <= |buf| && (hi <= off || off + |bytes| <= lo)
    ensures PutBytes(buf, off, bytes)[lo..hi] == buf[lo..hi]
  {
  }

  lemma SliceOfSlice(b: seq<byte>, lo: nat, hi: nat, i: nat, j: nat)
    requires lo <= hi <= |b| && i <= j <= hi - lo
    ensures b[lo..hi][i..j] == b[lo + i..lo + j]
  {
    var x, y := b[lo..hi][i..j], b[lo + i..lo + j];
    assert forall k :: 0 <= k < j - i ==> x[k] == b[lo..hi][i + k] == b[lo + (i + k)];
    assert forall k :: 0 <= k < j - i ==> y[k] == b[(lo + i) + k];
  }

  // ----- buffers in a row

  lemma Associate(a: seq<byte>, b: seq<byte>, c: seq<byte>)
    ensures a + (b + c) == a + b + c
  {
  }

  lemma Glued(first: seq<byte>, s: seq<byte>, i: nat, j: nat, k: nat)
    requires i <= j <= k <= |s|
    ensures first + s[i..j] + s[j..k] == first + s[i..k]
  {
  }

  function Flat(vs: seq<seq<byte>>): seq<byte> {
    if vs == [] then [] else vs[0] + Flat(vs[1..])
  }

  lemma {:induction false} FlatConcat(a: seq<seq<byte>>, b: seq<seq<byte>>)
    ensures Flat(a + b) == Flat(a) + Flat(b)
  {
    if a == [] {
      assert a + b == b;
    } else {
      assert (a + b)[0] == a[0] && (a + b)[1..] == a[1..] + b;
      FlatConcat(a[1..], b);
      assert a[0] + (Flat(a[1..]) + Flat(b)) == a[0] + Flat(a[1..]) + Flat(b);
    }
  }

  lemma FlatSnoc(vs: seq<seq<byte>>, v: seq<byte>)
    ensures Flat(vs + [v]) == Flat(vs) + v
  {
    FlatConcat(vs, [v]);
    assert Flat([v]) == v + Flat([]);
  }

  function Zeros(n: nat): (z: seq<byte>)
    ensures |z| == n
  {
    seq(n, _ => 0)
  }

  lemma WrapSum(x: nat, y: nat)
    ensures (x % U32 + y) % U32 == (x + y) % U32
  {
  }

  // ----- in place

  method WriteBytes(a: array<byte>, off: nat, bytes: seq<byte>)
    modifies a
    ensures a[..] == PutBytes(old(a[..]), off, bytes)
  {
    if off + |bytes| <= a.Length { CopyInto(a, off, bytes); }
  }

  method CopyInto<T>(a: array<T>, off: nat, v: seq<T>)
    requires off + |v| <= a.Length
    modifies a
    ensures a[..] == old(a[..])[..off] + v + old(a[..])[off + |v|..]
  {
    for i := 0 to |v|
      invariant forall k :: 0 <= k < i ==> a[off + k] == v[k]
      invariant forall k :: 0 <= k < a.Length && !(off <= k < off + i) ==> a[k] == old(a[k])
    {
      a[off + i] := v[i];
    }
    assert forall k :: off <= k < off + |v| ==> a[k] == v[k - off];
  }

  /** `smb2_set_uint16/32/64` on a buffer. */
  method WriteLE(a: array<byte>, off: nat, n: nat, v: nat)
    modifies a
    ensures a[..] == Put(old(a[..]), off, n, v)
  {
    WriteBytes(a, off, ToLE(n, v));
  }

  /** One more field behind what is already written. */
  lemma PutNext(buf: seq<byte>, pre: seq<byte>, bytes: seq<byte>)
    requires |pre| + |bytes| <= |buf| && buf[..|pre|] == pre
    ensures PutBytes(buf, |pre|, bytes)[..|pre| + |bytes|] == pre + bytes
  {
  }

  method WriteNext(a: array<byte>, ghost pre: seq<byte>, off: nat, bytes: seq<byte>)
    requires off == |pre| && off + |bytes| <= a.Length && a[..off] == pre
    modifies a
    ensures a[..off + |bytes|] == pre + bytes
  {
    assert a[..][..off] == a[..off];
    WriteBytes(a, off, bytes);
    PutNext(old(a[..]), pre, bytes);
    assert a[..off + |bytes|] == a[..][..off + |bytes|];
  }

  /** Two adjacent writes are one. */
  lemma PutAdjacent(buf: seq<byte>, off: nat, x: seq<byte>, y: seq<byte>)
    requires off + |x| + |y| <= |buf|
    ensures PutBytes(PutBytes(buf, off, x), off + |x|, y) == PutBytes(buf, off, x + y)
  {
  }

  /** Continue a run of writes that began at `off` in the buffer `orig`. */
  method WriteAfter(a: array<byte>, ghost orig: seq<byte>, ghost off: nat, ghost done: seq<byte>, at: nat, bytes: seq<byte>)
    requires a[..] == PutBytes(orig, off, done) && at == off + |done| && at + |bytes| <= |orig|
    modifies a
    ensures a[..] == PutBytes(orig, off, done + bytes)
  {
    PutAdjacent(orig, off, done, bytes);
    WriteBytes(a, at, bytes);
  }

  /** A later write inside the first part changes that part only. */
  lemma PutInside(buf: seq<byte>, head: seq<byte>, tail: seq<byte>, off: nat, bytes: seq<byte>)
    requires off + |bytes| <= |head| && |head| + |tail| <= |buf|
    ensures PutBytes(PutBytes(buf, 0, head + tail), off, bytes) == PutBytes(buf, 0, PutBytes(head, off, bytes) + tail)
  {
    var rest, at := buf[|head| + |tail|..], off + |bytes|;
    var x := head + tail + rest;
    assert PutBytes(buf, 0, head + tail) == x;
    assert x[..off] == head[..off] && x[at..] == head[at..] + tail + rest;
    Associate(head[..off] + bytes, head[at..], tail);
    Associate(head[..off] + bytes, head[at..] + tail, rest);
  }
}
