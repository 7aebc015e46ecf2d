/**
 * AES-CMAC over arrays worked on in place (cpp/samba/client/OpenSmbC/src/Smb2Signing.cpp)
 * against sections 2.3 and 2.4 of RFC 4493.  The block cipher under its key is a
 * parameter.
 */
module Cmac {
  import Bytes

  const BLOCK: nat := 16

  type Block = s: seq<bv8> | |s| == 16 witness [0, 0, 0, 0, 0, 0, 0, 0, 0, 0, 0, 0, 0, 0, 0, 0]

  type Cipher = Block -> Block

  const ZERO: Block := [0, 0, 0, 0, 0, 0, 0, 0, 0, 0, 0, 0, 0, 0, 0, 0]
  const RB: Block := [0, 0, 0, 0, 0, 0, 0, 0, 0, 0, 0, 0, 0, 0, 0, 0x87]

  // ----- the standard

  /** A byte string as a number, most significant byte first. */
  function Val(b: seq<bv8>): nat {
    if b == [] then 0 else 256 * Val(b[..|b| - 1]) + b[|b| - 1] as nat
  }

  function FromVal(n: nat, v: nat): (b: seq<bv8>)
    ensures |b| == n
    decreases n, v
  {
    if n == 0 then [] else FromVal(n - 1, v / 256) + [(v % 256) as bv8]
  }

  function Xor(a: Block, b: Block): (r: Block) {
    seq(BLOCK, i requires 0 <= i < BLOCK => a[i] ^ b[i])
  }

  /** One step of subkey generation: shift left in 128 bits, and fold the bit that falls out. */
  function Double(b: Block): Block {
    var shifted := FromVal(|b|, (2 * Val(b)) % Bytes.Pow256(|b|));
    if 2 * Val(b) < Bytes.Pow256(|b|) then shifted else Xor(shifted, RB)
  }

  function Key1(aes: Cipher): Block { Double(aes(ZERO)) }

  function Key2(aes: Cipher): Block { Double(Key1(aes)) }

  /** A short block: a one bit, then zeros. */
  function Padded(m: seq<bv8>): Block
    requires |m| < BLOCK
  {
    m + [0x80] + ZERO[|m| + 1..]
  }

  function LastBlock(aes: Cipher, m: seq<bv8>): Block
    requires |m| <= BLOCK
  {
    if |m| == BLOCK then Xor(m, Key1(aes)) else Xor(Padded(m), Key2(aes))
  }

  /** The chain from state `x` over the rest of the message. */
  function Chain(aes: Cipher, x: Block, m: seq<bv8>): Block
    decreases |m|
  {
    if |m| <= BLOCK then aes(Xor(x, LastBlock(aes, m)))
    else Chain(aes, aes(Xor(x, m[..BLOCK])), m[BLOCK..])
  }

  /** AES-CMAC of a message of any length, the empty one included. */
  function Mac(aes: Cipher, m: seq<bv8>): Block {
    Chain(aes, ZERO, m)
  }

  lemma XorZero(b: Block)
    ensures Xor(ZERO, b) == b
  {
    forall i | 0 <= i < BLOCK ensures ZERO[i] ^ b[i] == b[i] { XorByte(b[i]); }
  }

  lemma XorByte(x: bv8)
    ensures 0 ^ x == x
  {
  }

  /** `p` is the block `m`, or `m` followed by a one bit and zeros. */
  ghost predicate Fills(m: seq<bv8>, p: Block) {
    && |m| <= 16 && p[..|m|] == m
    && (|m| < 16 ==> p[|m|] == 0x80 && forall i :: |m| < i < 16 ==> p[i] == 0)
  }

  lemma LastBlockIs(aes: Cipher, m: seq<bv8>, p: Block)
    requires Fills(m, p)
    ensures LastBlock(aes, m) == Xor(p, if |m| == 16 then Key1(aes) else Key2(aes))
  {
    if |m| < 16 {
      assert forall i :: |m| < i < 16 ==> Padded(m)[i] == 0;
      assert Padded(m) == p;
    } else {
      assert m == p;
    }
  }

  /** A message of at most one block: whole with the first subkey, short with a one bit, zeros and the second. */
  lemma MacOfOneBlock(aes: Cipher, m: seq<bv8>, p: Block)
    requires Fills(m, p)
    ensures Mac(aes, m) == aes(Xor(p, if |m| == 16 then Key1(aes) else Key2(aes)))
  {
    LastBlockIs(aes, m, p);
    XorZero(LastBlock(aes, m));
  }

  lemma {:induction false} FirstBlock(aes: Cipher, a: Block, m: seq<bv8>)
    requires m != []
    ensures Mac(aes, a + m) == Chain(aes, aes(a), m)
  {
    assert (a + m)[..BLOCK] == a && (a + m)[BLOCK..] == m;
    XorZero(a);
  }

  /** A block in front goes through the cipher and into the next. */
  lemma {:induction false} MacOfTwoBlocks(aes: Cipher, a: Block, m: seq<bv8>, p: Block)
    requires m != [] && Fills(m, p)
    ensures Mac(aes, a + m) == aes(Xor(aes(a), Xor(p, if |m| == 16 then Key1(aes) else Key2(aes))))
  {
    FirstBlock(aes, a, m);
    LastBlockIs(aes, m, p);
  }

  // ----- the byte-wise shift

  /** The bit that leaves a byte when it is shifted left. */
  function Top(x: bv8): bv8 { x >> 7 }

  function Shifted(x: bv8, cin: bv8): bv8 { (x << 1) | cin }

  function ShiftIn(b: seq<bv8>, cin: bv8): (r: (seq<bv8>, bv8))
    ensures |r.0| == |b|
  {
    if b == [] then ([], cin)
    else
      var last := b[|b| - 1];
      var (rest, cout) := ShiftIn(b[..|b| - 1], Top(last));
      (rest + [Shifted(last, cin)], cout)
  }

  lemma ByteShift(x: bv8, c: bv8)
    requires c <= 1
    ensures Shifted(x, c) as int + 256 * (Top(x) as int) == 2 * (x as int) + c as int
    ensures Top(x) <= 1
  {
  }

  /** Shifting byte by byte with a carry is doubling the number. */
  lemma {:induction false} ShiftDoubles(b: seq<bv8>, cin: bv8)
    requires cin <= 1
    ensures var (r, cout) := ShiftIn(b, cin);
            cout <= 1 && 2 * Val(b) + cin as nat == if cout == 0 then Val(r) else Val(r) + Bytes.Pow256(|b|)
  {
    if b != [] {
      var n := |b| - 1;
      var last := b[n];
      ByteShift(last, cin);
      ShiftDoubles(b[..n], Top(last));
      var (rest, cout) := ShiftIn(b[..n], Top(last));
      var r := rest + [Shifted(last, cin)];
      assert r[..n] == rest;
    }
  }

  lemma {:induction false} ValBound(b: seq<bv8>)
    ensures Val(b) < Bytes.Pow256(|b|)
  {
    if b != [] { ValBound(b[..|b| - 1]); }
  }

  lemma {:induction false} FromValBack(b: seq<bv8>)
    ensures FromVal(|b|, Val(b)) == b
  {
    if b != [] {
      var n := |b| - 1;
      FromValBack(b[..n]);
      assert Val(b) / 256 == Val(b[..n]) && Val(b) % 256 == b[n] as nat;
      assert b == b[..n] + [b[n]];
    }
  }

  /** The in-place step of the source is the doubling of the standard. */
  function DoubleBytes(b: Block): Block {
    var (s, c) := ShiftIn(b, 0);
    if c != 0 then Xor(s, RB) else s
  }

  lemma DoubleIsStandard(b: Block)
    ensures DoubleBytes(b) == Double(b)
  {
    var (s, c) := ShiftIn(b, 0);
    ShiftDoubles(b, 0);
    ValBound(s);
    ValBound(b);
    FromValBack(s);
    assert (2 * Val(b)) % Bytes.Pow256(|b|) == Val(s) by { Reduced(2 * Val(b), Val(s), c, Bytes.Pow256(|b|)); }
  }

  lemma Reduced(x: nat, r: nat, c: bv8, m: nat)
    requires m > 0 && r < m && x == if c == 0 then r else r + m
    ensures x % m == r
  {
  }

  // ----- the source

  /** The carry into a byte is the top bit of the byte behind it. */
  lemma {:induction false} ShiftAt(b: seq<bv8>, cin: bv8, i: nat)
    requires i < |b|
    ensures ShiftIn(b, cin).0[i] == Shifted(b[i], if i + 1 < |b| then Top(b[i + 1]) else cin)
    ensures ShiftIn(b, cin).1 == Top(b[0])
  {
    var n := |b| - 1;
    var front := b[..n];
    if n == 0 {
      assert ShiftIn(front, Top(b[0])) == ([], Top(b[0]));
    } else {
      ShiftAt(front, Top(b[n]), if i < n then i else 0);
      assert ShiftIn(b, cin).0 == ShiftIn(front, Top(b[n])).0 + [Shifted(b[n], cin)];
    }
  }

  /** Byte i of a doubled block. */
  function DoubledByte(b: Block, i: nat): bv8
    requires i < 16
  {
    ((b[i] << 1) | if i < 15 then b[i + 1] >> 7 else 0) ^ if i == 15 && b[0] >= 0x80 then 0x87 else 0
  }

  lemma {:induction false} DoubleAt(b: Block, i: nat)
    requires i < 16
    ensures Double(b)[i] == DoubledByte(b, i)
  {
    DoubleIsStandard(b);
    ShiftAt(b, 0, i);
    TopBit(b[0]);
    Folded(ShiftIn(b, 0).0[i]);
  }

  lemma TopBit(x: bv8)
    ensures x >> 7 != 0 <==> x >= 0x80
  {
  }

  lemma Folded(x: bv8)
    ensures x ^ 0 == x
  {
  }

  // The subkeys of section 4 of RFC 4493.

  const L: Block := [0x7d, 0xf7, 0x6b, 0x0c, 0x1a, 0xb8, 0x99, 0xb3, 0x3e, 0x42, 0xf0, 0x47, 0xb9, 0x1b, 0x54, 0x6f]
  const K1: Block := [0xfb, 0xee, 0xd6, 0x18, 0x35, 0x71, 0x33, 0x66, 0x7c, 0x85, 0xe0, 0x8f, 0x72, 0x36, 0xa8, 0xde]
  const K2: Block := [0xf7, 0xdd, 0xac, 0x30, 0x6a, 0xe2, 0x66, 0xcc, 0xf9, 0x0b, 0xc1, 0x1e, 0xe4, 0x6d, 0x51, 0x3b]

  lemma {:induction false} SubkeyExample(aes: Cipher)
    requires aes(ZERO) == L
    ensures Key1(aes) == K1 && Key2(aes) == K2
  {
    forall i | 0 <= i < 16 ensures Double(L)[i] == K1[i] {
      DoubleAt(L, i);
      FirstKeyByte(i);
    }
    assert Double(L) == K1;
    forall i | 0 <= i < 16 ensures Double(K1)[i] == K2[i] {
      DoubleAt(K1, i);
      SecondKeyByte(i);
    }
    assert Double(K1) == K2;
  }

  lemma FirstKeyByte(i: nat)
    requires i < 16
    ensures DoubledByte(L, i) == K1[i]
  {
    if i < 8 { assert i == 0 || i == 1 || i == 2 || i == 3 || i == 4 || i == 5 || i == 6 || i == 7; }
    else { assert i == 8 || i == 9 || i == 10 || i == 11 || i == 12 || i == 13 || i == 14 || i == 15; }
  }

  lemma SecondKeyByte(i: nat)
    requires i < 16
    ensures DoubledByte(K1, i) == K2[i]
  {
    if i < 8 { assert i == 0 || i == 1 || i == 2 || i == 3 || i == 4 || i == 5 || i == 6 || i == 7; }
    else { assert i == 8 || i == 9 || i == 10 || i == 11 || i == 12 || i == 13 || i == 14 || i == 15; }
  }

  method ShiftLeft(a: array<bv8>) returns (cout: bv8)
    requires a.Length == BLOCK
    modifies a
    ensures a[..] == ShiftIn(old(a[..]), 0).0 && cout == ShiftIn(old(a[..]), 0).1
  {
    ghost var orig := a[..];
    var cin: bv8 := 0;
    cout := 0;
    var i := BLOCK;
    while i > 0
      invariant 0 <= i <= BLOCK
      invariant cin == if i < BLOCK then Top(orig[i]) else 0
      invariant i < BLOCK ==> cout == cin
      invariant forall k :: 0 <= k < i ==> a[k] == orig[k]
      invariant forall k :: i <= k < BLOCK ==> a[k] == Shifted(orig[k], if k + 1 < BLOCK then Top(orig[k + 1]) else 0)
    {
      i := i - 1;
      cout := a[i] >> 7;
      a[i] := (a[i] << 1) | cin;
      cin := cout;
    }
    assert cout == Top(orig[0]);
    ShiftAt(orig, 0, 0);
    ghost var shifted := ShiftIn(orig, 0).0;
    forall k | 0 <= k < BLOCK ensures a[k] == shifted[k] {
      ShiftAt(orig, 0, k);
      assert a[k] == Shifted(orig[k], if k + 1 < BLOCK then Top(orig[k + 1]) else 0);
    }
    assert a[..] == shifted;
  }

  method XorInto(a: array<bv8>, v: Block)
    requires a.Length == BLOCK
    modifies a
    ensures a[..] == Xor(old(a[..]), v)
  {
    for i := 0 to BLOCK
      invariant forall k :: 0 <= k < i ==> a[k] == old(a[k]) ^ v[k]
      invariant forall k :: i <= k < BLOCK ==> a[k] == old(a[k])
    {
      a[i] := a[i] ^ v[i];
    }
  }

  method DoubleInto(a: array<bv8>)
    requires a.Length == BLOCK
    modifies a
    ensures a[..] == Double(old(a[..]))
  {
    DoubleIsStandard(a[..]);
    var c := ShiftLeft(a);
    if c != 0 { XorInto(a, RB); }
  }

  method SubKeys(aes: Cipher, key1: array<bv8>, key2: array<bv8>)
    requires key1.Length == BLOCK && key2.Length == BLOCK && key1 != key2
    modifies key1, key2
    ensures key1[..] == Key1(aes) && key2[..] == Key2(aes)
  {
    Bytes.CopyInto(key1, 0, aes(ZERO));
    assert key1[..] == aes(ZERO);
    DoubleInto(key1);
    Bytes.CopyInto(key2, 0, key1[..]);
    assert key2[..] == key1[..];
    DoubleInto(key2);
  }

  /** `aes_cmac_xor(mac, m); AES_encrypt(mac, scratch); memcpy(mac, scratch)`. */
  method Absorb(aes: Cipher, mac: array<bv8>, scratch: array<bv8>, m: Block)
    requires mac.Length == BLOCK && scratch.Length == BLOCK && mac != scratch
    modifies mac, scratch
    ensures mac[..] == aes(Xor(old(mac[..]), m))
  {
    XorInto(mac, m);
    ghost var x := mac[..];
    Bytes.CopyInto(scratch, 0, aes(mac[..]));
    assert scratch[..] == aes(x);
    Bytes.CopyInto(mac, 0, scratch[..]);
    assert mac[..] == scratch[..];
  }

  /** The last block, complete or padded, with its subkey, left in `scratch`. */
  method FillLast(aes: Cipher, scratch: array<bv8>, tail: seq<bv8>, complete: bool, key1: Block, key2: Block)
    requires scratch.Length == BLOCK && |tail| <= BLOCK && complete == (|tail| == BLOCK)
    requires key1 == Key1(aes) && key2 == Key2(aes)
    modifies scratch
    ensures scratch[..] == LastBlock(aes, tail)
  {
    Bytes.CopyInto(scratch, 0, tail);
    if complete {
      assert scratch[..] == tail;
      XorInto(scratch, key1);
    } else {
      Bytes.CopyInto(scratch, |tail|, [0x80]);
      Bytes.CopyInto(scratch, |tail| + 1, ZERO[|tail| + 1..]);
      assert scratch[..] == Padded(tail);
      XorInto(scratch, key2);
    }
  }

  lemma ChainStep(aes: Cipher, x: Block, msg: seq<bv8>, at: nat)
    requires at + BLOCK < |msg|
    ensures Chain(aes, x, msg[at..]) == Chain(aes, aes(Xor(x, msg[at..at + BLOCK])), msg[at + BLOCK..])
  {
    assert msg[at..][..BLOCK] == msg[at..at + BLOCK] && msg[at..][BLOCK..] == msg[at + BLOCK..];
  }

  /** The source's block count: every block but the last is full, the last one has 0 to 16 bytes. */
  lemma BlockCount(len: nat, n: nat)
    requires n == if len == 0 then 1 else (len + BLOCK - 1) / BLOCK
    ensures n >= 1 && BLOCK * (n - 1) <= len <= BLOCK * n
    ensures n > 1 ==> BLOCK * (n - 1) < len
    ensures (len != 0 && len % BLOCK == 0) <==> len == BLOCK * n
  {
  }

  /** `smb3_aes_cmac_128`: counted blocks, scratch and mac overwritten in place. */
  method ComputeMac(aes: Cipher, msg: seq<bv8>, mac: array<bv8>)
    requires mac.Length == BLOCK
    modifies mac
    ensures mac[..] == Mac(aes, msg)
  {
    var key1, key2, scratch := new bv8[BLOCK], new bv8[BLOCK], new bv8[BLOCK];
    var n, rem := (|msg| + BLOCK - 1) / BLOCK, |msg| % BLOCK;
    var complete := n != 0 && rem == 0;
    if n == 0 { n := 1; }
    BlockCount(|msg|, n);
    SubKeys(aes, key1, key2);
    var k1, k2 := key1[..], key2[..];
    Bytes.CopyInto(mac, 0, ZERO);
    assert mac[..] == ZERO;
    AbsorbAll(aes, msg, n, mac, scratch);
    FillLast(aes, scratch, msg[BLOCK * (n - 1)..], complete, k1, k2);
    var last := scratch[..];
    Absorb(aes, mac, scratch, last);
  }

  /** The loop over all blocks but the last. */
  method AbsorbAll(aes: Cipher, msg: seq<bv8>, n: nat, mac: array<bv8>, scratch: array<bv8>)
    requires mac.Length == BLOCK && scratch.Length == BLOCK && mac != scratch && mac[..] == ZERO
    requires n >= 1 && (n > 1 ==> BLOCK * (n - 1) < |msg|)
    modifies mac, scratch
    ensures Chain(aes, mac[..], msg[BLOCK * (n - 1)..]) == Mac(aes, msg)
  {
    ghost var result := Mac(aes, msg);
    var i := 0;
    assert msg[0..] == msg;
    while i < n - 1
      invariant 0 <= i <= n - 1
      invariant Chain(aes, mac[..], msg[BLOCK * i..]) == result
    {
      var at := BLOCK * i;
      assert at + BLOCK <= BLOCK * (n - 1);
      ChainStep(aes, mac[..], msg, at);
      Absorb(aes, mac, scratch, msg[at..at + BLOCK]);
      i := i + 1;
    }
  }
}
