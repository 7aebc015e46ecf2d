/**
 * The 64-byte SMB2 header, section 2.2.1 of MS-SMB2, as `encodeHeader` writes it
 * in place and `decodeHeader` reads it
 * (cpp/samba/client/OpenSmbC/src/Smb2Pdu.cpp).
 */
module Smb2Header {
  import opened Bytes

  const HEADER_SIZE: nat := 64
  const FLAG_SERVER_TO_REDIR: nat := 0x1
  const FLAG_ASYNC: nat := 0x2
  const FLAG_RELATED: nat := 0x4
  const FLAG_SIGNED: nat := 0x8
  const STATUS_PENDING: nat := 0x103
  const DIALECT_0202: nat := 0x0202
  const MAGIC: seq<byte> := [0xFE, 0x53, 0x4D, 0x42]

  /** `flags & bit`, for a single-bit mask. */
  predicate HasFlag(flags: nat, bit: nat)
    requires bit > 0
  {
    (flags / bit) % 2 == 1
  }

  /** `flags |= bit`. */
  function SetFlag(flags: nat, bit: nat): nat
    requires bit > 0
  {
    if HasFlag(flags, bit) then flags else flags + bit
  }

  datatype Target = Sync(processId: nat, treeId: nat) | Async(asyncId: nat)

  datatype Header = Header(
    protocol: seq<byte>,
    structSize: nat,
    creditCharge: nat,
    status: nat,
    command: nat,
    credits: nat,
    flags: nat,
    nextCommand: nat,
    messageId: nat,
    target: Target,
    sessionId: nat,
    signature: seq<byte>)

  /** Field widths of the C struct; the flag says which member of the union is in use. */
  predicate Valid(h: Header) {
    && |h.protocol| == 4 && |h.signature| == 16
    && Fits(2, h.structSize) && Fits(2, h.creditCharge) && Fits(4, h.status) && Fits(2, h.command) && Fits(2, h.credits)
    && Fits(4, h.flags) && Fits(4, h.nextCommand) && Fits(8, h.messageId) && Fits(8, h.sessionId)
    && match h.target
       case Sync(p, t) => !HasFlag(h.flags, FLAG_ASYNC) && Fits(4, p) && Fits(4, t)
       case Async(id) => HasFlag(h.flags, FLAG_ASYNC) && Fits(8, id)
  }

  function TargetBytes(h: Header): (s: seq<byte>)
    ensures |s| == 8
  {
    match h.target
    case Sync(p, t) => ToLE(4, p) + ToLE(4, t)
    case Async(id) => ToLE(8, id)
  }

  function Front(h: Header): (s: seq<byte>)
    requires |h.protocol| == 4
    ensures |s| == 12
  {
    h.protocol + ToLE(2, h.structSize) + ToLE(2, h.creditCharge) + ToLE(4, h.status)
  }

  function Middle(h: Header): (s: seq<byte>)
    ensures |s| == 20
  {
    ToLE(2, h.command) + ToLE(2, h.credits) + ToLE(4, h.flags) + ToLE(4, h.nextCommand) + ToLE(8, h.messageId)
  }

  function Back(h: Header): (s: seq<byte>)
    requires |h.signature| == 16
    ensures |s| == 32
  {
    TargetBytes(h) + ToLE(8, h.sessionId) + h.signature
  }

  /** The header on the wire. */
  function Layout(h: Header): (s: seq<byte>)
    requires |h.protocol| == 4 && |h.signature| == 16
    ensures |s| == HEADER_SIZE
  {
    Front(h) + Middle(h) + Back(h)
  }

  /** `decodeHeader`; the caller has checked the length. */
  function Decode(b: seq<byte>): Header
    requires |b| == HEADER_SIZE
  {
    var flags := Get(b, 16, 4);
    Header(b[0..4], Get(b, 4, 2), Get(b, 6, 2), Get(b, 8, 4), Get(b, 12, 2), Get(b, 14, 2), flags, Get(b, 20, 4), Get(b, 24, 8),
           if HasFlag(flags, FLAG_ASYNC) then Async(Get(b, 32, 8)) else Sync(Get(b, 32, 4), Get(b, 36, 4)),
           Get(b, 40, 8), b[48..64])
  }

  lemma FrontRead(h: Header, b: seq<byte>)
    requires Valid(h) && |b| == HEADER_SIZE && b[..12] == Front(h)
    ensures b[0..4] == h.protocol && Get(b, 4, 2) == h.structSize && Get(b, 6, 2) == h.creditCharge && Get(b, 8, 4) == h.status
  {
    assert b[0..4] == h.protocol;
    assert b[4..6] == ToLE(2, h.structSize);
    assert b[6..8] == ToLE(2, h.creditCharge);
    assert b[8..12] == ToLE(4, h.status);
    FieldAt(b, 4, 2, h.structSize);
    FieldAt(b, 6, 2, h.creditCharge);
    FieldAt(b, 8, 4, h.status);
  }

  lemma MiddleRead(h: Header, b: seq<byte>)
    requires Valid(h) && |b| == HEADER_SIZE && b[12..32] == Middle(h)
    ensures Get(b, 12, 2) == h.command && Get(b, 14, 2) == h.credits && Get(b, 16, 4) == h.flags
    ensures Get(b, 20, 4) == h.nextCommand && Get(b, 24, 8) == h.messageId
  {
    SliceOfSlice(b, 12, 32, 0, 2);
    SliceOfSlice(b, 12, 32, 2, 4);
    SliceOfSlice(b, 12, 32, 4, 8);
    SliceOfSlice(b, 12, 32, 8, 12);
    SliceOfSlice(b, 12, 32, 12, 20);
    var m := Middle(h);
    assert m[0..2] == ToLE(2, h.command) && m[2..4] == ToLE(2, h.credits) && m[4..8] == ToLE(4, h.flags);
    assert m[8..12] == ToLE(4, h.nextCommand) && m[12..20] == ToLE(8, h.messageId);
    FieldAt(b, 12, 2, h.command);
    FieldAt(b, 14, 2, h.credits);
    FieldAt(b, 16, 4, h.flags);
    FieldAt(b, 20, 4, h.nextCommand);
    FieldAt(b, 24, 8, h.messageId);
  }

  lemma TargetRead(h: Header, b: seq<byte>)
    requires Valid(h) && |b| == HEADER_SIZE && b[32..40] == TargetBytes(h)
    ensures h.target == if HasFlag(h.flags, FLAG_ASYNC) then Async(Get(b, 32, 8)) else Sync(Get(b, 32, 4), Get(b, 36, 4))
  {
    match h.target
    case Sync(p, t) =>
      assert b[32..36] == b[32..40][..4] && b[36..40] == b[32..40][4..];
      FieldAt(b, 32, 4, p);
      FieldAt(b, 36, 4, t);
    case Async(id) => FieldAt(b, 32, 8, id);
  }

  lemma BackRead(h: Header, b: seq<byte>)
    requires Valid(h) && |b| == HEADER_SIZE && b[32..64] == Back(h)
    ensures h.target == if HasFlag(h.flags, FLAG_ASYNC) then Async(Get(b, 32, 8)) else Sync(Get(b, 32, 4), Get(b, 36, 4))
    ensures Get(b, 40, 8) == h.sessionId && b[48..64] == h.signature
  {
    SliceOfSlice(b, 32, 64, 0, 8);
    SliceOfSlice(b, 32, 64, 8, 16);
    SliceOfSlice(b, 32, 64, 16, 32);
    var k := Back(h);
    assert k[0..8] == TargetBytes(h) && k[8..16] == ToLE(8, h.sessionId) && k[16..32] == h.signature;
    TargetRead(h, b);
    FieldAt(b, 40, 8, h.sessionId);
  }

  /** Where the standard puts the fields. */
  lemma FieldsStand(h: Header)
    requires Valid(h)
    ensures var b := Layout(h);
            && b[0..4] == h.protocol && FromLE(b[4..6]) == h.structSize && FromLE(b[6..8]) == h.creditCharge
            && FromLE(b[8..12]) == h.status && FromLE(b[12..14]) == h.command && FromLE(b[14..16]) == h.credits
            && FromLE(b[16..20]) == h.flags && FromLE(b[20..24]) == h.nextCommand && FromLE(b[24..32]) == h.messageId
            && (match h.target
                case Sync(p, t) => FromLE(b[32..36]) == p && FromLE(b[36..40]) == t
                case Async(id) => FromLE(b[32..40]) == id)
            && FromLE(b[40..48]) == h.sessionId && b[48..64] == h.signature
  {
    var b := Layout(h);
    assert b[..12] == Front(h) && b[12..32] == Middle(h) && b[32..64] == Back(h);
    FrontRead(h, b);
    MiddleRead(h, b);
    BackRead(h, b);
  }

  /** The flags in the lowest byte of their field: reply, async, related, signed. */
  lemma FlagBits(h: Header)
    requires Valid(h)
    ensures var f := Layout(h)[16];
            && (f % 2 == 1 <==> HasFlag(h.flags, FLAG_SERVER_TO_REDIR))
            && (f / 2 % 2 == 1 <==> HasFlag(h.flags, FLAG_ASYNC))
            && (f / 4 % 2 == 1 <==> HasFlag(h.flags, FLAG_RELATED))
            && (f / 8 % 2 == 1 <==> HasFlag(h.flags, FLAG_SIGNED))
  {
    var b := Layout(h);
    assert b[..12] == Front(h) && b[12..32] == Middle(h);
    SliceOfSlice(b, 12, 32, 4, 8);
    assert Middle(h)[4..8] == ToLE(4, h.flags);
    ByteAt(4, h.flags, 0);
    assert b[16] == b[16..20][0] == h.flags % 256;
    LowBit(h.flags, 1, 128);
    LowBit(h.flags, 2, 64);
    LowBit(h.flags, 4, 32);
    LowBit(h.flags, 8, 16);
  }

  /** A bit below 256 = m * 2 * j is a bit of the lowest byte. */
  lemma {:induction false} LowBit(n: nat, m: nat, j: nat)
    requires m > 0 && 256 == m * (2 * j)
    ensures n % 256 / m % 2 == n / m % 2
  {
    var q, r := n / 256, n % 256;
    var a, b := r / m, r % m;
    assert n == 256 * q + r && r == m * a + b;
    assert m * (2 * j) * q == m * (2 * j * q);
    DivModUnique(n, m, 2 * j * q + a, b);
    assert 2 * j * q == 2 * (j * q);
    DivModUnique(2 * (j * q) + a, 2, j * q + a / 2, a % 2);
  }

  /** Decoding an encoded header gives it back, in the sync and in the async form. */
  lemma DecodeLayout(h: Header)
    requires Valid(h)
    ensures Decode(Layout(h)) == h
  {
    var b := Layout(h);
    assert b[..12] == Front(h) && b[12..32] == Middle(h) && b[32..64] == Back(h);
    FrontRead(h, b);
    MiddleRead(h, b);
    BackRead(h, b);
  }

  // ----- in place

  method EncodeFront(a: array<byte>, h: Header)
    requires Valid(h) && a.Length == HEADER_SIZE
    modifies a
    ensures a[..12] == Front(h)
  {
    WriteNext(a, [], 0, h.protocol);
    ghost var p := h.protocol;
    WriteNext(a, p, 4, ToLE(2, h.structSize));
    p := p + ToLE(2, h.structSize);
    WriteNext(a, p, 6, ToLE(2, h.creditCharge));
    p := p + ToLE(2, h.creditCharge);
    WriteNext(a, p, 8, ToLE(4, h.status));
  }

  method EncodeMiddle(a: array<byte>, h: Header, ghost pre: seq<byte>)
    requires Valid(h) && a.Length == HEADER_SIZE && |pre| == 12 && a[..12] == pre
    modifies a
    ensures a[..32] == pre + Middle(h)
  {
    WriteNext(a, pre, 12, ToLE(2, h.command));
    ghost var p := ToLE(2, h.command);
    WriteNext(a, pre + p, 14, ToLE(2, h.credits));
    p := p + ToLE(2, h.credits);
    assert pre + ToLE(2, h.command) + ToLE(2, h.credits) == pre + p;
    WriteNext(a, pre + p, 16, ToLE(4, h.flags));
    assert pre + p + ToLE(4, h.flags) == pre + (p + ToLE(4, h.flags));
    p := p + ToLE(4, h.flags);
    WriteNext(a, pre + p, 20, ToLE(4, h.nextCommand));
    assert pre + p + ToLE(4, h.nextCommand) == pre + (p + ToLE(4, h.nextCommand));
    p := p + ToLE(4, h.nextCommand);
    WriteNext(a, pre + p, 24, ToLE(8, h.messageId));
    assert pre + p + ToLE(8, h.messageId) == pre + (p + ToLE(8, h.messageId));
  }

  method EncodeTarget(a: array<byte>, h: Header, ghost pre: seq<byte>)
    requires Valid(h) && a.Length == HEADER_SIZE && |pre| == 32 && a[..32] == pre
    modifies a
    ensures a[..40] == pre + TargetBytes(h)
  {
    match h.target {
      case Async(id) =>
        WriteNext(a, pre, 32, ToLE(8, id));
      case Sync(pid, tid) =>
        WriteNext(a, pre, 32, ToLE(4, pid));
        WriteNext(a, pre + ToLE(4, pid), 36, ToLE(4, tid));
        assert pre + ToLE(4, pid) + ToLE(4, tid) == pre + TargetBytes(h);
    }
  }

  /** `encodeHeader` fills all 64 bytes with the wire layout. */
  method EncodeHeader(a: array<byte>, h: Header)
    requires Valid(h) && a.Length == HEADER_SIZE
    modifies a
    ensures a[..] == Layout(h)
  {
    EncodeFront(a, h);
    EncodeMiddle(a, h, Front(h));
    ghost var p := Front(h) + Middle(h);
    EncodeTarget(a, h, p);
    p := p + TargetBytes(h);
    WriteNext(a, p, 40, ToLE(8, h.sessionId));
    p := p + ToLE(8, h.sessionId);
    WriteNext(a, p, 48, h.signature);
    assert a[..64] == a[..];
    assert p + h.signature == Front(h) + Middle(h) + Back(h);
  }
}
