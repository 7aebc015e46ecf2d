/**
 * How long a READ or WRITE becomes and what it is charged, section 3.1.5.2 of
 * MS-SMB2 (cpp/samba/client/OpenSmbC/src/Smb2RequestBuilder.cpp, Smb2Read.cpp,
 * Smb2Write.cpp).  All quantities are 32 bits wide unless said otherwise.
 */
module ReadWrite {
  import opened Bytes
  import opened Smb2Header

  const CHUNK := 65536
  const MAX_CREDITS := 1024
  const TOP := (MAX_CREDITS - 16) * CHUNK
  const SIXTY_K := 60 * 1024

  type uint32 = x: int | 0 <= x < U32

  /** What the connection allows: its credits, the server's size limit, the dialect and the large-MTU capability. */
  datatype Limits = Limits(credits: uint32, maxSize: uint32, dialect: nat, multi: bool)

  function Min(a: int, b: int): int { if a < b then a else b }

  /** Chunks of 64 KiB that hold n bytes. */
  function Chunks(n: int): int
    requires n >= 1
  {
    (n + CHUNK - 1) / CHUNK
  }

  /** `(n - 1) / 65536 + 1` in 32 bits. */
  function Needed(n: uint32): (c: uint32)
    ensures n >= 1 ==> c == Chunks(n) && 1 <= c <= CHUNK && (c - 1) * CHUNK < n <= c * CHUNK
    ensures n == 0 ==> c == CHUNK
  {
    ((n - 1) % U32) / CHUNK + 1
  }

  /**
   * The length put into the request.  A count over the 64 MiB ceiling, or zero,
   * discards the server's limit; too few credits take what they pay for.
   */
  function Built(count: uint32, l: Limits): uint32 {
    var limited := Min(count, l.maxSize);
    if l.dialect <= DIALECT_0202 then Min(limited, CHUNK)
    else
      var capped := if 1 <= count <= TOP then limited else TOP;
      if capped == 0 then (if l.credits < CHUNK then l.credits * CHUNK else 0)
      else if Chunks(capped) > l.credits then l.credits * CHUNK
      else capped
  }

  /** The source's branches, each step in 32 bits. */
  method BuildLength(size: uint32, l: Limits) returns (count: uint32)
    ensures count == Built(size, l)
  {
    count := size;
    var needed := Needed(count);
    if count > l.maxSize { count := l.maxSize; }
    if l.dialect > DIALECT_0202 {
      if needed > MAX_CREDITS - 16 { count := ((MAX_CREDITS - 16) * CHUNK) % U32; }
      needed := Needed(count);
      if needed > l.credits { count := (l.credits * CHUNK) % U32; }
    } else {
      if count > CHUNK { count := CHUNK; }
    }
  }

  /** The length on the wire: `encodeRequest` keeps to 60 KiB without multi-credit support. */
  function Length(count: uint32, l: Limits): uint32 {
    if l.multi then Built(count, l) else Min(Built(count, l), SIXTY_K)
  }

  /** The 16-bit charge `createPdu` leaves in the header; `initial` is the constructor's. */
  function Charge(length: uint32, l: Limits): nat {
    if l.multi then Needed(length) % 0x1_0000
    else if l.dialect == DIALECT_0202 then 0 else 1
  }

  class Request {
    var length: uint32
    var creditCharge: nat

    constructor (length: uint32, l: Limits)
      ensures this.length == length && creditCharge == if l.dialect == DIALECT_0202 then 0 else 1
    {
      this.length := length;
      creditCharge := if l.dialect == DIALECT_0202 then 0 else 1;
    }

    /** `encodeRequest` and `createPdu` of `Smb2Read` and `Smb2Write`. */
    method Create(l: Limits)
      requires creditCharge == if l.dialect == DIALECT_0202 then 0 else 1
      modifies this
      ensures length == if l.multi then old(length) else Min(old(length), SIXTY_K)
      ensures creditCharge == Charge(length, l)
    {
      if !l.multi && length > SIXTY_K { length := SIXTY_K; }
      if l.multi { creditCharge := Needed(length) % 0x1_0000; }
    }
  }

  /** `Smb2BuildReadRequest` and `Smb2BuildWriteRequest`. */
  method Build(count: uint32, l: Limits) returns (r: Request)
    ensures fresh(r) && r.length == Length(count, l) && r.creditCharge == Charge(Length(count, l), l)
  {
    var n := BuildLength(count, l);
    r := new Request(n, l);
    r.Create(l);
  }

  /** What a connection past its negotiation offers, with something to ask for. */
  predicate Usable(count: uint32, l: Limits) {
    count >= 1 && l.credits >= 1 && l.maxSize >= 1 && l.dialect > DIALECT_0202
  }

  /** Nothing wraps: the length is the least of the limits, in plain integers. */
  lemma BuiltIsMin(count: uint32, l: Limits)
    requires Usable(count, l)
    ensures Built(count, l) == Min(if count <= 66_060_288 then Min(count, l.maxSize) else 66_060_288, l.credits * 65_536)
  {
  }

  /** Without multi-credit support at most 60 KiB, for one credit. */
  lemma WithoutMultiCredit(count: uint32, l: Limits)
    requires Usable(count, l) && !l.multi
    ensures Length(count, l) == Min(Built(count, l), 61_440) && Charge(Length(count, l), l) == 1
  {
    BuiltIsMin(count, l);
  }

  /** The request asks for something, for no more than the caller, and for no more than its charge and the credits cover. */
  lemma RequestCovered(count: uint32, l: Limits)
    requires Usable(count, l)
    ensures var n := Length(count, l);
            && 1 <= n <= count && n <= TOP
            && n <= Charge(n, l) * CHUNK && (Charge(n, l) - 1) * CHUNK < n
            && 1 <= Charge(n, l) <= l.credits
  {
    BuiltIsMin(count, l);
  }

  /** It stays within the server's limit unless the count is over the ceiling and nothing else holds it down. */
  lemma WithinLimitIff(count: uint32, l: Limits)
    requires Usable(count, l)
    ensures Length(count, l) <= l.maxSize
       <==> count <= TOP || TOP <= l.maxSize || l.credits * CHUNK <= l.maxSize || (!l.multi && SIXTY_K <= l.maxSize)
  {
    BuiltIsMin(count, l);
  }

  /** 1009 chunks from a server that allows one: the request is for 1008. */
  lemma LimitDiscarded()
    ensures var l := Limits(2000, 65_536, 0x0300, true);
            Usable(1009 * 65_536, l) && Length(1009 * 65_536, l) == 1008 * 65_536 > l.maxSize
  {
    BuiltIsMin(1009 * CHUNK, Limits(2000, CHUNK, 0x0300, true));
  }

  /**
   * With multi-credit support, the length is a proper part of the caller's buffer
   * exactly when there is something to ask for and a credit, and the server's
   * limit is not zero (or comes out without effect).
   */
  lemma ProperPartIff(count: uint32, l: Limits)
    requires l.dialect > DIALECT_0202 && l.multi
    ensures 1 <= Length(count, l) <= count
       <==> count >= 1 && l.credits >= 1 && (l.maxSize >= 1 || count > TOP || l.credits * CHUNK <= count)
  {
  }

  /** A count of zero asks for the ceiling, or for all the credits. */
  lemma ZeroCountAsksForAll(l: Limits)
    requires l.dialect > DIALECT_0202 && l.multi
    ensures Length(0, l) == if l.credits < MAX_CREDITS - 16 then l.credits * CHUNK else TOP
  {
  }

  /** Without credits the request asks for nothing and its charge comes out as zero. */
  lemma NoCredits(count: uint32, l: Limits)
    requires l.dialect > DIALECT_0202 && l.multi && l.credits == 0
    ensures Length(count, l) == 0 && Charge(Length(count, l), l) == 0
  {
    assert Needed(0) % 0x1_0000 == 0;
  }

  /** Up to dialect 0x0202 one chunk is the most. */
  lemma OldDialect(count: uint32, l: Limits)
    requires l.dialect <= DIALECT_0202
    ensures Length(count, l) <= count && Length(count, l) <= l.maxSize && Length(count, l) <= CHUNK
    ensures count >= 1 && l.maxSize >= 1 ==> Length(count, l) >= 1
  {
  }
}
