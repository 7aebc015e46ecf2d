/**
 * Compound chains on the wire, section 3.2.4.1.4 of MS-SMB2: padding, the
 * next-command links, the length prefix and the bytes that are sent
 * (cpp/samba/client/OpenSmbC/src/Smb2Pdu.cpp, DataTypes.cpp, Smb2Socket.cpp).
 */
module Smb2Compound {
  import opened Bytes
  import opened Smb2Header
  import opened SocketWrite

  /** `smb2_io_vectors`: a list of buffers with its running size. */
  class IoVectors {
    var iovs: seq<seq<byte>>
    var totalSize: nat

    ghost predicate Valid()
      reads this
    {
      totalSize == |Flat(iovs)|
    }

    constructor ()
      ensures Valid() && iovs == []
    {
      iovs, totalSize := [], 0;
    }

    method Add(v: seq<byte>)
      requires Valid()
      modifies this
      ensures Valid() && iovs == old(iovs) + [v]
    {
      FlatSnoc(iovs, v);
      totalSize := totalSize + |v|;
      iovs := iovs + [v];
    }

    method Append(other: IoVectors)
      requires Valid() && other != this
      modifies this
      ensures Valid() && iovs == old(iovs) + other.iovs
    {
      for i := 0 to |other.iovs|
        invariant Valid() && iovs == old(iovs) + other.iovs[..i]
      {
        Add(other.iovs[i]);
      }
    }

    /** `smb2_pad_to_64bit`: fewer than eight zero bytes, up to the next multiple of eight. */
    method Pad()
      requires Valid()
      modifies this
      ensures Valid() && totalSize == old(totalSize) + PadLength(old(totalSize))
      ensures Flat(iovs) == Flat(old(iovs)) + Zeros(PadLength(old(totalSize)))
      ensures old(totalSize) % 8 == 0 ==> iovs == old(iovs)
    {
      var len := SumLengths(iovs);
      if len % 8 == 0 { return; }
      FlatSnoc(iovs, Zeros(8 - len % 8));
      Add(Zeros(8 - len % 8));
    }
  }

  method SumLengths(vs: seq<seq<byte>>) returns (len: nat)
    ensures len == |Flat(vs)|
  {
    len := 0;
    for i := 0 to |vs|
      invariant len == |Flat(vs[..i])|
    {
      assert vs[..i + 1] == vs[..i] + [vs[i]];
      FlatSnoc(vs[..i], vs[i]);
      len := len + |vs[i]|;
    }
    assert vs[..|vs|] == vs;
  }

  function PadLength(n: nat): (k: nat)
    ensures k < 8 && (n + k) % 8 == 0
  {
    if n % 8 == 0 then 0 else 8 - n % 8
  }

  /** A request PDU: its header and the buffers behind the header vector. */
  datatype Request = Request(hdr: Header, body: seq<seq<byte>>)

  type Chain = seq<Request>

  function Wire(r: Request): seq<byte>
    requires |r.hdr.protocol| == 4 && |r.hdr.signature| == 16
  {
    Layout(r.hdr) + Flat(r.body)
  }

  /** `out.total_size`, the header vector included. */
  function Size(r: Request): nat {
    HEADER_SIZE + |Flat(r.body)|
  }

  ghost predicate ChainValid(c: Chain) {
    forall i :: 0 <= i < |c| ==> Valid(c[i].hdr)
  }

  function WireAll(c: Chain): seq<byte>
    requires ChainValid(c)
  {
    if c == [] then [] else Wire(c[0]) + WireAll(c[1..])
  }

  /** What `createPdu` leaves: padded, unlinked, of a size the header field can hold. */
  ghost predicate Created(r: Request) {
    Valid(r.hdr) && Size(r) % 8 == 0 && Size(r) < U32 && r.hdr.nextCommand == 0
  }

  /** `smb2AddCompoundPdu`. */
  function AddCompound(c: Chain, r: Request): Chain
    requires c != []
  {
    var last := c[|c| - 1];
    c[..|c| - 1]
    + [last.(hdr := last.hdr.(nextCommand := Size(last) % U32))]
    + [r.(hdr := r.hdr.(flags := SetFlag(r.hdr.flags, FLAG_RELATED)))]
  }

  /** A chain built by adding the requests in order. */
  function Build(rs: seq<Request>): Chain
    requires rs != []
  {
    if |rs| == 1 then rs else AddCompound(Build(rs[..|rs| - 1]), rs[|rs| - 1])
  }

  /** Every link points exactly at the next header, the last one nowhere. */
  ghost predicate Linked(c: Chain) {
    && ChainValid(c)
    && (forall i :: 0 <= i < |c| - 1 ==> c[i].hdr.nextCommand == Size(c[i]) && Size(c[i]) % 8 == 0)
    && (c != [] ==> c[|c| - 1].hdr.nextCommand == 0)
  }

  ghost predicate Related(c: Chain) {
    forall i :: 1 <= i < |c| ==> HasFlag(c[i].hdr.flags, FLAG_RELATED)
  }

  lemma {:induction false} SetRelated(flags: nat)
    requires Fits(4, flags)
    ensures var f := SetFlag(flags, FLAG_RELATED);
            Fits(4, f) && HasFlag(f, FLAG_RELATED) && (HasFlag(f, FLAG_ASYNC) <==> HasFlag(flags, FLAG_ASYNC))
  {
    FieldFits();
    if !HasFlag(flags, FLAG_RELATED) {
      assert (flags + 4) / 4 == flags / 4 + 1;
      assert (flags + 4) / 2 == flags / 2 + 2;
    }
  }

  lemma ValidEdited(h: Header, next: nat)
    requires Valid(h) && next < U32
    ensures Valid(h.(nextCommand := next))
    ensures Valid(h.(flags := SetFlag(h.flags, FLAG_RELATED)))
  {
    FieldFits();
    SetRelated(h.flags);
  }

  lemma {:induction false} AddLinks(c: Chain, r: Request)
    requires c != [] && Linked(c) && Related(c) && Created(r)
    requires Size(c[|c| - 1]) % 8 == 0 && Size(c[|c| - 1]) < U32
    ensures Linked(AddCompound(c, r)) && Related(AddCompound(c, r))
  {
    var last := c[|c| - 1];
    ValidEdited(last.hdr, Size(last));
    ValidEdited(r.hdr, 0);
    SetRelated(r.hdr.flags);
    var c' := AddCompound(c, r);
    assert forall i :: 0 <= i < |c| - 1 ==> c'[i] == c[i];
  }

  /** Building links every member to the next one and marks all but the first as related. */
  lemma {:induction false} BuildLinks(rs: seq<Request>)
    requires rs != [] && forall i :: 0 <= i < |rs| ==> Created(rs[i])
    ensures var c := Build(rs);
            && |c| == |rs| && Linked(c) && Related(c)
            && (forall i :: 0 <= i < |rs| ==> c[i].body == rs[i].body)
    decreases |rs|
  {
    if |rs| > 1 {
      var n := |rs| - 1;
      BuildLinks(rs[..n]);
      var c := Build(rs[..n]);
      assert c[n - 1].body == rs[n - 1].body && Created(rs[n - 1]);
      AddLinks(c, rs[n]);
      assert Build(rs) == AddCompound(c, rs[n]);
    }
  }

  /** Reading the wire: decode a header, follow its link. */
  function Walk(b: seq<byte>): seq<Header> {
    if |b| < HEADER_SIZE then []
    else
      var h := Decode(b[..HEADER_SIZE]);
      if h.nextCommand == 0 || h.nextCommand > |b| then [h] else [h] + Walk(b[h.nextCommand..])
  }

  function Headers(c: Chain): seq<Header> {
    seq(|c|, i requires 0 <= i < |c| => c[i].hdr)
  }

  lemma {:induction false} WireSplit(c: Chain)
    requires c != [] && Linked(c)
    ensures WireAll(c) == Wire(c[0]) + WireAll(c[1..]) && |Wire(c[0])| == Size(c[0])
    ensures WireAll(c)[..HEADER_SIZE] == Layout(c[0].hdr)
    ensures WireAll(c)[Size(c[0])..] == WireAll(c[1..])
    ensures |c| > 1 ==> Linked(c[1..])
  {
  }

  /** Walking the sent bytes gives back exactly the headers of the chain, in order. */
  lemma {:induction false} WalkGivesHeaders(c: Chain)
    requires c != [] && Linked(c)
    ensures Walk(WireAll(c)) == Headers(c)
    decreases |c|
  {
    if |c| == 1 {
      WalkLast(c);
    } else {
      WalkLink(c);
      WalkGivesHeaders(c[1..]);
    }
    HeadersCons(c);
  }

  lemma HeadersCons(c: Chain)
    requires c != []
    ensures Headers(c) == [c[0].hdr] + Headers(c[1..])
  {
  }

  lemma {:induction false} WalkLast(c: Chain)
    requires |c| == 1 && Linked(c)
    ensures Walk(WireAll(c)) == [c[0].hdr]
  {
    WireSplit(c);
    WalkStep(WireAll(c), c[0].hdr);
  }

  lemma {:induction false} WalkLink(c: Chain)
    requires |c| > 1 && Linked(c)
    ensures Linked(c[1..]) && Walk(WireAll(c)) == [c[0].hdr] + Walk(WireAll(c[1..]))
  {
    WireSplit(c);
    WalkStep(WireAll(c), c[0].hdr);
    assert c[0].hdr.nextCommand == Size(c[0]);
  }

  lemma WalkStep(b: seq<byte>, h: Header)
    requires Valid(h) && |b| >= HEADER_SIZE && b[..HEADER_SIZE] == Layout(h)
    ensures Walk(b) == if h.nextCommand == 0 || h.nextCommand > |b| then [h] else [h] + Walk(b[h.nextCommand..])
  {
    DecodeLayout(h);
  }

  /** The header of member `i` stands at the sum of the links before it. */
  function OffsetOf(c: Chain, i: nat): nat
    requires i <= |c|
  {
    if i == 0 then 0 else Size(c[0]) + OffsetOf(c[1..], i - 1)
  }

  lemma {:induction false} OffsetsAligned(c: Chain, i: nat)
    requires i < |c| && forall j :: 0 <= j < |c| - 1 ==> Size(c[j]) % 8 == 0
    ensures OffsetOf(c, i) % 8 == 0
    decreases |c|
  {
    if i > 0 {
      var rest := c[1..];
      forall j | 0 <= j < |rest| - 1 ensures Size(rest[j]) % 8 == 0 { assert rest[j] == c[j + 1]; }
      OffsetsAligned(rest, i - 1);
      EightMore(Size(c[0]), OffsetOf(rest, i - 1));
    }
  }

  lemma EightMore(x: nat, y: nat)
    requires x % 8 == 0 && y % 8 == 0
    ensures (x + y) % 8 == 0
  {
  }

  /** The links add up to where each member really starts. */
  lemma {:induction false} MemberStandsAtOffset(c: Chain, i: nat)
    requires ChainValid(c) && i <= |c|
    ensures OffsetOf(c, i) <= |WireAll(c)| && WireAll(c)[OffsetOf(c, i)..] == WireAll(c[i..])
    decreases |c|
  {
    if i == 0 {
      assert c[0..] == c;
    } else {
      var x, y, k := Wire(c[0]), WireAll(c[1..]), OffsetOf(c[1..], i - 1);
      MemberStandsAtOffset(c[1..], i - 1);
      assert c[1..][i - 1..] == c[i..];
      assert (x + y)[|x| + k..] == y[k..];
    }
  }

  /**
   * The chain as a server reads it: at the place of each member stands a header
   * whose link leads to the next one, the last one's nowhere, and behind the first
   * member the bit says that they are related.
   */
  lemma {:induction false} LinkBytes(c: Chain, i: nat)
    requires Linked(c) && Related(c) && i < |c|
    ensures OffsetOf(c, i) + HEADER_SIZE <= |WireAll(c)|
    ensures var b := WireAll(c)[OffsetOf(c, i)..OffsetOf(c, i) + HEADER_SIZE];
            && b[0..4] == c[i].hdr.protocol
            && FromLE(b[20..24]) == (if i + 1 < |c| then OffsetOf(c, i + 1) - OffsetOf(c, i) else 0)
            && (i > 0 ==> b[16] / 4 % 2 == 1)
  {
    HeaderStands(c, i);
    FieldsStand(c[i].hdr);
    FlagBits(c[i].hdr);
    if i + 1 < |c| { OffsetNext(c, i); }
  }

  lemma {:induction false} HeaderStands(c: Chain, i: nat)
    requires Linked(c) && i < |c|
    ensures OffsetOf(c, i) + HEADER_SIZE <= |WireAll(c)|
    ensures WireAll(c)[OffsetOf(c, i)..OffsetOf(c, i) + HEADER_SIZE] == Layout(c[i].hdr)
  {
    MemberStandsAtOffset(c, i);
    LinkedFrom(c, i);
    WireSplit(c[i..]);
    FirstOf(WireAll(c), OffsetOf(c, i), HEADER_SIZE);
  }

  lemma FirstOf(b: seq<byte>, at: nat, n: nat)
    requires at + n <= |b|
    ensures b[at..at + n] == b[at..][..n]
  {
  }

  lemma {:induction false} OffsetNext(c: Chain, i: nat)
    requires i < |c|
    ensures OffsetOf(c, i + 1) == OffsetOf(c, i) + Size(c[i])
  {
    if i > 0 { OffsetNext(c[1..], i - 1); }
  }

  lemma LinkedFrom(c: Chain, i: nat)
    requires Linked(c) && i < |c|
    ensures Linked(c[i..])
  {
    forall j | 0 <= j < |c[i..]| ensures Valid(c[i..][j].hdr) { assert c[i..][j] == c[i + j]; }
    forall j | 0 <= j < |c[i..]| - 1 ensures c[i..][j].hdr.nextCommand == Size(c[i..][j]) && Size(c[i..][j]) % 8 == 0 {
      assert c[i..][j] == c[i + j];
    }
  }

  // ----- sending

  function TotalSize(c: Chain): nat {
    if c == [] then 0 else Size(c[0]) + TotalSize(c[1..])
  }

  lemma {:induction false} WireLength(c: Chain)
    requires ChainValid(c)
    ensures |WireAll(c)| == TotalSize(c)
  {
    if c != [] { WireLength(c[1..]); }
  }

  /** `getReqNBLength`. */
  method NetbiosLength(c: Chain) returns (len: nat)
    ensures len == TotalSize(c) % U32
  {
    len := 0;
    for i := 0 to |c|
      invariant len == TotalSize(c[..i]) % U32
    {
      TotalSnoc(c, i);
      WrapSum(TotalSize(c[..i]), Size(c[i]));
      len := (len + Size(c[i])) % U32;
    }
    assert c[..|c|] == c;
  }

  lemma {:induction false} TotalSnoc(c: Chain, i: nat)
    requires i < |c|
    ensures TotalSize(c[..i + 1]) == TotalSize(c[..i]) + Size(c[i])
  {
    if i == 0 {
      assert c[..1] == [c[0]];
    } else {
      assert c[..i + 1][1..] == c[1..][..i] && c[..i][1..] == c[1..][..i - 1];
      TotalSnoc(c[1..], i - 1);
    }
  }

  function Vectors(r: Request): seq<seq<byte>>
    requires Valid(r.hdr)
  {
    [Layout(r.hdr)] + r.body
  }

  /** `getAllComOutVecs`. */
  function AllVectors(c: Chain): seq<seq<byte>>
    requires ChainValid(c)
  {
    if c == [] then [] else Vectors(c[0]) + AllVectors(c[1..])
  }

  lemma {:induction false} VectorsAreWire(c: Chain)
    requires ChainValid(c)
    ensures Flat(AllVectors(c)) == WireAll(c)
  {
    if c != [] {
      FlatConcat(Vectors(c[0]), AllVectors(c[1..]));
      assert Vectors(c[0])[1..] == c[0].body;
      VectorsAreWire(c[1..]);
    }
  }

  lemma VectorsLength(c: Chain)
    requires ChainValid(c)
    ensures |Flat(AllVectors(c))| == TotalSize(c)
  {
    VectorsAreWire(c);
    WireLength(c);
  }

  /** Big-endian length prefix, section 2.1 of MS-SMB2. */
  function Prefix(n: nat): (s: seq<byte>)
    ensures |s| == 4
  {
    [(n / 0x100_0000) % 256, (n / 0x1_0000) % 256, (n / 0x100) % 256, n % 256]
  }

  /** Most significant byte first. */
  lemma {:induction false} PrefixValue(n: nat)
    requires n < U32
    ensures var s := Prefix(n);
            s[0] as int * 0x100_0000 + s[1] as int * 0x1_0000 + s[2] as int * 0x100 + s[3] as int == n && BigEndian(s) == n
  {
    var a, b, c := n / 256, n / 256 / 256, n / 256 / 256 / 256;
    DivTwice(n, 256);
    DivTwice(n, 0x1_0000);
    DivTwice(a, 256);
    assert n / 0x1_0000 == b && n / 0x100_0000 == c;
    assert n == 256 * a + n % 256 && a == 256 * b + a % 256 && b == 256 * c + b % 256;
    assert c < 256;
  }

  /** What `sendPdu` returns and has sent; `Unfinished` when it asks for more results of `writev`. */
  datatype Send = Unfinished(sent: seq<byte>) | Finished(rc: int, sent: seq<byte>)

  /**
   * The length prefix, the vectors, and the comparison of the totals.  Errors are
   * tested for on an unsigned number, so none is noticed; a count of zero returns
   * success at once.
   */
  function SendFrame(c: Chain, calls: seq<Call>): Send
    requires ChainValid(c)
  {
    var nb := TotalSize(c) % U32;
    match Push(Prefix(nb), 0, calls)
    case Waiting(s) => Unfinished(s)
    case Returned(s, rc, rest) =>
      match Before(s, PushAll(AllVectors(c), AddInt(0, rc), rest))
      case Stuck(t) => Unfinished(t)
      case Early(t) => Finished(0, t)
      case Through(t, total) => Finished(if total != (4 + nb) % U32 then -1 else 0, t)
  }

  method SendPdu(c: Chain, calls: seq<Call>) returns (r: Send)
    requires ChainValid(c)
    ensures r == SendFrame(c, calls)
  {
    var nb := NetbiosLength(c);
    var w := WriteIovec(Prefix(nb), calls);
    match w {
      case Waiting(s) => return Unfinished(s);
      case Returned(s, rc, rest) =>
        var p := WriteVectors(AllVectors(c), AddInt(0, rc), rest);
        match p {
          case Stuck(t) => return Unfinished(s + t);
          case Early(t) => return Finished(0, s + t);
          case Through(t, total) => return Finished(if total != (4 + nb) % U32 then -1 else 0, s + t);
        }
    }
  }

  function Frame(c: Chain): seq<byte>
    requires ChainValid(c)
  {
    Prefix(TotalSize(c) % U32) + WireAll(c)
  }

  /** The first four bytes of a frame, read most significant first, are the number of bytes behind them. */
  lemma FrameCountsItself(c: Chain)
    requires ChainValid(c) && TotalSize(c) < U32
    ensures var f := Frame(c);
            |f| >= 4 && BigEndian(f[..4]) == |f| - 4
  {
    PrefixValue(TotalSize(c));
    WireLength(c);
    assert Frame(c)[..4] == Prefix(TotalSize(c));
  }

  // What the sending of the prefix leaves for the vectors.

  function AfterPrefix(c: Chain, calls: seq<Call>): Write
    requires ChainValid(c)
  {
    Push(Prefix(TotalSize(c) % U32), 0, calls)
  }

  /** The vectors behind it; meant where it returned. */
  function Body(c: Chain, calls: seq<Call>): Pushed
    requires ChainValid(c) && AfterPrefix(c, calls).Returned?
  {
    var w := AfterPrefix(c, calls);
    PushAll(AllVectors(c), AddInt(0, w.rc), w.rest)
  }

  /** By how much the counts fall short of the frame. */
  function Shortfall(c: Chain, calls: seq<Call>): int
    requires ChainValid(c) && AfterPrefix(c, calls).Returned?
  {
    4 - AfterPrefix(c, calls).rc + Missing(AllVectors(c), AfterPrefix(c, calls).rest)
  }

  lemma {:induction false} PrefixGives(c: Chain, calls: seq<Call>)
    requires ChainValid(c)
    ensures var w := AfterPrefix(c, calls);
            && (w.Waiting? ==> SendFrame(c, calls).Unfinished?)
            && (w.Returned? ==> (w.sent == Prefix(TotalSize(c) % U32) && w.rc == 4) || (|w.sent| < 4 && w.rc == -1))
            && (w.Returned? && Failed !in calls ==> w.sent == Prefix(TotalSize(c) % U32) && w.rc == 4 && Failed !in w.rest)
  {
    PushGives(Prefix(TotalSize(c) % U32), 0, calls);
  }

  /** It says success exactly when a count was zero, or the counts fall short by the multiples of 2^32 that the length prefix loses. */
  lemma {:induction false} SendSucceedsIff(c: Chain, calls: seq<Call>)
    requires ChainValid(c) && SendFrame(c, calls).Finished?
    ensures AfterPrefix(c, calls).Returned? && !Body(c, calls).Stuck?
    ensures SendFrame(c, calls).rc == 0 <==>
              Body(c, calls).Early? || (Shortfall(c, calls) - U32 * ((4 + TotalSize(c)) / U32)) % U64 == 0
  {
    PrefixGives(c, calls);
    if Body(c, calls).Through? {
      TotalIs(c, calls);
      WrapSum(TotalSize(c), 4);
      Agree(4 + TotalSize(c), Shortfall(c, calls));
    }
  }

  lemma {:induction false} TotalIs(c: Chain, calls: seq<Call>)
    requires ChainValid(c) && AfterPrefix(c, calls).Returned? && Body(c, calls).Through?
    ensures Body(c, calls).total == (4 + TotalSize(c) - Shortfall(c, calls)) % U64
  {
    var w, vs := AfterPrefix(c, calls), AllVectors(c);
    TotalFallsShort(vs, AddInt(0, w.rc), w.rest);
    VectorsLength(c);
    WrapInt(w.rc, |Flat(vs)| - Missing(vs, w.rest));
  }

  /** Totals that fall short, against a length that has lost its multiples of 2^32. */
  lemma {:induction false} Agree(n: nat, short: int)
    ensures (n - short) % U64 == n % U32 <==> (short - U32 * (n / U32)) % U64 == 0
  {
    var d := short - U32 * (n / U32);
    assert n - short == n % U32 - d;
    var q := d / U64;
    assert d == U64 * q + d % U64;
    if d % U64 == 0 { DivModUnique(n % U32 - d, U64, -q, n % U32); }
    else if d % U64 <= n % U32 { DivModUnique(n % U32 - d, U64, -q, n % U32 - d % U64); }
    else { DivModUnique(n % U32 - d, U64, -q - 1, n % U32 - d % U64 + U64); }
  }

  /** Without an error, how the bytes are taken makes no difference: the frame goes out up to the first vector that stops the loop. */
  lemma {:induction false} NoErrorSends(c: Chain, calls: seq<Call>)
    requires ChainValid(c) && Failed !in calls && SendFrame(c, calls).Finished?
    ensures SendFrame(c, calls).sent == Prefix(TotalSize(c) % U32) + Flat(UpToStop(AllVectors(c)))
    ensures SendFrame(c, calls).rc == 0 <==>
              AnyStops(AllVectors(c)) || (Rounded(AllVectors(c)) - (4 + TotalSize(c)) / U32) % U32 == 0
  {
    PrefixGives(c, calls);
    SendSucceedsIff(c, calls);
    var w, vs := AfterPrefix(c, calls), AllVectors(c);
    NoError(vs, AddInt(0, w.rc), w.rest);
    if Body(c, calls).Through? { Multiple(Rounded(vs) - (4 + TotalSize(c)) / U32); }
  }

  lemma {:induction false} Multiple(k: int)
    ensures (U32 * k) % U64 == 0 <==> k % U32 == 0
  {
    var q, r := k / U32, k % U32;
    assert k == U32 * q + r;
    DivModUnique(U32 * k, U64, q, U32 * r);
  }

  /** Then it goes out whole exactly when no bytes stand behind such a vector. */
  lemma {:induction false} SentWholeIff(c: Chain, calls: seq<Call>)
    requires ChainValid(c) && Failed !in calls && SendFrame(c, calls).Finished?
    ensures SendFrame(c, calls).sent == Frame(c) <==>
            (forall i, j :: 0 <= i < j < |AllVectors(c)| && Stops(AllVectors(c)[i]) ==> AllVectors(c)[j] == [])
  {
    NoErrorSends(c, calls);
    VectorsAreWire(c);
    UpToStopWhole(AllVectors(c));
    SamePrefix(Prefix(TotalSize(c) % U32), Flat(UpToStop(AllVectors(c))), WireAll(c));
  }

  lemma SamePrefix(p: seq<byte>, x: seq<byte>, y: seq<byte>)
    ensures p + x == p + y <==> x == y
  {
    assert (p + x)[|p|..] == x && (p + y)[|p|..] == y;
  }

  lemma {:induction false} UpToStopWhole(vs: seq<seq<byte>>)
    ensures Flat(UpToStop(vs)) == Flat(vs) <==> (forall i, j :: 0 <= i < j < |vs| && Stops(vs[i]) ==> vs[j] == [])
  {
    if vs != [] {
      var rest := vs[1..];
      UpToStopFlat(vs);
      assert Flat(vs) == vs[0] + Flat(rest);
      if Stops(vs[0]) {
        EmptyFlat(rest);
        SamePrefix(vs[0], [], Flat(rest));
        assert forall j :: 1 <= j < |vs| ==> vs[j] == rest[j - 1];
      } else {
        UpToStopWhole(rest);
        SamePrefix(vs[0], Flat(UpToStop(rest)), Flat(rest));
        TailCondition(vs);
      }
    }
  }

  lemma TailCondition(vs: seq<seq<byte>>)
    requires vs != [] && !Stops(vs[0])
    ensures (forall i, j :: 0 <= i < j < |vs[1..]| && Stops(vs[1..][i]) ==> vs[1..][j] == []) <==>
            (forall i, j :: 0 <= i < j < |vs| && Stops(vs[i]) ==> vs[j] == [])
  {
    var rest := vs[1..];
    assert forall i :: 0 <= i < |rest| ==> rest[i] == vs[i + 1];
    if forall i, j :: 0 <= i < j < |rest| && Stops(rest[i]) ==> rest[j] == [] {
      forall i, j | 0 <= i < j < |vs| && Stops(vs[i]) ensures vs[j] == [] {
        assert Stops(rest[i - 1]) && rest[j - 1] == vs[j];
      }
    }
  }

  lemma {:induction false} EmptyFlat(vs: seq<seq<byte>>)
    ensures Flat(vs) == [] <==> forall j :: 0 <= j < |vs| ==> vs[j] == []
  {
    if vs != [] {
      EmptyFlat(vs[1..]);
      assert forall j :: 0 <= j < |vs[1..]| ==> vs[1..][j] == vs[j + 1];
      assert forall j :: 1 <= j < |vs| ==> vs[j] == vs[1..][j - 1];
    }
  }

  /**
   * Whatever `writev` does: with vectors shorter than 2^31 and a frame shorter than
   * 2^32 success means exactly that the whole frame was sent, or that a vector is empty.
   */
  lemma {:induction false} SuccessMeansSentIff(c: Chain, calls: seq<Call>)
    requires ChainValid(c) && SendFrame(c, calls).Finished? && AllShort(AllVectors(c)) && 4 + TotalSize(c) < U32
    ensures SendFrame(c, calls).rc == 0 <==> [] in AllVectors(c) || SendFrame(c, calls).sent == Frame(c)
  {
    PrefixGives(c, calls);
    SendSucceedsIff(c, calls);
    OnlyEmptyStops(AllVectors(c), AddInt(0, AfterPrefix(c, calls).rc), AfterPrefix(c, calls).rest);
    if Body(c, calls).Through? {
      WholeIff(c, calls);
      NoneLost(4 + TotalSize(c), Shortfall(c, calls));
    }
  }

  lemma NoneLost(n: nat, short: nat)
    requires n < U32 && short < U64
    ensures (short - U32 * (n / U32)) % U64 == 0 <==> short == 0
  {
  }

  lemma {:induction false} WholeIff(c: Chain, calls: seq<Call>)
    requires ChainValid(c) && AfterPrefix(c, calls).Returned? && Body(c, calls).Through? && AllShort(AllVectors(c)) && 4 + TotalSize(c) < U32
    ensures SendFrame(c, calls).Finished?
    ensures 0 <= Shortfall(c, calls) < U64 && (Shortfall(c, calls) == 0 <==> SendFrame(c, calls).sent == Frame(c))
  {
    var w, vs := AfterPrefix(c, calls), AllVectors(c);
    var p, head := Body(c, calls), Prefix(TotalSize(c) % U32);
    PrefixGives(c, calls);
    MissingIff(vs, AddInt(0, w.rc), w.rest);
    VectorsAreWire(c);
    VectorsLength(c);
    InTwoParts(w.sent, p.sent, head, WireAll(c));
  }

  /** A part that is not whole is missing. */
  lemma InTwoParts(x: seq<byte>, y: seq<byte>, head: seq<byte>, tail: seq<byte>)
    requires |y| <= |tail| && (x == head || |x| < |head|)
    ensures x + y == head + tail <==> x == head && y == tail
  {
    if x == head { SamePrefix(head, y, tail); } else { assert |x + y| < |head + tail|; }
  }

  /** A non-empty vector behind an empty one is never sent, and success is reported, whatever `writev` does. */
  lemma {:induction false} LostBehindEmpty(c: Chain, i: nat, j: nat, calls: seq<Call>)
    requires ChainValid(c) && i < j < |AllVectors(c)| && AllVectors(c)[i] == [] && AllVectors(c)[j] != []
    requires SendFrame(c, calls).Finished?
    ensures SendFrame(c, calls).rc == 0 && |SendFrame(c, calls).sent| < |Frame(c)|
  {
    PrefixGives(c, calls);
    var w, vs := AfterPrefix(c, calls), AllVectors(c);
    SentBound(vs, AddInt(0, w.rc), w.rest, i);
    VectorsAreWire(c);
    MoreBehind(vs, i, j);
  }

  lemma {:induction false} MoreBehind(vs: seq<seq<byte>>, i: nat, j: nat)
    requires i < j < |vs| && vs[j] != []
    ensures |Flat(vs[..i])| < |Flat(vs)|
  {
    assert vs == vs[..i] + vs[i..];
    FlatConcat(vs[..i], vs[i..]);
    EmptyFlat(vs[i..]);
    assert vs[i..][j - i] == vs[j];
  }

  /** Every call fails, not a byte goes out, and an empty vector makes it a success. */
  lemma {:induction false} NothingSentSucceeds(c: Chain, calls: seq<Call>)
    requires ChainValid(c) && [] in AllVectors(c)
    requires |calls| > |AllVectors(c)| && forall i :: 0 <= i < |calls| ==> calls[i] == Failed
    ensures SendFrame(c, calls) == Finished(0, [])
  {
    AllFail(AllVectors(c), AddInt(0, -1), calls[1..]);
  }

  /** A vector of 2^31 bytes: the whole frame goes out, and failure is reported. */
  lemma {:induction false} BigVectorFails(h: Header, calls: seq<Call>)
    requires Valid(h) && h.nextCommand == 0 && Failed !in calls
    ensures var c := [Request(h, [Zeros(0x8000_0000)])];
            && Created(c[0]) && ChainValid(c)
            && (SendFrame(c, calls).Finished? ==> SendFrame(c, calls) == Finished(-1, Frame(c)))
  {
    var r := Request(h, [Zeros(0x8000_0000)]);
    var c := [r];
    assert r.body == [] + [Zeros(0x8000_0000)];
    FlatSnoc([], Zeros(0x8000_0000));
    assert Size(r) == 0x8000_0040 && c == [r] + [];
    VectorsOf(r, []);
    assert AllVectors(c) == [Layout(h), Zeros(0x8000_0000)];
    if SendFrame(c, calls).Finished? {
      NoErrorSends(c, calls);
      SentWholeIff(c, calls);
      RoundedTwo(Layout(h), Zeros(0x8000_0000));
      assert TotalSize(c) == Size(r) + TotalSize([]);
    }
  }

  lemma RoundedTwo(x: seq<byte>, y: seq<byte>)
    ensures Rounded([x, y]) == (|x| + 0x8000_0000) / U32 + (|y| + 0x8000_0000) / U32
  {
    assert [x, y][1..] == [y] && [y][1..] == [];
    assert Rounded([y]) == (|y| + 0x8000_0000) / U32 + Rounded([]);
  }

  /**
   * CREATE, SET_INFO of an empty security descriptor and CLOSE, as the client
   * builds them: the CLOSE is not sent, and success is reported.
   */
  lemma {:induction false} EmptyVectorCutsFrame(h1: Header, h2: Header, h3: Header, name: seq<byte>, calls: seq<Call>)
    requires Valid(h1) && Valid(h2) && Valid(h3) && h1.nextCommand == h2.nextCommand == h3.nextCommand == 0 && |name| == 8
    ensures var rs := [Request(h1, [Zeros(56), name]), Request(h2, [Zeros(32), []]), Request(h3, [Zeros(24)])];
            && (forall i :: 0 <= i < 3 ==> Created(rs[i]))
            && var c := Build(rs);
               ChainValid(c) && (SendFrame(c, calls).Finished? ==> SendFrame(c, calls).rc == 0 && |SendFrame(c, calls).sent| < |Frame(c)|)
  {
    var rs := [Request(h1, [Zeros(56), name]), Request(h2, [Zeros(32), []]), Request(h3, [Zeros(24)])];
    Flats(Zeros(56), name);
    Flats(Zeros(32), []);
    FlatSnoc([], Zeros(24));
    assert [] + [Zeros(24)] == [Zeros(24)];
    BuildLinks(rs);
    var c := Build(rs);
    assert c == [c[0]] + ([c[1]] + ([c[2]] + []));
    VectorsOf(c[0], [c[1]] + ([c[2]] + []));
    VectorsOf(c[1], [c[2]] + []);
    VectorsOf(c[2], []);
    var vs := AllVectors(c);
    assert vs == Vectors(c[0]) + (Vectors(c[1]) + (Vectors(c[2]) + []));
    assert vs[5] == [] && vs[7] == Zeros(24);
    if SendFrame(c, calls).Finished? { LostBehindEmpty(c, 5, 7, calls); }
  }

  lemma Flats(x: seq<byte>, y: seq<byte>)
    ensures Flat([x, y]) == x + y
  {
    FlatSnoc([x], y);
    FlatSnoc([], x);
    assert [] + [x] == [x] && [x] + [y] == [x, y];
  }

  lemma VectorsOf(r: Request, rest: Chain)
    requires ChainValid([r] + rest)
    ensures Valid(r.hdr) && ChainValid(rest) && AllVectors([r] + rest) == Vectors(r) + AllVectors(rest)
  {
    assert ([r] + rest)[0] == r && ([r] + rest)[1..] == rest;
    forall i | 0 <= i < |rest| ensures Valid(rest[i].hdr) { assert ([r] + rest)[i + 1] == rest[i]; }
  }
}
