/**
 * Receiving one compound reply: the SPL, HEADER, FIXED, VARIABLE, PAD machine of
 * `receivePdus` (cpp/samba/client/OpenSmbC/src/Smb2Socket.cpp) over a byte stream.
 */
module Smb2Receive {
  import opened Options
  import opened Bytes
  import opened Smb2Header
  import opened Smb2Compound

  type Req = nat

  /** What the reply classes contribute: sizes of the fixed and variable parts, and whether they parse. */
  datatype Codec = Codec(
    fixedSize: (Req, Header) -> int32,
    variableSize: (Req, Header, seq<byte>) -> int32,
    variableOk: (Req, Header, seq<byte>, seq<byte>) -> bool)

  /** A reply handed to its request, with the buffers saved in `in`. */
  datatype Delivery = Delivery(req: Req, hdr: Header, bufs: seq<seq<byte>>, last: bool)

  /** States behind the header; SPL and HEADER are reached only at the ends of the loop. */
  datatype RecvState = Fixed | Variable | Pad | Done

  const NO_HEADER := Header([], 0, 0, 0, 0, 0, 0, 0, 0, Sync(0, 0), 0, [])

  // ----- reference: how a frame splits into replies

  function NextOf(c: seq<byte>): nat
    requires |c| >= HEADER_SIZE
  {
    Get(c[..HEADER_SIZE], 20, 4)
  }

  predicate IsPending(c: seq<byte>)
    requires |c| >= HEADER_SIZE
  {
    Get(c[..HEADER_SIZE], 8, 4) == STATUS_PENDING
  }

  /** A reply that another one follows: its link is its own length. */
  predicate Inner(c: seq<byte>) {
    |c| >= HEADER_SIZE && !IsPending(c) && NextOf(c) == |c|
  }

  /** A reply that takes the rest of the frame. */
  predicate Final(c: seq<byte>) {
    |c| >= HEADER_SIZE && (IsPending(c) || NextOf(c) == 0)
  }

  function Cut(frame: seq<byte>): Option<seq<seq<byte>>>
    decreases |frame|
  {
    if |frame| < HEADER_SIZE then None
    else if Final(frame) then Some([frame])
    else if NextOf(frame) < HEADER_SIZE || NextOf(frame) > |frame| then None
    else match Cut(frame[NextOf(frame)..])
      case None => None
      case Some(cs) => Some([frame[..NextOf(frame)]] + cs)
  }

  ghost predicate AllInner(cs: seq<seq<byte>>) {
    forall i {:trigger InnerAt(cs, i)} :: InnerAt(cs, i)
  }

  predicate InnerAt(cs: seq<seq<byte>>, i: int) {
    0 <= i < |cs| ==> Inner(cs[i])
  }

  lemma {:induction false} CutStep(c: seq<byte>, tail: seq<byte>)
    requires Inner(c) && Cut(tail).Some?
    ensures Cut(c + tail) == Some([c] + Cut(tail).value)
  {
    var f := c + tail;
    assert f[..HEADER_SIZE] == c[..HEADER_SIZE];
    assert f[..|c|] == c && f[|c|..] == tail;
  }

  /** Replies linked one to the next, the last taking the rest, are the only way to cut their frame. */
  lemma {:induction false} CutIsUnique(cs: seq<seq<byte>>, last: seq<byte>)
    requires AllInner(cs) && Final(last)
    ensures Cut(Flat(cs) + last) == Some(cs + [last])
    decreases |cs|
  {
    if cs == [] {
      assert Flat(cs) + last == last;
      assert cs + [last] == [last];
    } else {
      var c, rest := cs[0], cs[1..];
      assert InnerAt(cs, 0);
      forall i ensures InnerAt(rest, i) { assert InnerAt(cs, i + 1); }
      CutIsUnique(rest, last);
      CutStep(c, Flat(rest) + last);
      assert c + (Flat(rest) + last) == Flat(cs) + last;
      assert [c] + (rest + [last]) == cs + [last];
    }
  }

  function GrantOf(c: seq<byte>): nat {
    if |c| >= HEADER_SIZE then Get(c[..HEADER_SIZE], 14, 2) else 0
  }

  function IdOf(c: seq<byte>): nat {
    if |c| >= HEADER_SIZE then Get(c[..HEADER_SIZE], 24, 8) else 0
  }

  function Grants(cs: seq<seq<byte>>): nat {
    if cs == [] then 0 else Grants(cs[..|cs| - 1]) + GrantOf(cs[|cs| - 1])
  }

  function Ids(cs: seq<seq<byte>>): set<nat> {
    set i | 0 <= i < |cs| :: IdOf(cs[i])
  }

  /**
   * What is saved of a reply: its header, the fixed part, the variable part when
   * there is one, and what fills the reply up; the parts are as the reply class says
   * and parse.
   */
  predicate Parts(codec: Codec, req: Req, hdr: Header, bufs: seq<seq<byte>>) {
    |bufs| >= 2 &&
    if hdr.status == STATUS_PENDING then |bufs| == 2
    else
      && |bufs[1]| == codec.fixedSize(req, hdr)
      && var v := codec.variableSize(req, hdr, bufs[1]);
         if v > 0 then 3 <= |bufs| <= 4 && |bufs[2]| == v && codec.variableOk(req, hdr, bufs[1], bufs[2])
         else v == 0 && |bufs| <= 3
  }

  /** What is saved when the machine is in `state` and `need` bytes come next. */
  ghost predicate Saved(codec: Codec, req: Req, hdr: Header, bufs: seq<seq<byte>>, state: RecvState, need: int, fixedPart: seq<byte>) {
    match state
    case Fixed => |bufs| == 1 && hdr.status != STATUS_PENDING && need == codec.fixedSize(req, hdr)
    case Variable =>
      && |bufs| == 2 && bufs[1] == fixedPart && hdr.status != STATUS_PENDING
      && |fixedPart| == codec.fixedSize(req, hdr) && need == codec.variableSize(req, hdr, fixedPart) > 0
    case Pad =>
      if hdr.status == STATUS_PENDING then |bufs| == 1
      else Parts(codec, req, hdr, bufs) && |bufs| == if codec.variableSize(req, hdr, bufs[1]) > 0 then 3 else 2
    case Done => Parts(codec, req, hdr, bufs)
  }

  /** `d` hands the reply `c` to the request that waited for its id, whole. */
  predicate ReplyTo(codec: Codec, w0: map<nat, Req>, d: Delivery, c: seq<byte>) {
    && |c| >= HEADER_SIZE && IdOf(c) in w0 && d.req == w0[IdOf(c)]
    && d.hdr == Decode(c[..HEADER_SIZE]) && Flat(d.bufs) == c && Parts(codec, d.req, d.hdr, d.bufs) && d.last == (NextOf(c) == 0)
  }

  /** The deliveries of this call: each reply went to its own request. */
  ghost predicate Delivered(codec: Codec, w0: map<nat, Req>, before: seq<Delivery>, after: seq<Delivery>, cs: seq<seq<byte>>) {
    |after| == |before| + |cs| && forall i {:trigger DeliveredAt(codec, w0, before, after, cs, i)} :: DeliveredAt(codec, w0, before, after, cs, i)
  }

  /** Every reply of a frame was delivered, but for an interim one at the end. */
  ghost predicate Settled(codec: Codec, w0: map<nat, Req>, before: seq<Delivery>, after: seq<Delivery>, cs: seq<seq<byte>>)
    requires cs != []
  {
    var front, last := cs[..|cs| - 1], cs[|cs| - 1];
    |last| >= HEADER_SIZE && Delivered(codec, w0, before, after, if IsPending(last) then front else cs)
  }

  ghost predicate DeliveredAt(codec: Codec, w0: map<nat, Req>, before: seq<Delivery>, after: seq<Delivery>, cs: seq<seq<byte>>, i: int)
    requires |after| == |before| + |cs|
  {
    && (0 <= i < |before| ==> after[i] == before[i])
    && (0 <= i < |cs| ==> ReplyTo(codec, w0, after[|before| + i], cs[i]))
  }

  /** Bytes still to read before the reply that started at `start` is complete, in the source's arithmetic. */
  function PadBytes(spl: nat, total: nat, payloadOffset: nat, hdr: Header): int {
    if hdr.nextCommand != 0 && hdr.status != STATUS_PENDING
    then hdr.nextCommand - (HEADER_SIZE + total - payloadOffset)
    else (spl + 4) % U32 - total
  }

  /** One read of n bytes from `avail` succeeds; its count comes back as an `int`. */
  predicate Readable(n: int, avail: seq<byte>) { 0 <= n <= |avail| && n < 0x8000_0000 }

  /** Behind the header, `want` bytes complete the reply: the parts must parse, fit into them, and be there. */
  predicate BodyFits(codec: Codec, req: Req, hdr: Header, avail: seq<byte>, want: int) {
    if hdr.status == STATUS_PENDING then Readable(want, avail)
    else
      var f := codec.fixedSize(req, hdr);
      && 0 <= f <= |avail|
      && var v := codec.variableSize(req, hdr, avail[..f]);
         0 <= v && f + v <= want <= |avail| && want - f - v < 0x8000_0000 && (v > 0 ==> codec.variableOk(req, hdr, avail[..f], avail[f..f + v]))
  }

  /** A reply header somebody waits for. */
  predicate HeaderOk(buf: seq<byte>, wait: map<nat, Req>)
    requires |buf| == HEADER_SIZE
  {
    var hdr := Decode(buf);
    hdr.protocol == MAGIC && HasFlag(hdr.flags, FLAG_SERVER_TO_REDIR) && hdr.messageId in wait
  }

  /** Bytes of the reply that starts here, its header included, when `left` bytes of the frame are left. */
  function ReplyLength(hdr: Header, left: int): int {
    if hdr.nextCommand != 0 && hdr.status != STATUS_PENDING then hdr.nextCommand else left
  }

  /** `s` starts with a whole reply that somebody waits for. */
  predicate OneFits(codec: Codec, wait: map<nat, Req>, s: seq<byte>, left: int) {
    && |s| >= HEADER_SIZE && HeaderOk(s[..HEADER_SIZE], wait)
    && var hdr := Decode(s[..HEADER_SIZE]);
       BodyFits(codec, wait[hdr.messageId], hdr, s[HEADER_SIZE..], ReplyLength(hdr, left) - HEADER_SIZE)
  }

  /** Where in the stream a reply starts, who waits then, the balance, and how many bytes of the frame are left. */
  datatype Spot = Spot(pos: nat, wait: map<nat, Req>, credits: nat, left: int)

  /** A reply that was taken, and what was made of it. */
  datatype Visit = Visit(spot: Spot, d: Delivery, c: seq<byte>)

  predicate FitsAt(codec: Codec, stream: seq<byte>, s: Spot) {
    s.pos <= |stream| && OneFits(codec, s.wait, stream[s.pos..], s.left)
  }

  /** The reply at `v` was taken whole, and `n` is where that leaves the connection. */
  predicate Took(codec: Codec, stream: seq<byte>, v: Visit, n: Spot) {
    Passed(codec, stream, v.spot, v.c, n) && (IsPending(v.c) || ReplyTo(codec, v.spot.wait, v.d, v.c))
  }

  /** The reply `c` at `s` was read, and its request and its grant were taken. */
  predicate Passed(codec: Codec, stream: seq<byte>, s: Spot, c: seq<byte>, n: Spot) {
    && FitsAt(codec, stream, s) && s.pos + HEADER_SIZE <= n.pos <= |stream| && c == stream[s.pos..n.pos]
    && n == Spot(s.pos + |c|, s.wait - {IdOf(c)}, (s.credits + GrantOf(c)) % U32, s.left - |c|)
  }

  /** From `start` to `cur`, replies were taken that link one to the next; a trail no longer open has taken the last one. */
  ghost predicate Trail(codec: Codec, stream: seq<byte>, trail: seq<Visit>, start: Spot, cur: Spot, open: bool) {
    && start == NextSpot(trail, cur, 0) && (trail != [] || open)
    && forall i {:trigger TrailAt(codec, stream, trail, cur, open, i)} :: TrailAt(codec, stream, trail, cur, open, i)
  }

  function NextSpot(trail: seq<Visit>, cur: Spot, i: int): Spot {
    if 0 <= i < |trail| then trail[i].spot else cur
  }

  predicate TrailAt(codec: Codec, stream: seq<byte>, trail: seq<Visit>, cur: Spot, open: bool, i: int) {
    0 <= i < |trail| ==>
      Took(codec, stream, trail[i], NextSpot(trail, cur, i + 1)) && if open || i < |trail| - 1 then Inner(trail[i].c) else Final(trail[i].c)
  }

  /** The replies of a trail. */
  function Cs(trail: seq<Visit>): (cs: seq<seq<byte>>)
    ensures |cs| == |trail|
  {
    if trail == [] then [] else Cs(trail[..|trail| - 1]) + [trail[|trail| - 1].c]
  }

  /** The deliveries of a trail; an interim reply is not delivered. */
  function Ds(trail: seq<Visit>): seq<Delivery> {
    if trail == [] then []
    else
      var v := trail[|trail| - 1];
      Ds(trail[..|trail| - 1]) + if |v.c| >= HEADER_SIZE && IsPending(v.c) then [] else [v.d]
  }

  lemma {:induction false} TrailFront(codec: Codec, stream: seq<byte>, trail: seq<Visit>, start: Spot, cur: Spot, open: bool)
    requires trail != [] && Trail(codec, stream, trail, start, cur, open)
    ensures Trail(codec, stream, trail[..|trail| - 1], start, trail[|trail| - 1].spot, true)
  {
    var n := |trail| - 1;
    forall i ensures TrailAt(codec, stream, trail[..n], trail[n].spot, true, i) {
      assert TrailAt(codec, stream, trail, cur, open, i);
      assert 0 <= i < n ==> NextSpot(trail[..n], trail[n].spot, i + 1) == NextSpot(trail, cur, i + 1);
    }
  }

  lemma {:induction false} TrailLast(codec: Codec, stream: seq<byte>, trail: seq<Visit>, start: Spot, cur: Spot, open: bool)
    requires trail != [] && Trail(codec, stream, trail, start, cur, open)
    ensures var v := trail[|trail| - 1];
            Took(codec, stream, v, cur) && if open then Inner(v.c) else Final(v.c)
  {
    assert TrailAt(codec, stream, trail, cur, open, |trail| - 1);
  }

  lemma {:induction false} TrailGrows(codec: Codec, stream: seq<byte>, trail: seq<Visit>, start: Spot, v: Visit, n: Spot, open: bool)
    requires Trail(codec, stream, trail, start, v.spot, true) && Took(codec, stream, v, n)
    requires if open then Inner(v.c) else Final(v.c)
    ensures Trail(codec, stream, trail + [v], start, n, open)
  {
    forall i ensures TrailAt(codec, stream, trail + [v], n, open, i) { assert TrailAt(codec, stream, trail, v.spot, true, i); }
  }

  /** A trail covers the stream, and every reply on it is linked to the next. */
  lemma {:induction false} TrailCovers(codec: Codec, stream: seq<byte>, trail: seq<Visit>, start: Spot, cur: Spot)
    requires Trail(codec, stream, trail, start, cur, true) && cur.pos <= |stream|
    ensures Progress(stream, start.pos, cur.pos, Cs(trail))
    decreases |trail|
  {
    if trail != [] {
      var v := trail[|trail| - 1];
      TrailFront(codec, stream, trail, start, cur, true);
      TrailLast(codec, stream, trail, start, cur, true);
      TrailCovers(codec, stream, trail[..|trail| - 1], start, v.spot);
      ProgressStep(stream, start.pos, v.spot.pos, cur.pos, Cs(trail[..|trail| - 1]));
    }
  }

  /** It takes every reply's request off the waiting ones and adds every grant. */
  lemma {:induction false} TrailPays(codec: Codec, stream: seq<byte>, trail: seq<Visit>, start: Spot, cur: Spot, open: bool)
    requires Trail(codec, stream, trail, start, cur, open) && start.credits < U32
    ensures Ledger(start.wait, cur.wait, start.credits, cur.credits, Cs(trail))
    decreases |trail|
  {
    if trail == [] {
      assert start.wait == start.wait - Ids([]);
    } else {
      var v := trail[|trail| - 1];
      TrailFront(codec, stream, trail, start, cur, open);
      TrailLast(codec, stream, trail, start, cur, open);
      TrailPays(codec, stream, trail[..|trail| - 1], start, v.spot, true);
      LedgerStep(start.wait, v.spot.wait, start.credits, v.spot.credits, Cs(trail[..|trail| - 1]), v.c);
    }
  }

  /** The replies that are delivered: all but an interim one. */
  function Delivers(trail: seq<Visit>): seq<seq<byte>> {
    if trail == [] then []
    else
      var v := trail[|trail| - 1];
      Delivers(trail[..|trail| - 1]) + if |v.c| >= HEADER_SIZE && IsPending(v.c) then [] else [v.c]
  }

  /** It delivers every reply to its own request. */
  lemma {:induction false} TrailDelivers(codec: Codec, stream: seq<byte>, trail: seq<Visit>, start: Spot, cur: Spot, open: bool, before: seq<Delivery>)
    requires Trail(codec, stream, trail, start, cur, open) && start.credits < U32
    ensures Delivered(codec, start.wait, before, before + Ds(trail), Delivers(trail))
    decreases |trail|
  {
    if trail == [] {
      forall i ensures DeliveredAt(codec, start.wait, before, before + Ds(trail), Delivers(trail), i) { }
    } else {
      var front, v := trail[..|trail| - 1], trail[|trail| - 1];
      TrailFront(codec, stream, trail, start, cur, open);
      TrailLast(codec, stream, trail, start, cur, open);
      TrailDelivers(codec, stream, front, start, v.spot, true, before);
      TrailPays(codec, stream, front, start, v.spot, true);
      if IsPending(v.c) {
        assert Ds(trail) == Ds(front) && Delivers(trail) == Delivers(front);
      } else {
        AddDelivery(codec, start.wait, before, before + Ds(front), Delivers(front), v.d, v.c);
        assert before + Ds(front) + [v.d] == before + Ds(trail);
      }
    }
  }

  /** Only the last reply of a frame can be an interim one. */
  lemma {:induction false} AllDelivered(codec: Codec, stream: seq<byte>, trail: seq<Visit>, start: Spot, cur: Spot)
    requires Trail(codec, stream, trail, start, cur, true)
    ensures Delivers(trail) == Cs(trail)
    decreases |trail|
  {
    if trail != [] {
      TrailFront(codec, stream, trail, start, cur, true);
      TrailLast(codec, stream, trail, start, cur, true);
      AllDelivered(codec, stream, trail[..|trail| - 1], start, trail[|trail| - 1].spot);
    }
  }

  function HeaderAt(stream: seq<byte>, pos: nat): (h: seq<byte>)
    ensures |h| == HEADER_SIZE
  {
    if pos + HEADER_SIZE <= |stream| then stream[pos..pos + HEADER_SIZE] else Zeros(HEADER_SIZE)
  }

  /** Nothing follows the reply at `s`. */
  predicate LastAt(stream: seq<byte>, s: Spot) {
    IsPending(HeaderAt(stream, s.pos)) || NextOf(HeaderAt(stream, s.pos)) == 0
  }

  /** Where the link of the reply at `s` leads. */
  function After(stream: seq<byte>, s: Spot): Spot {
    var h := HeaderAt(stream, s.pos);
    Spot(s.pos + NextOf(h), s.wait - {IdOf(h)}, (s.credits + GrantOf(h)) % U32, s.left - NextOf(h))
  }

  /** From `s` on stand whole replies, linked one to the next, the last of which ends the frame. */
  predicate Accepts(codec: Codec, stream: seq<byte>, s: Spot)
    decreases if s.pos <= |stream| then |stream| - s.pos else 0
  {
    && FitsAt(codec, stream, s)
    && (LastAt(stream, s) || (s.pos < After(stream, s).pos <= |stream| && Accepts(codec, stream, After(stream, s))))
  }

  lemma HeaderSlice(stream: seq<byte>, lo: nat, hi: nat)
    requires lo + HEADER_SIZE <= hi <= |stream|
    ensures var h := stream[lo..lo + HEADER_SIZE]; h[..HEADER_SIZE] == h && stream[lo..hi][..HEADER_SIZE] == h
  {
  }

  lemma SameHeader(c: seq<byte>, h: seq<byte>)
    requires Inner(c) && |h| == HEADER_SIZE && c[..HEADER_SIZE] == h == h[..HEADER_SIZE]
    ensures NextOf(h) == |c| && IdOf(h) == IdOf(c) && GrantOf(h) == GrantOf(c) && !IsPending(h)
  {
  }

  lemma {:induction false} AfterIs(codec: Codec, stream: seq<byte>, v: Visit, n: Spot)
    requires Took(codec, stream, v, n) && Inner(v.c)
    ensures After(stream, v.spot) == n && !LastAt(stream, v.spot)
  {
    HeaderSlice(stream, v.spot.pos, n.pos);
    SameHeader(v.c, HeaderAt(stream, v.spot.pos));
  }

  lemma {:induction false} LinkAccepts(codec: Codec, stream: seq<byte>, s: Spot, n: Spot)
    requires FitsAt(codec, stream, s) && After(stream, s) == n && !LastAt(stream, s) && s.pos < n.pos <= |stream|
    ensures Accepts(codec, stream, s) <==> Accepts(codec, stream, n)
  {
  }

  lemma LastAccepts(codec: Codec, stream: seq<byte>, v: Visit, n: Spot)
    requires Took(codec, stream, v, n) && Final(v.c)
    ensures Accepts(codec, stream, v.spot)
  {
    HeaderSlice(stream, v.spot.pos, n.pos);
  }

  /** A frame is accepted from its first reply on when its last one was taken, and otherwise exactly when it is from the spot reached. */
  lemma {:induction false} TrailAccepts(codec: Codec, stream: seq<byte>, trail: seq<Visit>, start: Spot, cur: Spot, open: bool)
    requires Trail(codec, stream, trail, start, cur, open)
    ensures Accepts(codec, stream, start) <==> !open || Accepts(codec, stream, cur)
    decreases |trail|
  {
    if trail != [] {
      var v := trail[|trail| - 1];
      TrailFront(codec, stream, trail, start, cur, open);
      TrailLast(codec, stream, trail, start, cur, open);
      TrailAccepts(codec, stream, trail[..|trail| - 1], start, v.spot, true);
      if open { AfterIs(codec, stream, v, cur); LinkAccepts(codec, stream, v.spot, cur); } else { LastAccepts(codec, stream, v, cur); }
    }
  }

  function FirstSpot(stream: seq<byte>, pos: nat, wait: map<nat, Req>, credits: nat): Spot
    requires pos + 4 <= |stream|
  {
    Spot(pos + 4, wait, credits, (BigEndian(stream[pos..pos + 4]) + 4) % U32 - 4)
  }

  /** What a walk to the end says about the frame. */
  lemma {:induction false} Verdict(codec: Codec, stream: seq<byte>, trail: seq<Visit>, start: Spot, n: Spot, before: seq<Delivery>)
    requires Trail(codec, stream, trail, start, n, false) && start.credits < U32
    ensures start.pos <= n.pos <= |stream| && Cut(stream[start.pos..n.pos]) == Some(Cs(trail))
    ensures Ledger(start.wait, n.wait, start.credits, n.credits, Cs(trail))
    ensures Cs(trail) != [] && Settled(codec, start.wait, before, before + Ds(trail), Cs(trail))
  {
    var front, v := trail[..|trail| - 1], trail[|trail| - 1];
    TrailFront(codec, stream, trail, start, n, false);
    TrailLast(codec, stream, trail, start, n, false);
    TrailCovers(codec, stream, front, start, v.spot);
    CutDone(stream, start.pos, v.spot.pos, n.pos, Cs(front));
    TrailPays(codec, stream, trail, start, n, false);
    AllDelivered(codec, stream, front, start, v.spot);
    TrailDelivers(codec, stream, trail, start, n, false, before);
    assert Cs(trail)[..|front|] == Cs(front);
    assert Delivers(trail) == if IsPending(v.c) then Cs(front) else Cs(trail);
  }

  /** Nothing was taken for the reply with header `h`, or its request and its grant. */
  predicate AtMostTaken(h: seq<byte>, w0: map<nat, Req>, w: map<nat, Req>, cr0: nat, cr: nat) {
    || (w == w0 && cr == cr0)
    || (IdOf(h) in w0 && w == w0 - {IdOf(h)} && cr == (cr0 + GrantOf(h)) % U32)
  }

  /** A frame given up at `cur`: the replies before are linked, delivered each to its own request, and paid for. */
  ghost predicate Abandoned(codec: Codec, stream: seq<byte>, first: nat, w0: map<nat, Req>, cr0: nat, d0: seq<Delivery>,
                            replies: seq<seq<byte>>, cur: Spot, d: seq<Delivery>) {
    && Progress(stream, first, cur.pos, replies)
    && Delivered(codec, w0, d0, d, replies)
    && Ledger(w0, cur.wait, cr0, cur.credits, replies)
  }

  /**
   * What receiving a frame of `spl` bytes from `start` on comes to.  It succeeds if
   * and only if the frame is a chain of whole awaited replies; then exactly the
   * frame was consumed, `replies` are its slices, each was delivered to its own
   * request, but for an interim one at the end, and all were paid for.  Otherwise
   * the frame was given up at `cur`, with at most the request there taken.
   */
  ghost predicate Received(codec: Codec, stream: seq<byte>, spl: nat, start: Spot, d0: seq<Delivery>,
                           ok: bool, replies: seq<seq<byte>>, cur: Spot, now: Spot, d: seq<Delivery>) {
    && (ok <==> Accepts(codec, stream, start))
    && if ok then
         && now.pos == start.pos + spl <= |stream| && Cut(stream[start.pos..now.pos]) == Some(replies)
         && replies != [] && Settled(codec, start.wait, d0, d, replies)
         && Ledger(start.wait, now.wait, start.credits, now.credits, replies)
       else
         && Abandoned(codec, stream, start.pos, start.wait, start.credits, d0, replies, cur, d)
         && AtMostTaken(HeaderAt(stream, cur.pos), cur.wait, now.wait, cur.credits, now.credits)
  }

  lemma {:induction false} GivenUp(codec: Codec, stream: seq<byte>, trail: seq<Visit>, start: Spot, cur: Spot, d0: seq<Delivery>)
    requires Trail(codec, stream, trail, start, cur, true) && start.credits < U32 && cur.pos <= |stream|
    ensures Abandoned(codec, stream, start.pos, start.wait, start.credits, d0, Cs(trail), cur, d0 + Ds(trail))
  {
    TrailCovers(codec, stream, trail, start, cur);
    TrailPays(codec, stream, trail, start, cur, true);
    TrailDelivers(codec, stream, trail, start, cur, true, d0);
    AllDelivered(codec, stream, trail, start, cur);
  }

  /** The same from any state on: `rest` is unread, `want` bytes still complete the reply, `need` come next. */
  predicate StillFits(codec: Codec, req: Req, hdr: Header, rest: seq<byte>, want: int, state: RecvState, need: int, fixedPart: seq<byte>) {
    match state
    case Fixed => BodyFits(codec, req, hdr, rest, want)
    case Variable => 0 <= need <= want <= |rest| && Readable(need, rest) && want - need < 0x8000_0000 && codec.variableOk(req, hdr, fixedPart, rest[..need])
    case Pad => Readable(want, rest)
    case Done => true
  }

  function Rank(state: RecvState): nat {
    match state case Fixed => 3 case Variable => 2 case Pad => 1 case Done => 0
  }

  /** What FIXED, VARIABLE and PAD do with the bytes just read; `pad` bytes would now complete the reply. */
  method Advance(codec: Codec, req: Req, hdr: Header, state: RecvState, buf: seq<byte>, fixedPart: seq<byte>, pad: int,
                 ghost rest: seq<byte>, ghost bufs: seq<seq<byte>>)
    returns (ok: bool, state': RecvState, need: int, fixedPart': seq<byte>)
    requires state != Done && |buf| <= |rest| && buf == rest[..|buf|] && |buf| < 0x8000_0000
    requires state == Fixed ==> hdr.status != STATUS_PENDING && |buf| == codec.fixedSize(req, hdr)
    requires state == Pad ==> pad == 0
    ensures !ok ==> !StillFits(codec, req, hdr, rest, pad + |buf|, state, |buf|, fixedPart)
    ensures ok ==> (StillFits(codec, req, hdr, rest, pad + |buf|, state, |buf|, fixedPart)
                    <==> StillFits(codec, req, hdr, rest[|buf|..], pad, state', need, fixedPart'))
    requires Saved(codec, req, hdr, bufs, state, |buf|, fixedPart)
    ensures ok ==> Saved(codec, req, hdr, bufs + [buf], state', need, fixedPart')
    ensures ok ==> Rank(state') < Rank(state)
    ensures ok && state' == Pad ==> need == pad
    ensures ok && state' != Pad ==> need < 0x8000_0000
    ensures ok && state' == Done ==> pad == 0
  {
    ok, state', need, fixedPart' := true, Done, 0, fixedPart;
    if state == Pad { return; }
    var more := 0;
    if state == Fixed {
      fixedPart', more := buf, codec.variableSize(req, hdr, buf);
      if more < 0 { return false, Done, 0, fixedPart'; }
      assert more <= |rest| - |buf| ==> rest[|buf|..][..more] == rest[|buf|..|buf| + more];
    } else if !codec.variableOk(req, hdr, fixedPart, buf) {
      return false, Done, 0, fixedPart';
    }
    if more > 0 {
      state', need := Variable, more;
    } else if pad < 0 {
      ok := false;
    } else if pad > 0 {
      state', need := Pad, pad;
    }
  }

  class Connection {
    const stream: seq<byte>
    var pos: nat
    var wait: map<nat, Req>
    var credits: nat
    var delivered: seq<Delivery>

    constructor (stream: seq<byte>, wait: map<nat, Req>)
      ensures this.stream == stream && pos == 0 && this.wait == wait && credits == 0 && delivered == []
    {
      this.stream, pos, this.wait, credits, delivered := stream, 0, wait, 0, [];
    }

    /**
     * `readIovec`: all of it or failure.  A negative size is one that no stream fills;
     * the count is an `int`, and one of 2^31 or more comes back as an error.
     */
    method Read(n: int) returns (ok: bool, buf: seq<byte>)
      requires pos <= |stream| && n < U32
      modifies `pos
      ensures old(pos) <= pos <= |stream|
      ensures ok == Readable(n, stream[old(pos)..])
      ensures ok ==> pos == old(pos) + n && buf == stream[old(pos)..pos]
    {
      if n < 0 || n > |stream| - pos {
        pos := |stream|;
        return false, [];
      }
      buf := stream[pos..pos + n];
      pos := pos + n;
      ok := Int32(n) >= 0;
    }

    /** The HEADER state: checks, matching, and the grant. */
    method TakeHeader(buf: seq<byte>) returns (ok: bool, hdr: Header, req: Req)
      requires |buf| == HEADER_SIZE
      modifies `wait, `credits
      ensures hdr == Decode(buf)
      ensures ok ==> IdOf(buf) in old(wait) && req == old(wait)[IdOf(buf)] && wait == old(wait) - {IdOf(buf)}
      ensures ok ==> credits == (old(credits) + GrantOf(buf)) % U32
      ensures !ok ==> wait == old(wait) && credits == old(credits)
      ensures ok <==> HeaderOk(buf, old(wait))
    {
      hdr, req, ok := Decode(buf), 0, false;
      assert buf[..HEADER_SIZE] == buf;
      if hdr.protocol != MAGIC || !HasFlag(hdr.flags, FLAG_SERVER_TO_REDIR) || hdr.messageId !in wait { return; }
      ok, req := true, wait[hdr.messageId];
      wait := wait - {hdr.messageId};
      credits := (credits + hdr.credits) % U32;
    }

    /** One more buffer of a reply. */
    method ReadPart(bufs: seq<seq<byte>>, n: int, ghost first: seq<byte>, ghost start: nat) returns (ok: bool, bufs': seq<seq<byte>>, buf: seq<byte>)
      requires start <= pos <= |stream| && n < U32 && Flat(bufs) == first + stream[start..pos]
      modifies `pos
      ensures old(pos) <= pos <= |stream|
      ensures ok == Readable(n, stream[old(pos)..])
      ensures ok ==> pos == old(pos) + n && |buf| == n && bufs' == bufs + [buf] && Flat(bufs') == first + stream[start..pos]
      ensures ok ==> buf == stream[old(pos)..][..n] && stream[pos..] == stream[old(pos)..][n..]
    {
      ghost var was := pos;
      bufs' := bufs;
      ok, buf := Read(n);
      if !ok { return; }
      FlatSnoc(bufs, buf);
      Glued(first, stream, start, was, pos);
      Unread(stream, was, pos);
      bufs' := bufs + [buf];
    }

    /** The FIXED, VARIABLE and PAD states: reads until the reply is complete. */
    method ReceiveBody(codec: Codec, spl: nat, ghost base: nat, totalIn: nat, hdr: Header, req: Req, first: seq<byte>)
      returns (ok: bool, bufs: seq<seq<byte>>)
      requires base + totalIn == pos <= |stream|
      requires totalIn >= |first| && first == stream[pos - |first|..pos]
      requires hdr.nextCommand < U32 && spl < U32
      modifies `pos
      ensures old(pos) <= pos <= |stream|
      ensures ok ==> Flat(bufs) == first + stream[old(pos)..pos]
      ensures ok ==> Parts(codec, req, hdr, bufs)
      ensures ok ==> PadBytes(spl, pos - base, totalIn, hdr) == 0
      ensures ok <==> BodyFits(codec, req, hdr, stream[old(pos)..], PadBytes(spl, totalIn, totalIn, hdr))
    {
      ghost var fits := BodyFits(codec, req, hdr, stream[pos..], PadBytes(spl, totalIn, totalIn, hdr));
      ghost var start := pos;
      var total, payloadOffset := totalIn, totalIn;
      var state, need := Fixed, 0;
      var fixedPart: seq<byte> := [];
      bufs := [first];
      assert Flat(bufs) == first + Flat([]);
      if hdr.status == STATUS_PENDING {
        state, need := Pad, PadBytes(spl, total, payloadOffset, hdr);
      } else {
        need := codec.fixedSize(req, hdr);
        if need < 0 { return false, bufs; }
      }
      while state != Done
        invariant start <= pos <= |stream| && base + total == pos
        invariant Flat(bufs) == first + stream[start..pos] && need < U32
        invariant Saved(codec, req, hdr, bufs, state, need, fixedPart)
        invariant state == Pad ==> need == PadBytes(spl, total, payloadOffset, hdr)
        invariant state == Done ==> PadBytes(spl, total, payloadOffset, hdr) == 0
        invariant fits <==> StillFits(codec, req, hdr, stream[pos..], PadBytes(spl, total, payloadOffset, hdr), state, need, fixedPart)
        decreases Rank(state)
      {
        ghost var rest, saved := stream[pos..], bufs;
        var buf;
        ok, bufs, buf := ReadPart(bufs, need, first, start);
        if !ok { return; }
        total := total + need;
        ok, state, need, fixedPart := Advance(codec, req, hdr, state, buf, fixedPart, PadBytes(spl, total, payloadOffset, hdr), rest, saved);
        if !ok { return; }
      }
      ok := true;
    }

    /** One reply of the chain, header first: its bytes are `c`. */
    method ReceiveOne(codec: Codec, spl: nat, ghost base: nat, total: nat)
      returns (ok: bool, hdr: Header, req: Req, bufs: seq<seq<byte>>, ghost c: seq<byte>)
      requires base + total == pos <= |stream| && spl < U32
      modifies `pos, `wait, `credits
      ensures old(pos) <= pos <= |stream| && c == stream[old(pos)..pos]
      ensures ok ==> |c| >= HEADER_SIZE && Flat(bufs) == c && hdr == Decode(c[..HEADER_SIZE]) && Parts(codec, req, hdr, bufs)
      ensures ok && (hdr.status == STATUS_PENDING || hdr.nextCommand == 0) ==> Final(c) && pos == base + 4 + spl
      ensures ok && hdr.status != STATUS_PENDING && hdr.nextCommand != 0 ==> Inner(c)
      ensures ok ==> (hdr.status == STATUS_PENDING <==> IsPending(c))
      ensures ok ==> IdOf(c) in old(wait) && req == old(wait)[IdOf(c)] && wait == old(wait) - {IdOf(c)}
      ensures ok ==> credits == (old(credits) + GrantOf(c)) % U32
      ensures ok <==> OneFits(codec, old(wait), stream[old(pos)..], (spl + 4) % U32 - total)
      ensures ok && Inner(c) ==> |c| == hdr.nextCommand
      ensures !ok ==> AtMostTaken(HeaderAt(stream, old(pos)), old(wait), wait, old(credits), credits)
    {
      ghost var start := pos;
      var buf;
      bufs, req := [], 0;
      ghost var s := stream[pos..];
      ok, buf := Read(HEADER_SIZE);
      c := stream[start..pos];
      if !ok { hdr := NO_HEADER; return; }
      assert s[..HEADER_SIZE] == buf && s[HEADER_SIZE..] == stream[pos..] && HeaderAt(stream, start) == buf;
      ok, hdr, req := TakeHeader(buf);
      if !ok { return; }
      ghost var mid := pos;
      LinkFits(buf);
      ok, bufs := ReceiveBody(codec, spl, base, total + HEADER_SIZE, hdr, req, buf);
      c := stream[start..pos];
      assert buf + stream[mid..pos] == c;
      assert c[..HEADER_SIZE] == buf == buf[..HEADER_SIZE];
      if ok && (hdr.status == STATUS_PENDING || hdr.nextCommand == 0) { WholeFrame(spl, pos - base); }
    }

    /**
     * `receivePdus`; `replies` are the slices of the frame.  After a failure they are
     * the whole replies before it, delivered and paid for; at most the request of the
     * reply at `cur` was taken besides, and nothing delivered to it.
     */
    method ReceivePdus(codec: Codec) returns (rc: int, ghost replies: seq<seq<byte>>, ghost cur: Spot)
      requires pos <= |stream| && credits < U32
      modifies this
      ensures pos <= |stream|
      ensures old(pos) + 4 > |stream| ==> rc != 0 && wait == old(wait) && credits == old(credits) && delivered == old(delivered)
      ensures old(pos) + 4 <= |stream| ==>
                Received(codec, stream, BigEndian(stream[old(pos)..old(pos) + 4]), FirstSpot(stream, old(pos), old(wait), old(credits)), old(delivered),
                         rc == 0, replies, cur, Spot(pos, wait, credits, 0), delivered)
    {
      replies, cur := [], Spot(pos, wait, credits, 0);
      var ok, buf := Read(4);
      if !ok { return -1, replies, cur; }
      ok, replies, cur := ReceiveFrame(codec, BigEndian(buf), old(pos), FirstSpot(stream, old(pos), wait, credits));
      rc := if ok then 0 else -1;
    }

    /** The frame behind its length. */
    method ReceiveFrame(codec: Codec, spl: nat, ghost base: nat, ghost start: Spot)
      returns (ok: bool, ghost replies: seq<seq<byte>>, ghost cur: Spot)
      requires base + 4 == pos <= |stream| && spl < U32 && credits < U32
      requires start == Spot(pos, wait, credits, (spl + 4) % U32 - 4)
      modifies this
      ensures pos <= |stream|
      ensures Received(codec, stream, spl, start, old(delivered), ok, replies, cur, Spot(pos, wait, credits, 0), delivered)
    {
      ghost var d0 := delivered;
      ghost var trail;
      ok, trail, cur := ReceiveChain(codec, spl, base);
      replies := Cs(trail);
      TrailAccepts(codec, stream, trail, start, cur, !ok);
      if ok { Verdict(codec, stream, trail, start, cur, d0); } else { GivenUp(codec, stream, trail, start, cur, d0); }
    }

    /** One reply without its delivery. */
    method PassReply(codec: Codec, spl: nat, ghost base: nat, total: nat)
      returns (ok: bool, d: Delivery, length: nat, ghost s: Spot, ghost c: seq<byte>)
      requires base + total == pos <= |stream| && spl < U32
      modifies `pos, `wait, `credits
      ensures old(pos) <= pos <= |stream|
      ensures s == Spot(old(pos), old(wait), old(credits), (spl + 4) % U32 - total)
      ensures ok <==> FitsAt(codec, stream, s)
      ensures ok ==> Passed(codec, stream, s, c, Spot(pos, wait, credits, s.left - |c|)) && length == |c|
      ensures ok ==> (IsPending(c) <==> d.hdr.status == STATUS_PENDING) && ReplyTo(codec, s.wait, d, c)
      ensures ok && (IsPending(c) || d.last) ==> Final(c) && pos == base + 4 + spl
      ensures ok && !IsPending(c) && !d.last ==> Inner(c)
      ensures !ok ==> AtMostTaken(HeaderAt(stream, old(pos)), old(wait), wait, old(credits), credits)
    {
      s, length := Spot(pos, wait, credits, (spl + 4) % U32 - total), 0;
      var hdr, req, bufs;
      ok, hdr, req, bufs, c := ReceiveOne(codec, spl, base, total);
      d := Delivery(req, hdr, bufs, hdr.nextCommand == 0);
      if !ok { return; }
      length := |Flat(bufs)|;
      IsReply(codec, s.wait, d, c);
    }

    /** One reply, from its header to its delivery; `more` says whether another follows it in the frame. */
    method TakeReply(codec: Codec, spl: nat, ghost base: nat, total: nat)
      returns (ok: bool, more: bool, length: nat, ghost v: Visit)
      requires base + total == pos <= |stream| && spl < U32
      modifies this
      ensures old(pos) <= pos <= |stream|
      ensures v.spot == Spot(old(pos), old(wait), old(credits), (spl + 4) % U32 - total)
      ensures ok <==> FitsAt(codec, stream, v.spot)
      ensures ok ==> Took(codec, stream, v, Spot(pos, wait, credits, v.spot.left - |v.c|)) && length == |v.c|
      ensures ok ==> delivered == old(delivered) + if IsPending(v.c) then [] else [v.d]
      ensures ok ==> if more then Inner(v.c) else Final(v.c) && pos == base + 4 + spl
      ensures !ok ==> delivered == old(delivered) && AtMostTaken(HeaderAt(stream, old(pos)), old(wait), wait, old(credits), credits)
    {
      var d;
      ghost var s, c;
      ok, d, length, s, c := PassReply(codec, spl, base, total);
      v, more := Visit(s, d, c), false;
      if !ok || d.hdr.status == STATUS_PENDING { return; }
      more := !d.last;
      delivered := delivered + [d];
    }

    /** One more step of a trail. */
    method Follow(codec: Codec, spl: nat, ghost base: nat, total: nat, ghost trail: seq<Visit>, ghost start: Spot)
      returns (ok: bool, more: bool, length: nat, ghost v: Visit)
      requires base + total == pos <= |stream| && spl < U32
      requires Trail(codec, stream, trail, start, Spot(pos, wait, credits, (spl + 4) % U32 - total), true)
      modifies this
      ensures old(pos) <= pos <= |stream|
      ensures !ok ==> !Accepts(codec, stream, Spot(old(pos), old(wait), old(credits), (spl + 4) % U32 - total))
      ensures ok ==> pos == old(pos) + length > old(pos) && (more || pos == base + 4 + spl)
      ensures ok ==> Trail(codec, stream, trail + [v], start, Spot(pos, wait, credits, (spl + 4) % U32 - total - length), more)
      ensures ok ==> delivered == old(delivered) + Ds([v])
      ensures !ok ==> delivered == old(delivered) && AtMostTaken(HeaderAt(stream, old(pos)), old(wait), wait, old(credits), credits)
    {
      ok, more, length, v := TakeReply(codec, spl, base, total);
      assert [v][..0] == [];
      if ok { TrailGrows(codec, stream, trail, start, v, Spot(pos, wait, credits, v.spot.left - |v.c|), more); }
    }

    /** The replies of one frame, until one takes the rest of it. */
    method ReceiveChain(codec: Codec, spl: nat, ghost base: nat) returns (ok: bool, ghost trail: seq<Visit>, ghost cur: Spot)
      requires base + 4 == pos <= |stream| && spl < U32
      modifies this
      ensures pos <= |stream|
      ensures Trail(codec, stream, trail, Spot(old(pos), old(wait), old(credits), (spl + 4) % U32 - 4), cur, !ok)
      ensures !ok ==> !Accepts(codec, stream, cur)
      ensures ok ==> pos == base + 4 + spl && cur == Spot(pos, wait, credits, cur.left)
      ensures cur.pos <= |stream| && delivered == old(delivered) + Ds(trail)
      ensures !ok ==> AtMostTaken(HeaderAt(stream, cur.pos), cur.wait, wait, cur.credits, credits)
    {
      ghost var start := Spot(pos, wait, credits, (spl + 4) % U32 - 4);
      var total, more, length := 4, true, 0;
      trail, cur := [], start;
      while more
        invariant base + total == pos <= |stream|
        invariant cur == Spot(pos, wait, credits, (spl + 4) % U32 - total) && Trail(codec, stream, trail, start, cur, more)
        invariant delivered == old(delivered) + Ds(trail)
        invariant more || pos == base + 4 + spl
        decreases |stream| - pos
      {
        ghost var v;
        ok, more, length, v := Follow(codec, spl, base, total, trail, start);
        if !ok { return; }
        DsGrows(trail, v);
        trail, total := trail + [v], total + length;
        cur := Spot(pos, wait, credits, (spl + 4) % U32 - total);
      }
      ok := true;
    }
  }

  lemma {:induction false} LinkFits(buf: seq<byte>)
    requires |buf| == HEADER_SIZE
    ensures Decode(buf).nextCommand < U32
  {
    FieldFits();
    FromLEBound(buf[20..24]);
  }

  /** The header of a reply somebody waits for, byte by byte: the magic, the lowest flag, the id. */
  lemma HeaderOkBytes(buf: seq<byte>, wait: map<nat, Req>)
    requires |buf| == HEADER_SIZE
    ensures HeaderOk(buf, wait) <==> buf[0..4] == [0xFE, 0x53, 0x4D, 0x42] && buf[16] % 2 == 1 && FromLE(buf[24..32]) in wait
  {
    var flags := buf[16..20];
    assert FromLE(flags) == flags[0] + 256 * FromLE(flags[1..]);
  }

  /** A header of a reply that is waited for. */
  predicate Awaited(h: Header, wait: map<nat, Req>) {
    Valid(h) && h.protocol == [0xFE, 0x53, 0x4D, 0x42] && HasFlag(h.flags, 1) && h.messageId in wait
  }

  lemma {:induction false} AwaitedOk(h: Header, wait: map<nat, Req>, rest: seq<byte>)
    requires Awaited(h, wait)
    ensures var s := Layout(h) + rest;
            && s[..HEADER_SIZE] == Layout(h) && s[HEADER_SIZE..] == rest && Decode(Layout(h)) == h && HeaderOk(Layout(h), wait)
  {
    DecodeLayout(h);
    FieldsStand(h);
    FlagBits(h);
    HeaderOkBytes(Layout(h), wait);
  }

  lemma Slices(f: seq<byte>, v: seq<byte>, rest: seq<byte>)
    ensures var s := f + v + rest; s[..|f|] == f && s[|f|..|f| + |v|] == v && |s| == |f| + |v| + |rest|
  {
  }

  /**
   * An awaited reply with the parts its class asks for is taken, with padding or
   * without, alone at the end of a frame or linked to what follows.
   */
  lemma {:induction false} ReplyFits(codec: Codec, wait: map<nat, Req>, h: Header, f: seq<byte>, v: seq<byte>, pad: nat, tail: seq<byte>, left: int)
    requires Awaited(h, wait) && h.status != 0x103
    requires |f| == codec.fixedSize(wait[h.messageId], h) && |v| == codec.variableSize(wait[h.messageId], h, f) && pad < 0x8000_0000
    requires v != [] ==> codec.variableOk(wait[h.messageId], h, f, v)
    requires if h.nextCommand != 0 then h.nextCommand == 64 + |f| + |v| + pad else left == 64 + |f| + |v| + pad
    ensures OneFits(codec, wait, Layout(h) + (f + v + (Zeros(pad) + tail)), left)
  {
    AwaitedOk(h, wait, f + v + (Zeros(pad) + tail));
    Slices(f, v, Zeros(pad) + tail);
  }

  /** So is an interim reply, whatever fills the rest of its frame. */
  lemma {:induction false} InterimFits(codec: Codec, wait: map<nat, Req>, h: Header, rest: seq<byte>)
    requires Awaited(h, wait) && h.status == 0x103 && |rest| < 0x8000_0000
    ensures OneFits(codec, wait, Layout(h) + rest, 64 + |rest|)
  {
    AwaitedOk(h, wait, rest);
  }

  /** A reply that ends its frame, and one linked to such a reply. */
  lemma {:induction false} LastIsAccepted(codec: Codec, stream: seq<byte>, s: Spot, h: Header, rest: seq<byte>)
    requires s.pos <= |stream| && Awaited(h, s.wait) && stream[s.pos..] == Layout(h) + rest && (h.status == 0x103 || h.nextCommand == 0)
    requires OneFits(codec, s.wait, Layout(h) + rest, s.left)
    ensures Accepts(codec, stream, s)
  {
    AwaitedOk(h, s.wait, rest);
    HeaderFront(stream, s.pos, h, rest);
    HeaderReads(h);
  }

  lemma {:induction false} LinkIsAccepted(codec: Codec, stream: seq<byte>, s: Spot, h: Header, rest: seq<byte>)
    requires s.pos <= |stream| && Awaited(h, s.wait) && stream[s.pos..] == Layout(h) + rest && h.status != 0x103
    requires 0 < h.nextCommand <= 64 + |rest| && OneFits(codec, s.wait, Layout(h) + rest, s.left)
    requires Accepts(codec, stream, Behind(s, h))
    ensures Accepts(codec, stream, s)
  {
    Leads(stream, s, h, rest);
    HeaderFront(stream, s.pos, h, rest);
    LinkAccepts(codec, stream, s, Behind(s, h));
  }

  /** Where a reply that has been taken leaves the connection. */
  function Behind(s: Spot, h: Header): Spot {
    Spot(s.pos + h.nextCommand, s.wait - {h.messageId}, (s.credits + h.credits) % U32, s.left - h.nextCommand)
  }

  lemma {:induction false} Leads(stream: seq<byte>, s: Spot, h: Header, rest: seq<byte>)
    requires s.pos <= |stream| && Valid(h) && stream[s.pos..] == Layout(h) + rest && h.status != 0x103 && h.nextCommand > 0
    ensures After(stream, s) == Behind(s, h) && !LastAt(stream, s)
  {
    HeaderFront(stream, s.pos, h, rest);
    HeaderReads(h);
  }

  lemma HeaderFront(stream: seq<byte>, pos: nat, h: Header, rest: seq<byte>)
    requires Valid(h) && pos <= |stream| && stream[pos..] == Layout(h) + rest
    ensures HeaderAt(stream, pos) == Layout(h) && |stream| == pos + 64 + |rest|
  {
    assert stream[pos..pos + HEADER_SIZE] == stream[pos..][..HEADER_SIZE];
  }

  lemma {:induction false} HeaderReads(h: Header)
    requires Valid(h)
    ensures var b := Layout(h);
            && IdOf(b) == h.messageId && GrantOf(b) == h.credits && NextOf(b) == h.nextCommand && (IsPending(b) <==> h.status == 0x103)
  {
    DecodeLayout(h);
    assert Layout(h)[..HEADER_SIZE] == Layout(h);
  }

  /** What the reference reads in a reply: id, grant, link, and the status of an interim one. */
  lemma {:induction false} ReplyBytes(c: seq<byte>)
    requires |c| >= HEADER_SIZE
    ensures IdOf(c) == FromLE(c[24..32]) && GrantOf(c) == FromLE(c[14..16]) && NextOf(c) == FromLE(c[20..24])
    ensures IsPending(c) <==> c[8..12] == [3, 1, 0, 0]
  {
    var h := c[..HEADER_SIZE];
    assert h[24..32] == c[24..32] && h[14..16] == c[14..16] && h[20..24] == c[20..24] && h[8..12] == c[8..12];
    ToFromLE(c[8..12]);
    FourBytes(0x103);
    FourBytesBack([3, 1, 0, 0]);
  }

  lemma {:induction false} FourBytes(n: nat)
    requires n == 0x103
    ensures ToLE(4, n) == [3, 1, 0, 0]
  {
    var t := ToLE(4, n);
    FieldFits();
    ByteAt(4, n, 0);
    ByteAt(4, n, 1);
    ByteAt(4, n, 2);
    ByteAt(4, n, 3);
    assert Pow256(0) == 1 && Pow256(3) == 0x100_0000;
    assert t[0] == 3 && t[1] == 1 && t[2] == 0 && t[3] == 0;
  }

  lemma FourBytesBack(s: seq<byte>)
    requires s == [3, 1, 0, 0]
    ensures FromLE(s) == 0x103
  {
    var a, b, c := s[1..], s[2..], s[3..];
    assert a[1..] == b && b[1..] == c && c[1..] == [];
    assert FromLE(c) == 0 && FromLE(b) == 0 && FromLE(a) == 1;
  }

  lemma Unread(s: seq<byte>, j: nat, k: nat)
    requires j <= k <= |s|
    ensures s[j..][..k - j] == s[j..k] && s[j..][k - j..] == s[k..]
  {
  }

  lemma IsReply(codec: Codec, w0: map<nat, Req>, d: Delivery, c: seq<byte>)
    requires |c| >= HEADER_SIZE && d.hdr == Decode(c[..HEADER_SIZE]) && Flat(d.bufs) == c
    requires Parts(codec, d.req, d.hdr, d.bufs)
    requires IdOf(c) in w0 && d.req == w0[IdOf(c)] && d.last == (d.hdr.nextCommand == 0)
    ensures ReplyTo(codec, w0, d, c)
  {
  }

  lemma DsGrows(trail: seq<Visit>, v: Visit)
    ensures Ds(trail + [v]) == Ds(trail) + Ds([v])
  {
    assert (trail + [v])[..|trail|] == trail && [v][..0] == [];
  }

  ghost predicate Progress(s: seq<byte>, lo: nat, hi: nat, cs: seq<seq<byte>>) {
    lo <= hi <= |s| && AllInner(cs) && Flat(cs) == s[lo..hi]
  }

  ghost predicate Ledger(w0: map<nat, Req>, w: map<nat, Req>, cr0: nat, cr: nat, cs: seq<seq<byte>>) {
    w == w0 - Ids(cs) && cr == (cr0 + Grants(cs)) % U32
  }

  lemma ProgressStep(s: seq<byte>, lo: nat, mid: nat, hi: nat, cs: seq<seq<byte>>)
    requires Progress(s, lo, mid, cs) && mid <= hi <= |s| && Inner(s[mid..hi])
    ensures Progress(s, lo, hi, cs + [s[mid..hi]])
  {
    var c := s[mid..hi];
    FlatSnoc(cs, c);
    assert s[lo..mid] + c == s[lo..hi];
    forall i ensures InnerAt(cs + [c], i) { assert InnerAt(cs, i); }
  }

  lemma CutDone(s: seq<byte>, lo: nat, mid: nat, hi: nat, cs: seq<seq<byte>>)
    requires Progress(s, lo, mid, cs) && mid <= hi <= |s| && Final(s[mid..hi])
    ensures Cut(s[lo..hi]) == Some(cs + [s[mid..hi]])
  {
    CutIsUnique(cs, s[mid..hi]);
    assert s[lo..mid] + s[mid..hi] == s[lo..hi];
  }

  lemma LedgerStep(w0: map<nat, Req>, w: map<nat, Req>, cr0: nat, cr: nat, cs: seq<seq<byte>>, c: seq<byte>)
    requires Ledger(w0, w, cr0, cr, cs)
    ensures Ledger(w0, w - {IdOf(c)}, cr0, (cr + GrantOf(c)) % U32, cs + [c])
  {
    AddReply(cs, c);
    WrapSum(cr0 + Grants(cs), GrantOf(c));
    assert w0 - Ids(cs) - {IdOf(c)} == w0 - (Ids(cs) + {IdOf(c)});
  }

  lemma {:induction false} AddReply(cs: seq<seq<byte>>, c: seq<byte>)
    ensures Grants(cs + [c]) == Grants(cs) + GrantOf(c)
    ensures Ids(cs + [c]) == Ids(cs) + {IdOf(c)}
    ensures Flat(cs + [c]) == Flat(cs) + c
  {
    FlatSnoc(cs, c);
    var r := cs + [c];
    assert r[..|r| - 1] == cs;
    forall x | x in Ids(cs) + {IdOf(c)} ensures x in Ids(r) {
      if x == IdOf(c) { assert r[|cs|] == c; }
      else {
        var i :| 0 <= i < |cs| && IdOf(cs[i]) == x;
        assert r[i] == cs[i];
      }
    }
  }

  lemma AddDelivery(codec: Codec, w0: map<nat, Req>, before: seq<Delivery>, after: seq<Delivery>, cs: seq<seq<byte>>, d: Delivery, c: seq<byte>)
    requires Delivered(codec, w0, before, after, cs) && ReplyTo(codec, w0, d, c)
    ensures Delivered(codec, w0, before, after + [d], cs + [c])
  {
    forall i ensures DeliveredAt(codec, w0, before, after + [d], cs + [c], i) { assert DeliveredAt(codec, w0, before, after, cs, i); }
  }

  /** The 32-bit sum with the prefix cannot have wrapped when a header was read. */
  lemma WholeFrame(spl: nat, total: nat)
    requires spl < U32 && total >= 4 && total == (spl + 4) % U32
    ensures total == spl + 4
  {
  }
}
