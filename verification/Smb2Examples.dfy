/**
 * A frame of one reply, as a server sends it, received
 * (cpp/samba/client/OpenSmbC/src/Smb2Socket.cpp).
 */
module Smb2Examples {
  import opened Options
  import opened Bytes
  import opened Smb2Header
  import opened Smb2Receive

  /** A reply to message 7 that grants 31 credits. */
  const REPLY := Header(MAGIC, 64, 1, 0, 5, 31, 1, 0, 7, Sync(0, 9), 3, Zeros(16))

  lemma ReplyValid()
    ensures Valid(REPLY) && Decode(Layout(REPLY)) == REPLY && HeaderOk(Layout(REPLY), map[7 := 42])
  {
    FieldFits();
    DecodeLayout(REPLY);
    FieldsStand(REPLY);
    FlagBits(REPLY);
    HeaderOkBytes(Layout(REPLY), map[7 := 42]);
  }

  /** 256 bytes behind their length. */
  function Sample(): seq<byte> { [0, 0, 1, 0] + Layout(REPLY) + Zeros(192) }

  /** 88 bytes of fixed part, 100 of variable part; four bytes of padding are left. */
  function Sizes(): Codec { Codec((r, h) => 88, (r, h, f) => 100, (r, h, f, v) => true) }

  /** Where the reply starts, with the request waiting. */
  function Start(): Spot { Spot(4, map[7 := 42], 0, 256) }

  /** The reply alone. */
  function Whole(): seq<byte> { Layout(REPLY) + Zeros(192) }

  lemma Slices(p: seq<byte>, h: seq<byte>, z: seq<byte>)
    requires |p| == 4 && |h| == HEADER_SIZE && |z| == 192
    ensures var s := p + h + z;
            && |s| == 260 && s[0..4] == p && s[4..] == h + z && s[4..260] == h + z
            && s[4..4 + HEADER_SIZE] == h && (h + z)[..HEADER_SIZE] == h && (h + z)[HEADER_SIZE..] == z && h[..HEADER_SIZE] == h
  {
  }

  lemma SampleFits()
    ensures OneFits(Sizes(), map[7 := 42], Whole(), 256)
  {
    Slices([0, 0, 1, 0], Layout(REPLY), Zeros(192));
    ReplyValid();
    assert BodyFits(Sizes(), 42, REPLY, Zeros(192), 192);
  }

  lemma SampleStands()
    ensures var s := Sample();
            |s| == 260 && s[0..4] == [0, 0, 1, 0] && s[4..] == Whole() && HeaderAt(s, 4) == Layout(REPLY) && LastAt(s, Start())
  {
    Slices([0, 0, 1, 0], Layout(REPLY), Zeros(192));
    ReplyValid();
  }

  lemma SampleStart(codec: Codec, s: seq<byte>, at: Spot)
    requires codec == Sizes() && s == Sample() && at == Start()
    ensures |s| == 260 && s[0..4] == [0, 0, 1, 0] && FirstSpot(s, 0, map[7 := 42], 0) == at
  {
    SampleStands();
  }

  lemma SampleAccepted(codec: Codec, s: seq<byte>, at: Spot)
    requires codec == Sizes() && s == Sample() && at == Start()
    ensures Accepts(codec, s, at)
  {
    SampleStands();
    SampleFits();
    assert FitsAt(codec, s, at);
  }

  lemma SampleCut()
    ensures Sample()[4..260] == Whole() && Cut(Whole()) == Some([Whole()]) && !IsPending(Whole())
    ensures Grants([Whole()]) == 31 && Ids([Whole()]) == {7}
  {
    Slices([0, 0, 1, 0], Layout(REPLY), Zeros(192));
    ReplyValid();
    var cs, none: seq<seq<byte>> := [Whole()], [];
    assert cs[..0] == none && Grants(none) == 0 && cs[0] == Whole();
  }

  lemma SampleOutcome(ok: bool, replies: seq<seq<byte>>, cur: Spot, now: Spot, d: seq<Delivery>)
    requires Received(Sizes(), Sample(), 256, Start(), [], ok, replies, cur, now, d)
    ensures ok && now.pos == 260 && now.wait == map[] && now.credits == 31
    ensures |d| == 1 && d[0].req == 42 && d[0].last && |d[0].bufs| >= 3
  {
    SampleAccepted(Sizes(), Sample(), Start());
    SampleCut();
    assert replies == [Whole()];
    OneDelivery(d);
    assert map[7 := 42] - {7} == map[];
  }

  lemma OneDelivery(d: seq<Delivery>)
    requires Settled(Sizes(), map[7 := 42], [], d, [Whole()]) && !IsPending(Whole())
    ensures |d| == 1 && d[0].req == 42 && d[0].last && |d[0].bufs| >= 3
  {
    SampleSent();
    assert DeliveredAt(Sizes(), map[7 := 42], [], d, [Whole()], 0);
  }

  lemma SampleSent()
    ensures IdOf(Whole()) == 7 && NextOf(Whole()) == 0 && Decode(Whole()[..HEADER_SIZE]).status == 0
  {
    Slices([0, 0, 1, 0], Layout(REPLY), Zeros(192));
    ReplyValid();
  }

  /** It is received: one delivery, to the request that waited, with its grant, and nothing is left. */
  method SampleReceived() returns (rc: int, conn: Connection)
    ensures rc == 0 && conn.pos == 260 && conn.wait == map[] && conn.credits == 31
    ensures |conn.delivered| == 1 && conn.delivered[0].req == 42 && conn.delivered[0].last
  {
    SampleStart(Sizes(), Sample(), Start());
    conn := new Connection(Sample(), map[7 := 42]);
    ghost var replies, cur;
    rc, replies, cur := conn.ReceivePdus(Sizes());
    SampleOutcome(rc == 0, replies, cur, Spot(conn.pos, conn.wait, conn.credits, 0), conn.delivered);
  }
}
