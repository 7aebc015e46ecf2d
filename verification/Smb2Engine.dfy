/**
 * The request engine of the SMB2 client: message ids, the out and wait queues,
 * and the credit balance of one connection
 * (cpp/samba/client/OpenSmbC/src/Smb2Context.cpp, Smb2Socket.cpp, Smb2Pdu.cpp).
 *
 * `granted`, `spent`, `issued`, `queued`, `answered` and `lost` are history: no
 * operation reads them.
 */
module Smb2Engine {
  import opened Options
  import opened Bytes
  import opened Smb2Header

  /** A request: `tag` stands for the object, `charge` and `mid` for its header fields. */
  datatype Pdu = Pdu(tag: nat, charge: nat, mid: nat)

  type Chain = seq<Pdu>

  datatype State = State(
    dialect: nat,
    outqueue: map<nat, Chain>,
    waitqueue: map<nat, Pdu>,
    credits: nat,
    messageId: nat,
    granted: nat,
    spent: nat,
    issued: nat,
    queued: set<Pdu>,
    answered: set<Pdu>,
    lost: set<Pdu>)

  function Init(dialect: nat): State {
    State(dialect, map[], map[], 0, 0, 0, 0, 0, {}, {}, {})
  }

  // ----- the operations

  /** Message ids a request takes: one, or as many as its credit charge. */
  function Span(charge: nat): (n: nat)
    ensures n >= 1
  {
    if charge > 1 then charge else 1
  }

  function TotalSpan(c: Chain): nat {
    if c == [] then 0 else Span(c[0].charge) + TotalSpan(c[1..])
  }

  function TotalCharge(c: Chain): nat {
    if c == [] then 0 else c[0].charge + TotalCharge(c[1..])
  }

  /** `encodeHeader` along the chain: each header takes the counter, then the counter advances. */
  function Number(c: Chain, next: nat): (r: Chain)
    ensures |r| == |c|
  {
    if c == [] then []
    else [c[0].(mid := next)] + Number(c[1..], (next + Span(c[0].charge)) % U64)
  }

  /**
   * `smb2_queue_pdu`.  `signed` is how many members got numbered before signing
   * failed; the whole chain when it did not fail.
   */
  function Queue(st: State, c: Chain, signed: nat): State
    requires c != [] && signed <= |c|
  {
    var n := Number(c, st.messageId % U64);
    var taken := if signed < |c| then c[..signed + 1] else c;
    var st1 := st.(messageId := (st.messageId + TotalSpan(taken)) % U64, issued := st.issued + TotalSpan(taken));
    if signed < |c| then st1
    else st1.(outqueue := st.outqueue[n[0].mid := n], queued := st.queued + (set p | p in n))
  }

  /** `smb2_pdu_add_to_waitqueue`: the chain is taken apart, each charge leaves the balance. */
  function ToWait(st: State, c: Chain): State
    decreases |c|
  {
    if c == [] then st
    else ToWait(st.(credits := (st.credits - c[0].charge) % U32, spent := st.spent + c[0].charge,
                    waitqueue := st.waitqueue[c[0].mid := c[0]]), c[1..])
  }

  /** The credit test of `sendPdu`. */
  predicate MaySend(st: State, c: Chain) {
    st.dialect > DIALECT_0202 ==> TotalCharge(c) % U32 <= st.credits
  }

  lemma {:induction false} MinExists(s: set<nat>, k: nat)
    requires k in s
    ensures exists m :: m in s && forall j :: j in s ==> m <= j
    decreases k
  {
    if j :| j in s && j < k { MinExists(s, j); }
  }

  /** The next entry in the order of `std::map`. */
  function First(m: map<nat, Chain>): (k: nat)
    requires m != map[]
    ensures k in m && forall j :: j in m ==> k <= j
  {
    assert exists k :: k in m && forall j :: j in m ==> k <= j by {
      var x :| x in m;
      MinExists(m.Keys, x);
      var k :| k in m.Keys && forall j :: j in m.Keys ==> k <= j;
      assert k in m && forall j :: j in m ==> k <= j;
    }
    var k :| k in m && forall j :: j in m ==> k <= j;
    k
  }

  /** One iteration of `sendPdus`: erase, send, and either move to the wait queue or put back. */
  function SendFirst(st: State, ok: nat -> bool): (State, bool)
    requires st.outqueue != map[] && st.outqueue[First(st.outqueue)] != []
  {
    var k := First(st.outqueue);
    var c := st.outqueue[k];
    var erased := st.(outqueue := st.outqueue - {k});
    if MaySend(st, c) && ok(k) then (ToWait(erased, c), true)
    else (erased.(outqueue := erased.outqueue[c[0].mid := c]), false)
  }

  ghost predicate ChainsOk(st: State) {
    forall k :: k in st.outqueue ==> st.outqueue[k] != []
  }

  lemma {:induction false} ToWaitKeepsOut(st: State, c: Chain)
    ensures ToWait(st, c).outqueue == st.outqueue && ToWait(st, c).dialect == st.dialect
    ensures ToWait(st, c).messageId == st.messageId && ToWait(st, c).issued == st.issued && ToWait(st, c).granted == st.granted
    ensures ToWait(st, c).queued == st.queued && ToWait(st, c).answered == st.answered && ToWait(st, c).lost == st.lost
    decreases |c|
  {
    if c != [] {
      ToWaitKeepsOut(st.(credits := (st.credits - c[0].charge) % U32, spent := st.spent + c[0].charge,
                         waitqueue := st.waitqueue[c[0].mid := c[0]]), c[1..]);
    }
  }

  /** `sendPdus`; `ok(k)` says whether the socket takes the chain queued under `k`. */
  function Send(st: State, ok: nat -> bool): (State, bool)
    requires ChainsOk(st)
    decreases |st.outqueue|
  {
    if st.outqueue == map[] then (st, true)
    else
      var (st1, sent) := SendFirst(st, ok);
      if !sent then (st1, false)
      else
        var k := First(st.outqueue);
        assert st1.outqueue == st.outqueue - {k} by { ToWaitKeepsOut(st.(outqueue := st.outqueue - {k}), st.outqueue[k]); }
        assert |st1.outqueue| < |st.outqueue| by { assert (st.outqueue - {k}).Keys == st.outqueue.Keys - {k}; }
        Send(st1, ok)
  }

  /** A reply header: the request leaves the wait queue and the grant enters the balance. */
  function Reply(st: State, mid: nat, grant: nat, pending: bool): State {
    if mid !in st.waitqueue then st
    else
      var p := st.waitqueue[mid];
      var st1 := st.(waitqueue := st.waitqueue - {mid}, credits := (st.credits + grant) % U32, granted := st.granted + grant);
      if pending then st1.(lost := st.lost + {p}) else st1.(answered := st.answered + {p})
  }

  datatype Event =
    | EvQueue(chain: Chain, signed: nat)
    | EvSend(ok: nat -> bool)
    | EvReply(mid: nat, grant: nat, pending: bool)

  /**
   * What one connection gives the engine: charges as the constructor sets them
   * (none at dialect 0x0202), sums that fit the 32-bit total, and fewer than
   * 2^64 message ids.
   */
  predicate Allowed(st: State, e: Event) {
    match e
    case EvQueue(c, signed) =>
      && c != [] && signed <= |c|
      && TotalCharge(c) < U32
      && (st.dialect <= DIALECT_0202 ==> TotalCharge(c) == 0)
      && st.issued + TotalSpan(c) <= U64
    case _ => true
  }

  ghost function Next(st: State, e: Event): State {
    match e
    case EvQueue(c, signed) => if Allowed(st, e) then Queue(st, c, signed) else st
    case EvSend(ok) => if ChainsOk(st) then Send(st, ok).0 else st
    case EvReply(mid, grant, pending) => Reply(st, mid, grant, pending)
  }

  ghost function Exec(dialect: nat, es: seq<Event>): State {
    if es == [] then Init(dialect) else Next(Exec(dialect, es[..|es| - 1]), es[|es| - 1])
  }

  // ----- invariant

  ghost function OutPdus(m: map<nat, Chain>): set<Pdu> {
    set k, p | k in m && p in m[k] :: p
  }

  ghost function WaitPdus(m: map<nat, Pdu>): set<Pdu> {
    set k | k in m :: m[k]
  }

  /** The id windows of two requests do not meet. */
  predicate Apart(p: Pdu, q: Pdu) {
    p.mid + Span(p.charge) <= q.mid || q.mid + Span(q.charge) <= p.mid
  }

  /** Every request ever queued owns its window, below the counter. */
  ghost predicate WindowInv(st: State) {
    && st.issued <= U64 && st.messageId == st.issued % U64
    && (forall p :: p in st.queued ==> p.mid + Span(p.charge) <= st.issued)
    && (forall p, q :: p in st.queued && q in st.queued && p != q ==> Apart(p, q))
  }

  /** Every request ever queued is in exactly one place: a queue, answered, or dropped by an interim reply. */
  ghost predicate PlaceInv(st: State) {
    && st.queued == OutPdus(st.outqueue) + WaitPdus(st.waitqueue) + st.answered + st.lost
    && OutPdus(st.outqueue) !! WaitPdus(st.waitqueue) !! st.answered !! st.lost
  }

  /** The maps are keyed by the message id of the entry, and no request is listed twice. */
  ghost predicate KeyInv(st: State) {
    && (forall k :: k in st.outqueue ==> ChainAt(k, st.outqueue[k]))
    && (forall k :: k in st.waitqueue ==> st.waitqueue[k].mid == k)
    && (forall k, l, p :: k in st.outqueue && l in st.outqueue && p in st.outqueue[k] && p in st.outqueue[l] ==> k == l)
  }

  ghost predicate ChainAt(k: nat, c: Chain) {
    && c != [] && c[0].mid == k
    && forall i, j :: 0 <= i < j < |c| ==> c[i] != c[j]
  }

  /** The balance: what was granted minus what was sent, never below zero. */
  ghost predicate CreditInv(st: State) {
    && st.spent <= st.granted
    && st.credits == (st.granted - st.spent) % U32
    && (forall k :: k in st.outqueue ==> TotalCharge(st.outqueue[k]) < U32)
    && (st.dialect <= DIALECT_0202 ==> forall k :: k in st.outqueue ==> TotalCharge(st.outqueue[k]) == 0)
  }

  ghost predicate Inv(st: State) {
    WindowInv(st) && PlaceInv(st) && KeyInv(st) && CreditInv(st)
  }

  // ----- numbering

  lemma {:induction false} NumberAt(c: Chain, next: nat, i: nat)
    requires i < |c| && next + TotalSpan(c) <= U64 && next < U64
    ensures var r := Number(c, next);
            r[i] == c[i].(mid := next + TotalSpan(c[..i])) && r[i].mid + Span(r[i].charge) <= next + TotalSpan(c)
  {
    var step := next + Span(c[0].charge);
    if i > 0 {
      SpanPositive(c[1..]);
      assert c[..i][1..] == c[1..][..i - 1];
      NumberAt(c[1..], step, i - 1);
    }
  }

  lemma {:induction false} SpanPositive(c: Chain)
    ensures c != [] ==> TotalSpan(c) >= 1
  {
  }

  lemma {:induction false} NumberApart(c: Chain, next: nat, i: nat, j: nat)
    requires i < j < |c| && next + TotalSpan(c) <= U64 && next < U64
    ensures var r := Number(c, next);
            r[i].mid + Span(r[i].charge) <= r[j].mid && next <= r[i].mid
  {
    NumberAt(c, next, i);
    NumberAt(c, next, j);
    SpanPrefix(c, i, j);
  }

  lemma {:induction false} SpanPrefix(c: Chain, i: nat, j: nat)
    requires i < j <= |c|
    ensures TotalSpan(c[..i]) + Span(c[i].charge) <= TotalSpan(c[..j])
  {
    if i == 0 {
      assert c[..j][0] == c[0];
    } else {
      assert c[..i][1..] == c[1..][..i - 1] && c[..j][1..] == c[1..][..j - 1];
      SpanPrefix(c[1..], i - 1, j - 1);
    }
  }

  lemma {:induction false} NumberCharge(c: Chain, next: nat)
    ensures TotalCharge(Number(c, next)) == TotalCharge(c)
    decreases |c|
  {
    if c != [] {
      NumberCharge(c[1..], (next + Span(c[0].charge)) % U64);
      assert Number(c, next)[1..] == Number(c[1..], (next + Span(c[0].charge)) % U64);
    }
  }

  // ----- queueing

  lemma {:induction false} QueueKeepsInv(st: State, c: Chain, signed: nat)
    requires Inv(st) && Allowed(st, EvQueue(c, signed))
    ensures Inv(Queue(st, c, signed))
  {
    SpanPositive(c);
    NumberAll(c, st.issued);
    QueueUnwrapped(st, c, signed);
    if signed < |c| {
      TakenFits(c, signed);
      BurnKeepsInv(st, st.issued + TotalSpan(c[..signed + 1]));
    } else {
      NumberCharge(c, st.issued);
      InsertKeepsInv(st, Number(c, st.issued), st.issued + TotalSpan(c));
    }
  }

  /** While the counter has not wrapped, queueing reads as plain addition. */
  lemma {:induction false} QueueUnwrapped(st: State, c: Chain, signed: nat)
    requires c != [] && signed <= |c| && st.messageId == st.issued < U64
    ensures signed < |c| ==>
              var upto := st.issued + TotalSpan(c[..signed + 1]);
              Queue(st, c, signed) == st.(messageId := upto % U64, issued := upto)
    ensures signed == |c| ==>
              var upto, n := st.issued + TotalSpan(c), Number(c, st.issued);
              Queue(st, c, signed) == st.(messageId := upto % U64, issued := upto, outqueue := st.outqueue[n[0].mid := n],
                                          queued := st.queued + (set p | p in n))
  {
  }

  lemma {:induction false} BurnKeepsInv(st: State, upto: nat)
    requires Inv(st) && st.issued <= upto <= U64
    ensures Inv(st.(messageId := upto % U64, issued := upto))
  {
  }

  lemma {:induction false} InsertKeepsInv(st: State, n: Chain, upto: nat)
    requires Inv(st) && n != [] && Consecutive(n, st.issued, upto) && st.issued <= upto <= U64
    requires TotalCharge(n) < U32 && (st.dialect <= DIALECT_0202 ==> TotalCharge(n) == 0)
    ensures Inv(st.(messageId := upto % U64, issued := upto, outqueue := st.outqueue[n[0].mid := n],
                    queued := st.queued + (set p | p in n)))
  {
    var st' := st.(messageId := upto % U64, issued := upto, outqueue := st.outqueue[n[0].mid := n],
                   queued := st.queued + (set p | p in n));
    QueueWindows(st, n, upto);
    QueuePlaces(st, n);
    OutPdusInsert(st.outqueue, n[0].mid, n);
    QueueKeys(st, n);
    assert WindowInv(st');
    assert PlaceInv(st');
    assert CreditInv(st');
  }

  lemma {:induction false} TakenFits(c: Chain, signed: nat)
    requires signed < |c|
    ensures TotalSpan(c[..signed + 1]) <= TotalSpan(c)
  {
    assert c[..|c|] == c;
    if signed + 1 < |c| { SpanPrefix(c, signed + 1, |c|); }
  }

  /** A freshly numbered chain: windows from `from` up, one after the other. */
  ghost predicate Consecutive(n: Chain, from: nat, upto: nat) {
    && (forall i :: 0 <= i < |n| ==> from <= n[i].mid && n[i].mid + Span(n[i].charge) <= upto)
    && (forall i, j :: 0 <= i < j < |n| ==> n[i].mid + Span(n[i].charge) <= n[j].mid)
  }

  lemma {:induction false} NumberAll(c: Chain, next: nat)
    requires next + TotalSpan(c) <= U64 && next < U64
    ensures Consecutive(Number(c, next), next, next + TotalSpan(c))
    ensures c != [] ==> Number(c, next)[0].mid == next
  {
    var n := Number(c, next);
    forall i | 0 <= i < |n| ensures next <= n[i].mid && n[i].mid + Span(n[i].charge) <= next + TotalSpan(c) {
      NumberAt(c, next, i);
    }
    forall i, j | 0 <= i < j < |n| ensures n[i].mid + Span(n[i].charge) <= n[j].mid { NumberApart(c, next, i, j); }
  }

  lemma {:induction false} QueueWindows(st: State, n: Chain, upto: nat)
    requires WindowInv(st) && Consecutive(n, st.issued, upto) && upto <= U64 && st.issued <= upto
    ensures var all := st.queued + set p | p in n;
            && (forall p :: p in all ==> p.mid + Span(p.charge) <= upto)
            && (forall p, q :: p in all && q in all && p != q ==> Apart(p, q))
  {
    forall p, q | p in st.queued + (set p | p in n) && q in st.queued + (set p | p in n) && p != q ensures Apart(p, q) {
      if p in n && q in n {
        var i :| 0 <= i < |n| && n[i] == p;
        var j :| 0 <= j < |n| && n[j] == q;
      }
    }
  }

  /** The new key is new: nothing is overwritten. */
  lemma {:induction false} QueuePlaces(st: State, n: Chain)
    requires WindowInv(st) && PlaceInv(st) && KeyInv(st) && n != [] && Consecutive(n, st.issued, U64)
    ensures n[0].mid !in st.outqueue
    ensures forall p :: p in n ==> p !in st.queued
  {
    var m := st.outqueue;
    forall k | k in m ensures k != n[0].mid { assert ChainAt(k, m[k]) && m[k][0] in m[k]; assert m[k][0] in OutPdus(m); }
  }

  lemma {:induction false} OutPdusInsert(m: map<nat, Chain>, k: nat, c: Chain)
    requires k !in m
    ensures OutPdus(m[k := c]) == OutPdus(m) + set p | p in c
  {
    var m' := m[k := c];
    forall p | p in OutPdus(m) ensures p in OutPdus(m') {
      var l :| l in m && p in m[l];
      assert l in m' && p in m'[l];
    }
    forall p | p in c ensures p in OutPdus(m') { assert k in m' && p in m'[k]; }
  }

  lemma {:induction false} QueueKeys(st: State, n: Chain)
    requires PlaceInv(st) && KeyInv(st) && n != [] && Consecutive(n, st.issued, U64)
    requires n[0].mid !in st.outqueue && forall p :: p in n ==> p !in st.queued
    ensures KeyInv(st.(outqueue := st.outqueue[n[0].mid := n]))
  {
    var m := st.outqueue;
    forall k, p | k in m && p in m[k] ensures p !in n { assert p in OutPdus(m); }
  }

  // ----- sending

  /** Nothing in the wait queue is overwritten and no subtraction wraps. */
  ghost predicate Movable(st: State, c: Chain) {
    && st.credits < U32 && TotalCharge(c) <= st.credits
    && (forall p :: p in c ==> p.mid !in st.waitqueue)
    && (forall i, j :: 0 <= i < j < |c| ==> c[i].mid != c[j].mid)
  }

  lemma {:induction false} ToWaitEffect(st: State, c: Chain)
    requires Movable(st, c)
    requires forall k :: k in st.waitqueue ==> st.waitqueue[k].mid == k
    ensures var r := ToWait(st, c);
            && r == st.(waitqueue := r.waitqueue, credits := st.credits - TotalCharge(c), spent := st.spent + TotalCharge(c))
            && WaitPdus(r.waitqueue) == WaitPdus(st.waitqueue) + (set p | p in c)
            && forall k :: k in r.waitqueue ==> r.waitqueue[k].mid == k
    decreases |c|
  {
    if c != [] {
      var p, rest := c[0], c[1..];
      var st1 := st.(credits := (st.credits - p.charge) % U32, spent := st.spent + p.charge, waitqueue := st.waitqueue[p.mid := p]);
      assert st1.credits == st.credits - p.charge;
      WaitPdusInsert(st.waitqueue, p);
      assert forall q :: q in c <==> q == p || q in rest;
      ToWaitEffect(st1, rest);
    }
  }

  lemma {:induction false} WaitPdusInsert(m: map<nat, Pdu>, p: Pdu)
    requires p.mid !in m
    ensures WaitPdus(m[p.mid := p]) == WaitPdus(m) + {p}
  {
    var m' := m[p.mid := p];
    assert m'[p.mid] == p;
    forall q | q in WaitPdus(m) ensures q in WaitPdus(m') {
      var k :| k in m && m[k] == q;
      assert m'[k] == q;
    }
  }

  lemma {:induction false} OutPdusErase(m: map<nat, Chain>, k: nat)
    requires k in m && forall l, p :: l in m && p in m[k] && p in m[l] ==> k == l
    ensures OutPdus(m - {k}) == OutPdus(m) - set p | p in m[k]
  {
    var m' := m - {k};
    forall p | p in OutPdus(m) && p !in m[k] ensures p in OutPdus(m') {
      var l :| l in m && p in m[l];
      assert l in m' && p in m'[l];
    }
  }

  /** What the credit test buys: the whole chain can be paid for, at any dialect. */
  lemma {:induction false} ChainMovable(st: State, k: nat)
    requires Inv(st) && k in st.outqueue && MaySend(st, st.outqueue[k])
    ensures Movable(st, st.outqueue[k])
  {
    var c := st.outqueue[k];
    forall p | p in c ensures p in st.queued && p.mid !in st.waitqueue {
      assert p in OutPdus(st.outqueue);
      forall l | l in st.waitqueue ensures l != p.mid { assert st.waitqueue[l] in WaitPdus(st.waitqueue); }
    }
    forall i, j | 0 <= i < j < |c| ensures c[i].mid != c[j].mid { assert ChainAt(k, c) && c[i] in c && c[j] in c; }
  }

  /** A successful send conserves the outstanding requests and pays exactly the chain's charge. */
  lemma {:induction false} MoveKeepsInv(st: State, k: nat)
    requires Inv(st) && k in st.outqueue && MaySend(st, st.outqueue[k])
    ensures var r := ToWait(st.(outqueue := st.outqueue - {k}), st.outqueue[k]);
            && Inv(r)
            && r.credits == st.credits - TotalCharge(st.outqueue[k])
            && OutPdus(r.outqueue) + WaitPdus(r.waitqueue) == OutPdus(st.outqueue) + WaitPdus(st.waitqueue)
  {
    var c := st.outqueue[k];
    var st0 := st.(outqueue := st.outqueue - {k});
    ChainMovable(st, k);
    ToWaitEffect(st0, c);
    OutPdusErase(st.outqueue, k);
    var r := ToWait(st0, c);
    assert forall p :: p in c ==> p in OutPdus(st.outqueue);
    assert PlaceInv(r);
    assert KeyInv(r);
    PaidBalance(st, c);
    assert CreditInv(r);
  }

  lemma {:induction false} PaidBalance(st: State, c: Chain)
    requires CreditInv(st) && TotalCharge(c) <= st.credits
    ensures st.spent + TotalCharge(c) <= st.granted
    ensures st.credits - TotalCharge(c) == (st.granted - st.spent - TotalCharge(c)) % U32
  {
    var x, n := st.granted - st.spent, TotalCharge(c);
    assert x == U32 * (x / U32) + x % U32;
    assert x - n == U32 * (x / U32) + (x % U32 - n);
  }

  /** A failed send puts the chain back where it was. */
  lemma {:induction false} RollBack(st: State, ok: nat -> bool)
    requires KeyInv(st) && st.outqueue != map[] && st.outqueue[First(st.outqueue)] != []
    ensures !SendFirst(st, ok).1 ==> SendFirst(st, ok).0 == st
  {
    var k := First(st.outqueue);
    assert ChainAt(k, st.outqueue[k]);
    assert (st.outqueue - {k})[k := st.outqueue[k]] == st.outqueue;
  }

  lemma {:induction false} SendKeepsInv(st: State, ok: nat -> bool)
    requires Inv(st) && ChainsOk(st)
    ensures Inv(Send(st, ok).0)
    ensures Outstanding(Send(st, ok).0) == Outstanding(st)
    ensures Send(st, ok).1 ==> Send(st, ok).0.outqueue == map[]
    decreases |st.outqueue|
  {
    if st.outqueue != map[] {
      var k := First(st.outqueue);
      RollBack(st, ok);
      if SendFirst(st, ok).1 {
        MoveKeepsInv(st, k);
        ToWaitKeepsOut(st.(outqueue := st.outqueue - {k}), st.outqueue[k]);
        assert (st.outqueue - {k}).Keys == st.outqueue.Keys - {k};
        SendKeepsInv(SendFirst(st, ok).0, ok);
      }
    }
  }

  ghost function Outstanding(st: State): set<Pdu> {
    OutPdus(st.outqueue) + WaitPdus(st.waitqueue)
  }

  // ----- replies

  lemma {:induction false} WaitPdusErase(m: map<nat, Pdu>, k: nat)
    requires k in m && forall l :: l in m ==> m[l].mid == l
    ensures WaitPdus(m - {k}) == WaitPdus(m) - {m[k]}
  {
    var m' := m - {k};
    forall q | q in WaitPdus(m) && q != m[k] ensures q in WaitPdus(m') {
      var l :| l in m && m[l] == q;
      assert l in m' && m'[l] == q;
    }
  }

  /** A matched reply takes out exactly the request with that id. */
  lemma {:induction false} ReplyKeepsInv(st: State, mid: nat, grant: nat, pending: bool)
    requires Inv(st)
    ensures Inv(Reply(st, mid, grant, pending))
    ensures mid in st.waitqueue ==> Outstanding(Reply(st, mid, grant, pending)) == Outstanding(st) - {st.waitqueue[mid]}
    ensures mid !in st.waitqueue ==> Reply(st, mid, grant, pending) == st
  {
    if mid in st.waitqueue {
      var r := Reply(st, mid, grant, pending);
      WaitPdusErase(st.waitqueue, mid);
      assert st.waitqueue[mid] in WaitPdus(st.waitqueue);
      assert PlaceInv(r);
      GrantBalance(st, grant);
      assert CreditInv(r);
    }
  }

  lemma {:induction false} GrantBalance(st: State, grant: nat)
    requires CreditInv(st)
    ensures (st.credits + grant) % U32 == (st.granted + grant - st.spent) % U32
  {
    var x := st.granted - st.spent;
    assert x == U32 * (x / U32) + x % U32;
    assert x + grant == U32 * (x / U32) + (x % U32 + grant);
  }

  // ----- whole runs

  lemma {:induction false} NextKeepsInv(st: State, e: Event)
    requires Inv(st)
    ensures Inv(Next(st, e))
  {
    match e
    case EvQueue(c, signed) => if Allowed(st, e) { QueueKeepsInv(st, c, signed); }
    case EvSend(ok) => if ChainsOk(st) { SendKeepsInv(st, ok); }
    case EvReply(mid, grant, pending) => ReplyKeepsInv(st, mid, grant, pending);
  }

  /** In every run, windows stay disjoint, every request is in one place, and the balance is the ledger's. */
  lemma {:induction false} RunKeepsInv(dialect: nat, es: seq<Event>)
    ensures Inv(Exec(dialect, es))
  {
    if es != [] {
      RunKeepsInv(dialect, es[..|es| - 1]);
      NextKeepsInv(Exec(dialect, es[..|es| - 1]), es[|es| - 1]);
    }
  }

  // ----- the ledger, read off the events

  /** What the replies granted that found their request. */
  ghost function Grants(dialect: nat, es: seq<Event>): nat {
    if es == [] then 0
    else
      var front, e := es[..|es| - 1], es[|es| - 1];
      Grants(dialect, front) + if e.EvReply? && e.mid in Exec(dialect, front).waitqueue then e.grant else 0
  }

  /** The charges of the chains that were queued. */
  ghost function Charges(dialect: nat, es: seq<Event>): nat {
    if es == [] then 0
    else
      var front, e := es[..|es| - 1], es[|es| - 1];
      Charges(dialect, front) + if e.EvQueue? && Allowed(Exec(dialect, front), e) && e.signed == |e.chain| then TotalCharge(e.chain) else 0
  }

  /** The ids that queueing took, also for a chain whose signature failed on the way. */
  ghost function IdsTaken(dialect: nat, es: seq<Event>): nat {
    if es == [] then 0
    else
      var front, e := es[..|es| - 1], es[|es| - 1];
      IdsTaken(dialect, front) + if e.EvQueue? && Allowed(Exec(dialect, front), e)
                                 then TotalSpan(if e.signed < |e.chain| then e.chain[..e.signed + 1] else e.chain) else 0
  }

  /** The charges of the chains still in the out queue. */
  ghost function OutCharge(m: map<nat, Chain>): nat {
    if m == map[] then 0
    else
      var k := First(m);
      assert (m - {k}).Keys == m.Keys - {k};
      TotalCharge(m[k]) + OutCharge(m - {k})
  }

  lemma {:induction false} OutChargeInsert(m: map<nat, Chain>, k: nat, c: Chain)
    requires k !in m
    ensures OutCharge(m[k := c]) == OutCharge(m) + TotalCharge(c)
    decreases |m|
  {
    var m' := m[k := c];
    assert k in m';
    var f := First(m');
    if f == k {
      assert m' - {k} == m;
    } else {
      assert First(m) in m' && f in m;
      assert First(m) == f;
      assert m' - {f} == (m - {f})[k := c];
      assert (m - {f}).Keys == m.Keys - {f};
      OutChargeInsert(m - {f}, k, c);
    }
  }

  ghost predicate Balanced(st: State, grants: nat, charges: nat, ids: nat) {
    st.granted == grants && st.spent + OutCharge(st.outqueue) == charges && st.issued == ids
  }

  lemma {:induction false} SendBalanced(st: State, ok: nat -> bool)
    requires Inv(st) && ChainsOk(st)
    ensures var r := Send(st, ok).0;
            r.granted == st.granted && r.issued == st.issued && r.spent + OutCharge(r.outqueue) == st.spent + OutCharge(st.outqueue)
    decreases |st.outqueue|
  {
    if st.outqueue != map[] {
      RollBack(st, ok);
      if SendFirst(st, ok).1 {
        FirstLeaves(st, ok);
        SendBalanced(SendFirst(st, ok).0, ok);
      }
    }
  }

  /** The first chain is sent: it leaves the out queue, is paid for and waits. */
  lemma {:induction false} FirstLeaves(st: State, ok: nat -> bool)
    requires Inv(st) && ChainsOk(st) && st.outqueue != map[] && SendFirst(st, ok).1
    ensures var k, r := First(st.outqueue), SendFirst(st, ok).0;
            && Inv(r) && ChainsOk(r) && r.outqueue == st.outqueue - {k} && |r.outqueue| < |st.outqueue|
            && r.granted == st.granted && r.issued == st.issued && r.dialect == st.dialect
            && r.spent == st.spent + TotalCharge(st.outqueue[k]) && r.credits == st.credits - TotalCharge(st.outqueue[k])
            && Outstanding(r) == Outstanding(st)
  {
    var k := First(st.outqueue);
    var erased := st.(outqueue := st.outqueue - {k});
    MoveKeepsInv(st, k);
    ChainMovable(st, k);
    ToWaitEffect(erased, st.outqueue[k]);
    assert (st.outqueue - {k}).Keys == st.outqueue.Keys - {k};
  }

  lemma {:induction false} QueueBalanced(st: State, c: Chain, signed: nat)
    requires Inv(st) && Allowed(st, EvQueue(c, signed))
    ensures var r := Queue(st, c, signed);
            && r.granted == st.granted
            && r.issued == st.issued + TotalSpan(if signed < |c| then c[..signed + 1] else c)
            && r.spent + OutCharge(r.outqueue) == st.spent + OutCharge(st.outqueue) + if signed == |c| then TotalCharge(c) else 0
  {
    SpanPositive(c);
    QueueUnwrapped(st, c, signed);
    if signed == |c| {
      NumberAll(c, st.issued);
      NumberCharge(c, st.issued);
      NewChain(st, Number(c, st.issued));
    }
  }

  lemma {:induction false} NewChain(st: State, n: Chain)
    requires Inv(st) && n != [] && Consecutive(n, st.issued, U64)
    ensures OutCharge(st.outqueue[n[0].mid := n]) == OutCharge(st.outqueue) + TotalCharge(n)
  {
    QueuePlaces(st, n);
    OutChargeInsert(st.outqueue, n[0].mid, n);
  }

  lemma {:induction false} RunBalanced(dialect: nat, es: seq<Event>)
    ensures Balanced(Exec(dialect, es), Grants(dialect, es), Charges(dialect, es), IdsTaken(dialect, es))
  {
    if es != [] {
      var front, e := es[..|es| - 1], es[|es| - 1];
      RunBalanced(dialect, front);
      RunKeepsInv(dialect, front);
      var st := Exec(dialect, front);
      match e
      case EvQueue(c, signed) => if Allowed(st, e) { QueueBalanced(st, c, signed); }
      case EvSend(ok) => if ChainsOk(st) { SendBalanced(st, ok); }
      case EvReply(mid, grant, pending) =>
    }
  }

  /**
   * The balance is what the replies of the run granted less the charges of the chains
   * that left the out queue, modulo 2^32: it never underflows, and is exact as long as
   * the server's surplus fits the field.  The counter is the number of ids taken.
   */
  lemma {:induction false} CreditsAreTheLedger(dialect: nat, es: seq<Event>)
    ensures var st := Exec(dialect, es);
            var surplus: int := Grants(dialect, es) - (Charges(dialect, es) - OutCharge(st.outqueue));
            && 0 <= OutCharge(st.outqueue) <= Charges(dialect, es) && 0 <= surplus
            && st.credits == surplus % U32
            && (st.credits == surplus <==> surplus < U32)
            && st.messageId == IdsTaken(dialect, es) % U64
  {
    RunKeepsInv(dialect, es);
    RunBalanced(dialect, es);
    var st := Exec(dialect, es);
    var x := st.granted - st.spent;
    assert x == U32 * (x / U32) + x % U32;
  }

  // ----- what is sent

  /** One chain: it is the one of the lowest id, and it goes exactly when the balance covers it, or nothing is charged, and the socket takes it. */
  lemma {:induction false} SendFirstIff(st: State, ok: nat -> bool)
    requires Inv(st) && st.outqueue != map[] && st.outqueue[First(st.outqueue)] != []
    ensures var k := First(st.outqueue);
            && (forall j :: j in st.outqueue ==> k <= j)
            && (SendFirst(st, ok).1 <==> (st.dialect <= 0x0202 || TotalCharge(st.outqueue[k]) <= st.credits) && ok(k))
  {
  }

  /** When the balance covers the out queue and the socket takes it, everything is sent and waits. */
  lemma {:induction false} AllIsSent(st: State, ok: nat -> bool)
    requires Inv(st) && ChainsOk(st) && OutCharge(st.outqueue) <= st.credits && forall k :: k in st.outqueue ==> ok(k)
    ensures var (r, sent) := Send(st, ok);
            sent && r.outqueue == map[] && WaitPdus(r.waitqueue) == Outstanding(st) && r.credits == st.credits - OutCharge(st.outqueue)
    decreases |st.outqueue|
  {
    if st.outqueue != map[] {
      SendFirstIff(st, ok);
      FirstLeaves(st, ok);
      AllIsSent(SendFirst(st, ok).0, ok);
    } else {
      assert OutPdus(st.outqueue) == {};
    }
  }

  /** Requests with charges 0, 1, 5 and 2: the ids they get. */
  lemma {:induction false} IdsByCharge(a: nat, b: nat, c: nat, d: nat, from: nat)
    requires from < 0x1_0000
    ensures var n := Number([Pdu(a, 0, 0)] + ([Pdu(b, 1, 0)] + ([Pdu(c, 5, 0)] + ([Pdu(d, 2, 0)] + []))), from);
            |n| == 4 && n[0].mid == from && n[1].mid == from + 1 && n[2].mid == from + 2 && n[3].mid == from + 7
  {
    var w, x, y, z := Pdu(a, 0, 0), Pdu(b, 1, 0), Pdu(c, 5, 0), Pdu(d, 2, 0);
    NumberOne(w, [x] + ([y] + ([z] + [])), from);
    NumberOne(x, [y] + ([z] + []), from + 1);
    NumberOne(y, [z] + [], from + 2);
    NumberOne(z, [], from + 7);
  }

  lemma {:induction false} NumberOne(p: Pdu, rest: Chain, next: nat)
    requires next < 0x2_0000 && p.charge < 0x1_0000
    ensures Number([p] + rest, next) == [p.(mid := next)] + Number(rest, next + Span(p.charge))
  {
    assert ([p] + rest)[1..] == rest;
  }

  /** A reply id names one request: the one queued with that window, not answered before. */
  lemma {:induction false} ReplyFindsItsRequest(dialect: nat, es: seq<Event>, mid: nat)
    requires mid in Exec(dialect, es).waitqueue
    ensures var st := Exec(dialect, es);
            var p := st.waitqueue[mid];
            && p.mid == mid && p in st.queued && p !in st.answered && p !in st.lost
            && forall q :: q in st.queued && q != p ==> !(q.mid <= mid < q.mid + Span(q.charge))
  {
    RunKeepsInv(dialect, es);
    var st := Exec(dialect, es);
    assert st.waitqueue[mid] in WaitPdus(st.waitqueue);
  }

  // ----- from the wait queue to the reply

  /** Requests whose reply, final or interim, has come. */
  function Replied(st: State): set<Pdu> { st.answered + st.lost }

  lemma {:induction false} ToWaitKeepsWaiting(st: State, c: Chain, mid: nat)
    requires mid in st.waitqueue
    ensures mid in ToWait(st, c).waitqueue
    decreases |c|
  {
    if c != [] {
      ToWaitKeepsWaiting(st.(credits := (st.credits - c[0].charge) % U32, spent := st.spent + c[0].charge,
                             waitqueue := st.waitqueue[c[0].mid := c[0]]), c[1..], mid);
    }
  }

  /** Sending takes nothing off the wait queue and settles no request. */
  lemma {:induction false} SendKeepsWaiting(st: State, ok: nat -> bool, mid: nat)
    requires ChainsOk(st)
    ensures Replied(Send(st, ok).0) == Replied(st)
    ensures mid in st.waitqueue ==> mid in Send(st, ok).0.waitqueue
    decreases |st.outqueue|
  {
    if st.outqueue != map[] {
      var k := First(st.outqueue);
      var erased := st.(outqueue := st.outqueue - {k});
      ToWaitKeepsOut(erased, st.outqueue[k]);
      if mid in st.waitqueue { ToWaitKeepsWaiting(erased, st.outqueue[k], mid); }
      assert (st.outqueue - {k}).Keys == st.outqueue.Keys - {k};
      if SendFirst(st, ok).1 { SendKeepsWaiting(SendFirst(st, ok).0, ok, mid); }
    }
  }

  predicate RepliesTo(e: Event, mid: nat) { e.EvReply? && e.mid == mid }

  /** One event: what replied stays so; who waits goes on waiting, unless it is the reply. */
  lemma {:induction false} WaitingNext(st: State, e: Event, mid: nat)
    requires Inv(st)
    ensures Replied(st) <= Replied(Next(st, e))
    ensures mid in st.waitqueue && !RepliesTo(e, mid) ==> mid in Next(st, e).waitqueue
    ensures mid in st.waitqueue && RepliesTo(e, mid) ==> st.waitqueue[mid] in Replied(Next(st, e))
  {
    if e.EvSend? && ChainsOk(st) { SendKeepsWaiting(st, e.ok, mid); }
  }

  lemma {:induction false} SettledUnmatched(st: State, p: Pdu)
    requires Inv(st) && p in Replied(st)
    ensures p.mid !in st.waitqueue
  {
    forall l | l in st.waitqueue ensures l != p.mid { assert st.waitqueue[l] in WaitPdus(st.waitqueue); }
  }

  lemma {:induction false} OneOfAnId(st: State, p: Pdu)
    requires Inv(st) && p in st.queued && p.mid in st.waitqueue
    ensures st.waitqueue[p.mid] == p
  {
    assert st.waitqueue[p.mid] in WaitPdus(st.waitqueue);
  }

  lemma {:induction false} QueuedStays(st: State, e: Event)
    requires Inv(st)
    ensures st.queued <= Next(st, e).queued
  {
    if e.EvSend? && ChainsOk(st) { SendKeepsQueued(st, e.ok); }
  }

  lemma {:induction false} SendKeepsQueued(st: State, ok: nat -> bool)
    requires ChainsOk(st)
    ensures Send(st, ok).0.queued == st.queued
    decreases |st.outqueue|
  {
    if st.outqueue != map[] {
      var k := First(st.outqueue);
      ToWaitKeepsOut(st.(outqueue := st.outqueue - {k}), st.outqueue[k]);
      assert (st.outqueue - {k}).Keys == st.outqueue.Keys - {k};
      if SendFirst(st, ok).1 { SendKeepsQueued(SendFirst(st, ok).0, ok); }
    }
  }

  /** No event of the run is a reply with this id. */
  predicate NoReply(es: seq<Event>, mid: nat) {
    forall i | 0 <= i < |es| :: !RepliesTo(es[i], mid)
  }

  /**
   * Each reply is matched to its own request, once: whatever else happens, a
   * waiting request is found under its id, itself, exactly as long as no reply with
   * that id has come, be it the final or an interim one.
   */
  lemma {:induction false} MatchedOnce(dialect: nat, es: seq<Event>, more: seq<Event>, mid: nat)
    requires mid in Exec(dialect, es).waitqueue
    ensures var p, st := Exec(dialect, es).waitqueue[mid], Exec(dialect, es + more);
            && (mid in st.waitqueue <==> NoReply(more, mid))
            && (NoReply(more, mid) ==> st.waitqueue[mid] == p)
            && (!NoReply(more, mid) ==> p in Replied(st))
  {
    WaitOrReplied(dialect, es, more, mid);
    var p, st := Exec(dialect, es).waitqueue[mid], Exec(dialect, es + more);
    RunKeepsInv(dialect, es);
    RunKeepsInv(dialect, es + more);
    assert p.mid == mid;
    if NoReply(more, mid) { OneOfAnId(st, p); } else { SettledUnmatched(st, p); }
  }

  lemma {:induction false} WaitOrReplied(dialect: nat, es: seq<Event>, more: seq<Event>, mid: nat)
    requires mid in Exec(dialect, es).waitqueue
    ensures var p, st := Exec(dialect, es).waitqueue[mid], Exec(dialect, es + more);
            && p in st.queued
            && if NoReply(more, mid) then mid in st.waitqueue else p in Replied(st)
    decreases |more|
  {
    RunKeepsInv(dialect, es);
    if more == [] {
      assert es + more == es;
      assert Exec(dialect, es).waitqueue[mid] in WaitPdus(Exec(dialect, es).waitqueue);
    } else {
      var n := |more| - 1;
      var front, e := more[..n], more[n];
      WaitOrReplied(dialect, es, front, mid);
      RunKeepsInv(dialect, es + front);
      var st := Exec(dialect, es + front);
      NextEvent(dialect, es, more);
      WaitingNext(st, e, mid);
      QueuedStays(st, e);
      NoReplySnoc(more, mid);
      if NoReply(front, mid) { OneOfAnId(st, Exec(dialect, es).waitqueue[mid]); }
    }
  }

  lemma {:induction false} NextEvent(dialect: nat, es: seq<Event>, more: seq<Event>)
    requires more != []
    ensures Exec(dialect, es + more) == Next(Exec(dialect, es + more[..|more| - 1]), more[|more| - 1])
  {
    assert (es + more)[..|es + more| - 1] == es + more[..|more| - 1];
  }

  lemma NoReplySnoc(es: seq<Event>, mid: nat)
    requires es != []
    ensures NoReply(es, mid) <==> NoReply(es[..|es| - 1], mid) && !RepliesTo(es[|es| - 1], mid)
  {
    var front := es[..|es| - 1];
    if NoReply(front, mid) && !RepliesTo(es[|es| - 1], mid) {
      forall i | 0 <= i < |es| ensures !RepliesTo(es[i], mid) {
        if i < |front| { assert front[i] == es[i]; }
      }
    }
    if NoReply(es, mid) {
      forall i | 0 <= i < |front| ensures !RepliesTo(front[i], mid) { assert front[i] == es[i]; }
    }
  }

  /** So after an interim PENDING reply no later reply finds the request, whatever else happens. */
  lemma {:induction false} InterimReplyDropsRequest(dialect: nat, es: seq<Event>, mid: nat, grant: nat, more: seq<Event>)
    requires mid in Exec(dialect, es).waitqueue
    ensures mid !in Exec(dialect, es + [EvReply(mid, grant, true)] + more).waitqueue
  {
    var rest := [EvReply(mid, grant, true)] + more;
    assert RepliesTo(rest[0], mid);
    MatchedOnce(dialect, es, rest, mid);
    assert es + rest == es + [EvReply(mid, grant, true)] + more;
  }

  /** Queue, send, PENDING, final reply: the final reply finds nothing, and its grant is lost with it. */
  lemma {:induction false} PendingThenFinal()
    ensures var p := Pdu(7, 0, 0);
            var es := [EvQueue([Pdu(7, 0, 99)], 1), EvSend(k => true)];
            && Exec(DIALECT_0202, es).waitqueue == map[0 := p]
            && Exec(DIALECT_0202, es + [EvReply(0, 1, true)] + [EvReply(0, 1, false)])
               == State(DIALECT_0202, map[], map[], 1, 1, 1, 0, 1, {p}, {}, {p})
  {
    var p, q, send := Pdu(7, 0, 0), EvQueue([Pdu(7, 0, 99)], 1), EvSend(k => true);
    var interim, final := EvReply(0, 1, true), EvReply(0, 1, false);
    var s0 := Init(DIALECT_0202);
    var s1 := s0.(outqueue := map[0 := [p]], messageId := 1, issued := 1, queued := {p});
    var s2 := s1.(outqueue := map[], waitqueue := map[0 := p]);
    var s3 := s2.(waitqueue := map[], credits := 1, granted := 1, lost := {p});
    FirstQueued(s0, s1, p);
    FirstSent(s1, s2, p, send.ok);
    assert [q][..0] == [] && [q, send][..1] == [q];
    assert Exec(DIALECT_0202, [q]) == s1;
    assert Exec(DIALECT_0202, [q, send]) == s2;
    assert ([q, send] + [interim])[..2] == [q, send] && ([q, send] + [interim] + [final])[..3] == [q, send] + [interim];
    assert Next(s2, interim) == s3 && Next(s3, final) == s3;
  }

  lemma FirstQueued(s0: State, s1: State, p: Pdu)
    requires s0 == Init(DIALECT_0202) && p == Pdu(7, 0, 0)
    requires s1 == s0.(outqueue := map[0 := [p]], messageId := 1, issued := 1, queued := {p})
    ensures Next(s0, EvQueue([Pdu(7, 0, 99)], 1)) == s1
  {
    var c := [Pdu(7, 0, 99)];
    assert c[1..] == [] && TotalSpan(c) == 1 && TotalCharge(c) == 0;
    assert Number(c, 0) == [p];
    assert s0.queued + (set x | x in [p]) == {p};
  }

  lemma FirstSent(s1: State, s2: State, p: Pdu, ok: nat -> bool)
    requires s1.outqueue == map[0 := [p]] && s1.waitqueue == map[] && s1.dialect == DIALECT_0202 && s1.credits == 0 && p.charge == 0 && p.mid == 0
    requires s2 == s1.(outqueue := map[], waitqueue := map[0 := p]) && ok(0)
    ensures ChainsOk(s1) && Send(s1, ok).0 == s2
  {
    assert 0 in s1.outqueue && First(s1.outqueue) == 0 && s1.outqueue - {0} == map[];
    assert [p][1..] == [];
    assert ToWait(s1.(outqueue := map[]), [p]) == s2;
  }

  // ----- the context object

  /** `next` is the context's counter, which every header takes and advances. */
  method NumberFrom(chain: Chain, signed: nat, first: nat) returns (numbered: Chain, next: nat)
    requires signed <= |chain| && first < U64
    ensures next == (first + TotalSpan(if signed < |chain| then chain[..signed + 1] else chain)) % U64
    ensures signed == |chain| ==> numbered == Number(chain, first)
  {
    numbered, next := [], first;
    var i := 0;
    while i < |chain|
      invariant i <= |chain| && i <= signed && next < U64
      invariant next == (first + TotalSpan(chain[..i])) % U64
      invariant numbered + Number(chain[i..], next) == Number(chain, first)
    {
      NumberStep(chain[i..], next, chain[i + 1..]);
      AddPdu(numbered, chain[i].(mid := next), Number(chain[i + 1..], (next + Span(chain[i].charge)) % U64));
      numbered := numbered + [chain[i].(mid := next)];
      SpanSnoc(chain, i);
      WrapSum64(first + TotalSpan(chain[..i]), Span(chain[i].charge));
      next := (next + Span(chain[i].charge)) % U64;
      if i == signed { return; }
      i := i + 1;
    }
    assert chain[..i] == chain && chain[i..] == [];
  }

  lemma AddPdu(a: Chain, p: Pdu, b: Chain)
    ensures a + ([p] + b) == a + [p] + b
  {
  }

  class Context {
    const dialect: nat
    var outqueue: map<nat, Chain>
    var waitqueue: map<nat, Pdu>
    var credits: nat
    var messageId: nat
    ghost var granted: nat
    ghost var spent: nat
    ghost var issued: nat
    ghost var queued: set<Pdu>
    ghost var answered: set<Pdu>
    ghost var lost: set<Pdu>

    constructor (dialect: nat)
      ensures View() == Init(dialect)
    {
      this.dialect := dialect;
      outqueue, waitqueue, credits, messageId := map[], map[], 0, 0;
      granted, spent, issued, queued, answered, lost := 0, 0, 0, {}, {}, {};
    }

    ghost function View(): State
      reads this
    {
      State(dialect, outqueue, waitqueue, credits, messageId, granted, spent, issued, queued, answered, lost)
    }

    /** The loop of `smb2_queue_pdu`: number, then sign, until the end or the first failed signature. */
    method NumberChain(chain: Chain, signed: nat) returns (numbered: Chain)
      requires chain != [] && signed <= |chain| && messageId < U64
      modifies `messageId
      ensures messageId == (old(messageId) + TotalSpan(if signed < |chain| then chain[..signed + 1] else chain)) % U64
      ensures signed == |chain| ==> numbered == Number(chain, old(messageId))
    {
      numbered, messageId := NumberFrom(chain, signed, messageId);
    }

    method QueuePdu(chain: Chain, signed: nat) returns (ok: bool)
      requires chain != [] && signed <= |chain| && messageId < U64
      modifies this
      ensures View() == Queue(old(View()), chain, signed)
      ensures ok == (signed == |chain|)
    {
      ghost var taken := TotalSpan(if signed < |chain| then chain[..signed + 1] else chain);
      ghost var n := Number(chain, messageId);
      assert messageId % U64 == messageId;
      var numbered := NumberChain(chain, signed);
      ok := signed == |chain|;
      issued := issued + taken;
      if ok {
        queued := queued + set p | p in numbered;
        outqueue := outqueue[numbered[0].mid := numbered];
      }
    }

    method AddToWaitqueue(chain: Chain)
      modifies `waitqueue, `credits, `spent
      ensures View() == ToWait(old(View()), chain)
    {
      var i := 0;
      while i < |chain|
        invariant i <= |chain|
        invariant ToWait(View(), chain[i..]) == ToWait(old(View()), chain)
      {
        var p := chain[i];
        assert chain[i..][0] == p && chain[i..][1..] == chain[i + 1..];
        credits := (credits - p.charge) % U32;
        spent := spent + p.charge;
        waitqueue := waitqueue[p.mid := p];
        i := i + 1;
      }
    }

    /** `sendPdu`'s credit test, with the loop that adds up the chain in 32 bits. */
    method CreditTest(chain: Chain) returns (may: bool)
      ensures may == MaySend(View(), chain)
    {
      var sum := 0;
      var i := 0;
      while i < |chain|
        invariant i <= |chain|
        invariant sum == TotalCharge(chain[..i]) % U32
      {
        ChargeSnoc(chain, i);
        WrapSum(TotalCharge(chain[..i]), chain[i].charge);
        sum := (sum + chain[i].charge) % U32;
        i := i + 1;
      }
      assert chain[..i] == chain;
      may := dialect > DIALECT_0202 ==> sum <= credits;
    }

    method SendPdus(ok: nat -> bool) returns (success: bool)
      requires ChainsOk(View())
      modifies `outqueue, `waitqueue, `credits, `spent
      ensures (View(), success) == Send(old(View()), ok)
    {
      while outqueue != map[]
        invariant ChainsOk(View())
        invariant Send(View(), ok) == Send(old(View()), ok)
        decreases |outqueue|
      {
        ghost var st := View();
        var k := First(outqueue);
        var chain := outqueue[k];
        outqueue := outqueue - {k};
        assert outqueue.Keys == st.outqueue.Keys - {k};
        var may := CreditTest(chain);
        if !may || !ok(k) {
          outqueue := outqueue[chain[0].mid := chain];
          success := false;
          return;
        }
        AddToWaitqueue(chain);
        ToWaitKeepsOut(st.(outqueue := st.outqueue - {k}), chain);
      }
      success := true;
    }

    /** `smb2_find_pdu` and the grant of one reply header. */
    method Receive(mid: nat, grant: nat, ghost pending: bool) returns (found: Option<Pdu>)
      modifies this
      ensures View() == Reply(old(View()), mid, grant, pending)
      ensures found == if mid in old(waitqueue) then Some(old(waitqueue)[mid]) else None
    {
      if mid !in waitqueue {
        return None;
      }
      found := Some(waitqueue[mid]);
      waitqueue := waitqueue - {mid};
      credits := (credits + grant) % U32;
      granted := granted + grant;
      if pending { lost := lost + {found.value}; } else { answered := answered + {found.value}; }
    }
  }

  lemma {:induction false} SpanSnoc(c: Chain, i: nat)
    requires i < |c|
    ensures TotalSpan(c[..i + 1]) == TotalSpan(c[..i]) + Span(c[i].charge)
  {
    if i == 0 {
      assert c[..1] == [c[0]];
    } else {
      assert c[..i + 1][1..] == c[1..][..i] && c[..i][1..] == c[1..][..i - 1];
      SpanSnoc(c[1..], i - 1);
    }
  }

  lemma {:induction false} ChargeSnoc(c: Chain, i: nat)
    requires i < |c|
    ensures TotalCharge(c[..i + 1]) == TotalCharge(c[..i]) + c[i].charge
  {
    if i == 0 {
      assert c[..1] == [c[0]];
    } else {
      assert c[..i + 1][1..] == c[1..][..i] && c[..i][1..] == c[1..][..i - 1];
      ChargeSnoc(c[1..], i - 1);
    }
  }

  lemma NumberStep(c: Chain, next: nat, rest: Chain)
    requires c != [] && rest == c[1..]
    ensures Number(c, next) == [c[0].(mid := next)] + Number(rest, (next + Span(c[0].charge)) % U64)
  {
  }

  lemma WrapSum64(x: nat, y: nat)
    ensures (x % U64 + y) % U64 == (x + y) % U64
  {
  }
}
