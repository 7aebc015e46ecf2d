/**
 * The NTLM AUTHENTICATE message, section 2.2.1.3 of MS-NLMP, built in a growing
 * buffer by appends and back-patched offsets
 * (cpp/samba/client/OpenSmbC/src/NtlmAuthProvider.cpp).
 */
module Ntlm {
  import opened Options
  import opened Bytes
  import Utf

  const FLAGS := 0xA008_0207
  const AUTHENTICATION_MESSAGE := 3
  const SIGNATURE: seq<byte> := [0x4E, 0x54, 0x4C, 0x4D, 0x53, 0x53, 0x50, 0x00]
  const HEAD := 64

  /** A sixteen-byte digest; the hash functions are parameters. */
  type Digest = d: seq<byte> | |d| == 16 witness [0, 0, 0, 0, 0, 0, 0, 0, 0, 0, 0, 0, 0, 0, 0, 0]

  type Hmac = (seq<byte>, seq<byte>) -> Digest

  type Eight = d: seq<byte> | |d| == 8 witness [0, 0, 0, 0, 0, 0, 0, 0]

  /** The payloads in the order of the message: domain, user, workstation, LM and NT response. */
  type Payloads = p: seq<seq<byte>> | |p| == 5 witness [[], [], [], [], []]

  /** The pairs of the header stand in the order LM, NT, domain, user, workstation: pair k names this payload. */
  function Part(k: nat): (j: nat)
    requires k < 5
    ensures j < 5
  {
    if k < 2 then k + 3 else k - 2
  }

  /** A string in UCS-2, little-endian. */
  function Units(u: seq<bv16>): (b: seq<byte>)
    ensures |b| == 2 * |u|
  {
    if u == [] then [] else [u[0] as nat % 256, u[0] as nat / 256] + Units(u[1..])
  }

  // ----- the length word

  /** Bitwise or. */
  function Or(x: nat, y: nat): nat {
    if x == 0 then y
    else if y == 0 then x
    else (if x % 2 == 1 || y % 2 == 1 then 1 else 0) + 2 * Or(x / 2, y / 2)
  }

  /** `(n << 16) | n` in 32 bits: the low half of the shifted word is zero. */
  function LengthWord(n: nat): (w: nat)
    requires n < 0x1_0000_0000
  {
    n % 0x1_0000 + 0x1_0000 * Or(n % 0x1_0000, n / 0x1_0000)
  }

  // ----- the layout

  /** The (length, offset) pairs of the header, one behind the other. */
  function Pairs(words: seq<nat>, offs: seq<nat>): (b: seq<byte>)
    requires |words| == |offs|
    ensures |b| == 8 * |words|
  {
    if words == [] then [] else ToLE(4, words[0]) + ToLE(4, offs[0]) + Pairs(words[1..], offs[1..])
  }

  function Front(): (b: seq<byte>)
    ensures |b| == 12
  {
    SIGNATURE + ToLE(4, AUTHENTICATION_MESSAGE)
  }

  function Back(): (b: seq<byte>)
    ensures |b| == 12
  {
    ToLE(4, 0) + ToLE(4, 0) + ToLE(4, FLAGS)
  }

  function Head(words: seq<nat>, offs: seq<nat>): (b: seq<byte>)
    requires |words| == |offs| == 5
    ensures |b| == HEAD
  {
    Front() + Pairs(words, offs) + Back()
  }

  /** All that the length words can express. */
  predicate Words32(p: Payloads) {
    forall j :: 0 <= j < 5 ==> |p[j]| < 0x1_0000_0000
  }

  function Words(p: Payloads): (w: seq<nat>)
    requires Words32(p)
  {
    seq(5, (k: nat) requires k < 5 => LengthWord(|p[Part(k)]|))
  }

  /** Where the j-th payload stands. */
  function Place(p: Payloads, j: nat): nat
    requires j < 5
  {
    HEAD + |Flat(p[..j])|
  }

  function Offsets(p: Payloads): seq<nat> {
    seq(5, (k: nat) requires k < 5 => Place(p, Part(k)))
  }

  function Message(p: Payloads): seq<byte>
    requires Words32(p)
  {
    Head(Words(p), Offsets(p)) + Flat(p)
  }

  /** What a reader of the pair at `at` gets. */
  function Field(m: seq<byte>, at: nat): Option<seq<byte>> {
    var len, off := Get(m, at, 2), Get(m, at + 4, 4);
    if at + 8 <= |m| && off + len <= |m| then Some(m[off..off + len]) else None
  }

  // ----- what the pairs say

  lemma {:induction false} PairAt(words: seq<nat>, offs: seq<nat>, k: nat)
    requires |words| == |offs| && k < |words|
    ensures Pairs(words, offs)[8 * k..8 * k + 4] == ToLE(4, words[k])
    ensures Pairs(words, offs)[8 * k + 4..8 * k + 8] == ToLE(4, offs[k])
  {
    var rest := Pairs(words[1..], offs[1..]);
    var head := ToLE(4, words[0]) + ToLE(4, offs[0]);
    assert Pairs(words, offs) == head + rest;
    if k > 0 {
      PairAt(words[1..], offs[1..], k - 1);
      SliceBehind(head, rest, 8 * k, 8 * k + 4);
      SliceBehind(head, rest, 8 * k + 4, 8 * k + 8);
    }
  }

  lemma SliceBehind(head: seq<byte>, rest: seq<byte>, i: nat, j: nat)
    requires |head| <= i <= j <= |head| + |rest|
    ensures (head + rest)[i..j] == rest[i - |head|..j - |head|]
  {
  }

  lemma {:induction false} PatchPair(words: seq<nat>, offs: seq<nat>, k: nat, v: nat)
    requires |words| == |offs| && k < |words|
    ensures Put(Pairs(words, offs), 8 * k + 4, 4, v) == Pairs(words, offs[k := v])
  {
    var rest, word, off := Pairs(words[1..], offs[1..]), ToLE(4, words[0]), ToLE(4, offs[0]);
    if k == 0 {
      assert offs[0 := v][1..] == offs[1..];
      PatchMiddle(word, off, ToLE(4, v), rest);
    } else {
      PatchPair(words[1..], offs[1..], k - 1, v);
      assert offs[k := v][1..] == offs[1..][k - 1 := v];
      PatchBehind(word + off, rest, 8 * k + 4, ToLE(4, v));
    }
  }

  lemma PatchMiddle(a: seq<byte>, b: seq<byte>, bytes: seq<byte>, c: seq<byte>)
    requires |b| == |bytes|
    ensures PutBytes(a + b + c, |a|, bytes) == a + bytes + c
  {
  }

  lemma PatchBehind(head: seq<byte>, rest: seq<byte>, off: nat, bytes: seq<byte>)
    requires |head| <= off && off + |bytes| <= |head| + |rest|
    ensures PutBytes(head + rest, off, bytes) == head + PutBytes(rest, off - |head|, bytes)
  {
  }

  lemma PatchBefore(head: seq<byte>, rest: seq<byte>, off: nat, bytes: seq<byte>)
    requires off + |bytes| <= |head|
    ensures PutBytes(head + rest, off, bytes) == PutBytes(head, off, bytes) + rest
  {
  }

  /** Patching the k-th offset of a header with anything behind it changes that offset and nothing else. */
  lemma {:induction false} PatchHead(words: seq<nat>, offs: seq<nat>, rest: seq<byte>, k: nat, v: nat)
    requires |words| == |offs| == 5 && k < 5
    ensures Put(Head(words, offs) + rest, 16 + 8 * k, 4, v) == Head(words, offs[k := v]) + rest
  {
    var b, pairs := ToLE(4, v), Pairs(words, offs);
    PatchBefore(Head(words, offs), rest, 16 + 8 * k, b);
    PatchBefore(Front() + pairs, Back(), 16 + 8 * k, b);
    PatchBehind(Front(), pairs, 16 + 8 * k, b);
    PatchPair(words, offs, k, v);
  }

  lemma {:induction false} HeadPair(words: seq<nat>, offs: seq<nat>, rest: seq<byte>, k: nat)
    requires |words| == |offs| == 5 && k < 5
    ensures var m := Head(words, offs) + rest;
            m[12 + 8 * k..16 + 8 * k] == ToLE(4, words[k]) && m[16 + 8 * k..20 + 8 * k] == ToLE(4, offs[k])
  {
    var pairs := Pairs(words, offs);
    assert Head(words, offs) + rest == Front() + pairs + (Back() + rest);
    Inside(Front(), pairs, Back() + rest, 8 * k, 8 * k + 4);
    Inside(Front(), pairs, Back() + rest, 8 * k + 4, 8 * k + 8);
    PairAt(words, offs, k);
  }

  lemma Inside(a: seq<byte>, b: seq<byte>, c: seq<byte>, i: nat, j: nat)
    requires i <= j <= |b|
    ensures (a + b + c)[|a| + i..|a| + j] == b[i..j]
  {
    SliceBehind(a, b + c, |a| + i, |a| + j);
    assert a + b + c == a + (b + c);
  }

  /** The low half of a little-endian word is the word modulo 2^16. */
  lemma {:induction false} LowHalf(w: nat)
    ensures FromLE(ToLE(4, w)[..2]) == w % 0x1_0000
  {
    var two := ToLE(2, w / 256 / 256);
    assert ToLE(4, w) == [w % 256] + ToLE(3, w / 256);
    assert ToLE(3, w / 256) == [w / 256 % 256] + two;
    assert ToLE(4, w) == [w % 256, w / 256 % 256] + two;
    var b: seq<byte> := [w % 256, w / 256 % 256];
    assert ToLE(4, w)[..2] == b;
    assert b[1..] == [w / 256 % 256] && b[1..][1..] == [];
    assert FromLE(b) == b[0] + 256 * FromLE(b[1..]);
    assert FromLE(b[1..]) == b[1] + 256 * FromLE([]);
    ModTwice(w);
  }

  lemma ModTwice(w: nat)
    ensures w % 256 + 256 * (w / 256 % 256) == w % 0x1_0000
  {
    var q := w / 256;
    assert w == 256 * q + w % 256 && q == 256 * (q / 256) + q % 256;
    DivModUnique(w, 0x1_0000, q / 256, w % 256 + 256 * (q % 256));
  }

  lemma LengthLow(n: nat)
    requires n < 0x1_0000_0000
    ensures LengthWord(n) % 0x1_0000 == n % 0x1_0000
    ensures n < 0x1_0000 ==> LengthWord(n) / 0x1_0000 == n
  {
    var hi := Or(n % 0x1_0000, n / 0x1_0000);
    DivModUnique(LengthWord(n), 0x1_0000, hi, n % 0x1_0000);
  }

  /** Pair k holds the length of its payload modulo 2^16 and its place modulo 2^32. */
  lemma {:induction false} PairRead(p: Payloads, k: nat)
    requires Words32(p) && k < 5
    ensures Get(Message(p), 12 + 8 * k, 2) == |p[Part(k)]| % 0x1_0000
    ensures Get(Message(p), 16 + 8 * k, 4) == Place(p, Part(k)) % 0x1_0000_0000
  {
    HeadPair(Words(p), Offsets(p), Flat(p), k);
    PairBytes(Message(p), 12 + 8 * k, Words(p)[k], Offsets(p)[k]);
    LengthLow(|p[Part(k)]|);
  }

  lemma {:induction false} PairBytes(m: seq<byte>, at: nat, word: nat, off: nat)
    requires at + 8 <= |m| && m[at..at + 4] == ToLE(4, word) && m[at + 4..at + 8] == ToLE(4, off)
    ensures Get(m, at, 2) == word % 0x1_0000 && Get(m, at + 4, 4) == off % 0x1_0000_0000
  {
    SliceOfSlice(m, at, at + 4, 0, 2);
    LowHalf(word);
    FromToLE(4, off);
    FieldFits();
  }

  lemma {:induction false} FlatAt(p: seq<seq<byte>>, j: nat)
    requires j < |p|
    ensures Flat(p) == Flat(p[..j]) + p[j] + Flat(p[j + 1..])
  {
    if j == 0 {
      assert p[..0] == [];
    } else {
      FlatAt(p[1..], j - 1);
      assert p[..j][1..] == p[1..][..j - 1] && p[..j][0] == p[0];
      assert p[1..][j..] == p[j + 1..];
    }
  }

  /** Every payload stands at its place. */
  lemma {:induction false} PayloadStands(p: Payloads, j: nat)
    requires Words32(p) && j < 5
    ensures Place(p, j) + |p[j]| <= |Message(p)|
    ensures Message(p)[Place(p, j)..Place(p, j) + |p[j]|] == p[j]
  {
    FlatBehind(Head(Words(p), Offsets(p)), p, j);
  }

  lemma {:induction false} FlatBehind(h: seq<byte>, p: seq<seq<byte>>, j: nat)
    requires j < |p|
    ensures var at := |h| + |Flat(p[..j])|;
            at + |p[j]| <= |h + Flat(p)| && (h + Flat(p))[at..at + |p[j]|] == p[j]
  {
    FlatAt(p, j);
    assert h + Flat(p) == (h + Flat(p[..j])) + p[j] + Flat(p[j + 1..]);
    Inside(h + Flat(p[..j]), p[j], Flat(p[j + 1..]), 0, |p[j]|);
  }

  lemma {:induction false} PlaceNext(p: Payloads, j: nat)
    requires j < 5
    ensures Place(p, j) + |p[j]| == HEAD + |Flat(p[..j + 1])|
  {
    FlatAt(p[..j + 1], j);
    assert p[..j + 1][..j] == p[..j] && p[..j + 1][j + 1..] == [];
  }

  /** The payloads follow each other without gap or overlap from byte 64 to the end. */
  lemma {:induction false} PayloadsTile(p: Payloads)
    requires Words32(p)
    ensures Place(p, 0) == HEAD && Place(p, 4) + |p[4]| == |Message(p)|
    ensures forall j: nat | j < 4 :: Place(p, j) + |p[j]| == Place(p, j + 1)
  {
    forall j: nat | j < 4 ensures Place(p, j) + |p[j]| == Place(p, j + 1) { PlaceNext(p, j); }
    PlaceNext(p, 4);
    assert p[..5] == p;
  }

  /** The pair at `at` gives the length of `x` modulo 2^16 and its place in `m`. */
  ghost predicate Points(m: seq<byte>, at: nat, off: nat, x: seq<byte>) {
    && at + 8 <= |m| && off + |x| <= |m| && m[off..off + |x|] == x
    && Get(m, at, 2) == |x| % 0x1_0000 && Get(m, at + 4, 4) == off
  }

  lemma {:induction false} PairPoints(p: Payloads, k: nat)
    requires Words32(p) && |Message(p)| < 0x1_0000_0000 && k < 5
    ensures Points(Message(p), 12 + 8 * k, Place(p, Part(k)), p[Part(k)])
  {
    PairRead(p, k);
    PayloadStands(p, Part(k));
    DivModUnique(Place(p, Part(k)), 0x1_0000_0000, 0, Place(p, Part(k)));
  }

  /** Reading pair k gives the first bytes of its payload, as many as its length modulo 2^16. */
  lemma {:induction false} FieldReads(p: Payloads, k: nat)
    requires Words32(p) && |Message(p)| < 0x1_0000_0000 && k < 5
    ensures Field(Message(p), 12 + 8 * k) == Some(Low(p[Part(k)]))
  {
    PairPoints(p, k);
    FieldFrom(Message(p), 12 + 8 * k, Place(p, Part(k)), p[Part(k)]);
  }

  lemma {:induction false} FieldFrom(m: seq<byte>, at: nat, off: nat, x: seq<byte>)
    requires Points(m, at, off, x)
    ensures Field(m, at) == Some(Low(x))
  {
    SliceOfSlice(m, off, off + |x|, 0, |x| % 0x1_0000);
  }

  /** So a pair reads back its payload exactly when the payload is shorter than 2^16. */
  lemma {:induction false} FieldExact(p: Payloads, k: nat)
    requires Words32(p) && |Message(p)| < 0x1_0000_0000 && k < 5
    ensures Field(Message(p), 12 + 8 * k) == Some(p[Part(k)]) <==> |p[Part(k)]| < 0x1_0000
  {
    FieldReads(p, k);
    WholeIff(p[Part(k)]);
  }

  function Low(x: seq<byte>): seq<byte> { x[..|x| % 0x1_0000] }

  lemma WholeIff(x: seq<byte>)
    ensures Low(x) == x <==> |x| < 0x1_0000
  {
    assert |x| < 0x1_0000 ==> x[..|x|] == x;
  }

  /** `ntlmssp_generate_blob` reports the length in 16 bits. */
  function Blob(p: Payloads): seq<byte>
    requires Words32(p)
  {
    Low(Message(p))
  }

  predicate ReadsBack(m: seq<byte>, p: Payloads) {
    forall k: nat | k < 5 :: Field(m, 12 + 8 * k) == Some(p[Part(k)])
  }

  /** All five payloads can be read from the reported blob exactly when the message is shorter than 2^16. */
  lemma {:induction false} BlobReadsBackIff(p: Payloads)
    requires Words32(p) && |Message(p)| < 0x1_0000_0000 && p[4] != []
    ensures ReadsBack(Blob(p), p) <==> |Message(p)| < 0x1_0000
  {
    WholeIff(Message(p));
    if |Message(p)| < 0x1_0000 {
      forall k: nat | k < 5 ensures Field(Blob(p), 12 + 8 * k) == Some(p[Part(k)]) {
        PayloadStands(p, Part(k));
        FieldExact(p, k);
      }
    } else if ReadsBack(Blob(p), p) {
      assert Field(Blob(p), 12 + 8 * 1) == Some(p[Part(1)]);
      BlobPair(p);
    }
  }

  /** In a cut blob the pair of the NT response is lost or points behind the end. */
  lemma {:induction false} BlobPair(p: Payloads)
    requires Words32(p) && 0x1_0000 <= |Message(p)| < 0x1_0000_0000 && p[4] != []
    ensures Field(Blob(p), 20) != Some(p[4])
  {
    PairPoints(p, 1);
    PayloadsTile(p);
    CutPair(Message(p), Place(p, 4), p[4]);
  }

  lemma {:induction false} CutPair(m: seq<byte>, off: nat, x: seq<byte>)
    requires |m| >= 0x1_0000 && off + |x| == |m| && x != []
    requires Points(m, 20, off, x)
    ensures Field(Low(m), 20) != Some(x)
  {
    var b := Low(m);
    if |b| >= 28 {
      assert b[20..22] == m[20..22] && b[24..28] == m[24..28];
      assert Get(b, 20, 2) == |x| % 0x1_0000 && Get(b, 24, 4) == off;
    }
  }

  // ----- the contents of the payloads

  /** NTLMv2_CLIENT_CHALLENGE, section 2.2.2.7 of MS-NLMP. */
  function Temp(time: nat, challenge: Eight, name: seq<byte>): seq<byte> {
    [1, 1, 0, 0, 0, 0, 0, 0] + ToLE(8, time) + challenge + [0, 0, 0, 0] + name + [0, 0, 0, 0]
  }

  function Proof(hmac: Hmac, key: Digest, server: Eight, temp: seq<byte>): Digest {
    hmac(key, server + temp)
  }

  function NtResponse(hmac: Hmac, key: Digest, server: Eight, temp: seq<byte>): seq<byte> {
    Proof(hmac, key, server, temp) + temp
  }

  function LmResponse(hmac: Hmac, key: Digest, server: Eight, challenge: Eight): seq<byte> {
    hmac(key, server + challenge) + challenge
  }

  /** What the caller knows: credentials, and the server's challenge and name. */
  datatype Login = Login(
    domain: seq<bv8>, user: seq<bv8>, workstation: seq<bv8>, key: Option<Digest>,
    time: nat, challenge: Eight, server: Eight, name: seq<byte>)

  predicate Sane(g: Login) {
    && Utf.CString(g.domain) && Utf.CString(g.user) && Utf.CString(g.workstation)
    && |g.domain| < 0x8000_0000 && |g.user| < 0x8000_0000 && |g.workstation| < 0x8000_0000
    && |g.name| < 0x1_0000
  }

  predicate Encodable(g: Login) {
    g.key.Some? && Utf.Decode(g.domain).Some? && Utf.Decode(g.user).Some? && Utf.Decode(g.workstation).Some?
  }

  function Parts(hmac: Hmac, g: Login): Payloads
    requires Encodable(g)
  {
    [Units(Utf.Decode(g.domain).value), Units(Utf.Decode(g.user).value), Units(Utf.Decode(g.workstation).value),
     LmResponse(hmac, g.key.value, g.server, g.challenge),
     NtResponse(hmac, g.key.value, g.server, Temp(g.time, g.challenge, g.name))]
  }

  lemma {:induction false} DecodeShorter(s: seq<bv8>)
    requires Utf.Decode(s).Some?
    ensures |Utf.Decode(s).value| <= |s|
    decreases |s|
  {
    if s != [] { DecodeShorter(s[Utf.Step(s).value.1..]); }
  }

  lemma {:induction false} LoginFits(hmac: Hmac, g: Login)
    requires Sane(g) && Encodable(g)
    ensures Words32(Parts(hmac, g))
  {
    DecodeShorter(g.domain);
    DecodeShorter(g.user);
    DecodeShorter(g.workstation);
  }

  /** The length of the message, from what the caller knows. */
  function LoginLength(g: Login): nat
    requires Encodable(g)
  {
    136 + 2 * (|Utf.Decode(g.domain).value| + |Utf.Decode(g.user).value| + |Utf.Decode(g.workstation).value|) + |g.name|
  }

  lemma {:induction false} MessageLength(hmac: Hmac, g: Login)
    requires Sane(g) && Encodable(g)
    ensures Words32(Parts(hmac, g)) && |Message(Parts(hmac, g))| == LoginLength(g)
  {
    LoginFits(hmac, g);
    var p := Parts(hmac, g);
    FlatCons(p[0], [p[1], p[2], p[3], p[4]]);
    FlatCons(p[1], [p[2], p[3], p[4]]);
    FlatThree(p[2], p[3], p[4]);
  }

  /** The reported blob of a login can be read back exactly when the message is shorter than 2^16 bytes. */
  lemma {:induction false} LoginReadsBackIff(hmac: Hmac, g: Login)
    requires Sane(g) && Encodable(g) && LoginLength(g) < 0x1_0000_0000
    ensures Words32(Parts(hmac, g))
    ensures ReadsBack(Blob(Parts(hmac, g)), Parts(hmac, g)) <==> LoginLength(g) < 0x1_0000
  {
    MessageLength(hmac, g);
    BlobReadsBackIff(Parts(hmac, g));
  }

  /** An anonymous login to a server that sends 65400 bytes of target information. */
  function LongLogin(): Login {
    Login([], [], [], Some(ZERO16), 0, ZERO8, ZERO8, Zeros(65400))
  }

  const ZERO8: Eight := [0, 0, 0, 0, 0, 0, 0, 0]
  const ZERO16: Digest := [0, 0, 0, 0, 0, 0, 0, 0, 0, 0, 0, 0, 0, 0, 0, 0]

  /** Its blob is cut: not every payload can be read from what is reported. */
  lemma {:induction false} LongLoginIsCut(hmac: Hmac)
    ensures var g := LongLogin();
            && Sane(g) && Encodable(g) && Words32(Parts(hmac, g))
            && |Blob(Parts(hmac, g))| == 0 && !ReadsBack(Blob(Parts(hmac, g)), Parts(hmac, g))
  {
    var g := LongLogin();
    assert Utf.Decode([]) == Options.Some([]);
    assert LoginLength(g) == 65536;
    MessageLength(hmac, g);
    LoginReadsBackIff(hmac, g);
  }

  lemma {:induction false} PairsAppend(words: seq<nat>, offs: seq<nat>, w: nat, o: nat)
    requires |words| == |offs|
    ensures Pairs(words + [w], offs + [o]) == Pairs(words, offs) + (ToLE(4, w) + ToLE(4, o))
  {
    if words == [] {
      assert [w][1..] == [] && [o][1..] == [];
    } else {
      PairsAppend(words[1..], offs[1..], w, o);
      assert (words + [w])[1..] == words[1..] + [w] && (offs + [o])[1..] == offs[1..] + [o];
      Associate(ToLE(4, words[0]) + ToLE(4, offs[0]), Pairs(words[1..], offs[1..]), ToLE(4, w) + ToLE(4, o));
    }
  }

  // ----- a login, byte by byte

  /** Unit i of a name stands at bytes 2i and 2i + 1, low byte first. */
  lemma {:induction false} UnitStands(u: seq<bv16>, i: nat)
    requires i < |u|
    ensures Units(u)[2 * i] == u[i] as int % 256 && Units(u)[2 * i + 1] == u[i] as int / 256
  {
    if i > 0 {
      UnitStands(u[1..], i - 1);
      Shift2(Units(u), [u[0] as nat % 256, u[0] as nat / 256], Units(u[1..]), 2 * i - 2);
    }
  }

  lemma Shift2(s: seq<byte>, two: seq<byte>, rest: seq<byte>, k: nat)
    requires |two| == 2 && s == two + rest && k + 1 < |rest|
    ensures s[k + 2] == rest[k] && s[k + 3] == rest[k + 1]
  {
  }

  /** The fixed bytes of the header: the signature, message type 3 and the flags. */
  lemma {:induction false} FixedHead(p: Payloads)
    requires Words32(p)
    ensures var m := Message(p);
            && |m| >= 64 && m[0..8] == [0x4E, 0x54, 0x4C, 0x4D, 0x53, 0x53, 0x50, 0x00] && FromLE(m[8..12]) == 3
            && FromLE(m[60..64]) == 0xA008_0207
  {
    var m, pairs := Message(p), Pairs(Words(p), Offsets(p));
    assert Head(Words(p), Offsets(p)) + Flat(p) == Front() + pairs + (Back() + Flat(p));
    HeadSlices(Front(), pairs, Back(), Flat(p));
    assert Front()[0..8] == SIGNATURE && Front()[8..12] == ToLE(4, 3) && Back()[8..12] == ToLE(4, FLAGS);
    FieldFits();
    FromToLE(4, 3);
    FromToLE(4, FLAGS);
    DivModUnique(3, Pow256(4), 0, 3);
    DivModUnique(FLAGS, Pow256(4), 0, FLAGS);
  }

  lemma HeadSlices(a: seq<byte>, b: seq<byte>, c: seq<byte>, d: seq<byte>)
    requires |a| == |c| == 12 && |b| == 40
    ensures var m := a + b + (c + d); m[0..8] == a[0..8] && m[8..12] == a[8..12] && m[60..64] == c[8..12]
  {
  }

  /** A client's response to the server's challenge: sixteen bytes over both, then its own part. */
  ghost predicate Answers(hmac: Hmac, key: Digest, server: Eight, r: seq<byte>) {
    |r| >= 16 && r[..16] == hmac(key, server + r[16..])
  }

  /** NTLMv2_CLIENT_CHALLENGE, field by field. */
  ghost predicate ClientPart(t: seq<byte>, g: Login) {
    && |t| == 32 + |g.name| && t[0..8] == [1, 1, 0, 0, 0, 0, 0, 0] && FromLE(t[8..16]) == g.time % 0x1_0000_0000_0000_0000
    && t[16..24] == g.challenge && t[24..28] == [0, 0, 0, 0] && t[28..28 + |g.name|] == g.name && t[28 + |g.name|..] == [0, 0, 0, 0]
  }

  lemma TempSlices(a: seq<byte>, t: seq<byte>, c: seq<byte>, z: seq<byte>, n: seq<byte>)
    requires |a| == |t| == |c| == 8 && |z| == 4
    ensures var s := a + t + c + z + n + z;
            |s| == 32 + |n| && s[0..8] == a && s[8..16] == t && s[16..24] == c && s[24..28] == z && s[28..28 + |n|] == n && s[28 + |n|..] == z
  {
  }

  lemma {:induction false} TempFields(g: Login)
    ensures ClientPart(Temp(g.time, g.challenge, g.name), g)
  {
    TempSlices([1, 1, 0, 0, 0, 0, 0, 0], ToLE(8, g.time), g.challenge, [0, 0, 0, 0], g.name);
    FieldFits();
    FromToLE(8, g.time);
  }

  /** `b` is the name of `s`, in UCS-2. */
  ghost predicate NameOf(s: seq<bv8>, b: seq<byte>) {
    Utf.Decode(s).Some? && |b| == 2 * |Utf.Decode(s).value|
    && forall i: nat | i < |Utf.Decode(s).value| ::
         b[2 * i] == Utf.Decode(s).value[i] as int % 256 && b[2 * i + 1] == Utf.Decode(s).value[i] as int / 256
  }

  lemma {:induction false} UnitsName(s: seq<bv8>)
    requires Utf.Decode(s).Some?
    ensures NameOf(s, Units(Utf.Decode(s).value))
  {
    var u := Utf.Decode(s).value;
    forall i: nat | i < |u| ensures Units(u)[2 * i] == u[i] as int % 256 && Units(u)[2 * i + 1] == u[i] as int / 256 { UnitStands(u, i); }
  }

  /** The payloads: domain, user, workstation, LM response and NT response. */
  lemma {:induction false} PartsSay(hmac: Hmac, g: Login)
    requires Encodable(g)
    ensures var p := Parts(hmac, g);
            && NameOf(g.domain, p[0]) && NameOf(g.user, p[1]) && NameOf(g.workstation, p[2])
            && |p[3]| == 24 && p[3][16..] == g.challenge && Answers(hmac, g.key.value, g.server, p[3])
            && |p[4]| == 48 + |g.name| && ClientPart(p[4][16..], g) && Answers(hmac, g.key.value, g.server, p[4])
  {
    UnitsName(g.domain);
    UnitsName(g.user);
    UnitsName(g.workstation);
    TempFields(g);
    Split16(hmac(g.key.value, g.server + g.challenge), g.challenge);
    var temp := Temp(g.time, g.challenge, g.name);
    Split16(hmac(g.key.value, g.server + temp), temp);
  }

  lemma Split16(x: Digest, y: seq<byte>)
    ensures (x + y)[..16] == x && (x + y)[16..] == y
  {
  }

  /** What a server reads in the message of a login: the pairs at 12, 20, 28, 36 and 44 give LM and NT response, domain, user and workstation. */
  lemma {:induction false} ServerReads(hmac: Hmac, g: Login)
    requires Sane(g) && Encodable(g) && LoginLength(g) < 0x1_0000
    ensures Words32(Parts(hmac, g))
    ensures var m, p := Message(Parts(hmac, g)), Parts(hmac, g);
            && Field(m, 12) == Some(p[3]) && Field(m, 20) == Some(p[4])
            && Field(m, 28) == Some(p[0]) && Field(m, 36) == Some(p[1]) && Field(m, 44) == Some(p[2])
  {
    MessageLength(hmac, g);
    var p := Parts(hmac, g);
    PayloadsShort(p);
    FieldExact(p, 0);
    FieldExact(p, 1);
    FieldExact(p, 2);
    FieldExact(p, 3);
    FieldExact(p, 4);
  }

  lemma {:induction false} PayloadsShort(p: Payloads)
    requires Words32(p) && |Message(p)| < 0x1_0000
    ensures |p[0]| < 0x1_0000 && |p[1]| < 0x1_0000 && |p[2]| < 0x1_0000 && |p[3]| < 0x1_0000 && |p[4]| < 0x1_0000
  {
    PayloadStands(p, 0);
    PayloadStands(p, 1);
    PayloadStands(p, 2);
    PayloadStands(p, 3);
    PayloadStands(p, 4);
  }

  // ----- the growing buffer

  class Encoder {
    var buf: array<byte>
    var len: nat
    var capacity: nat
    var sessionKey: Digest

    /** The room grows with the contents, to at most four times their length and 512 bytes. */
    ghost predicate Valid()
      reads this, buf
    {
      capacity == buf.Length && len <= capacity <= 4 * len + 512
    }

    ghost function Contents(): (s: seq<byte>)
      requires Valid()
      reads this, buf
    {
      buf[..len]
    }

    constructor ()
      ensures Valid() && Contents() == [] && fresh(buf)
    {
      buf, len, capacity, sessionKey := new byte[0], 0, 0, *;
    }

    /** `encoder`: there is always enough room. */
    method Append(bytes: seq<byte>)
      requires Valid()
      modifies this`buf, this`len, this`capacity, buf
      ensures Valid() && (buf == old(buf) || fresh(buf))
      ensures Contents() == old(Contents()) + bytes
    {
      ghost var before := Contents();
      if |bytes| + len > capacity {
        var tmp := buf;
        var want := |bytes| + capacity + 256;
        capacity := 2 * (want - want % 256);
        buf := Moved(tmp, len, capacity);
      }
      WriteNext(buf, before, len, bytes);
      len := len + |bytes|;
    }

    /** `memcpy` into what is already written. */
    method Overwrite(off: nat, bytes: seq<byte>)
      requires Valid() && off + |bytes| <= len
      modifies buf
      ensures Valid() && Contents() == PutBytes(old(Contents()), off, bytes)
    {
      ghost var before := buf[..];
      WriteBytes(buf, off, bytes);
      PatchBefore(before[..len], before[len..], off, bytes);
      assert before == before[..len] + before[len..];
    }

    /** Set an offset that was left open. */
    method Patch(off: nat, v: nat)
      requires Valid() && off + 4 <= len
      modifies buf
      ensures Valid() && Contents() == Put(old(Contents()), off, 4, v)
    {
      Overwrite(off, ToLE(4, v));
    }

    method AppendAll(chunks: seq<seq<byte>>)
      requires Valid()
      modifies this`buf, this`len, this`capacity, buf
      ensures Valid() && (buf == old(buf) || fresh(buf))
      ensures Contents() == old(Contents()) + Flat(chunks)
    {
      for i := 0 to |chunks|
        invariant Valid() && (buf == old(buf) || fresh(buf))
        invariant Contents() == old(Contents()) + Flat(chunks[..i])
      {
        Append(chunks[i]);
        FlatSnoc(chunks[..i], chunks[i]);
        assert chunks[..i + 1] == chunks[..i] + [chunks[i]];
      }
      assert chunks[..|chunks|] == chunks;
    }

    /** The header as far as it is written, with every offset still open. */
    ghost predicate Opened(words: seq<nat>)
      reads this, buf
    {
      Valid() && Contents() == Front() + Pairs(words, Zeros(|words|))
    }

    /** A length word and an offset still to come. */
    method AppendPair(word: nat, ghost words: seq<nat>)
      requires Opened(words)
      modifies this`buf, this`len, this`capacity, buf
      ensures Opened(words + [word]) && (buf == old(buf) || fresh(buf))
    {
      var chunks := [ToLE(4, word), ToLE(4, 0)];
      PairStep(words, word, chunks);
      AppendAll(chunks);
    }

    /** The pair of a string, unless it is no UTF-8. */
    method AppendString(s: seq<bv8>, ghost words: seq<nat>) returns (units: Option<seq<byte>>)
      requires Opened(words) && Utf.CString(s) && |s| < 0x8000_0000
      modifies this`buf, this`len, this`capacity, buf
      ensures Valid() && (buf == old(buf) || fresh(buf))
      ensures units == UnitsOf(s)
      ensures units.Some? ==> |units.value| < 0x1_0000_0000 && Opened(words + [LengthWord(|units.value|)])
    {
      var u := Utf.Utf8ToUcs2(s + [0], s);
      if u == None { return None; }
      DecodeShorter(s);
      units := Some(Units(u.value));
      AppendPair(LengthWord(2 * |u.value|), words);
    }

    /** Patch the offset of pair k with the present length and append the payload. */
    method AppendPayload(k: nat, bytes: seq<byte>, ghost words: seq<nat>, ghost offs: seq<nat>, ghost done: seq<seq<byte>>)
      requires Valid() && k < 5 && |words| == |offs| == 5 && Contents() == Head(words, offs) + Flat(done)
      modifies this`buf, this`len, this`capacity, buf
      ensures Valid() && (buf == old(buf) || fresh(buf))
      ensures Contents() == Head(words, offs[k := HEAD + |Flat(done)|]) + Flat(done + [bytes])
    {
      PayloadStep(words, offs, done, k, bytes);
      Patch(16 + 8 * k, len);
      Append(bytes);
    }

    /** `encode_temp` and the proof written over its first sixteen bytes. */
    method BuildNtResponse(hmac: Hmac, key: Digest, g: Login) returns (nt: seq<byte>)
      requires Valid() && Contents() == []
      modifies this, buf
      ensures Valid() && (buf == old(buf) || fresh(buf)) && Contents() == []
      ensures nt == NtResponse(hmac, key, g.server, Temp(g.time, g.challenge, g.name))
      ensures sessionKey == hmac(key, Proof(hmac, key, g.server, Temp(g.time, g.challenge, g.name)))
    {
      ghost var temp := Temp(g.time, g.challenge, g.name);
      var zeros: seq<byte> := [0, 0, 0, 0, 0, 0, 0, 0];
      var chunks := [zeros, g.server, [1, 1, 0, 0, 0, 0, 0, 0], ToLE(8, g.time), g.challenge, [0, 0, 0, 0], g.name, [0, 0, 0, 0]];
      AppendAll(chunks);
      FlatTemp(zeros, g);
      assert buf[8..len] == Contents()[8..];
      var proof := hmac(key, buf[8..len]);
      ProofOver(zeros, g.server, temp, proof);
      Overwrite(0, proof);
      nt := buf[..len];
      sessionKey := hmac(key, proof);
      buf, len, capacity := new byte[0], 0, 0;
    }

    method BeginHead(nt: nat)
      requires Valid() && Contents() == [] && nt < 0x1_0000_0000
      modifies this`buf, this`len, this`capacity, buf
      ensures Opened([0x0018_0018, LengthWord(nt)]) && (buf == old(buf) || fresh(buf))
    {
      var chunks := [SIGNATURE, ToLE(4, AUTHENTICATION_MESSAGE)];
      FlatTwo(chunks[0], chunks[1]);
      AppendAll(chunks);
      AppendPair(0x0018_0018, []);
      AppendPair(LengthWord(nt), [0x0018_0018]);
    }

    method EndHead(ghost words: seq<nat>)
      requires Opened(words) && |words| == 5
      modifies this`buf, this`len, this`capacity, buf
      ensures Valid() && (buf == old(buf) || fresh(buf)) && Contents() == Head(words, Zeros(5)) + Flat([])
    {
      var chunks := [ToLE(4, 0), ToLE(4, 0), ToLE(4, FLAGS)];
      FlatThree(chunks[0], chunks[1], chunks[2]);
      AppendAll(chunks);
    }

    method AppendNames(g: Login, ghost words: seq<nat>) returns (units: Option<seq<seq<byte>>>)
      requires Opened(words) && Sane(g)
      modifies this`buf, this`len, this`capacity, buf
      ensures Valid() && (buf == old(buf) || fresh(buf))
      ensures units == Names(g)
      ensures units.Some? ==> Fit(units.value) && Opened(words + NameWords(units.value))
    {
      var d := AppendString(g.domain, words);
      if d == None { return None; }
      ghost var words1 := words + [LengthWord(|d.value|)];
      units := AppendTwo(g, d.value, words1);
      if units.Some? { assert words1 + NameWords(units.value)[1..] == words + NameWords(units.value); }
    }

    /** The user and the workstation, behind the domain. */
    method AppendTwo(g: Login, d: seq<byte>, ghost words: seq<nat>) returns (units: Option<seq<seq<byte>>>)
      requires Opened(words) && Sane(g) && UnitsOf(g.domain) == Some(d) && |d| < 0x1_0000_0000
      modifies this`buf, this`len, this`capacity, buf
      ensures Valid() && (buf == old(buf) || fresh(buf))
      ensures units == Names(g)
      ensures units.Some? ==> Fit(units.value) && Opened(words + NameWords(units.value)[1..])
    {
      var u := AppendString(g.user, words);
      if u == None { return None; }
      ghost var words1 := words + [LengthWord(|u.value|)];
      var w := AppendString(g.workstation, words1);
      if w == None { return None; }
      units := Some([d, u.value, w.value]);
      assert words1 + [LengthWord(|w.value|)] == words + NameWords(units.value)[1..];
    }

    /** The header: five pairs with open offsets, between the signature and the flags. */
    method BuildHead(g: Login, nt: nat) returns (units: Option<seq<seq<byte>>>)
      requires Valid() && Contents() == [] && Sane(g) && nt < 0x1_0000_0000
      modifies this`buf, this`len, this`capacity, buf
      ensures Valid() && (buf == old(buf) || fresh(buf))
      ensures units == Names(g)
      ensures units.Some? ==> Fit(units.value)
      ensures units.Some? ==> Contents() == Head(HeadWords(units.value, nt), Zeros(5)) + Flat([])
    {
      BeginHead(nt);
      ghost var words := [0x0018_0018, LengthWord(nt)];
      units := AppendNames(g, words);
      if units.Some? { EndHead(words + NameWords(units.value)); }
    }

    /** The first j payloads are in place and their offsets are set. */
    ghost predicate Filled(p: Payloads, j: nat)
      requires j <= 5
      reads this, buf
    {
      Valid() && Words32(p) && Contents() == Head(Words(p), OffsetsUpTo(p, j)) + Flat(p[..j])
    }

    method AppendPart(k: nat, bytes: seq<byte>, ghost p: Payloads)
      requires k < 5 && Filled(p, Part(k)) && p[Part(k)] == bytes
      modifies this`buf, this`len, this`capacity, buf
      ensures Filled(p, Part(k) + 1) && (buf == old(buf) || fresh(buf))
    {
      PartStep(p, k);
      AppendPayload(k, bytes, Words(p), OffsetsUpTo(p, Part(k)), p[..Part(k)]);
    }

    method AppendNameParts(names: seq<seq<byte>>, ghost p: Payloads)
      requires |names| == 3 && p[..3] == names && Filled(p, 0)
      modifies this`buf, this`len, this`capacity, buf
      ensures Filled(p, 3) && (buf == old(buf) || fresh(buf))
    {
      assert names[0] == p[0] && names[1] == p[1] && names[2] == p[2];
      AppendPart(2, names[0], p);
      AppendPart(3, names[1], p);
      AppendPart(4, names[2], p);
    }

    method AppendResponses(lm: seq<byte>, nt: seq<byte>, ghost p: Payloads)
      requires p[3] == lm && p[4] == nt && Filled(p, 3)
      modifies this`buf, this`len, this`capacity, buf
      ensures Valid() && (buf == old(buf) || fresh(buf)) && Contents() == Message(p)
    {
      AppendPart(0, lm, p);
      AppendPart(1, nt, p);
      AllFilled(p);
    }

    /** `encode_ntlm_auth`: it fails exactly when the key or a name cannot be made. */
    method Authenticate(hmac: Hmac, g: Login) returns (ok: bool)
      requires Valid() && Contents() == [] && Sane(g)
      modifies this, buf
      ensures Valid() && (buf == old(buf) || fresh(buf))
      ensures ok <==> Encodable(g)
      ensures ok ==> Words32(Parts(hmac, g)) && Contents() == Message(Parts(hmac, g))
      ensures ok ==> sessionKey == hmac(g.key.value, Proof(hmac, g.key.value, g.server, Temp(g.time, g.challenge, g.name)))
    {
      if g.key == None { return false; }
      var nt := BuildNtResponse(hmac, g.key.value, g);
      var names := BuildHead(g, |nt|);
      if names == None { return false; }
      LoginFits(hmac, g);
      FillIn(names.value, LmResponse(hmac, g.key.value, g.server, g.challenge), nt, Parts(hmac, g));
      ok := true;
    }

    /** The payloads behind a header with open offsets. */
    method FillIn(names: seq<seq<byte>>, lm: seq<byte>, nt: seq<byte>, ghost p: Payloads)
      requires |names| == 3 && p[..3] == names && p[3] == lm && |lm| == 24 && p[4] == nt && Words32(p) && Fit(names)
      requires Valid() && Contents() == Head(HeadWords(names, |nt|), Zeros(5)) + Flat([])
      modifies this`buf, this`len, this`capacity, buf
      ensures Valid() && (buf == old(buf) || fresh(buf)) && Contents() == Message(p)
    {
      NoneFilled(p, names);
      AppendNameParts(names, p);
      AppendResponses(lm, nt, p);
    }

    /** `ntlmssp_generate_blob` on a challenge: the length is reported in 16 bits. */
    method GenerateBlob(hmac: Hmac, g: Login) returns (ok: bool, outLen: nat)
      requires Valid() && Sane(g)
      modifies this, buf
      ensures Valid() && (ok <==> Encodable(g)) && outLen <= len
      ensures ok ==> Words32(Parts(hmac, g)) && Contents()[..outLen] == Blob(Parts(hmac, g))
    {
      buf, len, capacity := new byte[0], 0, 0;
      outLen := 0;
      ok := Authenticate(hmac, g);
      if ok { outLen := len % 0x1_0000; }
    }
  }

  function UnitsOf(s: seq<bv8>): Option<seq<byte>> {
    match Utf.Decode(s) case None => None case Some(u) => Some(Units(u))
  }

  function Names(g: Login): (r: Option<seq<seq<byte>>>)
    ensures r.Some? ==> |r.value| == 3
  {
    var d, u, w := UnitsOf(g.domain), UnitsOf(g.user), UnitsOf(g.workstation);
    if d == None || u == None || w == None then None else Some([d.value, u.value, w.value])
  }

  predicate Fit(names: seq<seq<byte>>) {
    forall j :: 0 <= j < |names| ==> |names[j]| < 0x1_0000_0000
  }

  function NameWords(names: seq<seq<byte>>): (w: seq<nat>)
    requires |names| == 3 && Fit(names)
    ensures |w| == 3
  {
    [LengthWord(|names[0]|), LengthWord(|names[1]|), LengthWord(|names[2]|)]
  }

  function HeadWords(names: seq<seq<byte>>, nt: nat): (w: seq<nat>)
    requires |names| == 3 && Fit(names) && nt < 0x1_0000_0000
    ensures |w| == 5
  {
    [0x0018_0018, LengthWord(nt)] + NameWords(names)
  }

  lemma {:induction false} PairStep(words: seq<nat>, word: nat, chunks: seq<seq<byte>>)
    requires chunks == [ToLE(4, word), ToLE(4, 0)]
    ensures Front() + Pairs(words, Zeros(|words|)) + Flat(chunks) == Front() + Pairs(words + [word], Zeros(|words| + 1))
  {
    FlatTwo(chunks[0], chunks[1]);
    PairsAppend(words, Zeros(|words|), word, 0);
    assert Zeros(|words| + 1) == Zeros(|words|) + [0];
  }

  lemma {:induction false} PayloadStep(words: seq<nat>, offs: seq<nat>, done: seq<seq<byte>>, k: nat, bytes: seq<byte>)
    requires |words| == |offs| == 5 && k < 5
    ensures Put(Head(words, offs) + Flat(done), 16 + 8 * k, 4, HEAD + |Flat(done)|) + bytes
         == Head(words, offs[k := HEAD + |Flat(done)|]) + Flat(done + [bytes])
  {
    PatchHead(words, offs, Flat(done), k, HEAD + |Flat(done)|);
    FlatSnoc(done, bytes);
  }

  /** The offsets when the first j payloads are in place. */
  function OffsetsUpTo(p: Payloads, j: nat): (o: seq<nat>)
    requires j <= 5
    ensures |o| == 5
  {
    seq(5, (k: nat) requires k < 5 => if Part(k) < j then Place(p, Part(k)) else 0)
  }

  lemma {:induction false} PartStep(p: Payloads, k: nat)
    requires k < 5
    ensures var j := Part(k);
            && OffsetsUpTo(p, j)[k := Place(p, j)] == OffsetsUpTo(p, j + 1)
            && p[..j] + [p[j]] == p[..j + 1]
  {
  }

  lemma {:induction false} AllFilled(p: Payloads)
    ensures OffsetsUpTo(p, 5) == Offsets(p) && p[..5] == p
  {
  }

  lemma {:induction false} NoneFilled(p: Payloads, names: seq<seq<byte>>)
    requires |names| == 3 && p[..3] == names && |p[3]| == 24 && Words32(p)
    ensures OffsetsUpTo(p, 0) == Zeros(5) && p[..0] == []
    ensures Fit(names) && Words(p) == HeadWords(names, |p[4]|)
  {
    assert p[..3][0] == p[0] && p[..3][1] == p[1] && p[..3][2] == p[2];
    assert LengthWord(24) == 0x0018_0018;
    var w := Words(p);
    assert w[0] == LengthWord(|p[3]|) && w[1] == LengthWord(|p[4]|) && w[2] == LengthWord(|p[0]|)
        && w[3] == LengthWord(|p[1]|) && w[4] == LengthWord(|p[2]|);
  }

  lemma {:induction false} FlatTwo(x: seq<byte>, y: seq<byte>)
    ensures Flat([x, y]) == x + y
  {
    FlatCons(x, [y]);
    FlatCons(y, []);
  }

  lemma {:induction false} FlatThree(x: seq<byte>, y: seq<byte>, z: seq<byte>)
    ensures Flat([x, y, z]) == x + y + z
  {
    FlatCons(x, [y, z]);
    FlatTwo(y, z);
  }

  lemma {:induction false} FlatTemp(zeros: seq<byte>, g: Login)
    ensures Flat([zeros, g.server, [1, 1, 0, 0, 0, 0, 0, 0], ToLE(8, g.time), g.challenge, [0, 0, 0, 0], g.name, [0, 0, 0, 0]])
         == zeros + g.server + Temp(g.time, g.challenge, g.name)
  {
    var a, b, c, d, e, f: seq<byte> := g.server, [1, 1, 0, 0, 0, 0, 0, 0], ToLE(8, g.time), g.challenge, [0, 0, 0, 0], g.name;
    FlatCons(f, [e]);
    FlatCons(e, [f, e]);
    FlatCons(d, [e, f, e]);
    FlatCons(c, [d, e, f, e]);
    FlatCons(b, [c, d, e, f, e]);
    FlatCons(a, [b, c, d, e, f, e]);
    FlatCons(zeros, [a, b, c, d, e, f, e]);
    FlatCons(e, []);
  }

  lemma FlatCons(x: seq<byte>, p: seq<seq<byte>>)
    ensures Flat([x] + p) == x + Flat(p)
  {
    assert ([x] + p)[1..] == p;
  }

  lemma ProofOver(zeros: seq<byte>, server: Eight, temp: seq<byte>, proof: Digest)
    requires |zeros| == 8
    ensures PutBytes(zeros + server + temp, 0, proof) == proof + temp
    ensures (zeros + server + temp)[8..] == server + temp
  {
  }

  method Moved(tmp: array<byte>, len: nat, capacity: nat) returns (buf: array<byte>)
    requires len <= tmp.Length && len <= capacity
    ensures fresh(buf) && buf.Length == capacity && buf[..len] == tmp[..len]
  {
    buf := new byte[capacity];
    for i := 0 to len
      invariant buf[..i] == tmp[..i]
    {
      buf[i] := tmp[i];
    }
  }
}
