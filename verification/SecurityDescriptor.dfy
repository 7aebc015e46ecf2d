/**
 * Self-relative security descriptors, sections 2.4.2 to 2.4.6 of MS-DTYP, as
 * encoded and decoded by cpp/samba/client/OpenSmbC/src/Smb2DataSecurity.cpp.
 */
module SecurityDescriptor {
  import opened Options
  import opened Bytes

  /** `Wild`: the source reads outside the buffer. */
  datatype Result<T> = Ok(value: T) | Err | Wild

  datatype Sid = Sid(revision: byte, idAuth: seq<byte>, subs: seq<nat>)

  datatype Ace = Ace(
    typ: byte, flags: byte, size: nat, mask: nat, objFlags: nat, sid: Option<Sid>,
    objType: seq<byte>, inhType: seq<byte>, adData: seq<byte>, raw: seq<byte>)

  datatype Acl = Acl(revision: byte, size: nat, count: nat, aces: seq<Ace>)

  datatype SecDesc = SecDesc(revision: byte, control: nat, owner: Option<Sid>, group: Option<Sid>, dacl: Option<Acl>)

  predicate IsBasic(t: byte) { t == 0x00 || t == 0x01 || t == 0x02 || t == 0x11 || t == 0x13 }

  predicate IsObject(t: byte) { t == 0x05 || t == 0x06 || t == 0x07 }

  predicate IsCallback(t: byte) { t == 0x09 || t == 0x10 || t == 0x12 }

  const ZERO16: seq<byte> := [0, 0, 0, 0, 0, 0, 0, 0, 0, 0, 0, 0, 0, 0, 0, 0]

  // ----- sizes

  function SidSize(s: Sid): nat { 8 + 4 * |s.subs| }

  function AcesSize(aces: seq<Ace>): nat {
    if aces == [] then 0 else aces[0].size + AcesSize(aces[1..])
  }

  function AclSize(a: Acl): nat { 8 + AcesSize(a.aces) }

  /** `smb2_get_security_descriptor_size`. */
  function SecDescSize(sd: SecDesc): nat {
    20 + (if sd.owner.Some? then SidSize(sd.owner.value) else 0)
    + (if sd.group.Some? then SidSize(sd.group.value) else 0)
    + (if sd.dacl.Some? then AclSize(sd.dacl.value) else 0)
  }

  // ----- the encoded bytes

  function Words(xs: seq<nat>): (s: seq<byte>)
    ensures |s| == 4 * |xs|
  {
    if xs == [] then [] else ToLE(4, xs[0]) + Words(xs[1..])
  }

  predicate SidOk(s: Sid) {
    |s.idAuth| == 6 && |s.subs| <= 255 && forall i :: 0 <= i < |s.subs| ==> Fits(4, s.subs[i])
  }

  function SidBytes(s: Sid): (b: seq<byte>)
    requires SidOk(s)
    ensures |b| == SidSize(s)
  {
    [s.revision, |s.subs|] + s.idAuth + Words(s.subs)
  }

  // An entry is written by its kind, whatever its size field says.

  predicate IsTyped(t: byte) { IsBasic(t) || IsObject(t) || IsCallback(t) }

  /** Field widths of the C structs; an entry of a typed kind has a SID. */
  predicate AceShape(a: Ace) {
    && Fits(2, a.size) && Fits(4, a.mask) && Fits(4, a.objFlags) && |a.objType| == 16 && |a.inhType| == 16
    && (IsTyped(a.typ) ==> a.sid.Some? && SidOk(a.sid.value))
  }

  /** Bytes of the C struct an entry starts with. */
  function Fixed(a: Ace): nat { FixedOf(a.typ) }

  function FixedOf(t: byte): nat { if IsObject(t) then 44 else if IsTyped(t) then 8 else 4 }

  /** Bytes up to the end of the SID, as far as the encoder checks for room. */
  function Guarded(a: Ace): nat {
    Fixed(a) + if IsTyped(a.typ) && a.sid.Some? then SidSize(a.sid.value) else 0
  }

  /** All bytes the encoder writes for an entry. */
  function Used(a: Ace): nat {
    Guarded(a) + if IsCallback(a.typ) then |a.adData| else if IsTyped(a.typ) then 0 else |a.raw|
  }

  function AceBytes(a: Ace): (b: seq<byte>)
    requires AceShape(a)
    ensures |b| == Used(a)
  {
    if !IsTyped(a.typ) then [a.typ, a.flags] + ToLE(2, a.size) + a.raw
    else if IsCallback(a.typ) then [a.typ, a.flags] + ToLE(2, a.size) + ToLE(4, a.mask) + SidBytes(a.sid.value) + a.adData
    else [a.typ, a.flags] + ToLE(2, a.size) + ToLE(4, a.mask)
         + (if IsObject(a.typ) then ToLE(4, a.objFlags) + a.objType + a.inhType else [])
         + SidBytes(a.sid.value)
  }

  predicate AcesShape(aces: seq<Ace>) {
    aces == [] || (AceShape(aces[0]) && AcesShape(aces[1..]))
  }

  function UsedSum(aces: seq<Ace>): nat {
    if aces == [] then 0 else Used(aces[0]) + UsedSum(aces[1..])
  }

  function AcesBytes(aces: seq<Ace>): (b: seq<byte>)
    requires AcesShape(aces)
    ensures |b| == UsedSum(aces)
  {
    if aces == [] then [] else AceBytes(aces[0]) + AcesBytes(aces[1..])
  }

  ghost predicate AclShape(a: Acl) {
    AcesShape(a.aces) && Fits(2, a.size) && Fits(2, a.count)
  }

  function AclBytes(a: Acl): (b: seq<byte>)
    requires AclShape(a)
    ensures |b| == 8 + UsedSum(a.aces)
  {
    [a.revision, 0] + ToLE(2, a.size) + ToLE(2, a.count) + [0, 0] + AcesBytes(a.aces)
  }

  ghost predicate Shape(sd: SecDesc) {
    && Fits(2, sd.control)
    && (sd.owner.Some? ==> SidOk(sd.owner.value))
    && (sd.group.Some? ==> SidOk(sd.group.value))
    && (sd.dacl.Some? ==> AclShape(sd.dacl.value))
  }

  // What the round trip is promised for: kinds whose contents the decoder takes apart, and exact sizes.

  predicate AceKept(a: Ace) {
    && AceShape(a) && a.sid.Some? && a.sid.value.revision == 1 && a.adData == [] && a.raw == []
    && (IsObject(a.typ) || (IsBasic(a.typ) && a.objFlags == 0 && a.objType == ZERO16 && a.inhType == ZERO16))
  }

  predicate AceOk(a: Ace) { AceKept(a) && a.size == Used(a) }

  predicate AcesOk(aces: seq<Ace>) {
    aces == [] || (AceOk(aces[0]) && AcesOk(aces[1..]))
  }

  ghost predicate AclOk(a: Acl) {
    && (a.revision == 2 || a.revision == 4)
    && AcesOk(a.aces) && a.count == |a.aces| && a.size == AclSize(a) && Fits(2, a.size) && Fits(2, a.count)
  }

  ghost predicate SecDescOk(sd: SecDesc) {
    && sd.revision == 1 && Shape(sd)
    && (sd.owner.Some? ==> sd.owner.value.revision == 1)
    && (sd.group.Some? ==> sd.group.value.revision == 1)
    && (sd.dacl.Some? ==> AclOk(sd.dacl.value))
  }

  /** Then an entry takes what its size field says. */
  lemma {:induction false} ExactAces(aces: seq<Ace>)
    requires AcesOk(aces)
    ensures AcesShape(aces) && UsedSum(aces) == AcesSize(aces)
  {
    if aces != [] { ExactAces(aces[1..]); }
  }

  function OptSid(s: Option<Sid>): (b: seq<byte>)
    requires s.Some? ==> SidOk(s.value)
    ensures |b| == if s.Some? then SidSize(s.value) else 0
  {
    if s.Some? then SidBytes(s.value) else []
  }

  function OptAcl(a: Option<Acl>): (b: seq<byte>)
    requires a.Some? ==> AclShape(a.value)
    ensures |b| == if a.Some? then 8 + UsedSum(a.value.aces) else 0
  {
    if a.Some? then AclBytes(a.value) else []
  }

  function Head(sd: SecDesc, owner: nat, group: nat, dacl: nat): (b: seq<byte>)
    ensures |b| == 20
  {
    [sd.revision, 0] + ToLE(2, sd.control) + ToLE(4, owner) + ToLE(4, group) + ToLE(4, 0) + ToLE(4, dacl)
  }

  function OwnerAt(sd: SecDesc): nat { if sd.owner.Some? then 20 else 0 }

  function GroupAt(sd: SecDesc): nat {
    if sd.group.Some? then 20 + (if sd.owner.Some? then SidSize(sd.owner.value) else 0) else 0
  }

  function DaclAt(sd: SecDesc): nat {
    if sd.dacl.Some?
    then 20 + (if sd.owner.Some? then SidSize(sd.owner.value) else 0) + (if sd.group.Some? then SidSize(sd.group.value) else 0)
    else 0
  }

  /** What `smb2EncodeSecurityDescriptor` leaves in the buffer. */
  function SecDescBytes(sd: SecDesc): (b: seq<byte>)
    requires Shape(sd)
    ensures |b| == 20 + |OptSid(sd.owner)| + |OptSid(sd.group)| + |OptAcl(sd.dacl)|
  {
    Head(sd, OwnerAt(sd), GroupAt(sd), DaclAt(sd)) + OptSid(sd.owner) + OptSid(sd.group) + OptAcl(sd.dacl)
  }

  // ----- decoding

  function ReadWords(v: seq<byte>, n: nat): (xs: seq<nat>)
    requires |v| >= 4 * n
    ensures |xs| == n
  {
    if n == 0 then [] else [FromLE(v[..4])] + ReadWords(v[4..], n - 1)
  }

  // `len` is how many bytes the decoder thinks it has, `v` what is really there.  They
  // part behind an ACL whose size field does not cover its own header: `len` has wrapped.

  function DecodeSid(v: seq<byte>, len: nat): Result<Sid> {
    if len < 8 then Err
    else if |v| < 1 then Wild
    else if v[0] != 1 then Err
    else if |v| < 2 then Wild
    else if len < 8 + 4 * v[1] as int then Err
    else if |v| < 8 + 4 * v[1] as int then Wild
    else Ok(Sid(v[0], v[2..8], ReadWords(v[8..], v[1])))
  }

  /** A copy of what is left; its length is kept in an `int`, and a negative one is more than there is memory. */
  function DecodeData(v: seq<byte>, len: nat): Result<seq<byte>> {
    if Int32(len) < 0 then Err else if |v| < len then Wild else Ok(v[..len])
  }

  function DecodeAce(v: seq<byte>, len: nat): Result<Ace> {
    if len < 4 then Err
    else if |v| < 4 then Wild
    else if Get(v, 2, 2) < 4 || len < Get(v, 2, 2) then Err
    else
      var base := Ace(v[0], v[1], Get(v, 2, 2), 0, 0, None, ZERO16, ZERO16, [], []);
      if IsTyped(v[0]) then DecodeTyped(v, len, base)
      else match DecodeData(v[4..], len - 4)
        case Ok(d) => Ok(base.(raw := d))
        case Err => Err
        case Wild => Wild
  }

  /** Fixed part and SID; application data begins, as in the source, at the SID. */
  function DecodeTyped(v: seq<byte>, len: nat, base: Ace): Result<Ace>
    requires |v| >= 4
  {
    var f := FixedOf(v[0]);
    if len < f then Err
    else if |v| < f then Wild
    else match DecodeSid(v[f..], len - f)
      case Err => Err
      case Wild => Wild
      case Ok(sid) =>
        var a := base.(mask := Get(v, 4, 4), sid := Some(sid));
        if IsObject(v[0]) then Ok(a.(objFlags := Get(v, 8, 4), objType := v[12..28], inhType := v[28..44]))
        else if IsCallback(v[0]) then (match DecodeData(v[f..], len - f)
          case Ok(d) => Ok(a.(adData := d))
          case Err => Err
          case Wild => Wild)
        else Ok(a)
  }

  function Skip(v: seq<byte>, k: nat): seq<byte> { if k <= |v| then v[k..] else [] }

  /** The loop of `decode_acl`, for any way to decode one entry. */
  function Repeat(one: (seq<byte>, nat) -> Result<Ace>, v: seq<byte>, len: nat, n: nat): (r: Result<seq<Ace>>)
    ensures r.Ok? ==> |r.value| == n && AcesSize(r.value) <= len
    decreases n
  {
    if n == 0 then Ok([])
    else match one(v, len)
      case Ok(a) =>
        if a.size > len then Err
        else (match Repeat(one, Skip(v, a.size), len - a.size, n - 1)
              case Ok(rest) => Ok([a] + rest)
              case other => other)
      case Err => Err
      case Wild => Wild
  }

  function DecodeAces(v: seq<byte>, len: nat, n: nat): Result<seq<Ace>> { Repeat(DecodeAce, v, len, n) }

  /** What the decoder thinks is left behind the header of an ACL. */
  function LeftBehind(size: nat): nat { if size >= 8 then size - 8 else U64 + size - 8 }

  function DecodeAcl(v: seq<byte>): Result<Acl> {
    if |v| < 8 then Err
    else
      var size, count := Get(v, 2, 2), Get(v, 4, 2);
      if v[0] != 2 && v[0] != 4 then Err
      else if |v| < size then Err
      else match DecodeAces(v[8..], LeftBehind(size), count)
        case Ok(aces) => Ok(Acl(v[0], size, count, aces))
        case Err => Err
        case Wild => Wild
  }

  /** The bound test on an offset, added up in 32 bits: an offset near 2^32 passes it. */
  predicate Inside(b: seq<byte>, off: nat) {
    off > 0 && (off + 8) % U32 < |b|
  }

  function DecodeSidAt(b: seq<byte>, off: nat): Result<Option<Sid>> {
    if !Inside(b, off) then Ok(None)
    else if off > |b| then Wild
    else match DecodeSid(b[off..], |b| - off)
      case Ok(s) => Ok(Some(s))
      case Err => Err
      case Wild => Wild
  }

  function DecodeAclAt(b: seq<byte>, off: nat): Result<Option<Acl>> {
    if !Inside(b, off) then Ok(None)
    else if off > |b| then Wild
    else match DecodeAcl(b[off..])
      case Ok(a) => Ok(Some(a))
      case Err => Err
      case Wild => Wild
  }

  /** `smb2DecodeSecDescInternal`. */
  function Decode(b: seq<byte>): Result<SecDesc> {
    if |b| < 20 || b[0] != 1 then Err
    else
      match DecodeSidAt(b, Get(b, 4, 4))
      case Ok(owner) => (
        match DecodeSidAt(b, Get(b, 8, 4))
        case Ok(group) => (
          match DecodeAclAt(b, Get(b, 16, 4))
          case Ok(dacl) => Ok(SecDesc(b[0], Get(b, 2, 2), owner, group, dacl))
          case Err => Err
          case Wild => Wild)
        case Err => Err
        case Wild => Wild)
      case Err => Err
      case Wild => Wild
  }

  // ----- what is decoded from where

  /** A SID, field by field. */
  ghost predicate SidAt(v: seq<byte>, at: nat, s: Sid) {
    && at + 8 <= |v| && s.revision == v[at] == 1 && |s.subs| == v[at + 1] as int && s.idAuth == v[at + 2..at + 8]
    && at + 8 + 4 * |s.subs| <= |v| && forall i: nat | i < |s.subs| :: s.subs[i] == FromLE(v[at + 8 + 4 * i..at + 12 + 4 * i])
  }

  lemma {:induction false} WordsAt(v: seq<byte>, n: nat, i: nat)
    requires |v| >= 4 * n && i < n
    ensures ReadWords(v, n)[i] == FromLE(v[4 * i..4 * i + 4])
  {
    if i > 0 {
      WordsAt(v[4..], n - 1, i - 1);
      SliceBehind(v, 4, 4 * i - 4, 4 * i);
    } else {
      assert v[0..4] == v[..4];
    }
  }

  lemma SliceBehind(v: seq<byte>, k: nat, i: nat, j: nat)
    requires k <= |v| && i <= j <= |v| - k
    ensures v[k..][i..j] == v[k + i..k + j]
  {
  }

  lemma {:induction false} SidStands(v: seq<byte>, at: nat, len: nat)
    requires at <= |v| && DecodeSid(v[at..], len).Ok?
    ensures SidAt(v, at, DecodeSid(v[at..], len).value)
  {
    var w, s := v[at..], DecodeSid(v[at..], len).value;
    assert w[2..8] == v[at + 2..at + 8];
    forall i: nat | i < |s.subs| ensures s.subs[i] == FromLE(v[at + 8 + 4 * i..at + 12 + 4 * i]) {
      WordsAt(w[8..], |s.subs|, i);
      assert w[8..] == v[at + 8..];
      SliceBehind(v, at + 8, 4 * i, 4 * i + 4);
    }
  }

  /** The parts of an entry, by the numbers of its type. */
  lemma {:induction false} AceParts(v: seq<byte>, len: nat)
    requires DecodeAce(v, len).Ok?
    ensures var a := DecodeAce(v, len).value;
            && |v| >= 4 && a.typ == v[0] && a.flags == v[1] && a.size == FromLE(v[2..4])
            && (a.typ in {0x00, 0x01, 0x02, 0x11, 0x13} ==>
                  a.sid.Some? && SidAt(v, 8, a.sid.value) && a.mask == FromLE(v[4..8]) && a.adData == [] && a.raw == [])
            && (a.typ in {0x05, 0x06, 0x07} ==>
                  a.sid.Some? && SidAt(v, 44, a.sid.value) && a.mask == FromLE(v[4..8]) && a.objFlags == FromLE(v[8..12])
                  && a.objType == v[12..28] && a.inhType == v[28..44] && a.adData == [] && a.raw == [])
            && (a.typ in {0x09, 0x10, 0x12} ==>
                  a.sid.Some? && SidAt(v, 8, a.sid.value) && a.mask == FromLE(v[4..8]) && len <= |v| && a.adData == v[8..len] && a.raw == [])
            && (a.typ !in {0x00, 0x01, 0x02, 0x11, 0x13, 0x05, 0x06, 0x07, 0x09, 0x10, 0x12} ==>
                  a.sid.None? && a.adData == [] && len <= |v| && a.raw == v[4..len])
  {
    var f := FixedOf(v[0]);
    if IsTyped(v[0]) { SidStands(v, f, len - f); }
    if IsCallback(v[0]) { SliceBehind(v, 8, 0, len - 8); }
    if !IsTyped(v[0]) { SliceBehind(v, 4, 0, len - 4); }
  }

  /** Where the header's offsets lead: the owner from byte 4, the group from byte 8, the discretionary ACL from byte 16. */
  lemma {:induction false} PartsStand(b: seq<byte>)
    requires Decode(b).Ok?
    ensures var sd := Decode(b).value;
            && |b| >= 20 && sd.revision == b[0] == 1 && sd.control == FromLE(b[2..4])
            && (sd.owner.Some? ==> SidAt(b, FromLE(b[4..8]), sd.owner.value))
            && (sd.group.Some? ==> SidAt(b, FromLE(b[8..12]), sd.group.value))
            && (sd.dacl.Some? ==>
                  var d, a := FromLE(b[16..20]), sd.dacl.value;
                  d + 8 <= |b| && a.revision == b[d] && a.size == FromLE(b[d + 2..d + 4]) && a.count == FromLE(b[d + 4..d + 6]) && |a.aces| == a.count)
  {
    var sd := Decode(b).value;
    var o, g, d := Get(b, 4, 4), Get(b, 8, 4), Get(b, 16, 4);
    if sd.owner.Some? { SidStands(b, o, |b| - o); }
    if sd.group.Some? { SidStands(b, g, |b| - g); }
    if sd.dacl.Some? { AclStands(b, d); }
  }

  lemma {:induction false} AclStands(b: seq<byte>, d: nat)
    requires d <= |b| && DecodeAcl(b[d..]).Ok?
    ensures var a := DecodeAcl(b[d..]).value;
            d + 8 <= |b| && a.revision == b[d] && a.size == FromLE(b[d + 2..d + 4]) && a.count == FromLE(b[d + 4..d + 6]) && |a.aces| == a.count
  {
    SliceBehind(b, d, 2, 4);
    SliceBehind(b, d, 4, 6);
  }

  // ----- round trip, part by part; each part may be followed by anything

  lemma {:induction false} WordBack(x: nat)
    requires Fits(4, x)
    ensures FromLE(ToLE(4, x)) == x
  {
    FromToLE(4, x);
    DivModUnique(x, Pow256(4), 0, x);
  }

  lemma {:induction false} WordsBack(xs: seq<nat>, tail: seq<byte>)
    requires forall i :: 0 <= i < |xs| ==> Fits(4, xs[i])
    ensures ReadWords(Words(xs) + tail, |xs|) == xs
  {
    if xs != [] {
      var v := Words(xs) + tail;
      assert v[..4] == ToLE(4, xs[0]) && v[4..] == Words(xs[1..]) + tail;
      WordBack(xs[0]);
      WordsBack(xs[1..], tail);
    }
  }

  lemma {:induction false} SidBack(s: Sid, tail: seq<byte>, len: nat)
    requires SidOk(s) && s.revision == 1 && len >= SidSize(s)
    ensures DecodeSid(SidBytes(s) + tail, len) == Ok(s)
  {
    var v := SidBytes(s) + tail;
    assert v[0] == 1 && v[1] == |s.subs| && v[2..8] == s.idAuth;
    assert v[8..] == Words(s.subs) + tail;
    WordsBack(s.subs, tail);
  }

  /** The bytes of a typed entry up to its SID. */
  ghost function FixedBytes(ace: Ace): (b: seq<byte>)
    requires AceShape(ace) && IsTyped(ace.typ)
    ensures |b| == Fixed(ace)
  {
    [ace.typ, ace.flags] + ToLE(2, ace.size) + ToLE(4, ace.mask)
    + if IsObject(ace.typ) then ToLE(4, ace.objFlags) + ace.objType + ace.inhType else []
  }

  lemma {:induction false} KeptLayout(a: Ace, tail: seq<byte>)
    requires AceKept(a)
    ensures AceBytes(a) + tail == FixedBytes(a) + (SidBytes(a.sid.value) + tail)
  {
    assert AceBytes(a) == FixedBytes(a) + SidBytes(a.sid.value);
  }

  lemma FrontSlices(t: byte, f: byte, z: seq<byte>, m: seq<byte>, rest: seq<byte>)
    requires |z| == 2 && |m| == 4
    ensures var v := [t, f] + z + m + rest; v[0] == t && v[1] == f && v[2..4] == z && v[4..8] == m && v[8..] == rest
  {
  }

  lemma TypeSlices(front: seq<byte>, g: seq<byte>, o: seq<byte>, i: seq<byte>, more: seq<byte>)
    requires |front| == 8 && |g| == 4 && |o| == |i| == 16
    ensures var v := front + (g + o + i + more); v[8..12] == g && v[12..28] == o && v[28..44] == i && v[44..] == more
  {
  }

  lemma {:induction false} FixedFields(a: Ace, more: seq<byte>)
    requires AceKept(a)
    ensures var v := FixedBytes(a) + more;
            && v[0] == a.typ && v[1] == a.flags && Get(v, 2, 2) == a.size && Get(v, 4, 4) == a.mask && v[Fixed(a)..] == more
            && (IsObject(a.typ) ==> Get(v, 8, 4) == a.objFlags && v[12..28] == a.objType && v[28..44] == a.inhType)
  {
    var v, z, m := FixedBytes(a) + more, ToLE(2, a.size), ToLE(4, a.mask);
    var types := if IsObject(a.typ) then ToLE(4, a.objFlags) + a.objType + a.inhType else [];
    var front := [a.typ, a.flags] + z + m;
    Associate(front, types, more);
    FrontSlices(a.typ, a.flags, z, m, types + more);
    FieldAt(v, 2, 2, a.size);
    FieldAt(v, 4, 4, a.mask);
    if IsObject(a.typ) {
      TypeSlices(front, ToLE(4, a.objFlags), a.objType, a.inhType, more);
      FieldAt(v, 8, 4, a.objFlags);
    }
  }

  lemma {:induction false} AceBack(a: Ace, tail: seq<byte>, len: nat)
    requires AceKept(a) && 4 <= a.size <= len && Used(a) <= len
    ensures DecodeAce(AceBytes(a) + tail, len) == Ok(a)
  {
    KeptLayout(a, tail);
    FixedFields(a, SidBytes(a.sid.value) + tail);
    SidBack(a.sid.value, tail, len - Fixed(a));
  }

  lemma {:induction false} AcesStep(v: seq<byte>, len: nat, a: Ace, rest: seq<Ace>)
    requires DecodeAce(v, len) == Ok(a) && a.size <= len && DecodeAces(Skip(v, a.size), len - a.size, |rest|) == Ok(rest)
    ensures DecodeAces(v, len, |rest| + 1) == Ok([a] + rest)
  {
    RepeatStep(DecodeAce, v, len, a, rest);
  }

  lemma SkipFirst(x: seq<byte>, y: seq<byte>)
    ensures Skip(x + y, |x|) == y
  {
  }

  lemma {:induction false} AcesBack(aces: seq<Ace>, tail: seq<byte>, len: nat)
    requires AcesOk(aces) && AcesShape(aces) && len >= UsedSum(aces)
    ensures DecodeAces(AcesBytes(aces) + tail, len, |aces|) == Ok(aces)
  {
    forall a, behind, left: nat | AceOk(a) && Used(a) <= left ensures DecodeAce(AceBytes(a) + behind, left) == Ok(a) {
      AceBack(a, behind, left);
    }
    RepeatBack(DecodeAce, aces, tail, len);
  }

  lemma {:induction false} RepeatBack(one: (seq<byte>, nat) -> Result<Ace>, aces: seq<Ace>, tail: seq<byte>, len: nat)
    requires forall a, behind, left: nat {:trigger one(AceBytes(a) + behind, left)} ::
               AceOk(a) && Used(a) <= left ==> one(AceBytes(a) + behind, left) == Ok(a)
    requires AcesOk(aces) && AcesShape(aces) && len >= UsedSum(aces)
    ensures Repeat(one, AcesBytes(aces) + tail, len, |aces|) == Ok(aces)
  {
    if aces != [] {
      var a, rest := aces[0], aces[1..];
      var behind := AcesBytes(rest) + tail;
      RepeatBack(one, rest, tail, len - Used(a));
      Associate(AceBytes(a), AcesBytes(rest), tail);
      SkipFirst(AceBytes(a), behind);
      RepeatStep(one, AceBytes(a) + behind, len, a, rest);
      assert [a] + rest == aces;
    }
  }

  lemma {:induction false} RepeatStep(one: (seq<byte>, nat) -> Result<Ace>, v: seq<byte>, len: nat, a: Ace, rest: seq<Ace>)
    requires one(v, len) == Ok(a) && a.size <= len && Repeat(one, Skip(v, a.size), len - a.size, |rest|) == Ok(rest)
    ensures Repeat(one, v, len, |rest| + 1) == Ok([a] + rest)
  {
  }

  lemma {:induction false} AclDecodes(v: seq<byte>, e: seq<byte>, size: nat, n: nat, aces: seq<Ace>)
    requires |v| >= 8 && size <= |v| && (v[0] == 2 || v[0] == 4) && Get(v, 2, 2) == size && Get(v, 4, 2) == n
    requires v[8..] == e && DecodeAces(e, LeftBehind(size), n) == Ok(aces)
    ensures DecodeAcl(v) == Ok(Acl(v[0], size, n, aces))
  {
  }

  lemma {:induction false} AclFields(a: Acl, tail: seq<byte>)
    requires AclShape(a)
    ensures var v := AclBytes(a) + tail;
            v[0] == a.revision && Get(v, 2, 2) == a.size && Get(v, 4, 2) == a.count && v[8..] == AcesBytes(a.aces) + tail
  {
    var v, head := AclBytes(a) + tail, [a.revision, 0] + ToLE(2, a.size) + ToLE(2, a.count) + [0, 0];
    Associate(head, AcesBytes(a.aces), tail);
    assert head[2..4] == ToLE(2, a.size) && head[4..6] == ToLE(2, a.count);
    FieldAt(v, 2, 2, a.size);
    FieldAt(v, 4, 2, a.count);
  }

  lemma {:induction false} AclBack(a: Acl, tail: seq<byte>)
    requires AclOk(a) && AclShape(a)
    ensures DecodeAcl(AclBytes(a) + tail) == Ok(a)
  {
    AclFields(a, tail);
    ExactAces(a.aces);
    AcesBack(a.aces, tail, a.size - 8);
    AclDecodes(AclBytes(a) + tail, AcesBytes(a.aces) + tail, a.size, a.count, a.aces);
  }

  // ----- the descriptor

  /** Size of the last part present is exactly 8: a SID without sub-authorities or an ACL without entries. */
  predicate EndsBare(sd: SecDesc) {
    if sd.dacl.Some? then AclSize(sd.dacl.value) == 8
    else if sd.group.Some? then |sd.group.value.subs| == 0
    else sd.owner.Some? && |sd.owner.value.subs| == 0
  }

  lemma {:induction false} HeadBack(sd: SecDesc, owner: nat, group: nat, dacl: nat, tail: seq<byte>)
    requires Fits(2, sd.control) && Fits(4, owner) && Fits(4, group) && Fits(4, dacl)
    ensures var b := Head(sd, owner, group, dacl) + tail;
            b[0] == sd.revision && Get(b, 2, 2) == sd.control && Get(b, 4, 4) == owner && Get(b, 8, 4) == group && Get(b, 16, 4) == dacl
  {
    var b := Head(sd, owner, group, dacl) + tail;
    assert b[2..4] == ToLE(2, sd.control) && b[4..8] == ToLE(4, owner) && b[8..12] == ToLE(4, group) && b[16..20] == ToLE(4, dacl);
    FieldAt(b, 2, 2, sd.control);
    FieldAt(b, 4, 4, owner);
    FieldAt(b, 8, 4, group);
    FieldAt(b, 16, 4, dacl);
  }

  lemma {:induction false} OffsetsFit(sd: SecDesc)
    requires SecDescOk(sd)
    ensures Fits(4, OwnerAt(sd)) && Fits(4, GroupAt(sd)) && Fits(4, DaclAt(sd))
    ensures OwnerAt(sd) + 8 < U32 && GroupAt(sd) + 8 < U32 && DaclAt(sd) + 8 < U32
  {
    FieldFits();
  }

  /** A part present is found again, unless it is bare and nothing follows it. */
  lemma {:induction false} SidFound(b: seq<byte>, off: nat, s: Option<Sid>, tail: seq<byte>)
    requires s.Some? ==> SidOk(s.value) && s.value.revision == 1 && 0 < off <= |b| && off + 8 < U32 && b[off..] == SidBytes(s.value) + tail
    requires s.None? ==> off == 0
    ensures DecodeSidAt(b, off) == if s.Some? && |s.value.subs| == 0 && tail == [] then Ok(None) else Ok(s)
  {
    if s.Some? { SidBack(s.value, tail, |b| - off); }
  }

  lemma InsideIs(b: seq<byte>, off: nat)
    requires off + 8 < U32
    ensures Inside(b, off) <==> off > 0 && off + 8 < |b|
  {
  }

  lemma {:induction false} AclParses(v: seq<byte>, a: Acl)
    requires AclOk(a) && AclShape(a) && v == AclBytes(a)
    ensures DecodeAcl(v) == Ok(a) && |v| == AclSize(a)
  {
    ExactAces(a.aces);
    AclBack(a, []);
    assert AclBytes(a) + [] == v;
  }

  lemma {:induction false} AclFound(b: seq<byte>, off: nat, a: Option<Acl>)
    requires a.Some? ==> AclOk(a.value) && AclShape(a.value) && 0 < off <= |b| && off + 8 < U32 && b[off..] == AclBytes(a.value)
    requires a.None? ==> off == 0
    ensures DecodeAclAt(b, off) == if a.Some? && AclSize(a.value) == 8 then Ok(None) else Ok(a)
  {
    if a.Some? {
      AclParses(b[off..], a.value);
      InsideIs(b, off);
    }
  }

  /**
   * Decoding what was encoded gives the descriptor back exactly when its last part
   * is not a bare one: the decoder's strict bound skips eight bytes at the end.
   */
  lemma {:induction false} DecodeEncoded(sd: SecDesc)
    requires SecDescOk(sd)
    ensures Decode(SecDescBytes(sd)) == Ok(sd) <==> !EndsBare(sd)
  {
    var b := SecDescBytes(sd);
    Laid(sd);
    OffsetsFit(sd);
    SidFound(b, OwnerAt(sd), sd.owner, OptSid(sd.group) + OptAcl(sd.dacl));
    SidFound(b, GroupAt(sd), sd.group, OptAcl(sd.dacl));
    AclFound(b, DaclAt(sd), sd.dacl);
  }

  /** Where the parts stand in the encoded descriptor, and what its header says. */
  lemma {:induction false} Laid(sd: SecDesc)
    requires SecDescOk(sd)
    ensures var b := SecDescBytes(sd);
            && b[0] == 1 && Get(b, 2, 2) == sd.control
            && Get(b, 4, 4) == OwnerAt(sd) && Get(b, 8, 4) == GroupAt(sd) && Get(b, 16, 4) == DaclAt(sd)
            && (sd.owner.Some? ==> b[OwnerAt(sd)..] == SidBytes(sd.owner.value) + (OptSid(sd.group) + OptAcl(sd.dacl)))
            && (sd.group.Some? ==> b[GroupAt(sd)..] == SidBytes(sd.group.value) + OptAcl(sd.dacl))
            && (sd.dacl.Some? ==> b[DaclAt(sd)..] == AclBytes(sd.dacl.value))
  {
    LaidHead(sd);
    Behind(Head(sd, OwnerAt(sd), GroupAt(sd), DaclAt(sd)), OptSid(sd.owner), OptSid(sd.group), OptAcl(sd.dacl));
  }

  lemma {:induction false} LaidHead(sd: SecDesc)
    requires SecDescOk(sd)
    ensures var b := SecDescBytes(sd);
            && b[0] == 1 && Get(b, 2, 2) == sd.control
            && Get(b, 4, 4) == OwnerAt(sd) && Get(b, 8, 4) == GroupAt(sd) && Get(b, 16, 4) == DaclAt(sd)
  {
    var h, o, g, d := Head(sd, OwnerAt(sd), GroupAt(sd), DaclAt(sd)), OptSid(sd.owner), OptSid(sd.group), OptAcl(sd.dacl);
    OffsetsFit(sd);
    HeadBack(sd, OwnerAt(sd), GroupAt(sd), DaclAt(sd), o + g + d);
    Behind(h, o, g, d);
  }

  lemma Behind(h: seq<byte>, o: seq<byte>, g: seq<byte>, d: seq<byte>)
    ensures h + o + g + d == h + (o + g + d)
    ensures (h + o + g + d)[|h|..] == o + (g + d)
    ensures (h + o + g + d)[|h| + |o|..] == g + d
    ensures (h + o + g + d)[|h| + |o| + |g|..] == d
  {
  }

  /** The smallest descriptor the decoder does not give back: an owner without sub-authorities. */
  lemma BareOwnerIsLost()
    ensures var sd := SecDesc(1, 0, Some(Sid(1, [0, 0, 0, 0, 0, 0], [])), None, None);
            SecDescOk(sd) && Decode(SecDescBytes(sd)) != Ok(sd)
  {
    var sd := SecDesc(1, 0, Some(Sid(1, [0, 0, 0, 0, 0, 0], [])), None, None);
    FieldFits();
    DecodeEncoded(sd);
  }

  // ----- what decoding guarantees about sizes

  lemma {:induction false} GetWord(v: seq<byte>, off: nat)
    ensures Get(v, off, 2) <= 65535
  {
    FieldFits();
    if off + 2 <= |v| { FromLEBound(v[off..off + 2]); }
  }

  lemma {:induction false} DecodedSidSize(v: seq<byte>, len: nat)
    ensures DecodeSid(v, len).Ok? ==> SidSize(DecodeSid(v, len).value) <= 1028
  {
  }

  lemma {:induction false} DecodedAceSize(v: seq<byte>, len: nat)
    ensures DecodeAce(v, len).Ok? ==> |v| >= 4 && DecodeAce(v, len).value.size == Get(v, 2, 2) && 4 <= Get(v, 2, 2) <= 65535
  {
    GetWord(v, 2);
  }

  predicate SizedBy(v: seq<byte>, r: Result<Ace>) {
    r.Ok? ==> |v| >= 4 && r.value.size == Get(v, 2, 2) && 4 <= r.value.size <= 65535
  }

  /** All entries but the last begin where an earlier one ends, in the buffer. */
  lemma {:induction false} RepeatSize(one: (seq<byte>, nat) -> Result<Ace>, v: seq<byte>, len: nat, n: nat)
    requires forall w, l: nat {:trigger one(w, l)} :: SizedBy(w, one(w, l))
    ensures Repeat(one, v, len, n).Ok? ==>
              var aces := Repeat(one, v, len, n).value;
              4 * n <= AcesSize(aces) <= 65535 * n && (n > 0 ==> |v| >= 4 && AcesSize(aces) <= |v| + 65535)
    decreases n
  {
    if n > 0 && Repeat(one, v, len, n).Ok? {
      assert SizedBy(v, one(v, len));
      var size := one(v, len).value.size;
      RepeatSize(one, Skip(v, size), len - size, n - 1);
    }
  }

  lemma {:induction false} DecodedAcesSize(v: seq<byte>, len: nat, n: nat)
    ensures DecodeAces(v, len, n).Ok? ==>
              var aces := DecodeAces(v, len, n).value;
              |aces| == n && 4 * n <= AcesSize(aces) <= 65535 * n && AcesSize(aces) <= len && (n > 0 ==> AcesSize(aces) <= |v| + 65535)
  {
    forall w, l: nat ensures SizedBy(w, DecodeAce(w, l)) { DecodedAceSize(w, l); }
    RepeatSize(DecodeAce, v, len, n);
  }

  /** An ACL that has no entries, or a size field that covers its own header. */
  predicate Covers(a: Acl) { a.aces == [] || a.size >= 8 }

  /** The sizes of a decoded ACL add up exactly when its size field covers its header; otherwise they follow what is in the buffer. */
  lemma {:induction false} DecodedAclSize(v: seq<byte>)
    ensures DecodeAcl(v).Ok? ==>
              var a := DecodeAcl(v).value;
              && a.size <= 65535 && (SumFits(a) <==> Covers(a))
              && AclSize(a) <= (if Covers(a) then 65535 else |v| + 65535)
              && AclSize(a) <= 8 + 65535 * 65535
  {
    if DecodeAcl(v).Ok? {
      GetWord(v, 2);
      GetWord(v, 4);
      DecodedAcesSize(v[8..], LeftBehind(Get(v, 2, 2)), Get(v, 4, 2));
    }
  }

  /**
   * A decoded descriptor needs at most 67611 bytes when its ACL covers its header, and
   * otherwise at most 67610 more than it was decoded from; the 32-bit size never wraps.
   */
  lemma {:induction false} DecodedSize(b: seq<byte>)
    ensures Decode(b).Ok? ==>
              var sd := Decode(b).value;
              && SecDescSize(sd) < U32
              && SecDescSize(sd) <= (if sd.dacl.Some? && !Covers(sd.dacl.value) then |b| + 67610 else 67611)
  {
    if Decode(b).Ok? {
      var sd := Decode(b).value;
      var o, g, d := Get(b, 4, 4), Get(b, 8, 4), Get(b, 16, 4);
      if sd.owner.Some? { DecodedSidSize(b[o..], |b| - o); }
      if sd.group.Some? { DecodedSidSize(b[g..], |b| - g); }
      if sd.dacl.Some? { DecodedAclSize(b[d..]); }
    }
  }

  // ----- reading outside the buffer

  /** An offset so near 2^32 that its bound test wraps. */
  predicate WrapsPast(b: seq<byte>, off: nat) { off + 8 >= U32 && off > |b| }

  /** A SID is absent, or parses where the offset points. */
  predicate SidReads(b: seq<byte>, off: nat) {
    !Inside(b, off) || (off <= |b| && |b| - off >= 8 && b[off] == 1 && |b| - off >= 8 + 4 * b[off + 1] as int)
  }

  // Behind an ACL whose size field does not cover its own header the entries are read
  // with no limit.  An entry stands where the size fields of the earlier ones lead.

  /** Bytes that are looked at of an entry, up to the end of its SID. */
  function LooksAt(w: seq<byte>): nat {
    if |w| < 4 || Get(w, 2, 2) < 4 || !IsTyped(w[0]) then 4
    else
      var f := FixedOf(w[0]);
      if |w| <= f || w[f] != 1 then f + 1 else if |w| == f + 1 then f + 2 else f + 8 + 4 * w[f + 1] as int
  }

  /** An entry of a basic or object kind, up to its SID. */
  predicate Whole(w: seq<byte>) {
    |w| >= 4 && Get(w, 2, 2) >= 4 && (IsBasic(w[0]) || IsObject(w[0])) && LooksAt(w) <= |w| && w[FixedOf(w[0])] == 1
  }

  /** An entry whose contents are copied: a callback kind, or none that is known. */
  predicate HasCopy(w: seq<byte>) {
    && |w| >= 4 && Get(w, 2, 2) >= 4 && LooksAt(w) <= |w|
    && (IsTyped(w[0]) ==> IsCallback(w[0]) && |w| > 8 && w[8] == 1)
  }

  /**
   * An entry sends the decoder outside: it ends behind the buffer, or it has contents
   * to copy and so much lies before them (`back` bytes before the entry) that the
   * length of the copy is not a negative `int`.
   */
  predicate Outside(w: seq<byte>, back: nat) {
    LooksAt(w) > |w| || (HasCopy(w) && back + FixedOf(w[0]) > 0x8000_0000)
  }

  /** The k-th entry from the start of `v` is whole. */
  predicate WholeAt(v: seq<byte>, k: nat)
    decreases k
  {
    if k == 0 then Whole(v) else WholeAt(Skip(v, Get(v, 2, 2)), k - 1)
  }

  /** The k-th entry sends the decoder outside. */
  predicate OutsideAt(v: seq<byte>, back: nat, k: nat)
    decreases k
  {
    if k == 0 then Outside(v, back) else OutsideAt(Skip(v, Get(v, 2, 2)), back + Get(v, 2, 2), k - 1)
  }

  /** Among n entries, the first that is not whole sends the decoder outside. */
  ghost predicate RunsOut(v: seq<byte>, back: nat, n: nat) {
    exists k: nat :: k < n && OutsideAt(v, back, k) && forall j: nat :: j < k ==> WholeAt(v, j)
  }

  /** An ACL of which that is true. */
  ghost predicate ShortAclRunsOut(b: seq<byte>, off: nat) {
    Inside(b, off) && off <= |b| && |b| - off >= 8 && RunsOutBehind(b[off..])
  }

  ghost predicate RunsOutBehind(v: seq<byte>)
    requires |v| >= 8
  {
    && (v[0] == 2 || v[0] == 4) && Get(v, 2, 2) < 8 && |v| >= Get(v, 2, 2)
    && RunsOut(v[8..], 8 - Get(v, 2, 2), Get(v, 4, 2))
  }

  lemma {:induction false} SidWildIff(b: seq<byte>, off: nat)
    requires |b| >= 20 && Fits(4, off)
    ensures DecodeSidAt(b, off).Wild? <==> WrapsPast(b, off)
    ensures DecodeSidAt(b, off).Ok? <==> SidReads(b, off)
  {
    FieldFits();
    BoundTest(b, off);
    if Inside(b, off) && off <= |b| {
      var v := b[off..];
      if |v| >= 8 { assert v[0] == b[off] && v[1] == b[off + 1]; }
    }
  }

  lemma BoundTest(b: seq<byte>, off: nat)
    requires |b| >= 20 && off < U32
    ensures Inside(b, off) && off > |b| <==> WrapsPast(b, off)
  {
    if off + 8 >= U32 { DivModUnique(off + 8, U32, 1, off + 8 - U32); }
  }

  lemma {:induction false} AclWildIff(b: seq<byte>, off: nat)
    requires 20 <= |b| < U32 && Fits(4, off)
    ensures DecodeAclAt(b, off).Wild? <==> WrapsPast(b, off) || ShortAclRunsOut(b, off)
  {
    FieldFits();
    BoundTest(b, off);
    if Inside(b, off) && off <= |b| { ShortIsWild(b[off..]); }
  }

  lemma {:induction false} ShortIsWild(v: seq<byte>)
    requires |v| < U32
    ensures DecodeAcl(v).Wild? <==> |v| >= 8 && RunsOutBehind(v)
  {
    if |v| >= 8 {
      var size, count := Get(v, 2, 2), Get(v, 4, 2);
      AclVerdict(v);
      GetWord(v, 4);
      if size < 8 { EntriesWildIff(v[8..], 8 - size, count); }
      else if size <= |v| { NeverWild(v[8..], size - 8, count); }
    }
  }

  lemma AclVerdict(v: seq<byte>)
    requires |v| >= 8
    ensures DecodeAcl(v).Wild? <==>
              (v[0] == 2 || v[0] == 4) && |v| >= Get(v, 2, 2) && DecodeAces(v[8..], LeftBehind(Get(v, 2, 2)), Get(v, 4, 2)).Wild?
  {
  }

  lemma {:induction false} AceNeverWild(v: seq<byte>, len: nat)
    requires len <= |v|
    ensures !DecodeAce(v, len).Wild?
  {
  }

  lemma {:induction false} RepeatNeverWild(one: (seq<byte>, nat) -> Result<Ace>, v: seq<byte>, len: nat, n: nat)
    requires forall w, l: nat {:trigger one(w, l)} :: l <= |w| ==> !one(w, l).Wild?
    requires len <= |v|
    ensures !Repeat(one, v, len, n).Wild?
    decreases n
  {
    if n > 0 && one(v, len).Ok? && one(v, len).value.size <= len {
      RepeatNeverWild(one, Skip(v, one(v, len).value.size), len - one(v, len).value.size, n - 1);
    }
  }

  lemma {:induction false} NeverWild(v: seq<byte>, len: nat, n: nat)
    requires len <= |v|
    ensures !DecodeAces(v, len, n).Wild?
  {
    forall w, l: nat | l <= |w| ensures !DecodeAce(w, l).Wild? { AceNeverWild(w, l); }
    RepeatNeverWild(DecodeAce, v, len, n);
  }

  /** One entry with no limit: `gone` bytes, counted from where `len` wrapped, lie before it. */
  lemma {:induction false} EntryIff(w: seq<byte>, gone: nat)
    requires |w| < U32 && 0 < gone && gone + 44 < U32
    ensures DecodeAce(w, U64 - gone).Wild? <==> Outside(w, gone)
    ensures DecodeAce(w, U64 - gone).Ok? <==> Whole(w)
  {
    GetWord(w, 2);
    if |w| >= 4 {
      CopySign(gone + FixedOf(w[0]));
    }
  }

  lemma {:induction false} CopySign(gone: nat)
    requires 0 < gone < U32
    ensures Int32(U64 - gone) >= 0 <==> gone > 0x8000_0000
  {
    Int32Is(U64 - gone);
    DivModUnique(U64 - gone, U32, U32 - 1, U32 - gone);
  }

  /** Some element is bad, and all before it are good. */
  ghost predicate Breaks(bad: nat -> bool, good: nat -> bool) {
    exists k: nat :: bad(k) && forall j: nat :: j < k ==> good(j)
  }

  lemma {:induction false} BreaksStep(bad: nat -> bool, good: nat -> bool, badRest: nat -> bool, goodRest: nat -> bool)
    requires forall k: nat :: badRest(k) <==> bad(k + 1)
    requires forall k: nat :: goodRest(k) <==> good(k + 1)
    ensures Breaks(bad, good) <==> bad(0) || (good(0) && Breaks(badRest, goodRest))
  {
    if Breaks(bad, good) && !bad(0) {
      var k: nat :| bad(k) && forall j: nat :: j < k ==> good(j);
      assert badRest(k - 1) <==> bad(k - 1 + 1);
      forall j: nat | j < k - 1 ensures goodRest(j) { assert good(j + 1); }
    }
    if good(0) && Breaks(badRest, goodRest) {
      var k: nat :| badRest(k) && forall j: nat :: j < k ==> goodRest(j);
      forall j: nat | j < k + 1 ensures good(j) { if j > 0 { assert goodRest(j - 1); assert good(j - 1 + 1); } }
      assert bad(k + 1);
    }
  }

  lemma {:induction false} RunsOutIs(v: seq<byte>, back: nat, n: nat, bad: nat -> bool, good: nat -> bool)
    requires forall k: nat :: bad(k) <==> k < n && OutsideAt(v, back, k)
    requires forall k: nat :: good(k) <==> WholeAt(v, k)
    ensures RunsOut(v, back, n) <==> Breaks(bad, good)
  {
    if RunsOut(v, back, n) {
      var k: nat :| k < n && OutsideAt(v, back, k) && forall j: nat :: j < k ==> WholeAt(v, j);
      assert bad(k);
    }
    if Breaks(bad, good) {
      var k: nat :| bad(k) && forall j: nat :: j < k ==> good(j);
      forall j: nat | j < k ensures WholeAt(v, j) { assert good(j); }
      assert OutsideAt(v, back, k);
    }
  }

  lemma {:induction false} RunsOutStep(v: seq<byte>, back: nat, n: nat)
    requires n > 0
    ensures RunsOut(v, back, n) <==>
              Outside(v, back) || (Whole(v) && RunsOut(Skip(v, Get(v, 2, 2)), back + Get(v, 2, 2), n - 1))
  {
    var size := Get(v, 2, 2);
    var rest := Skip(v, size);
    var bad: nat -> bool, good: nat -> bool := (k: nat) => k < n && OutsideAt(v, back, k), (k: nat) => WholeAt(v, k);
    var badRest: nat -> bool, goodRest: nat -> bool := (k: nat) => k < n - 1 && OutsideAt(rest, back + size, k), (k: nat) => WholeAt(rest, k);
    RunsOutIs(v, back, n, bad, good);
    RunsOutIs(rest, back + size, n - 1, badRest, goodRest);
    BreaksStep(bad, good, badRest, goodRest);
  }

  lemma {:induction false} AllWholeStep(v: seq<byte>, n: nat)
    requires n > 0
    ensures AllWhole(v, n) <==> Whole(v) && AllWhole(Skip(v, Get(v, 2, 2)), n - 1)
  {
    var rest := Skip(v, Get(v, 2, 2));
    if AllWhole(v, n) {
      assert WholeAt(v, 0);
      forall j: nat | j < n - 1 ensures WholeAt(rest, j) { assert WholeAt(v, j + 1); }
    }
    if Whole(v) && AllWhole(rest, n - 1) {
      forall j: nat | j < n ensures WholeAt(v, j) { if j > 0 { assert WholeAt(rest, j - 1); } }
    }
  }

  ghost predicate AllWhole(v: seq<byte>, n: nat) {
    forall j: nat :: j < n ==> WholeAt(v, j)
  }

  /** What an entry gives where `len` has wrapped. */
  predicate Unlimited(w: seq<byte>, len: nat, r: Result<Ace>) {
    |w| < U32 && len < U64 && U64 - len + 44 < U32 ==>
      SizedBy(w, r) && (r.Wild? <==> Outside(w, U64 - len)) && (r.Ok? <==> Whole(w))
  }

  lemma {:induction false} RepeatVerdict(one: (seq<byte>, nat) -> Result<Ace>, v: seq<byte>, len: nat, n: nat)
    requires n > 0 && 65535 <= len && SizedBy(v, one(v, len))
    ensures var size := Get(v, 2, 2);
            (if one(v, len).Ok? then
               && size <= 65535 && Repeat(one, v, len, n).Wild? == Repeat(one, Skip(v, size), len - size, n - 1).Wild?
               && Repeat(one, v, len, n).Ok? == Repeat(one, Skip(v, size), len - size, n - 1).Ok?
             else Repeat(one, v, len, n).Wild? == one(v, len).Wild? && !Repeat(one, v, len, n).Ok?)
  {
  }

  lemma {:induction false} RepeatWildIff(one: (seq<byte>, nat) -> Result<Ace>, v: seq<byte>, gone: nat, n: nat)
    requires forall w, l: nat {:trigger one(w, l)} :: Unlimited(w, l, one(w, l))
    requires |v| < U32 && 0 < gone && gone + 65535 * n + 44 < U32
    ensures Repeat(one, v, U64 - gone, n).Wild? <==> RunsOut(v, gone, n)
    ensures Repeat(one, v, U64 - gone, n).Ok? <==> AllWhole(v, n)
    decreases n
  {
    if n > 0 {
      var size := Get(v, 2, 2);
      assert Unlimited(v, U64 - gone, one(v, U64 - gone));
      RepeatVerdict(one, v, U64 - gone, n);
      RunsOutStep(v, gone, n);
      AllWholeStep(v, n);
      GetWord(v, 2);
      RepeatWildIff(one, Skip(v, size), gone + size, n - 1);
      assert U64 - gone - size == U64 - (gone + size);
    }
  }

  /** Entries with no limit are decoded exactly when all are whole, and lead outside exactly when the first that is not does. */
  lemma {:induction false} EntriesWildIff(v: seq<byte>, gone: nat, n: nat)
    requires |v| < U32 && 0 < gone && gone + 65535 * n + 44 < U32
    ensures DecodeAces(v, U64 - gone, n).Wild? <==> RunsOut(v, gone, n)
    ensures DecodeAces(v, U64 - gone, n).Ok? <==> AllWhole(v, n)
  {
    forall w, l: nat ensures Unlimited(w, l, DecodeAce(w, l)) {
      if |w| < U32 && l < U64 && U64 - l + 44 < U32 {
        EntryIff(w, U64 - l);
        DecodedAceSize(w, l);
      }
    }
    RepeatWildIff(DecodeAce, v, gone, n);
  }

  /**
   * The decoder reads outside the buffer exactly when the first part that is not
   * simply absent or well-formed has an offset whose bound test wraps, or is an ACL
   * that does not cover its own header and whose entries lead outside.
   */
  lemma {:induction false} DecodeWildIff(b: seq<byte>)
    requires |b| < U32
    ensures Decode(b).Wild? <==>
              && |b| >= 20 && b[0] == 1
              && var o, g, d := Get(b, 4, 4), Get(b, 8, 4), Get(b, 16, 4);
                 (WrapsPast(b, o)
                  || (SidReads(b, o) && (WrapsPast(b, g) || (SidReads(b, g) && (WrapsPast(b, d) || ShortAclRunsOut(b, d))))))
  {
    if |b| >= 20 {
      FieldBound(b, 4);
      FieldBound(b, 8);
      FieldBound(b, 16);
      SidWildIff(b, Get(b, 4, 4));
      SidWildIff(b, Get(b, 8, 4));
      AclWildIff(b, Get(b, 16, 4));
    }
  }

  lemma {:induction false} FieldBound(b: seq<byte>, off: nat)
    ensures Fits(4, Get(b, off, 4))
  {
    FieldFits();
    if off + 4 <= |b| { FromLEBound(b[off..off + 4]); }
  }

  /** Twenty bytes that send the decoder outside: an owner offset of 2^32 - 1. */
  lemma {:induction false} OffsetPastTheEnd()
    ensures Decode([1, 0, 0, 0, 0xFF, 0xFF, 0xFF, 0xFF, 0, 0, 0, 0, 0, 0, 0, 0, 0, 0, 0, 0]).Wild?
  {
    var b: seq<byte> := [1, 0, 0, 0, 0xFF, 0xFF, 0xFF, 0xFF, 0, 0, 0, 0, 0, 0, 0, 0, 0, 0, 0, 0];
    var f: seq<byte> := [0xFF, 0xFF, 0xFF, 0xFF];
    assert b[4..8] == f;
    assert f[1..][1..][1..] == [0xFF] && f[1..][1..] == [0xFF, 0xFF] && f[1..] == [0xFF, 0xFF, 0xFF];
    assert FromLE([0xFF]) == 0xFF by { var e: seq<byte> := [0xFF]; assert e[1..] == []; }
    assert FromLE([0xFF, 0xFF]) == 0xFFFF && FromLE([0xFF, 0xFF, 0xFF]) == 0xFF_FFFF && FromLE(f) == 0xFFFF_FFFF;
    DecodeWildIff(b);
  }

  // ----- what decoding guarantees about shapes

  lemma {:induction false} WordsFit(v: seq<byte>, n: nat)
    requires |v| >= 4 * n
    ensures forall i :: 0 <= i < n ==> Fits(4, ReadWords(v, n)[i])
  {
    if n > 0 {
      FieldFits();
      FromLEBound(v[..4]);
      WordsFit(v[4..], n - 1);
    }
  }

  lemma {:induction false} DecodedSid(v: seq<byte>, len: nat)
    ensures DecodeSid(v, len).Ok? ==> SidOk(DecodeSid(v, len).value)
  {
    if DecodeSid(v, len).Ok? { WordsFit(v[8..], v[1]); }
  }

  lemma {:induction false} DecodedAce(v: seq<byte>, len: nat)
    ensures DecodeAce(v, len).Ok? ==> AceShape(DecodeAce(v, len).value)
  {
    if DecodeAce(v, len).Ok? {
      GetWord(v, 2);
      FieldFits();
      FieldBound(v, 4);
      FieldBound(v, 8);
      if IsTyped(v[0]) { DecodedSid(v[FixedOf(v[0])..], len - FixedOf(v[0])); }
    }
  }

  lemma {:induction false} RepeatShape(one: (seq<byte>, nat) -> Result<Ace>, v: seq<byte>, len: nat, n: nat)
    requires forall w, l: nat {:trigger one(w, l)} :: one(w, l).Ok? ==> AceShape(one(w, l).value)
    ensures Repeat(one, v, len, n).Ok? ==> AcesShape(Repeat(one, v, len, n).value)
    decreases n
  {
    if n > 0 && Repeat(one, v, len, n).Ok? {
      var size := one(v, len).value.size;
      RepeatShape(one, Skip(v, size), len - size, n - 1);
    }
  }

  lemma {:induction false} DecodedAces(v: seq<byte>, len: nat, n: nat)
    ensures DecodeAces(v, len, n).Ok? ==> AcesShape(DecodeAces(v, len, n).value)
  {
    forall w, l: nat | DecodeAce(w, l).Ok? ensures AceShape(DecodeAce(w, l).value) { DecodedAce(w, l); }
    RepeatShape(DecodeAce, v, len, n);
  }

  lemma {:induction false} DecodedAcl(v: seq<byte>)
    ensures DecodeAcl(v).Ok? ==> AclShape(DecodeAcl(v).value) && (SumFits(DecodeAcl(v).value) <==> Covers(DecodeAcl(v).value))
  {
    if DecodeAcl(v).Ok? {
      GetWord(v, 2);
      GetWord(v, 4);
      FieldFits();
      DecodedAclSize(v);
      DecodedAces(v[8..], LeftBehind(Get(v, 2, 2)), Get(v, 4, 2));
    }
  }

  /** Every decoded descriptor can be handed to the encoder; its sizes add up exactly when its ACL covers its own header. */
  lemma {:induction false} DecodedShape(b: seq<byte>)
    ensures Decode(b).Ok? ==>
              var sd := Decode(b).value;
              Shape(sd) && (sd.dacl.Some? ==> (SumFits(sd.dacl.value) <==> Covers(sd.dacl.value)))
  {
    if Decode(b).Ok? {
      var sd := Decode(b).value;
      var o, g, d := Get(b, 4, 4), Get(b, 8, 4), Get(b, 16, 4);
      GetWord(b, 2);
      FieldFits();
      if sd.owner.Some? { DecodedSid(b[o..], |b| - o); }
      if sd.group.Some? { DecodedSid(b[g..], |b| - g); }
      if sd.dacl.Some? { DecodedAcl(b[d..]); }
    }
  }

  // ----- what the encoder does with a buffer of a given size

  /** It writes everything inside, it returns -1, or it writes outside the buffer. */
  datatype Fate = Fine | Refused | Escapes

  /** The check of `encode_acl` on the sizes of the entries; an ACL without entries passes. */
  predicate SumFits(a: Acl) { a.aces == [] || AclSize(a) <= a.size }

  /**
   * One entry with `room` bytes left.  The test is on the size field; the SID is
   * tested again; application data and raw data are not.
   */
  function AceFate(a: Ace, room: nat): Fate {
    if room < a.size then Refused
    else if room < Fixed(a) then Escapes
    else if room < Guarded(a) then Refused
    else if room < Used(a) then Escapes
    else Fine
  }

  function AcesFate(aces: seq<Ace>, room: nat): Fate {
    if aces == [] then Fine
    else if AceFate(aces[0], room) == Fine then AcesFate(aces[1..], room - Used(aces[0]))
    else AceFate(aces[0], room)
  }

  function AclFate(a: Acl, room: nat): Fate {
    if !SumFits(a) || room < AclSize(a) then Refused else AcesFate(a.aces, room - 8)
  }

  /** The descriptor in a buffer that passed the size test. */
  function SecDescFate(sd: SecDesc, n: nat): Fate
    requires SecDescSize(sd) <= n
  {
    if sd.dacl.None? then Fine else AclFate(sd.dacl.value, n - DaclAt(sd))
  }

  /** Bytes the entries need: each must find room for its size field and for what it really writes. */
  function AcesNeed(aces: seq<Ace>): nat {
    if aces == [] then 0
    else
      var u := Used(aces[0]);
      Max(Max(aces[0].size, u), u + AcesNeed(aces[1..]))
  }

  function Max(x: nat, y: nat): nat { if x < y then y else x }

  function Need(sd: SecDesc): nat {
    if sd.dacl.None? then SecDescSize(sd) else Max(SecDescSize(sd), DaclAt(sd) + 8 + AcesNeed(sd.dacl.value.aces))
  }

  lemma {:induction false} AcesFineIff(aces: seq<Ace>, room: nat)
    requires AcesShape(aces)
    ensures AcesFate(aces, room) == Fine <==> AcesNeed(aces) <= room
    decreases |aces|
  {
    if aces != [] && Used(aces[0]) <= room { AcesFineIff(aces[1..], room - Used(aces[0])); }
  }

  /** The encoder writes the whole descriptor inside the buffer exactly when its sizes add up and the buffer has the bytes it needs. */
  lemma {:induction false} EncodesIff(sd: SecDesc, n: nat)
    requires Shape(sd) && SecDescSize(sd) <= n
    ensures SecDescFate(sd, n) == Fine <==> (sd.dacl.Some? ==> SumFits(sd.dacl.value)) && Need(sd) <= n
  {
    if sd.dacl.Some? { AcesFineIff(sd.dacl.value.aces, n - DaclAt(sd) - 8); }
  }

  // Entry i begins behind what the entries before it really take.

  /** The entry finds room for its size field and for what it takes. */
  predicate GoesIn(aces: seq<Ace>, i: nat, room: nat) {
    i < |aces| ==> UsedSum(aces[..i]) + Max(aces[i].size, Used(aces[i])) <= room
  }

  /** It finds room for its size field, but then not for its fixed part, or for all up to its SID but not for the data behind. */
  predicate Overruns(aces: seq<Ace>, i: nat, room: nat) {
    && i < |aces|
    && var at := UsedSum(aces[..i]);
       at + aces[i].size <= room && (room < at + Fixed(aces[i]) || at + Guarded(aces[i]) <= room < at + Used(aces[i]))
  }

  /** Behind entries that go in, one overruns. */
  ghost predicate AcesBreak(aces: seq<Ace>, room: nat) {
    exists i: nat :: Overruns(aces, i, room) && forall j: nat :: j < i ==> GoesIn(aces, j, room)
  }

  /** Then, and only then, it writes outside the buffer. */
  lemma {:induction false} EscapesIff(sd: SecDesc, n: nat)
    requires SecDescSize(sd) <= n && sd.dacl.Some? && SumFits(sd.dacl.value)
    ensures SecDescFate(sd, n) == Escapes <==> AcesBreak(sd.dacl.value.aces, n - DaclAt(sd) - 8)
  {
    AcesEscapeIff(sd.dacl.value.aces, n - DaclAt(sd) - 8);
  }

  lemma {:induction false} AcesBreakIs(aces: seq<Ace>, room: nat, bad: nat -> bool, good: nat -> bool)
    requires forall i: nat :: bad(i) <==> Overruns(aces, i, room)
    requires forall i: nat :: good(i) <==> GoesIn(aces, i, room)
    ensures AcesBreak(aces, room) <==> Breaks(bad, good)
  {
    if AcesBreak(aces, room) {
      var i: nat :| Overruns(aces, i, room) && forall j: nat :: j < i ==> GoesIn(aces, j, room);
      assert bad(i);
    }
    if Breaks(bad, good) {
      var i: nat :| bad(i) && forall j: nat :: j < i ==> good(j);
      forall j: nat | j < i ensures GoesIn(aces, j, room) { assert good(j); }
      assert Overruns(aces, i, room);
    }
  }

  lemma {:induction false} ShiftAce(aces: seq<Ace>, i: nat, room: nat)
    requires aces != [] && Used(aces[0]) <= room
    ensures GoesIn(aces, i + 1, room) <==> GoesIn(aces[1..], i, room - Used(aces[0]))
    ensures Overruns(aces, i + 1, room) <==> Overruns(aces[1..], i, room - Used(aces[0]))
  {
    if i + 1 < |aces| { assert aces[..i + 1][0] == aces[0] && aces[..i + 1][1..] == aces[1..][..i]; }
  }

  lemma {:induction false} AcesBreakStep(aces: seq<Ace>, room: nat)
    requires aces != [] && Used(aces[0]) <= room
    ensures AcesBreak(aces, room) <==> Overruns(aces, 0, room) || (GoesIn(aces, 0, room) && AcesBreak(aces[1..], room - Used(aces[0])))
  {
    var rest, left := aces[1..], room - Used(aces[0]);
    var bad: nat -> bool, good: nat -> bool := (i: nat) => Overruns(aces, i, room), (i: nat) => GoesIn(aces, i, room);
    var badRest: nat -> bool, goodRest: nat -> bool := (i: nat) => Overruns(rest, i, left), (i: nat) => GoesIn(rest, i, left);
    AcesBreakBehind(aces, room, bad, good, badRest, goodRest);
  }

  lemma {:induction false} AcesBreakBehind(aces: seq<Ace>, room: nat, bad: nat -> bool, good: nat -> bool, badRest: nat -> bool, goodRest: nat -> bool)
    requires aces != [] && Used(aces[0]) <= room
    requires forall i: nat :: bad(i) <==> Overruns(aces, i, room)
    requires forall i: nat :: good(i) <==> GoesIn(aces, i, room)
    requires forall i: nat :: badRest(i) <==> Overruns(aces[1..], i, room - Used(aces[0]))
    requires forall i: nat :: goodRest(i) <==> GoesIn(aces[1..], i, room - Used(aces[0]))
    ensures AcesBreak(aces, room) <==> bad(0) || (good(0) && AcesBreak(aces[1..], room - Used(aces[0])))
  {
    AcesBreakIs(aces, room, bad, good);
    AcesBreakIs(aces[1..], room - Used(aces[0]), badRest, goodRest);
    AcesShift(aces, room, bad, good, badRest, goodRest);
    BreaksStep(bad, good, badRest, goodRest);
  }

  lemma {:induction false} AcesShift(aces: seq<Ace>, room: nat, bad: nat -> bool, good: nat -> bool, badRest: nat -> bool, goodRest: nat -> bool)
    requires aces != [] && Used(aces[0]) <= room
    requires forall i: nat :: bad(i) <==> Overruns(aces, i, room)
    requires forall i: nat :: good(i) <==> GoesIn(aces, i, room)
    requires forall i: nat :: badRest(i) <==> Overruns(aces[1..], i, room - Used(aces[0]))
    requires forall i: nat :: goodRest(i) <==> GoesIn(aces[1..], i, room - Used(aces[0]))
    ensures forall i: nat :: (badRest(i) <==> bad(i + 1)) && (goodRest(i) <==> good(i + 1))
  {
    forall i: nat ensures (badRest(i) <==> bad(i + 1)) && (goodRest(i) <==> good(i + 1)) { ShiftAce(aces, i, room); }
  }

  /** Nothing behind an entry that does not go in is looked at. */
  lemma {:induction false} FirstBreaks(aces: seq<Ace>, room: nat)
    requires aces != [] && !GoesIn(aces, 0, room)
    ensures AcesBreak(aces, room) <==> Overruns(aces, 0, room)
  {
    if AcesBreak(aces, room) {
      var i: nat :| Overruns(aces, i, room) && forall j: nat :: j < i ==> GoesIn(aces, j, room);
      assert i == 0;
    }
  }

  lemma {:induction false} AcesEscapeIff(aces: seq<Ace>, room: nat)
    ensures AcesFate(aces, room) == Escapes <==> AcesBreak(aces, room)
    decreases |aces|
  {
    if aces != [] {
      assert aces[..0] == [];
      if AceFate(aces[0], room) == Fine {
        AcesBreakStep(aces, room);
        AcesEscapeIff(aces[1..], room - Used(aces[0]));
      } else {
        FirstBreaks(aces, room);
      }
    }
  }

  /** Entries that claim at least what they take. */
  predicate Honest(aces: seq<Ace>) {
    aces == [] || (Used(aces[0]) <= aces[0].size && Honest(aces[1..]))
  }

  lemma {:induction false} HonestNeed(aces: seq<Ace>)
    requires AcesShape(aces) && Honest(aces)
    ensures AcesNeed(aces) <= AcesSize(aces)
  {
    if aces != [] { HonestNeed(aces[1..]); }
  }

  /**
   * A decoded descriptor whose entries claim what they take goes into every buffer
   * that passes the size test, exactly when its ACL covers its own header; otherwise
   * no buffer is taken.
   */
  lemma {:induction false} HonestEncodes(b: seq<byte>, n: nat)
    requires Decode(b).Ok? && SecDescSize(Decode(b).value) <= n
    requires Decode(b).value.dacl.Some? ==> Honest(Decode(b).value.dacl.value.aces)
    ensures var sd := Decode(b).value;
            SecDescFate(sd, n) == if sd.dacl.Some? && !Covers(sd.dacl.value) then Refused else Fine
  {
    DecodedShape(b);
    var sd := Decode(b).value;
    if sd.dacl.Some? { HonestNeed(sd.dacl.value.aces); }
    EncodesIff(sd, n);
  }

  lemma {:induction false} OkHonest(aces: seq<Ace>)
    requires AcesOk(aces) && AcesShape(aces)
    ensures Honest(aces)
  {
    if aces != [] { OkHonest(aces[1..]); }
  }

  /** A descriptor with exact sizes goes in, and the reported length is the computed size. */
  lemma {:induction false} ExactEncodes(sd: SecDesc, n: nat)
    requires SecDescOk(sd) && SecDescSize(sd) <= n
    ensures SecDescFate(sd, n) == Fine && |SecDescBytes(sd)| == SecDescSize(sd)
  {
    if sd.dacl.Some? {
      var aces := sd.dacl.value.aces;
      ExactAces(aces);
      OkHonest(aces);
      HonestNeed(aces);
    }
    EncodesIff(sd, n);
  }

  // ----- a descriptor that is decoded and then written past its buffer

  const UNKNOWN: byte := 0xFF

  function RawEntry(size: nat, rest: seq<byte>): seq<byte> { [UNKNOWN, 0] + ToLE(2, size) + rest }

  /** The entries, nested: each is decoded with everything behind it as its raw data. */
  function ThirdOn(): (b: seq<byte>) ensures |b| == 500 { RawEntry(500, Zeros(496)) }

  function SecondOn(): (b: seq<byte>) ensures |b| == 504 { RawEntry(4, ThirdOn()) }

  function FirstOn(): (b: seq<byte>) ensures |b| == 508 { RawEntry(4, SecondOn()) }

  function RawAce(size: nat, raw: seq<byte>): Ace { Ace(UNKNOWN, 0, size, 0, 0, None, ZERO16, ZERO16, [], raw) }

  function RawAcl(): Acl { Acl(2, 516, 3, [RawAce(4, SecondOn()), RawAce(4, ThirdOn()), RawAce(500, Zeros(496))]) }

  function RawAclBytes(): (b: seq<byte>)
    ensures |b| == 516
  {
    [2, 0] + ToLE(2, 516) + ToLE(2, 3) + [0, 0] + FirstOn()
  }

  function RawDescriptor(): (b: seq<byte>)
    ensures |b| == 536
  {
    Head(SecDesc(1, 0, None, None, None), 0, 0, 20) + RawAclBytes()
  }

  lemma {:induction false} RawDecodes(size: nat, rest: seq<byte>)
    requires 4 <= size <= 4 + |rest| && 4 + |rest| < 0x1_0000
    ensures DecodeAce(RawEntry(size, rest), 4 + |rest|) == Ok(RawAce(size, rest))
  {
    var v := RawEntry(size, rest);
    FieldFits();
    assert v[2..4] == ToLE(2, size) && v[4..] == rest == rest[..|rest|];
    FieldAt(v, 2, 2, size);
  }

  lemma {:induction false} RawThen(size: nat, rest: seq<byte>, more: seq<Ace>)
    requires 4 <= size <= 4 + |rest| && 4 + |rest| < 0x1_0000 && DecodeAces(rest[size - 4..], 4 + |rest| - size, |more|) == Ok(more)
    ensures DecodeAces(RawEntry(size, rest), 4 + |rest|, |more| + 1) == Ok([RawAce(size, rest)] + more)
  {
    RawDecodes(size, rest);
    assert Skip(RawEntry(size, rest), size) == rest[size - 4..];
    AcesStep(RawEntry(size, rest), 4 + |rest|, RawAce(size, rest), more);
  }

  function Third(): Ace { RawAce(500, Zeros(496)) }

  function Second(): Ace { RawAce(4, ThirdOn()) }

  function First(): Ace { RawAce(4, SecondOn()) }

  lemma WholeSlice(b: seq<byte>)
    ensures b[0..] == b
  {
  }

  lemma {:induction false} RawAcesDecode()
    ensures DecodeAces(FirstOn(), 508, 3) == Ok([First()] + ([Second()] + ([Third()] + [])))
  {
    RawThen(500, Zeros(496), []);
    WholeSlice(ThirdOn());
    WholeSlice(SecondOn());
    RawThen(4, ThirdOn(), [Third()] + []);
    RawThen(4, SecondOn(), [Second()] + ([Third()] + []));
  }

  lemma AclSlices(x: seq<byte>, y: seq<byte>, e: seq<byte>)
    requires |x| == |y| == 2
    ensures var v := [2, 0] + x + y + [0, 0] + e;
            v[2..4] == x && v[4..6] == y && v[8..] == e && |v| == 8 + |e| && v[0] == 2
  {
  }

  lemma {:induction false} EntriesDecode(size: nat, e: seq<byte>, n: nat, aces: seq<Ace>)
    requires size <= 8 + |e| && size < 0x1_0000 && n < 0x1_0000 && DecodeAces(e, LeftBehind(size), n) == Ok(aces)
    ensures DecodeAcl([2, 0] + ToLE(2, size) + ToLE(2, n) + [0, 0] + e) == Ok(Acl(2, size, n, aces))
  {
    var v := [2, 0] + ToLE(2, size) + ToLE(2, n) + [0, 0] + e;
    FieldFits();
    AclSlices(ToLE(2, size), ToLE(2, n), e);
    FieldAt(v, 2, 2, size);
    FieldAt(v, 4, 2, n);
    AclDecodes(v, e, size, n, aces);
  }

  lemma {:induction false} RawAclDecodes()
    ensures DecodeAcl(RawAclBytes()) == Ok(RawAcl())
  {
    RawAcesDecode();
    EntriesDecode(516, FirstOn(), 3, [First()] + ([Second()] + ([Third()] + [])));
    assert RawAcl().aces == [First()] + ([Second()] + ([Third()] + []));
  }

  /**
   * A descriptor of 536 bytes with three entries of an unknown kind: it is decoded,
   * passes the size test for 1024 bytes, and is written past them.
   */
  lemma {:induction false} DecodedEscapes()
    ensures var r := Decode(RawDescriptor());
            r == Ok(SecDesc(1, 0, None, None, Some(RawAcl()))) && Shape(r.value)
            && SecDescSize(r.value) <= 1024 && SecDescFate(r.value, 1024) == Escapes
  {
    RawAclDecodes();
    OnlyDacl(RawAclBytes(), RawAcl());
    DecodedShape(RawDescriptor());
    RawFate();
  }

  /** A descriptor with nothing but an ACL. */
  lemma {:induction false} OnlyDacl(v: seq<byte>, a: Acl)
    requires |v| > 8 && DecodeAcl(v) == Ok(a)
    ensures Decode(Head(SecDesc(1, 0, None, None, None), 0, 0, 20) + v) == Ok(SecDesc(1, 0, None, None, Some(a)))
  {
    var b := Head(SecDesc(1, 0, None, None, None), 0, 0, 20) + v;
    FieldFits();
    HeadBack(SecDesc(1, 0, None, None, None), 0, 0, 20, v);
    assert b[20..] == v;
    InsideIs(b, 20);
    assert DecodeAclAt(b, 20) == Ok(Some(a));
  }

  lemma {:induction false} OneMoreEntry(a: Ace, rest: seq<Ace>, room: nat)
    ensures AceShape(a) && AcesShape(rest) ==> AcesShape([a] + rest)
    ensures AcesSize([a] + rest) == a.size + AcesSize(rest)
    ensures AcesFate([a] + rest, room) == if AceFate(a, room) == Fine then AcesFate(rest, room - Used(a)) else AceFate(a, room)
  {
    assert ([a] + rest)[0] == a && ([a] + rest)[1..] == rest;
  }

  lemma {:induction false} RawFate()
    ensures AclShape(RawAcl()) && AclSize(RawAcl()) == 516 && AclFate(RawAcl(), 1004) == Escapes
  {
    FieldFits();
    OneMoreEntry(Third(), [], 0);
    OneMoreEntry(Second(), [Third()] + [], 488);
    OneMoreEntry(First(), [Second()] + ([Third()] + []), 996);
    assert RawAcl().aces == [First()] + ([Second()] + ([Third()] + []));
    assert AceFate(First(), 996) == Fine && Used(First()) == 508 && AceFate(Second(), 488) == Escapes;
  }

  // ----- descriptors whose ACL does not cover its own header, and that are decoded

  /** An entry that denies or allows nobody in particular, claiming `size` bytes. */
  function PlainAce(size: nat): Ace {
    Ace(0, 0, size, 0, 0, Some(Sid(1, [0, 0, 0, 0, 0, 0], [])), ZERO16, ZERO16, [], [])
  }

  function PlainEntry(size: nat): (b: seq<byte>)
    requires 16 <= size < 0x1_0000
    ensures |b| == size
  {
    FieldFits();
    AceBytes(PlainAce(size)) + Zeros(size - 16)
  }

  function ShortDescriptor(n: nat, entries: seq<byte>): (b: seq<byte>)
    ensures |b| == 28 + |entries|
  {
    Head(SecDesc(1, 0, None, None, None), 0, 0, 20) + ([2, 0] + ToLE(2, 4) + ToLE(2, n) + [0, 0] + entries)
  }

  lemma {:induction false} PlainDecodes(size: nat, len: nat, behind: seq<byte>)
    requires 16 <= size < 0x1_0000 && size <= len
    ensures DecodeAce(PlainEntry(size) + behind, len) == Ok(PlainAce(size))
  {
    FieldFits();
    AceBack(PlainAce(size), Zeros(size - 16) + behind, len);
    Associate(AceBytes(PlainAce(size)), Zeros(size - 16), behind);
  }

  lemma {:induction false} PlainThen(size: nat, len: nat, behind: seq<byte>, more: seq<Ace>)
    requires 16 <= size < 0x1_0000 && size <= len && DecodeAces(behind, len - size, |more|) == Ok(more)
    ensures DecodeAces(PlainEntry(size) + behind, len, |more| + 1) == Ok([PlainAce(size)] + more)
  {
    var v, a := PlainEntry(size) + behind, PlainAce(size);
    SkipFirst(PlainEntry(size), behind);
    PlainDecodes(size, len, behind);
    AcesStep(v, len, a, more);
  }

  /**
   * 44 bytes with an ACL of size 4 and one entry: everything that is read lies in the
   * buffer, the descriptor is decoded, and no buffer is large enough to encode it.
   */
  lemma {:induction false} ShortAclIsDecoded(n: nat)
    requires n >= 44
    ensures var b, sd := ShortDescriptor(1, PlainEntry(16) + []), SecDesc(1, 0, None, None, Some(Acl(2, 4, 1, [PlainAce(16)] + [])));
            |b| == 44 && Decode(b) == Ok(sd) && SecDescSize(sd) == 44 && SecDescFate(sd, n) == Refused
  {
    PlainThen(16, LeftBehind(4), [], []);
    ShortDecodes(1, PlainEntry(16) + [], [PlainAce(16)] + []);
    OneMoreEntry(PlainAce(16), [], 0);
  }

  lemma {:induction false} ShortDecodes(n: nat, e: seq<byte>, aces: seq<Ace>)
    requires n < 0x1_0000 && DecodeAces(e, LeftBehind(4), n) == Ok(aces) && e != []
    ensures Decode(ShortDescriptor(n, e)) == Ok(SecDesc(1, 0, None, None, Some(Acl(2, 4, n, aces))))
  {
    EntriesDecode(4, e, n, aces);
    OnlyDacl([2, 0] + ToLE(2, 4) + ToLE(2, n) + [0, 0] + e, Acl(2, 4, n, aces));
  }

  /** 131092 bytes with an ACL of size 4 and two entries: the descriptor needs all of them, more than seven doublings of 1024 give. */
  lemma {:induction false} ShortAclNeedsMore()
    ensures var e := PlainEntry(65532) + (PlainEntry(65532) + []);
            var r := Decode(ShortDescriptor(2, e));
            r.Ok? && SecDescSize(r.value) == 131092
  {
    var aces := [PlainAce(65532)] + ([PlainAce(65532)] + []);
    PlainThen(65532, LeftBehind(4) - 65532, [], []);
    PlainThen(65532, LeftBehind(4), PlainEntry(65532) + [], [PlainAce(65532)] + []);
    var e := PlainEntry(65532) + (PlainEntry(65532) + []);
    ShortDecodes(2, e, aces);
    OneMoreEntry(PlainAce(65532), [], 0);
    OneMoreEntry(PlainAce(65532), [PlainAce(65532)] + [], 0);
  }

  function Pow2(n: nat): (p: nat)
    ensures p >= 1
  {
    if n == 0 then 1 else 2 * Pow2(n - 1)
  }

  lemma {:induction false} Pow2Grows(m: nat, n: nat)
    requires m <= n
    ensures Pow2(m) <= Pow2(n)
    decreases n
  {
    if m < n { Pow2Grows(m, n - 1); }
  }

  // ----- encoding in place

  method EncodeSid(a: array<byte>, off: nat, len: nat, s: Sid) returns (rc: int, used: nat)
    requires SidOk(s) && off + len <= a.Length
    modifies a
    ensures rc == if len < SidSize(s) then -1 else 0
    ensures rc == 0 ==> used == SidSize(s) && a[..] == PutBytes(old(a[..]), off, SidBytes(s))
    ensures rc != 0 ==> a[..] == old(a[..])
  {
    if len < SidSize(s) { return -1, 0; }
    ghost var orig, front := a[..], [s.revision, |s.subs|] + s.idAuth;
    WriteBytes(a, off, [s.revision, |s.subs|]);
    WriteAfter(a, orig, off, [s.revision, |s.subs|], off + 2, s.idAuth);
    EncodeWords(a, orig, off, front, off + 8, s.subs);
    rc, used := 0, SidSize(s);
  }

  method EncodeWords(a: array<byte>, ghost orig: seq<byte>, ghost off: nat, ghost front: seq<byte>, at: nat, xs: seq<nat>)
    requires a[..] == PutBytes(orig, off, front) && at == off + |front| && at + 4 * |xs| <= |orig|
    modifies a
    ensures a[..] == PutBytes(orig, off, front + Words(xs))
  {
    assert front + Words(xs[..0]) == front;
    for i := 0 to |xs|
      invariant a[..] == PutBytes(orig, off, front + Words(xs[..i]))
    {
      WordsSnoc(xs, i);
      WriteAfter(a, orig, off, front + Words(xs[..i]), at + 4 * i, ToLE(4, xs[i]));
      assert front + Words(xs[..i]) + ToLE(4, xs[i]) == front + Words(xs[..i + 1]);
    }
    assert xs[..|xs|] == xs;
  }

  lemma {:induction false} WordsSnoc(xs: seq<nat>, i: nat)
    requires i < |xs|
    ensures Words(xs[..i + 1]) == Words(xs[..i]) + ToLE(4, xs[i])
  {
    if i == 0 {
      assert xs[..1] == [xs[0]];
    } else {
      assert xs[..i + 1][1..] == xs[1..][..i] && xs[..i][1..] == xs[1..][..i - 1];
      WordsSnoc(xs[1..], i - 1);
    }
  }

  /** `encode_ace`; `wild` when it would write outside the part it was given. */
  method EncodeAce(a: array<byte>, off: nat, len: nat, ace: Ace) returns (rc: int, used: nat, wild: bool)
    requires AceShape(ace) && off + len <= a.Length
    modifies a
    ensures wild <==> AceFate(ace, len) == Escapes
    ensures AceFate(ace, len) == Refused ==> rc == -1
    ensures AceFate(ace, len) == Fine ==> rc == 0 && used == Used(ace) && a[..] == PutBytes(old(a[..]), off, AceBytes(ace))
  {
    if len < ace.size { return -1, 0, false; }
    if len < Fixed(ace) { return 0, 0, true; }
    ghost var orig := a[..];
    WriteBytes(a, off, [ace.typ, ace.flags]);
    WriteAfter(a, orig, off, [ace.typ, ace.flags], off + 2, ToLE(2, ace.size));
    ghost var done := [ace.typ, ace.flags] + ToLE(2, ace.size);
    if !IsTyped(ace.typ) {
      rc, used, wild := EncodeRaw(a, orig, off, len, done, ace);
    } else {
      rc, used, wild := EncodeTyped(a, orig, off, len, done, ace);
    }
  }

  method EncodeRaw(a: array<byte>, ghost orig: seq<byte>, off: nat, len: nat, ghost done: seq<byte>, ace: Ace)
    returns (rc: int, used: nat, wild: bool)
    requires AceShape(ace) && !IsTyped(ace.typ) && off + len <= |orig| && 4 <= len && ace.size <= len
    requires done == [ace.typ, ace.flags] + ToLE(2, ace.size) && a[..] == PutBytes(orig, off, done)
    modifies a
    ensures wild <==> AceFate(ace, len) == Escapes
    ensures AceFate(ace, len) == Refused ==> rc == -1
    ensures AceFate(ace, len) == Fine ==> rc == 0 && used == Used(ace) && a[..] == PutBytes(orig, off, AceBytes(ace))
  {
    if len < 4 + |ace.raw| { return 0, 0, true; }
    WriteAfter(a, orig, off, done, off + 4, ace.raw);
    return 0, 4 + |ace.raw|, false;
  }

  method EncodeTyped(a: array<byte>, ghost orig: seq<byte>, off: nat, len: nat, ghost done: seq<byte>, ace: Ace)
    returns (rc: int, used: nat, wild: bool)
    requires AceShape(ace) && IsTyped(ace.typ) && off + len <= |orig| && Fixed(ace) <= len && ace.size <= len
    requires done == [ace.typ, ace.flags] + ToLE(2, ace.size) && a[..] == PutBytes(orig, off, done)
    modifies a
    ensures wild <==> AceFate(ace, len) == Escapes
    ensures AceFate(ace, len) == Refused ==> rc == -1
    ensures AceFate(ace, len) == Fine ==> rc == 0 && used == Used(ace) && a[..] == PutBytes(orig, off, AceBytes(ace))
  {
    rc := EncodeGuarded(a, orig, off, len, done, ace);
    if rc < 0 { return -1, 0, false; }
    rc, used, wild := EncodeData(a, orig, off, len, GuardedBytes(ace), ace);
    TypedBytes(ace);
  }

  /** The bytes of a typed entry up to the end of its SID. */
  ghost function GuardedBytes(ace: Ace): (b: seq<byte>)
    requires AceShape(ace) && IsTyped(ace.typ)
    ensures |b| == Guarded(ace)
  {
    FixedBytes(ace) + SidBytes(ace.sid.value)
  }

  lemma TypedBytes(ace: Ace)
    requires AceShape(ace) && IsTyped(ace.typ)
    ensures AceBytes(ace) == GuardedBytes(ace) + if IsCallback(ace.typ) then ace.adData else []
  {
  }

  /** Fixed part and SID. */
  method EncodeGuarded(a: array<byte>, ghost orig: seq<byte>, off: nat, len: nat, ghost done: seq<byte>, ace: Ace) returns (rc: int)
    requires AceShape(ace) && IsTyped(ace.typ) && off + len <= |orig| && Fixed(ace) <= len
    requires done == [ace.typ, ace.flags] + ToLE(2, ace.size) && a[..] == PutBytes(orig, off, done)
    modifies a
    ensures rc == if len < Guarded(ace) then -1 else 0
    ensures rc == 0 ==> a[..] == PutBytes(orig, off, GuardedBytes(ace))
  {
    EncodeFixed(a, orig, off, done, ace);
    var at, used := Fixed(ace), 0;
    rc, used := EncodeSid(a, off + at, len - at, ace.sid.value);
    if rc == 0 { PutAdjacent(orig, off, FixedBytes(ace), SidBytes(ace.sid.value)); }
  }

  /** Mask, and for object kinds flags and types. */
  method EncodeFixed(a: array<byte>, ghost orig: seq<byte>, off: nat, ghost done: seq<byte>, ace: Ace)
    requires AceShape(ace) && IsTyped(ace.typ) && off + Fixed(ace) <= |orig|
    requires done == [ace.typ, ace.flags] + ToLE(2, ace.size) && a[..] == PutBytes(orig, off, done)
    modifies a
    ensures a[..] == PutBytes(orig, off, FixedBytes(ace))
  {
    WriteAfter(a, orig, off, done, off + 4, ToLE(4, ace.mask));
    ghost var front := done + ToLE(4, ace.mask);
    if IsObject(ace.typ) {
      var more := ToLE(4, ace.objFlags) + ace.objType + ace.inhType;
      WriteAfter(a, orig, off, front, off + 8, more);
    } else {
      assert front + [] == front;
    }
  }

  /** The application data of a callback kind. */
  method EncodeData(a: array<byte>, ghost orig: seq<byte>, off: nat, len: nat, ghost front: seq<byte>, ace: Ace)
    returns (rc: int, used: nat, wild: bool)
    requires AceShape(ace) && IsTyped(ace.typ) && off + len <= |orig| && |front| == Guarded(ace) <= len
    requires a[..] == PutBytes(orig, off, front)
    modifies a
    ensures rc == 0 && (wild <==> len < Used(ace))
    ensures !wild ==> used == Used(ace) && a[..] == PutBytes(orig, off, front + if IsCallback(ace.typ) then ace.adData else [])
  {
    rc, used, wild := 0, Fixed(ace) + SidSize(ace.sid.value), false;
    if IsCallback(ace.typ) {
      if len < used + |ace.adData| { return 0, 0, true; }
      WriteAfter(a, orig, off, front, off + used, ace.adData);
      used := used + |ace.adData|;
    } else {
      assert front + [] == front;
    }
  }

  /** The size loop of `encode_acl`, with its check against the size field. */
  method SumAces(acl: Acl) returns (ok: bool, sum: nat)
    ensures ok <==> SumFits(acl)
    ensures ok ==> sum == AclSize(acl)
  {
    sum := 8;
    for i := 0 to |acl.aces|
      invariant sum + AcesSize(acl.aces[i..]) == AclSize(acl) && (i > 0 ==> sum <= acl.size)
    {
      assert acl.aces[i..][1..] == acl.aces[i + 1..];
      sum := sum + acl.aces[i].size;
      if sum > acl.size { return false, sum; }
    }
    ok := true;
  }

  /** `encode_acl`. */
  method EncodeAcl(a: array<byte>, off: nat, len: nat, acl: Acl) returns (rc: int, used: nat, wild: bool)
    requires AclShape(acl) && off + len <= a.Length
    modifies a
    ensures wild <==> AclFate(acl, len) == Escapes
    ensures AclFate(acl, len) == Refused ==> rc == -1
    ensures AclFate(acl, len) == Fine ==> rc == 0 && used == 8 + UsedSum(acl.aces) && a[..] == PutBytes(old(a[..]), off, AclBytes(acl))
  {
    var ok, sum := SumAces(acl);
    if !ok || len < sum { return -1, 0, false; }
    ghost var orig := a[..];
    WriteBytes(a, off, [acl.revision, 0]);
    ghost var done := [acl.revision, 0];
    WriteAfter(a, orig, off, done, off + 2, ToLE(2, acl.size));
    done := done + ToLE(2, acl.size);
    WriteAfter(a, orig, off, done, off + 4, ToLE(2, acl.count));
    done := done + ToLE(2, acl.count);
    WriteAfter(a, orig, off, done, off + 6, [0, 0]);
    done := done + [0, 0];
    rc, used, wild := EncodeAces(a, orig, off, done, off + 8, len - 8, acl.aces);
    used := 8 + used;
  }

  method EncodeAces(a: array<byte>, ghost orig: seq<byte>, ghost off: nat, ghost front: seq<byte>, at: nat, len: nat, aces: seq<Ace>)
    returns (rc: int, used: nat, wild: bool)
    requires AcesShape(aces) && a[..] == PutBytes(orig, off, front) && at == off + |front| && at + len <= |orig|
    modifies a
    ensures wild <==> AcesFate(aces, len) == Escapes
    ensures AcesFate(aces, len) == Refused ==> rc == -1
    ensures AcesFate(aces, len) == Fine ==> rc == 0 && used == UsedSum(aces) && a[..] == PutBytes(orig, off, front + AcesBytes(aces))
  {
    rc, used, wild := 0, 0, false;
    ghost var done := front;
    AcesBegin(aces, len, front);
    for i := 0 to |aces|
      invariant rc == 0 && !wild && at + used == off + |done|
      invariant AcesLeft(aces, i, len, used, front, done)
      invariant a[..] == PutBytes(orig, off, done)
    {
      rc, used, wild, done := EncodeNext(a, orig, off, front, done, at, len, used, aces, i);
      if rc < 0 || wild { return; }
    }
    AcesEnd(aces, len, used, front, done);
  }

  method EncodeNext(a: array<byte>, ghost orig: seq<byte>, ghost off: nat, ghost front: seq<byte>, ghost done: seq<byte>,
                    at: nat, len: nat, used: nat, aces: seq<Ace>, i: nat)
    returns (rc: int, used': nat, wild: bool, ghost done': seq<byte>)
    requires i < |aces| && AcesLeft(aces, i, len, used, front, done)
    requires a[..] == PutBytes(orig, off, done) && at + used == off + |done| && at + len <= |orig|
    modifies a
    ensures rc < 0 || wild ==> (wild <==> AcesFate(aces, len) == Escapes) && AcesFate(aces, len) != Fine && (!wild ==> rc == -1)
    ensures rc >= 0 && !wild ==>
              rc == 0 && at + used' == off + |done'| && a[..] == PutBytes(orig, off, done') && AcesLeft(aces, i + 1, len, used', front, done')
  {
    var n;
    rc, n, wild := EncodeAceAfter(a, orig, off, done, at + used, len - used, aces[i]);
    AcesStop(aces, i, len, used, front, done);
    used', done' := used + n, done;
    if AceFate(aces[i], len - used) == Fine {
      done' := done + AceBytes(aces[i]);
      AcesNext(aces, i, len, used, front, done);
    }
  }

  lemma AcesBegin(aces: seq<Ace>, len: nat, front: seq<byte>)
    requires AcesShape(aces)
    ensures AcesLeft(aces, 0, len, 0, front, front)
  {
    assert aces[0..] == aces;
  }

  lemma AcesEnd(aces: seq<Ace>, len: nat, used: nat, front: seq<byte>, done: seq<byte>)
    requires AcesLeft(aces, |aces|, len, used, front, done)
    ensures AcesFate(aces, len) == Fine && used == UsedSum(aces) && done == front + AcesBytes(aces)
  {
    assert aces[|aces|..] == [];
  }

  /** Entries up to i are written: `used` bytes, `done` with what was there before; the others decide. */
  ghost predicate AcesLeft(aces: seq<Ace>, i: nat, len: nat, used: nat, front: seq<byte>, done: seq<byte>)
    requires i <= |aces|
  {
    && AcesShape(aces) && AcesShape(aces[i..]) && used <= len && (i < |aces| ==> AceShape(aces[i]))
    && AcesFate(aces[i..], len - used) == AcesFate(aces, len)
    && used + UsedSum(aces[i..]) == UsedSum(aces)
    && done + AcesBytes(aces[i..]) == front + AcesBytes(aces)
  }

  lemma AcesStop(aces: seq<Ace>, i: nat, len: nat, used: nat, front: seq<byte>, done: seq<byte>)
    requires i < |aces| && AcesLeft(aces, i, len, used, front, done)
    ensures AceFate(aces[i], len - used) != Fine ==> AcesFate(aces, len) == AceFate(aces[i], len - used)
  {
    AcesFrom(aces, i, len - used);
  }

  lemma AcesNext(aces: seq<Ace>, i: nat, len: nat, used: nat, front: seq<byte>, done: seq<byte>)
    requires i < |aces| && AcesLeft(aces, i, len, used, front, done) && AceFate(aces[i], len - used) == Fine
    ensures AcesLeft(aces, i + 1, len, used + Used(aces[i]), front, done + AceBytes(aces[i]))
  {
    AcesFrom(aces, i, len - used);
    Associate(done, AceBytes(aces[i]), AcesBytes(aces[i + 1..]));
  }

  lemma AcesFrom(aces: seq<Ace>, i: nat, room: nat)
    requires i < |aces| && AcesShape(aces[i..])
    ensures AceShape(aces[i]) && AcesShape(aces[i + 1..]) && (i + 1 < |aces| ==> AceShape(aces[i + 1]))
    ensures AcesBytes(aces[i..]) == AceBytes(aces[i]) + AcesBytes(aces[i + 1..])
    ensures UsedSum(aces[i..]) == Used(aces[i]) + UsedSum(aces[i + 1..])
    ensures AcesFate(aces[i..], room) == if AceFate(aces[i], room) == Fine then AcesFate(aces[i + 1..], room - Used(aces[i])) else AceFate(aces[i], room)
  {
    assert aces[i..][0] == aces[i] && aces[i..][1..] == aces[i + 1..];
    if i + 1 < |aces| { assert aces[i + 1..][0] == aces[i + 1]; }
  }

  /** One more entry behind what is written. */
  method EncodeAceAfter(a: array<byte>, ghost orig: seq<byte>, ghost off: nat, ghost done: seq<byte>, at: nat, len: nat, ace: Ace)
    returns (rc: int, used: nat, wild: bool)
    requires AceShape(ace) && a[..] == PutBytes(orig, off, done) && at == off + |done| && at + len <= |orig|
    modifies a
    ensures wild <==> AceFate(ace, len) == Escapes
    ensures AceFate(ace, len) == Refused ==> rc == -1
    ensures AceFate(ace, len) == Fine ==> rc == 0 && used == Used(ace) && a[..] == PutBytes(orig, off, done + AceBytes(ace))
  {
    rc, used, wild := EncodeAce(a, at, len, ace);
    if AceFate(ace, len) == Fine { PutAdjacent(orig, off, done, AceBytes(ace)); }
  }

  lemma PatchOwner(sd: SecDesc, g: nat, d: nat, x: nat)
    ensures PutBytes(Head(sd, 0, g, d), 4, ToLE(4, x)) == Head(sd, x, g, d)
  {
  }

  lemma PatchGroup(sd: SecDesc, o: nat, d: nat, x: nat)
    ensures PutBytes(Head(sd, o, 0, d), 8, ToLE(4, x)) == Head(sd, o, x, d)
  {
  }

  lemma PatchDacl(sd: SecDesc, o: nat, g: nat, x: nat)
    ensures PutBytes(Head(sd, o, g, 0), 16, ToLE(4, x)) == Head(sd, o, g, x)
  {
  }

  /** A part behind what is written, and a patch in the head. */
  lemma {:induction false} PartPlaced(orig: seq<byte>, head: seq<byte>, tail: seq<byte>, part: seq<byte>, field: nat, x: seq<byte>)
    requires field + |x| <= |head| && |head| + |tail| + |part| <= |orig|
    ensures PutBytes(PutBytes(PutBytes(orig, 0, head + tail), |head| + |tail|, part), field, x)
         == PutBytes(orig, 0, PutBytes(head, field, x) + (tail + part))
  {
    PartBehind(orig, head, tail, part);
    PutInside(orig, head, tail + part, field, x);
  }

  lemma {:induction false} PartBehind(orig: seq<byte>, head: seq<byte>, tail: seq<byte>, part: seq<byte>)
    requires |head| + |tail| + |part| <= |orig|
    ensures PutBytes(PutBytes(orig, 0, head + tail), |head| + |tail|, part) == PutBytes(orig, 0, head + (tail + part))
  {
    PutAdjacent(orig, 0, head + tail, part);
    Associate(head, tail, part);
  }

  /** A SID behind `head` and `tail`, then its offset patched into the head at `field`. */
  method PutSid(a: array<byte>, ghost orig: seq<byte>, ghost head: seq<byte>, ghost tail: seq<byte>, at: nat, s: Sid, field: nat)
    returns (len: nat)
    requires SidOk(s) && |head| == 20 && field + 4 <= 20
    requires at == 20 + |tail| && at + SidSize(s) <= |orig|
    requires a[..] == PutBytes(orig, 0, head + tail)
    modifies a
    ensures len == at + SidSize(s)
    ensures a[..] == PutBytes(orig, 0, PutBytes(head, field, ToLE(4, at)) + (tail + SidBytes(s)))
  {
    var rc, used := EncodeSid(a, at, a.Length - at, s);
    PartPlaced(orig, head, tail, SidBytes(s), field, ToLE(4, at));
    WriteLE(a, field, 4, at);
    len := at + used;
  }

  method PutAcl(a: array<byte>, ghost orig: seq<byte>, ghost head: seq<byte>, ghost tail: seq<byte>, at: nat, acl: Acl, field: nat)
    returns (rc: int, len: nat, wild: bool)
    requires AclShape(acl) && |head| == 20 && field + 4 <= 20
    requires at == 20 + |tail| && at <= |orig|
    requires a[..] == PutBytes(orig, 0, head + tail)
    modifies a
    ensures wild <==> AclFate(acl, |orig| - at) == Escapes
    ensures AclFate(acl, |orig| - at) == Refused ==> rc == -1
    ensures AclFate(acl, |orig| - at) == Fine ==>
              rc == 0 && len == at + 8 + UsedSum(acl.aces)
              && a[..] == PutBytes(orig, 0, PutBytes(head, field, ToLE(4, at)) + (tail + AclBytes(acl)))
  {
    var used;
    rc, used, wild := EncodeAcl(a, at, a.Length - at, acl);
    if rc < 0 || wild { return rc, at, wild; }
    FineFits(acl, |orig| - at);
    PartPlaced(orig, head, tail, AclBytes(acl), field, ToLE(4, at));
    WriteLE(a, field, 4, at);
    len := at + used;
  }

  /** What is fine takes no more than the room. */
  lemma {:induction false} FineFits(acl: Acl, room: nat)
    requires AclShape(acl) && AclFate(acl, room) == Fine
    ensures 8 + UsedSum(acl.aces) <= room
  {
    FineAces(acl.aces, room - 8);
  }

  lemma {:induction false} FineAces(aces: seq<Ace>, room: nat)
    requires AcesShape(aces) && AcesFate(aces, room) == Fine
    ensures UsedSum(aces) <= room
  {
    if aces != [] { FineAces(aces[1..], room - Used(aces[0])); }
  }

  /**
   * `smb2EncodeSecurityDescriptor`: the header with zero offsets first, each part
   * behind it, and its offset patched in once the part is written.  `wild` when it
   * would write outside the buffer.
   */
  method Encode(a: array<byte>, sd: SecDesc) returns (rc: int, len: nat, wild: bool)
    requires Shape(sd)
    modifies a
    ensures rc == -9 <==> a.Length < SecDescSize(sd)
    ensures rc == -9 ==> !wild && a[..] == old(a[..])
    ensures rc != -9 ==> (wild <==> SecDescFate(sd, a.Length) == Escapes)
    ensures rc != -9 && SecDescFate(sd, a.Length) == Refused ==> rc == -1
    ensures rc != -9 && SecDescFate(sd, a.Length) == Fine ==>
              rc == 0 && len == |SecDescBytes(sd)| && a[..] == PutBytes(old(a[..]), 0, SecDescBytes(sd))
  {
    if a.Length < SecDescSize(sd) { return -9, a.Length, false; }
    ghost var orig := a[..];
    WriteBytes(a, 0, Head(sd, 0, 0, 0));
    len := PutOwner(a, orig, sd);
    len := PutGroup(a, orig, sd, len);
    rc, len, wild := PutDacl(a, orig, sd, len);
    Assembled(sd);
  }

  lemma Assembled(sd: SecDesc)
    requires Shape(sd)
    ensures SecDescBytes(sd) == Head(sd, OwnerAt(sd), GroupAt(sd), DaclAt(sd)) + (OptSid(sd.owner) + OptSid(sd.group) + OptAcl(sd.dacl))
  {
  }

  method PutOwner(a: array<byte>, ghost orig: seq<byte>, sd: SecDesc) returns (len: nat)
    requires Shape(sd) && SecDescSize(sd) <= |orig| && a[..] == PutBytes(orig, 0, Head(sd, 0, 0, 0))
    modifies a
    ensures len == 20 + |OptSid(sd.owner)|
    ensures a[..] == PutBytes(orig, 0, Head(sd, OwnerAt(sd), 0, 0) + OptSid(sd.owner))
  {
    len := 20;
    ghost var head := Head(sd, 0, 0, 0);
    assert head + [] == head;
    if sd.owner.Some? {
      PatchOwner(sd, 0, 0, len);
      len := PutSid(a, orig, head, [], len, sd.owner.value, 4);
      assert [] + SidBytes(sd.owner.value) == OptSid(sd.owner);
    }
  }

  method PutGroup(a: array<byte>, ghost orig: seq<byte>, sd: SecDesc, at: nat) returns (len: nat)
    requires Shape(sd) && SecDescSize(sd) <= |orig| && at == 20 + |OptSid(sd.owner)|
    requires a[..] == PutBytes(orig, 0, Head(sd, OwnerAt(sd), 0, 0) + OptSid(sd.owner))
    modifies a
    ensures len == at + |OptSid(sd.group)|
    ensures a[..] == PutBytes(orig, 0, Head(sd, OwnerAt(sd), GroupAt(sd), 0) + (OptSid(sd.owner) + OptSid(sd.group)))
  {
    len := at;
    if sd.group.Some? {
      PatchGroup(sd, OwnerAt(sd), 0, len);
      len := PutSid(a, orig, Head(sd, OwnerAt(sd), 0, 0), OptSid(sd.owner), len, sd.group.value, 8);
    } else {
      assert OptSid(sd.owner) + OptSid(sd.group) == OptSid(sd.owner);
    }
  }

  method PutDacl(a: array<byte>, ghost orig: seq<byte>, sd: SecDesc, at: nat) returns (rc: int, len: nat, wild: bool)
    requires Shape(sd) && SecDescSize(sd) <= |orig| && at == 20 + |OptSid(sd.owner)| + |OptSid(sd.group)|
    requires a[..] == PutBytes(orig, 0, Head(sd, OwnerAt(sd), GroupAt(sd), 0) + (OptSid(sd.owner) + OptSid(sd.group)))
    modifies a
    ensures wild <==> SecDescFate(sd, |orig|) == Escapes
    ensures SecDescFate(sd, |orig|) == Refused ==> rc == -1
    ensures rc != -9
    ensures SecDescFate(sd, |orig|) == Fine ==>
              rc == 0 && len == at + |OptAcl(sd.dacl)|
              && a[..] == PutBytes(orig, 0, Head(sd, OwnerAt(sd), GroupAt(sd), DaclAt(sd)) + (OptSid(sd.owner) + OptSid(sd.group) + OptAcl(sd.dacl)))
  {
    rc, len, wild := 0, at, false;
    ghost var parts := OptSid(sd.owner) + OptSid(sd.group);
    if sd.dacl.Some? {
      assert DaclAt(sd) == at == 20 + |parts|;
      PatchDacl(sd, OwnerAt(sd), GroupAt(sd), len);
      rc, len, wild := PutAcl(a, orig, Head(sd, OwnerAt(sd), GroupAt(sd), 0), parts, at, sd.dacl.value, 16);
      if wild { rc := 0; }
    } else {
      assert parts + OptAcl(sd.dacl) == parts;
    }
  }

  // ----- the retry

  /** A new buffer of n bytes, and the descriptor in it. */
  method EncodeNew(sd: SecDesc, n: nat) returns (rc: int, a: array<byte>, len: nat, wild: bool)
    requires Shape(sd)
    ensures fresh(a) && a.Length == n && (rc == -9 <==> n < SecDescSize(sd))
    ensures rc != -9 ==> Outcome(sd, rc, len, wild, a[..])
  {
    a := new byte[n];
    rc, len, wild := Encode(a, sd);
    if rc != -9 && SecDescFate(sd, n) == Fine { FineInside(sd, n); }
  }

  /** What came of encoding into this buffer. */
  ghost predicate Outcome(sd: SecDesc, rc: int, len: nat, wild: bool, buf: seq<byte>)
    requires Shape(sd)
  {
    && SecDescSize(sd) <= |buf|
    && match SecDescFate(sd, |buf|)
       case Fine => rc == 0 && !wild && len <= |buf| && buf[..len] == SecDescBytes(sd)
       case Refused => rc == -1 && !wild
       case Escapes => wild
  }

  lemma {:induction false} FineInside(sd: SecDesc, n: nat)
    requires Shape(sd) && SecDescSize(sd) <= n && SecDescFate(sd, n) == Fine
    ensures |SecDescBytes(sd)| <= n
  {
    if sd.dacl.Some? { FineFits(sd.dacl.value, n - DaclAt(sd)); }
  }

  /**
   * The loop of `smb2_get_security`: the buffer is doubled while the encoder says
   * that it is too small.  Its size has 32 bits: doubling 2^31 asks `realloc` for
   * nothing, and the call gives up, here with the -9 it has.
   */
  method RetryDoubling(sd: SecDesc) returns (rc: int, a: array<byte>, len: nat, wild: bool, doublings: nat)
    requires Shape(sd)
    ensures fresh(a) && a.Length == 1024 * Pow2(doublings)
    ensures doublings > 0 ==> a.Length < 2 * SecDescSize(sd)
    ensures SecDescSize(sd) <= 67611 ==> doublings <= 7
    ensures rc == -9 <==> SecDescSize(sd) > 0x8000_0000
    ensures rc != -9 ==> Outcome(sd, rc, len, wild, a[..])
  {
    doublings := 0;
    rc, a, len, wild := EncodeNew(sd, 1024);
    while rc == -9
      invariant fresh(a) && a.Length == 1024 * Pow2(doublings) && doublings <= 21
      invariant doublings > 0 ==> a.Length < 2 * SecDescSize(sd)
      invariant rc == -9 <==> a.Length < SecDescSize(sd)
      invariant rc != -9 ==> Outcome(sd, rc, len, wild, a[..])
      decreases SecDescSize(sd) - a.Length
    {
      TwentyOne(doublings);
      if doublings == 21 { return; }
      doublings := doublings + 1;
      rc, a, len, wild := EncodeNew(sd, 2 * a.Length);
    }
    TwentyOne(doublings);
    if doublings >= 8 { Pow2Grows(8, doublings); }
  }

  lemma {:induction false} TwentyOne(n: nat)
    requires n <= 21
    ensures 1024 * Pow2(n) <= 1024 * Pow2(21) == 0x8000_0000 && Pow2(8) == 256
  {
    Pow2Grows(n, 21);
    assert Pow2(4) == 16;
    assert Pow2(8) == 16 * Pow2(4);
    assert Pow2(12) == 16 * Pow2(8);
    assert Pow2(16) == 16 * Pow2(12);
    assert Pow2(20) == 16 * Pow2(16);
  }
}
