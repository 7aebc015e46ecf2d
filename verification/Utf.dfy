/**
 * Conversion between NUL-terminated UTF-8 and UCS-2, section 3 of RFC 3629
 * restricted to 16-bit units (cpp/samba/client/OpenSmbC/src/util.cpp), on a
 * little-endian host.  A C string is its bytes before the NUL.
 */
module Utf {
  import opened Options
  import Bytes

  // ----- one code point

  /** Number of leading one bits. */
  function Lead(c: bv8): nat {
    if c < 0x80 then 0 else if c < 0xC0 then 1 else if c < 0xE0 then 2 else if c < 0xF0 then 3
    else if c < 0xF8 then 4 else if c < 0xFC then 5 else if c < 0xFE then 6 else if c < 0xFF then 7 else 8
  }

  lemma LeadShift(c: bv8)
    ensures c & 0x80 != 0 ==> Lead(c) == 1 + Lead(c << 1)
    ensures c & 0x80 == 0 ==> Lead(c) == 0
  {
  }

  /** `l1`. */
  method LeadingOnes(c: bv8) returns (i: nat)
    ensures i == Lead(c)
  {
    i := 0;
    var rest := c;
    LeadShift(rest);
    while rest & 0x80 != 0
      invariant i + Lead(rest) == Lead(c)
      decreases Lead(rest)
    {
      LeadShift(rest);
      i, rest := i + 1, rest << 1;
      LeadShift(rest);
    }
  }

  function Wide(c: bv8): bv16 { c as bv16 }

  function First(c: bv8): bv16 { Wide(c & 0x1f) }

  function More(cp: bv16, c: bv8): bv16 { (cp << 6) | Wide(c & 0x3f) }

  function Join2(x: bv8, y: bv8): bv16 { More(First(x), y) }

  function Join3(x: bv8, y: bv8, z: bv8): bv16 { More(Join2(x, y), z) }

  /** Decode one code point at the head of a string; the byte behind the string is the NUL. */
  function Step(s: seq<bv8>): (r: Option<(bv16, nat)>)
    requires s != []
    ensures r.Some? ==> 1 <= r.value.1 <= |s| && r.value.1 <= 3
  {
    var l := Lead(s[0]);
    if l == 0 then Some((Wide(s[0] & 0x7f), 1))
    else if l == 2 then
      if |s| < 2 || Lead(s[1]) != 1 then None
      else Some((Join2(s[0], s[1]), 2))
    else if l == 3 then
      if |s| < 2 || Lead(s[1]) != 1 || |s| < 3 || Lead(s[2]) != 1 then None
      else Some((Join3(s[0], s[1], s[2]), 3))
    else None
  }

  function CpSize(c: bv16): nat {
    if c > 0x07ff then 3 else if c > 0x007f then 2 else 1
  }

  function Narrow(c: bv16): bv8
    requires c <= 0xff
  {
    c as bv8
  }

  function EncodeCp(c: bv16): (b: seq<bv8>)
    ensures |b| == CpSize(c)
  {
    if CpSize(c) == 3 then [0xe0 | Narrow(c >> 12), 0x80 | Narrow((c >> 6) & 0xbf), 0x80 | Narrow(c & 0xbf)]
    else if CpSize(c) == 2 then [0xc0 | Narrow(c >> 6), 0x80 | Narrow(c & 0xbf)]
    else [Narrow(c)]
  }

  lemma Split3(c: bv16)
    requires CpSize(c) == 3
    ensures var x, y, z := 0xe0 | Narrow(c >> 12), 0x80 | Narrow((c >> 6) & 0xbf), 0x80 | Narrow(c & 0xbf);
            Lead(x) == 3 && Lead(y) == 1 && Lead(z) == 1 && Join3(x, y, z) == c
  {
  }

  lemma Split2(c: bv16)
    requires CpSize(c) == 2
    ensures var x, y := 0xc0 | Narrow(c >> 6), 0x80 | Narrow(c & 0xbf);
            Lead(x) == 2 && Lead(y) == 1 && Join2(x, y) == c
  {
  }

  lemma Split1(c: bv16)
    requires CpSize(c) == 1
    ensures Lead(Narrow(c)) == 0 && Wide(Narrow(c) & 0x7f) == c
  {
  }

  /** Decoding an encoded unit gives it back, whatever follows. */
  lemma StepBack(c: bv16, rest: seq<bv8>)
    ensures Step(EncodeCp(c) + rest) == Some((c, CpSize(c)))
  {
    var b := EncodeCp(c);
    var s := b + rest;
    if CpSize(c) == 3 {
      Split3(c);
      assert s[0] == b[0] && s[1] == b[1] && s[2] == b[2];
    } else if CpSize(c) == 2 {
      Split2(c);
      assert s[0] == b[0] && s[1] == b[1];
    } else {
      Split1(c);
      assert s[0] == b[0];
    }
  }

  /** The first byte says that a longer form than necessary follows. */
  predicate OverlongAt(s: seq<bv8>, i: nat)
    requires i < |s|
  {
    s[i] == 0xC0 || s[i] == 0xC1 || (s[i] == 0xE0 && i + 1 < |s| && s[i + 1] < 0xA0)
  }

  /** What was decoded encodes to the same bytes exactly when it was in shortest form; otherwise to fewer. */
  lemma StepForward(s: seq<bv8>)
    requires s != [] && Step(s).Some?
    ensures var (c, n) := Step(s).value;
            && (!OverlongAt(s, 0) ==> EncodeCp(c) == s[..n])
            && (OverlongAt(s, 0) ==> CpSize(c) < n)
  {
    var (c, n) := Step(s).value;
    if n == 1 {
      Forward1(s[0]);
      assert s[..1] == [s[0]];
    } else if n == 2 {
      Forward2(s[0], s[1]);
      assert s[..2] == [s[0], s[1]];
    } else {
      Forward3(s[0], s[1], s[2]);
      assert s[..3] == [s[0], s[1], s[2]];
    }
  }

  lemma Forward1(x: bv8)
    requires Lead(x) == 0
    ensures EncodeCp(Wide(x & 0x7f)) == [x] && x != 0xC0 && x != 0xC1 && x != 0xE0
  {
  }

  lemma Forward2(x: bv8, y: bv8)
    requires Lead(x) == 2 && Lead(y) == 1
    ensures if x == 0xC0 || x == 0xC1 then CpSize(Join2(x, y)) == 1 else EncodeCp(Join2(x, y)) == [x, y]
    ensures x != 0xE0
  {
  }

  lemma Forward3(x: bv8, y: bv8, z: bv8)
    requires Lead(x) == 3 && Lead(y) == 1 && Lead(z) == 1
    ensures if x == 0xE0 && y < 0xA0 then CpSize(Join3(x, y, z)) < 3 else EncodeCp(Join3(x, y, z)) == [x, y, z]
    ensures x != 0xC0 && x != 0xC1
  {
  }

  // ----- strings

  /** A C string holds no NUL. */
  predicate CString(s: seq<bv8>) {
    forall i :: 0 <= i < |s| ==> s[i] != 0
  }

  function Decode(s: seq<bv8>): Option<seq<bv16>>
    decreases |s|
  {
    if s == [] then Some([])
    else match Step(s)
      case None => None
      case Some((c, n)) =>
        match Decode(s[n..])
        case None => None
        case Some(u) => Some([c] + u)
  }

  function Encode(u: seq<bv16>): seq<bv8> {
    if u == [] then [] else EncodeCp(u[0]) + Encode(u[1..])
  }

  predicate NonZero(u: seq<bv16>) {
    forall i :: 0 <= i < |u| ==> u[i] != 0
  }

  /** Every UCS-2 string without zero units survives the way to UTF-8 and back. */
  lemma {:induction false} DecodeEncode(u: seq<bv16>)
    ensures Decode(Encode(u)) == Some(u)
  {
    if u != [] {
      var rest := Encode(u[1..]);
      StepBack(u[0], rest);
      assert Encode(u) == EncodeCp(u[0]) + rest && Encode(u)[CpSize(u[0])..] == rest;
      DecodeEncode(u[1..]);
      assert [u[0]] + u[1..] == u;
    }
  }

  /** ... and is a C string on the way. */
  lemma {:induction false} EncodeIsCString(u: seq<bv16>)
    requires NonZero(u)
    ensures CString(Encode(u))
  {
    if u != [] {
      EncodeCpNonZero(u[0]);
      EncodeIsCString(u[1..]);
    }
  }

  lemma EncodeCpNonZero(c: bv16)
    requires c != 0
    ensures CString(EncodeCp(c))
  {
  }

  /** No lead byte of a longer form than necessary; continuation bytes never look like one. */
  predicate Shortest(s: seq<bv8>) {
    forall i :: 0 <= i < |s| ==> !OverlongAt(s, i)
  }

  /**
   * The converter accepts overlong forms.  The way from UTF-8 and back is the
   * identity exactly on the accepted strings in shortest form; on the others it
   * gives a shorter string.
   */
  lemma {:induction false} EncodeDecode(s: seq<bv8>)
    requires Decode(s).Some?
    ensures Encode(Decode(s).value) == s <==> Shortest(s)
    ensures |Encode(Decode(s).value)| <= |s|
    ensures !Shortest(s) ==> |Encode(Decode(s).value)| < |s|
    decreases |s|
  {
    if s != [] {
      var (c, n) := Step(s).value;
      StepForward(s);
      EncodeDecode(s[n..]);
      EncodeDecodeHead(s);
      ShortestSplit(s, n);
      Beside(EncodeCp(c), Encode(Decode(s[n..]).value), s, n);
    }
  }

  lemma {:induction false} EncodeDecodeHead(s: seq<bv8>)
    requires s != [] && Decode(s).Some?
    ensures var (c, n) := Step(s).value;
            Decode(s[n..]).Some? && Encode(Decode(s).value) == EncodeCp(c) + Encode(Decode(s[n..]).value)
  {
    var (c, n) := Step(s).value;
    assert ([c] + Decode(s[n..]).value)[1..] == Decode(s[n..]).value;
  }

  /** Comparing two concatenations whose parts are no longer on the left. */
  lemma Beside(b: seq<bv8>, e: seq<bv8>, s: seq<bv8>, n: nat)
    requires n <= |s|
    requires b == s[..n] || |b| < n
    requires e == s[n..] || |e| < |s| - n
    ensures b + e == s <==> b == s[..n] && e == s[n..]
    ensures |b + e| <= |s| && (b + e != s ==> |b + e| < |s|)
  {
    assert s == s[..n] + s[n..];
  }

  lemma {:induction false} ShortestSplit(s: seq<bv8>, n: nat)
    requires s != [] && Step(s).Some? && n == Step(s).value.1
    ensures Shortest(s) <==> !OverlongAt(s, 0) && Shortest(s[n..])
  {
    var rest := s[n..];
    forall i | 1 <= i < n ensures !OverlongAt(s, i) { NotALead(s[i]); }
    forall i: nat | i < |rest| ensures OverlongAt(rest, i) <==> OverlongAt(s, n + i) {
      assert rest[i] == s[n + i] && (i + 1 < |rest| ==> rest[i + 1] == s[n + i + 1]);
    }
    if !OverlongAt(s, 0) && Shortest(rest) {
      forall i | 0 <= i < |s| ensures !OverlongAt(s, i) {
        if i >= n { assert !OverlongAt(rest, i - n); }
      }
    }
  }

  lemma NotALead(c: bv8)
    requires Lead(c) == 1
    ensures c != 0xC0 && c != 0xC1 && c != 0xE0
  {
  }

  /** C0 AF, a two-byte slash, is accepted and comes back as one byte. */
  lemma Samples()
    ensures EncodeCp(0x41) == [0x41] && EncodeCp(0xE9) == [0xC3, 0xA9] && EncodeCp(0x20AC) == [0xE2, 0x82, 0xAC]
    ensures Decode([0xE2, 0x82, 0xAC] + [0x41]) == Some([0x20AC] + [0x41])
  {
    assert EncodeCp(0x20AC) == [0xE2, 0x82, 0xAC] && EncodeCp(0xE9) == [0xC3, 0xA9];
    var u: seq<bv16> := [0x20AC] + [0x41];
    assert u[1..] == [0x41] && u[1..][1..] == [];
    assert Encode([0x41]) == [0x41] + [];
    assert Encode(u) == [0xE2, 0x82, 0xAC] + [0x41];
    DecodeEncode(u);
  }

  lemma OverlongSlash()
    ensures Decode([0xC0, 0xAF]) == Some([0x2F]) && Encode([0x2F]) != [0xC0, 0xAF]
  {
    var s: seq<bv8> := [0xC0, 0xAF];
    assert Lead(s[0]) == 2 && Lead(s[1]) == 1 && Join2(s[0], s[1]) == 0x2F;
    assert s[2..] == [];
    assert [0x2F as bv16] + [] == [0x2F];
    assert |Encode([0x2F])| == 1 by { assert [0x2F as bv16][1..] == []; }
  }

  // ----- the loops of the source

  /** The bits of the first k + 1 bytes of a code point. */
  ghost function Joined(s: seq<bv8>, k: nat): bv16
    requires k < |s|
  {
    if k == 0 then First(s[0]) else More(Joined(s, k - 1), s[k])
  }

  ghost predicate Continues(s: seq<bv8>, k: nat) {
    k < |s| && forall i :: 1 <= i <= k ==> Lead(s[i]) == 1
  }

  lemma {:induction false} JoinedIs(s: seq<bv8>, k: nat)
    requires 1 <= k <= 2 && k < |s|
    ensures Joined(s, k) == if k == 1 then Join2(s[0], s[1]) else Join3(s[0], s[1], s[2])
  {
    assert Joined(s, 0) == First(s[0]);
    assert Joined(s, 1) == More(First(s[0]), s[1]);
    assert k == 2 ==> Joined(s, 2) == More(Joined(s, 1), s[2]);
  }

  lemma {:induction false} StepJoins(s: seq<bv8>, l: nat)
    requires s != [] && l == Lead(s[0]) && 2 <= l <= 3
    ensures Step(s) == if Continues(s, l - 1) then Some((Joined(s, l - 1), l)) else None
  {
    if Continues(s, l - 1) {
      assert Lead(s[1]) == 1 && Lead(s[l - 1]) == 1;
      JoinedIs(s, l - 1);
    }
  }

  lemma LeadOfNul()
    ensures Lead(0) == 0
  {
  }

  /** `validate_utf8_cp` at position `p` of the NUL-terminated buffer. */
  method ValidateCp(buf: seq<bv8>, p: nat) returns (ok: bool, cp: bv16, next: nat)
    requires p + 1 < |buf| && buf[|buf| - 1] == 0
    ensures ok == Step(buf[p..|buf| - 1]).Some?
    ensures ok ==> Step(buf[p..|buf| - 1]) == Some((cp, next - p)) && p < next < |buf|
  {
    ghost var s := buf[p..|buf| - 1];
    var c := buf[p];
    next := p + 1;
    var l := LeadingOnes(c);
    ok, cp := false, 0;
    if l == 0 {
      ok, cp := true, Wide(c & 0x7f);
    } else if l == 2 || l == 3 {
      StepJoins(s, l);
      cp := First(c);
      var n := l;
      while n > 1
        invariant 1 <= n <= l && next == p + 1 + (l - n)
        invariant Continues(s, l - n) && cp == Joined(s, l - n)
      {
        c := buf[next];
        var k := LeadingOnes(c);
        LeadOfNul();
        assert next < |buf| - 1 ==> s[l - n + 1] == c;
        if k != 1 { return; }
        cp := More(cp, c);
        next, n := next + 1, n - 1;
      }
      ok := true;
    }
  }

  /** A buffer holding the C string `s` and its NUL. */
  predicate Terminated(buf: seq<bv8>, s: seq<bv8>) {
    buf == s + [0] && CString(s)
  }

  /** `validate_utf8_str`: the number of code points, or -1. */
  method ValidateStr(buf: seq<bv8>, ghost s: seq<bv8>) returns (n: int)
    requires Terminated(buf, s)
    ensures n == match Decode(s) case None => -1 case Some(u) => |u|
  {
    var p := 0;
    n := 0;
    assert s[0..] == s;
    while buf[p] != 0
      invariant 0 <= p <= |s| && n >= 0
      invariant Decode(s).Some? <==> Decode(s[p..]).Some?
      invariant Decode(s).Some? ==> |Decode(s).value| == n + |Decode(s[p..]).value|
      decreases |s| - p
    {
      assert s[p..] == buf[p..|buf| - 1];
      var ok, cp, next := ValidateCp(buf, p);
      if !ok { return -1; }
      assert s[p..][next - p..] == s[next..];
      p, n := next, n + 1;
    }
    assert p == |s|;
  }

  /** The second pass of `utf8_to_ucs2`: it never fails and ends with the last unit. */
  method Fill(buf: seq<bv8>, ghost s: seq<bv8>, val: array<bv16>)
    requires Terminated(buf, s) && Decode(s).Some? && |Decode(s).value| == val.Length
    modifies val
    ensures val[..] == Decode(s).value
  {
    ghost var want := Decode(s).value;
    var p := 0;
    assert s[0..] == s;
    for i := 0 to val.Length
      invariant 0 <= p <= |s|
      invariant Decode(s[p..]) == Some(want[i..])
      invariant forall k :: 0 <= k < i ==> val[k] == want[k]
    {
      assert s[p..] != [];
      assert s[p..] == buf[p..|buf| - 1];
      var ok, cp, next := ValidateCp(buf, p);
      assert ok && s[p..][next - p..] == s[next..];
      assert [cp] + Decode(s[next..]).value == want[i..];
      assert want[i] == cp && Decode(s[next..]).value == want[i..][1..] == want[i + 1..];
      val[i] := cp;
      p := next;
    }
  }

  /** `utf8_to_ucs2`: the second pass fills exactly the units the first one counted. */
  method Utf8ToUcs2(buf: seq<bv8>, ghost s: seq<bv8>) returns (r: Option<seq<bv16>>)
    requires Terminated(buf, s)
    ensures r == Decode(s)
  {
    var len := ValidateStr(buf, s);
    if len < 0 { return None; }
    var val := new bv16[len];
    Fill(buf, s, val);
    r := Some(val[..]);
  }

  /** The sizing pass of `ucs2_to_utf8`. */
  method Utf8Length(u: seq<bv16>) returns (len: nat)
    ensures len == |Encode(u)| + 1
  {
    len := 1;
    assert u[0..] == u;
    for i := 0 to |u|
      invariant len + |Encode(u[i..])| == 1 + |Encode(u)|
    {
      assert u[i..][1..] == u[i + 1..];
      len := len + CpSize(u[i]);
    }
  }

  /** The fill pass of `ucs2_to_utf8`: it ends just before the NUL. */
  method FillUtf8(u: seq<bv16>, str: array<bv8>)
    requires str.Length == |Encode(u)| + 1
    modifies str
    ensures str[..str.Length - 1] == Encode(u) && str[str.Length - 1] == old(str[str.Length - 1])
  {
    ghost var want, orig := Encode(u), str[..];
    var tmp: nat := 0;
    assert u[0..] == u;
    for i := 0 to |u|
      invariant tmp <= |want| && want[tmp..] == Encode(u[i..])
      invariant str[..] == want[..tmp] + orig[tmp..]
    {
      tmp := FillUnit(u, i, want, orig, str, tmp);
    }
    assert str[..][..|want|] == want;
  }

  method FillUnit(u: seq<bv16>, i: nat, ghost want: seq<bv8>, ghost orig: seq<bv8>, str: array<bv8>, tmp: nat) returns (next: nat)
    requires i < |u| && tmp <= |want| < |orig| && want[tmp..] == Encode(u[i..]) && str[..] == want[..tmp] + orig[tmp..]
    modifies str
    ensures next <= |want| && want[next..] == Encode(u[i + 1..]) && str[..] == want[..next] + orig[next..]
  {
    var b := EncodeCp(u[i]);
    EncodeHead(want, tmp, u, i);
    Bytes.CopyInto(str, tmp, b);
    Overwritten(want, orig, tmp, b);
    next := tmp + |b|;
  }

  lemma Overwritten(want: seq<bv8>, orig: seq<bv8>, tmp: nat, b: seq<bv8>)
    requires tmp + |b| <= |want| <= |orig| && want[tmp..tmp + |b|] == b
    ensures var s := want[..tmp] + orig[tmp..];
            s[..tmp] + b + s[tmp + |b|..] == want[..tmp + |b|] + orig[tmp + |b|..]
  {
  }

  lemma {:induction false} EncodeHead(want: seq<bv8>, tmp: nat, u: seq<bv16>, i: nat)
    requires i < |u| && tmp <= |want| && want[tmp..] == Encode(u[i..])
    ensures var b := EncodeCp(u[i]);
            && tmp + |b| <= |want| && want[tmp + |b|..] == Encode(u[i + 1..])
            && want[tmp..tmp + |b|] == b
  {
    assert u[i..][1..] == u[i + 1..];
    var b, rest := EncodeCp(u[i]), Encode(u[i + 1..]);
    HeadAndRest(want, tmp, b, rest);
  }

  lemma HeadAndRest(want: seq<bv8>, tmp: nat, b: seq<bv8>, rest: seq<bv8>)
    requires tmp <= |want| && want[tmp..] == b + rest
    ensures tmp + |b| <= |want| && want[tmp..tmp + |b|] == b && want[tmp + |b|..] == rest
  {
    assert |want[tmp..]| == |b| + |rest|;
    forall k | 0 <= k < |b| ensures want[tmp + k] == b[k] { assert want[tmp..][k] == b[k]; }
    forall k | 0 <= k < |rest| ensures want[tmp + |b| + k] == rest[k] { assert want[tmp..][|b| + k] == rest[k]; }
  }

  /** `ucs2_to_utf8`: the sizing pass and the fill pass agree to the byte; the NUL is the last byte. */
  method Ucs2ToUtf8(u: seq<bv16>) returns (str: array<bv8>)
    ensures str[..] == Encode(u) + [0] && fresh(str)
  {
    var len := Utf8Length(u);
    str := new bv8[len];
    str[len - 1] := 0;
    FillUtf8(u, str);
    assert str[..] == str[..len - 1] + [str[len - 1]];
  }
}
