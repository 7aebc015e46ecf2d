/**
 * Signing a request in place: `smb2_pdu_add_signature` of
 * cpp/samba/client/OpenSmbC/src/Smb2Signing.cpp.  The cipher under the signing key
 * and the HMAC of the older dialects are parameters.
 */
module Smb2Signing {
  import opened Bytes
  import opened Smb2Header
  import opened Smb2Compound
  import Cmac

  const SESSION_SETUP: nat := 1
  const DIALECT_0210 := 0x0210
  const NO_SIGNATURE: seq<byte> := [0, 0, 0, 0, 0, 0, 0, 0, 0, 0, 0, 0, 0, 0, 0, 0]

  type Digest = seq<byte> -> seq<byte>

  function ToBits(s: seq<byte>): (r: seq<bv8>)
    ensures |r| == |s|
  {
    seq(|s|, i requires 0 <= i < |s| => s[i] as bv8)
  }

  function FromBits(s: seq<bv8>): (r: seq<byte>)
    ensures |r| == |s|
  {
    seq(|s|, i requires 0 <= i < |s| => s[i] as int)
  }

  /** The signature the standard asks for: over the whole message, its own field zero and the flag set. */
  function Expected(aes: Cmac.Cipher, h: Header, body: seq<seq<byte>>): (sig: seq<byte>)
    requires Valid(h)
    ensures |sig| == 16
  {
    FromBits(Cmac.Mac(aes, ToBits(Layout(h.(signature := NO_SIGNATURE)) + Flat(body))))
  }

  /** What the dialect signs a message with. */
  function Over(aes: Cmac.Cipher, hmac: Digest, dialect: nat, msg: seq<byte>): seq<byte>
    requires |hmac(msg)| >= 16
  {
    if dialect > DIALECT_0210 then FromBits(Cmac.Mac(aes, ToBits(msg))) else hmac(msg)[..16]
  }

  lemma PatchFlags(h: Header, f: nat)
    requires Valid(h)
    ensures Put(Layout(h), 16, 4, f) == Layout(h.(flags := f))
  {
    var h' := h.(flags := f);
    assert Front(h') == Front(h) && Back(h') == Back(h);
    MiddlePatched(h, f);
    var x, y, z := Front(h), Middle(h), Back(h);
    PutInMiddle(x, y, z, 4, ToLE(4, f));
  }

  lemma MiddlePatched(h: Header, f: nat)
    ensures PutBytes(Middle(h), 4, ToLE(4, f)) == Middle(h.(flags := f))
  {
    var m, m' := Middle(h), Middle(h.(flags := f));
    assert m[..4] == m'[..4] && m[8..] == m'[8..] && m'[4..8] == ToLE(4, f);
  }

  lemma PutInMiddle(x: seq<byte>, y: seq<byte>, z: seq<byte>, off: nat, b: seq<byte>)
    requires off + |b| <= |y|
    ensures PutBytes(x + y + z, |x| + off, b) == x + PutBytes(y, off, b) + z
  {
  }

  lemma PatchSignature(h: Header, sig: seq<byte>)
    requires Valid(h) && |sig| == 16
    ensures PutBytes(Layout(h), 48, sig) == Layout(h.(signature := sig))
  {
    var h' := h.(signature := sig);
    assert Front(h') == Front(h) && Middle(h') == Middle(h) && TargetBytes(h') == TargetBytes(h);
    assert PutBytes(Back(h), 16, sig) == Back(h');
    PutInMiddle(Front(h) + Middle(h), Back(h), [], 16, sig);
    assert Front(h) + Middle(h) + Back(h) + [] == Layout(h) && Front(h') + Middle(h') + Back(h') + [] == Layout(h');
  }

  lemma SignedFlag(h: Header)
    requires Valid(h)
    ensures var f := SetFlag(h.flags, FLAG_SIGNED);
            HasFlag(f, FLAG_SIGNED) && Valid(h.(flags := f))
  {
    FieldFits();
    if !HasFlag(h.flags, FLAG_SIGNED) {
      assert (h.flags + 8) / 8 == h.flags / 8 + 1;
      assert (h.flags + 8) / 2 == h.flags / 2 + 4;
    }
  }

  /** The loop that puts all vectors into one buffer. */
  method Gather(vs: seq<seq<byte>>) returns (msg: seq<byte>)
    ensures msg == Flat(vs)
  {
    msg := [];
    for i := 0 to |vs|
      invariant msg == Flat(vs[..i])
    {
      assert vs[..i + 1] == vs[..i] + [vs[i]];
      FlatSnoc(vs[..i], vs[i]);
      msg := msg + vs[i];
    }
    assert vs[..|vs|] == vs;
  }

  method ComputeSignature(aes: Cmac.Cipher, hmac: Digest, dialect: nat, msg: seq<byte>) returns (sig: seq<byte>)
    requires forall m :: |hmac(m)| >= 16
    ensures sig == Over(aes, hmac, dialect, msg) && |sig| == 16
    ensures sig == if dialect > 0x0210 then FromBits(Cmac.Mac(aes, ToBits(msg))) else hmac(msg)[..16]
  {
    if dialect > DIALECT_0210 {
      var mac := new bv8[16];
      Cmac.ComputeMac(aes, ToBits(msg), mac);
      sig := FromBits(mac[..]);
    } else {
      sig := hmac(msg)[..16];
    }
  }

  /**
   * The header vector `a` holds the encoded header.  After signing it holds the
   * header with the flag and the signature; the cases that skip or refuse signing
   * leave it alone.  The signature field is signed as it stands, so the result is
   * the standard's when it was zero before.
   */
  method AddSignature(a: array<byte>, h: Header, body: seq<seq<byte>>, sessionId: nat, keySize: nat, dialect: nat,
                      aes: Cmac.Cipher, hmac: Digest)
    returns (ok: bool, h': Header)
    requires Valid(h) && a.Length == HEADER_SIZE && a[..] == Layout(h)
    requires forall m :: |hmac(m)| >= 16
    modifies a
    ensures ok == (h.command == 1 || (body != [] && (sessionId == 0 || keySize != 0)))
    ensures Valid(h') && a[..] == Layout(h')
    ensures !ok || h.command == 1 || sessionId == 0 ==> h' == h
    ensures ok && h.command != 1 && sessionId != 0 ==> a[16] as int / 8 % 2 == 1
    ensures ok && h.command != 1 && sessionId != 0 ==>
              && h' == h.(flags := SetFlag(h.flags, FLAG_SIGNED), signature := h'.signature) && HasFlag(h'.flags, FLAG_SIGNED)
              && a[48..64] == h'.signature
              && h'.signature == Over(aes, hmac, dialect, Layout(h'.(signature := h.signature)) + Flat(body))
              && (dialect > DIALECT_0210 && h.signature == NO_SIGNATURE ==> h'.signature == Expected(aes, h', body))
  {
    h' := h;
    if h.command == SESSION_SETUP { return true, h; }
    if body == [] { return false, h; }
    if sessionId == 0 { return true, h; }
    if keySize == 0 { return false, h; }
    var flagged := h.(flags := SetFlag(h.flags, FLAG_SIGNED));
    SignedFlag(h);
    PatchFlags(h, flagged.flags);
    WriteLE(a, 16, 4, flagged.flags);
    var msg := Gather([a[..]] + body);
    assert ([a[..]] + body)[1..] == body;
    assert msg == Layout(flagged) + Flat(body);
    var sig := ComputeSignature(aes, hmac, dialect, msg);
    PatchSignature(flagged, sig);
    WriteBytes(a, 48, sig);
    ok, h' := true, flagged.(signature := sig);
    assert h'.(signature := h.signature) == flagged;
    GetPutBytes(Layout(flagged), 48, sig);
    assert a[48..64] == a[..][48..64];
    FlagBits(h');
    assert a[16] == a[..][16];
  }
}
