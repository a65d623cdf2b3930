/** Signing and verifying raw datagrams by search and splice
    (mock-snmp-agent/src/v3.rs, usm.rs). The keyed hash is a parameter. */
module AuthTag {
  import opened Numbers
  import opened ByteSearch

  /** RFC 7860 section 4.2: HMAC-SHA-256 truncated to 192 bits. */
  const AUTH_TRUNC_LEN: nat := 24

  /** A SHA-256 output. */
  type Digest = s: seq<byte> | |s| == 32 witness seq(32, i => 0)

  type Hmac = (seq<byte>, seq<byte>) -> Digest

  /** `hmac_sign`: the first 24 bytes of the digest. */
  function Mac(hmac: Hmac, key: seq<byte>, message: seq<byte>): (tag: seq<byte>)
    ensures |tag| == 24
    ensures forall i | 0 <= i < 24 :: tag[i] == hmac(key, message)[i]
  {
    hmac(key, message)[..AUTH_TRUNC_LEN]
  }

  /** The BER octet string that carries `tag`. */
  function Needle(tag: seq<byte>): (r: seq<byte>) {
    [0x04, AUTH_TRUNC_LEN] + tag
  }

  function ZeroNeedle(): (n: seq<byte>)
    ensures |n| == 26 && n[0] == 0x04 && n[1] == 0x18
    ensures forall i | 2 <= i < 26 :: n[i] == 0
  {
    Needle(Zeros(AUTH_TRUNC_LEN))
  }

  /** The bytes `verify_hmac` hashes: the 24 bytes after the first `04 18 tag`
      blanked, nothing else touched. */
  function Blanked(raw: seq<byte>, tag: seq<byte>): (r: Option<seq<byte>>)
    requires |tag| == AUTH_TRUNC_LEN
    ensures r.Some? ==> |r.value| == |raw|
  {
    var p :- FirstMatch(raw, Needle(tag));
    Some(Splice(raw, p + 2, Zeros(AUTH_TRUNC_LEN)))
  }

  /** What `verify_hmac` decides. */
  predicate Verifies(hmac: Hmac, raw: seq<byte>, tag: seq<byte>, key: seq<byte>) {
    && |tag| == AUTH_TRUNC_LEN
    && Blanked(raw, tag).Some?
    && Mac(hmac, key, Blanked(raw, tag).value) == tag
  }

  method VerifyHmac(hmac: Hmac, raw: seq<byte>, authParams: seq<byte>, key: seq<byte>) returns (ok: bool)
    ensures ok == Verifies(hmac, raw, authParams, key)
  {
    if |authParams| != AUTH_TRUNC_LEN {
      return false;
    }
    var found := Position(raw, Needle(authParams));
    if found.None? {
      return false;
    }
    var pos := found.value;
    var zeroed := new byte[|raw|](i requires 0 <= i < |raw| => raw[i]);
    assert zeroed[..] == raw;
    Overwrite(zeroed, pos + 2, Zeros(AUTH_TRUNC_LEN));
    var computed := Mac(hmac, key, zeroed[..]);
    return computed == authParams;
  }

  /** The bytes after the tag is spliced over the first zero placeholder. */
  function Signed(hmac: Hmac, bytes: seq<byte>, key: seq<byte>): (r: seq<byte>)
    requires FirstMatch(bytes, ZeroNeedle()).Some?
    ensures |r| == |bytes|
  {
    Splice(bytes, FirstMatch(bytes, ZeroNeedle()).value + 2, Mac(hmac, key, bytes))
  }

  method Sign(hmac: Hmac, encoded: seq<byte>, key: seq<byte>) returns (r: seq<byte>)
    requires Occurs(encoded, ZeroNeedle())
    ensures FirstMatch(encoded, ZeroNeedle()).Some?
    ensures r == Signed(hmac, encoded, key)
  {
    var mac := Mac(hmac, key, encoded);
    var found := Position(encoded, ZeroNeedle());
    var pos := found.value;
    var bytes := new byte[|encoded|](i requires 0 <= i < |encoded| => encoded[i]);
    assert bytes[..] == encoded;
    Overwrite(bytes, pos + 2, mac);
    return bytes[..];
  }

  /** Splicing a tag into place and blanking it there cancel out. */
  lemma SpliceBack(bytes: seq<byte>, p: nat, tag: seq<byte>)
    requires |tag| == AUTH_TRUNC_LEN && At(bytes, ZeroNeedle(), p)
    ensures At(Splice(bytes, p + 2, tag), Needle(tag), p)
    ensures Splice(Splice(bytes, p + 2, tag), p + 2, Zeros(AUTH_TRUNC_LEN)) == bytes
  {
    var s := Splice(bytes, p + 2, tag);
    assert forall i | 0 <= i < 26 :: bytes[p + i] == bytes[p..p + 26][i] == ZeroNeedle()[i];
    assert s[p..p + 26] == Needle(tag);
    assert Splice(s, p + 2, Zeros(AUTH_TRUNC_LEN)) == bytes;
  }

  /** An earlier `04 18 tag` at `q`, strictly before the placeholder at `p`,
      can never be blanked into the original bytes: either its window meets the
      placeholder's tag octet, or the original had an earlier placeholder. */
  lemma EarlierTagIsFatal(bytes: seq<byte>, p: nat, q: nat, tag: seq<byte>)
    requires |tag| == AUTH_TRUNC_LEN
    requires FirstMatch(bytes, ZeroNeedle()) == Some(p)
    requires q < p && At(Splice(bytes, p + 2, tag), Needle(tag), q)
    ensures Splice(Splice(bytes, p + 2, tag), q + 2, Zeros(AUTH_TRUNC_LEN)) != bytes
  {
    var signed := Splice(bytes, p + 2, tag);
    var back := Splice(signed, q + 2, Zeros(AUTH_TRUNC_LEN));
    assert bytes[p] == bytes[p..p + 26][0] == 0x04;
    var window := signed[q..q + 26];
    assert signed[q + 1] == window[1] == 0x18;
    assert p != q + 1;
    if p < q + 26 {
      assert back[p] == 0;
    } else {
      assert signed[q] == window[0] == 0x04;
      assert back[q..q + 26] == ZeroNeedle();
      assert At(back, ZeroNeedle(), q) && !At(bytes, ZeroNeedle(), q);
    }
  }

  /** Verification rebuilds the exact pre-signing bytes if and only if
      `04 18 tag` does not stand before the spliced position. */
  lemma VerifyUndoesSign(hmac: Hmac, bytes: seq<byte>, key: seq<byte>)
    requires FirstMatch(bytes, ZeroNeedle()).Some?
    ensures
      var p := FirstMatch(bytes, ZeroNeedle()).value;
      var tag := Mac(hmac, key, bytes);
      var signed := Signed(hmac, bytes, key);
      (forall q | 0 <= q < p :: !At(signed, Needle(tag), q))
        <==> Blanked(signed, tag) == Some(bytes)
  {
    var p := FirstMatch(bytes, ZeroNeedle()).value;
    var tag := Mac(hmac, key, bytes);
    var signed := Signed(hmac, bytes, key);
    SpliceBack(bytes, p, tag);
    var f := FirstMatch(signed, Needle(tag)).value;
    if f != p {
      EarlierTagIsFatal(bytes, p, f, tag);
    }
  }

  /** A signed datagram whose tag is not mimicked earlier is accepted. */
  lemma SignedIsAccepted(hmac: Hmac, bytes: seq<byte>, key: seq<byte>)
    requires FirstMatch(bytes, ZeroNeedle()).Some?
    requires
      var p := FirstMatch(bytes, ZeroNeedle()).value;
      forall q | 0 <= q < p :: !At(Signed(hmac, bytes, key), Needle(Mac(hmac, key, bytes)), q)
    ensures Verifies(hmac, Signed(hmac, bytes, key), Mac(hmac, key, bytes), key)
  {
    VerifyUndoesSign(hmac, bytes, key);
  }

  /** The tag is the MAC of the datagram with exactly the 24 bytes of its first
      `04 18 tag` zeroed: every other byte is authenticated. */
  ghost predicate Authentic(hmac: Hmac, raw: seq<byte>, tag: seq<byte>, key: seq<byte>) {
    && |tag| == AUTH_TRUNC_LEN
    && exists p, zeroed: seq<byte> ::
         && FirstMatch(raw, Needle(tag)) == Some(p)
         && |zeroed| == |raw|
         && (forall i | 0 <= i < |raw| :: zeroed[i] == if p + 2 <= i < p + 26 then 0 else raw[i])
         && tag == Mac(hmac, key, zeroed)
  }

  /** Acceptance means exactly that. */
  lemma AcceptanceMeansMac(hmac: Hmac, raw: seq<byte>, tag: seq<byte>, key: seq<byte>)
    ensures Verifies(hmac, raw, tag, key) <==> Authentic(hmac, raw, tag, key)
  {
    if |tag| == AUTH_TRUNC_LEN && FirstMatch(raw, Needle(tag)).Some? {
      var p := FirstMatch(raw, Needle(tag)).value;
      var zeroed := Blanked(raw, tag).value;
      assert forall i | 0 <= i < |raw| :: zeroed[i] == if p + 2 <= i < p + 26 then 0 else raw[i];
      forall z: seq<byte> | |z| == |raw| && (forall i | 0 <= i < |raw| ::
                              z[i] == if p + 2 <= i < p + 26 then 0 else raw[i])
        ensures z == zeroed
      {
      }
    }
  }
}
