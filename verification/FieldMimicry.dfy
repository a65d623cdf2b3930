/** Which engine ids, user names and integers can mimic the authentication
    placeholder of a reply, and what follows for signing. */
module FieldMimicry {
  import opened Numbers
  import opened ByteSearch
  import opened AuthTag
  import opened Ber
  import opened V3Message
  import opened AuthPlacement

  predicate ZerosAt(s: seq<byte>, k: nat) {
    k + 24 <= |s| && forall i | k <= i < k + 24 :: s[i] == 0
  }

  lemma PlaceholderAt(s: seq<byte>, q: nat)
    ensures At(s, ZeroNeedle(), q) <==> q + 26 <= |s| && s[q] == 0x04 && s[q + 1] == 0x18 && ZerosAt(s, q + 2)
  {
    var z := ZeroNeedle();
    if q + 26 <= |s| {
      var w := s[q..q + 26];
      assert w[0] == s[q] && w[1] == s[q + 1];
      assert forall i | 2 <= i < 26 :: w[i] == s[q + i];
      assert s[q] == 0x04 && s[q + 1] == 0x18 && ZerosAt(s, q + 2) ==> w == z;
      if At(s, z, q) {
        forall i | q + 2 <= i < q + 26
          ensures s[i] == 0
        {
          assert w[i - q] == z[i - q];
        }
      }
    }
  }

  /** The contents that mimic the placeholder once given a tag and a length: the
      bytes themselves, or 24 zeros that the element's own length octets complete. */
  ghost predicate OctetsMimic(c: seq<byte>) {
    || Occurs(c, ZeroNeedle())
    || (|c| == 24 && ZerosAt(c, 0))
    || (|c| == 0x418 && ZerosAt(c, 0))
    || (|c| >= 256 && |c| % 256 == 4 && c[0] == 0x18 && ZerosAt(c, 1))
  }

  lemma TwoLengthOctets(n: nat)
    requires 256 <= n < 65536
    ensures Head(OCTETS, n) == [0x04, 0x82, n / 256, n % 256]
  {
    assert Digits(n) == [n / 256] + [n % 256];
  }

  lemma OneLengthOctet(n: nat)
    requires 128 <= n < 256
    ensures Head(OCTETS, n) == [0x04, 0x81, n]
  {
  }

  lemma InContents(head: seq<byte>, c: seq<byte>)
    ensures Occurs(head + c, ZeroNeedle()) <==>
            Occurs(c, ZeroNeedle()) || exists q :: 0 <= q < |head| && At(head + c, ZeroNeedle(), q)
  {
    var z, t := ZeroNeedle(), head + c;
    if p :| 0 <= p <= |t| && At(t, z, p) {
      if p >= |head| {
        assert At(c, z, p - |head|);
      }
    }
    if p :| 0 <= p <= |c| && At(c, z, p) {
      assert At(t, z, |head| + p);
    }
  }

  lemma ShortFormMimics(c: seq<byte>)
    requires |c| < 128
    ensures Occurs(Tlv(OCTETS, c), ZeroNeedle()) <==> OctetsMimic(c)
  {
    var head := Head(OCTETS, |c|);
    var t := head + c;
    assert head == [0x04, |c|];
    InContents(head, c);
    PlaceholderAt(t, 0);
    PlaceholderAt(t, 1);
    assert forall i | 0 <= i < |c| :: t[i + 2] == c[i];
    assert ZerosAt(t, 2) <==> ZerosAt(c, 0) by {
      Shifted(head, c, 0);
    }
  }

  lemma Shifted(head: seq<byte>, c: seq<byte>, k: nat)
    ensures ZerosAt(head + c, |head| + k) <==> ZerosAt(c, k)
  {
    var t := head + c;
    assert forall i | 0 <= i < |c| :: t[|head| + i] == c[i];
    if ZerosAt(t, |head| + k) {
      forall i | k <= i < k + 24
        ensures c[i] == 0
      {
        assert t[|head| + i] == c[i];
      }
    }
  }

  lemma MiddleFormMimics(c: seq<byte>)
    requires 128 <= |c| < 256
    ensures Occurs(Tlv(OCTETS, c), ZeroNeedle()) <==> OctetsMimic(c)
  {
    OneLengthOctet(|c|);
    var head := Head(OCTETS, |c|);
    InContents(head, c);
    PlaceholderAt(head + c, 0);
    PlaceholderAt(head + c, 1);
    PlaceholderAt(head + c, 2);
  }

  lemma LongFormMimics(c: seq<byte>)
    requires 256 <= |c| < 65536
    ensures Occurs(Tlv(OCTETS, c), ZeroNeedle()) <==> OctetsMimic(c)
  {
    TwoLengthOctets(|c|);
    var head := Head(OCTETS, |c|);
    var t := head + c;
    InContents(head, c);
    PlaceholderAt(t, 0);
    PlaceholderAt(t, 1);
    PlaceholderAt(t, 2);
    PlaceholderAt(t, 3);
    Shifted(head, c, 0);
    Shifted(head, c, 1);
    assert t[4] == c[0] && t[2] == |c| / 256 && t[3] == |c| % 256;
    assert |c| == 0x418 <==> t[2] == 0x04 && t[3] == 0x18;
  }

  /** An octet string of datagram size mimics the placeholder exactly in the four
      ways of `OctetsMimic`. */
  lemma OctetStringMimics(c: seq<byte>)
    requires |c| < 65536
    ensures Occurs(Tlv(OCTETS, c), ZeroNeedle()) <==> OctetsMimic(c)
  {
    if |c| < 128 {
      ShortFormMimics(c);
    } else if |c| < 256 {
      MiddleFormMimics(c);
    } else {
      LongFormMimics(c);
    }
  }

  /** Without a run of 24 zero bytes an octet string mimics nothing. */
  lemma NoZeroRunNoMimic(c: seq<byte>)
    requires |c| < 65536 && forall k: nat :: !ZerosAt(c, k)
    ensures !Occurs(Tlv(OCTETS, c), ZeroNeedle())
  {
    OctetStringMimics(c);
    forall p | 0 <= p <= |c|
      ensures !At(c, ZeroNeedle(), p)
    {
      PlaceholderAt(c, p);
    }
  }

  /** Integers of at most 64 bits (RFC 3412 allows 31) and names of datagram size
      without a run of 24 zero bytes. */
  ghost predicate Ordinary(h: Header, u: UsmParameters) {
    && -I64_LIMIT <= h.messageId < I64_LIMIT && -I64_LIMIT <= h.maxSize < I64_LIMIT
    && |u.engineId| < 65536 && |u.userName| < 65536
    && (forall k: nat :: !ZerosAt(u.engineId, k))
    && (forall k: nat :: !ZerosAt(u.userName, k))
  }

  lemma OrdinaryHidesNothing(m: Message, u: UsmParameters)
    requires Ordinary(m.header, u)
    ensures !Mimics(m, u)
  {
    WordIsSmall(m.header.messageId);
    WordIsSmall(m.header.maxSize);
    SmallIntegerHidesNothing(m.header.messageId);
    SmallIntegerHidesNothing(m.header.maxSize);
    NoZeroRunNoMimic(u.engineId);
    NoZeroRunNoMimic(u.userName);
  }

  lemma SignedAtFirst(hmac: Hmac, wire: seq<byte>, tagged: seq<byte>, n: nat, key: seq<byte>)
    requires FirstMatch(wire, ZeroNeedle()) == Some(n) && Retagged(wire, tagged, n, Mac(hmac, key, wire))
    ensures Signed(hmac, wire, key) == tagged
  {
  }

  /** In ordinary messages signing is exact, whatever the tag. */
  lemma OrdinaryRepliesSignExactly(hmac: Hmac, codec: PduCodec, m: Message, u: UsmParameters, key: seq<byte>)
    requires |Wire(codec, m, u)| < USIZE_LIMIT && ReplyShaped(m, u) && Unsigned(u) && Ordinary(m.header, u)
    ensures FirstMatch(Wire(codec, m, u), ZeroNeedle()) == Some(|AuthPrefix(codec, m, u)|)
    ensures Signed(hmac, Wire(codec, m, u), key) == Wire(codec, m, u.(authParams := Mac(hmac, key, Wire(codec, m, u))))
  {
    var wire := Wire(codec, m, u);
    var tag := Mac(hmac, key, wire);
    OrdinaryHidesNothing(m, u);
    SearchFindsField(codec, m, u);
    SpliceAtField(codec, m, u, tag);
    SignedAtFirst(hmac, wire, Wire(codec, m, u.(authParams := tag)), |AuthPrefix(codec, m, u)|, key);
  }

  /** An engine id of 24 zero bytes, which RFC 3411 does not allow but the code
      accepts, draws the tag into itself: the reply is not the tagged message. */
  lemma ZeroEngineIdBreaksSigning(hmac: Hmac, codec: PduCodec, m: Message, u: UsmParameters, key: seq<byte>)
    requires |Wire(codec, m, u)| < USIZE_LIMIT && ReplyShaped(m, u) && Unsigned(u)
    requires Mac(hmac, key, Wire(codec, m, u)) != Zeros(AUTH_TRUNC_LEN)
    requires u.engineId == Zeros(24)
    ensures FirstMatch(Wire(codec, m, u), ZeroNeedle()).Some?
    ensures Signed(hmac, Wire(codec, m, u), key) != Wire(codec, m, u.(authParams := Mac(hmac, key, Wire(codec, m, u))))
  {
    assert ZerosAt(u.engineId, 0);
    OctetStringMimics(u.engineId);
    SigningIsReencoding(hmac, codec, m, u, key);
  }

  // ----- Echoed integers -----

  lemma {:induction false} ShiftedOctets(k: nat)
    ensures IntegerOctets(0x418 * Exp256(k)) == [0x04, 0x18] + Zeros(k)
  {
    if k == 0 {
      assert IntegerOctets(4) == [4];
      assert Zeros(0) == [];
    } else {
      var n := 0x418 * Exp256(k - 1);
      ShiftedOctets(k - 1);
      assert 0x418 * Exp256(k) == 256 * n;
      assert IntegerOctets(256 * n) == IntegerOctets(n) + [0];
      assert Zeros(k - 1) + [0] == Zeros(k);
    }
  }

  /** 04 18 and `k` zero octets, as an INTEGER. */
  function ShiftedInteger(k: nat): (n: int) {
    0x418 * Exp256(k)
  }

  lemma PlaceholderContents(octets: seq<byte>)
    requires octets == ZeroNeedle()
    ensures Occurs(Tlv(INTEGER, octets), ZeroNeedle())
  {
    var t := Tlv(INTEGER, octets);
    assert t == [INTEGER, 26] + octets;
    assert At(t, ZeroNeedle(), 2);
  }

  lemma ShiftedMimics(k: nat)
    requires k == AUTH_TRUNC_LEN
    ensures Occurs(Integer(ShiftedInteger(k)), ZeroNeedle())
  {
    ShiftedOctets(k);
    PlaceholderContents(IntegerOctets(ShiftedInteger(k)));
  }

  /** A message id that any request may carry, echoed into the reply, draws the
      tag into itself: the reply is not the tagged message. */
  lemma MessageIdBreaksSigning(hmac: Hmac, codec: PduCodec, m: Message, u: UsmParameters, key: seq<byte>)
    requires |Wire(codec, m, u)| < USIZE_LIMIT && ReplyShaped(m, u) && Unsigned(u)
    requires Mac(hmac, key, Wire(codec, m, u)) != Zeros(AUTH_TRUNC_LEN)
    requires m.header.messageId == ShiftedInteger(AUTH_TRUNC_LEN)
    ensures FirstMatch(Wire(codec, m, u), ZeroNeedle()).Some?
    ensures Signed(hmac, Wire(codec, m, u), key) != Wire(codec, m, u.(authParams := Mac(hmac, key, Wire(codec, m, u))))
  {
    ShiftedMimics(AUTH_TRUNC_LEN);
    SigningIsReencoding(hmac, codec, m, u, key);
  }
}
