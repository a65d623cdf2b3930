/** Where the search of `build_authenticated_reply` lands in an encoded message
    (mock-snmp-agent/src/v3.rs): exactly when it is the authentication
    parameters field, so that splicing the tag equals encoding with the tag. */
module AuthPlacement {
  import opened Numbers
  import opened ByteSearch
  import opened AuthTag
  import opened Ber
  import opened V3Message

  // ----- The message around its authentication field -----

  /** The message with its USM parameters encoded into it. */
  function Wire(codec: PduCodec, m: Message, u: UsmParameters): (r: seq<byte>) {
    EncodeMessage(codec, m.(security := EncodeUsm(u)))
  }

  /** The USM fields before the authentication parameters. */
  function UsmLead(u: UsmParameters): (r: seq<byte>) {
    Tlv(OCTETS, u.engineId) + (Integer(u.boots) + (Integer(u.time) + Tlv(OCTETS, u.userName)))
  }

  /** What precedes the authentication element, given the content lengths of the
      three elements that enclose it. */
  function Leading(m: Message, u: UsmParameters, outer: nat, security: nat, usm: nat): (r: seq<byte>) {
    Head(SEQUENCE, outer) + (Integer(m.version) + (Tlv(SEQUENCE, HeaderFields(m.header))
      + (Head(OCTETS, security) + (Head(SEQUENCE, usm) + UsmLead(u)))))
  }

  function AuthPrefix(codec: PduCodec, m: Message, u: UsmParameters): (r: seq<byte>) {
    Leading(m, u, |MessageFields(codec, m.(security := EncodeUsm(u)))|, |EncodeUsm(u)|, |UsmFields(u)|)
  }

  function AuthSuffix(codec: PduCodec, m: Message, u: UsmParameters): (r: seq<byte>) {
    Tlv(OCTETS, u.privParams) + EncodeData(codec, m.data)
  }

  lemma AssociateFour(a: seq<byte>, b: seq<byte>, c: seq<byte>, d: seq<byte>, x: seq<byte>)
    ensures a + (b + (c + (d + x))) == a + (b + (c + d)) + x
  {
    Associate(c, d, x);
    Associate(b, c + d, x);
    Associate(a, b + (c + d), x);
  }

  lemma AssociateSix(a: seq<byte>, b: seq<byte>, c: seq<byte>, d: seq<byte>, e: seq<byte>, f: seq<byte>, x: seq<byte>)
    ensures a + (b + (c + (d + (e + (f + x))))) == a + (b + (c + (d + (e + f)))) + x
  {
    AssociateFour(c, d, e, f, x);
    Associate(b, c + (d + (e + f)), x);
    Associate(a, b + (c + (d + (e + f))), x);
  }

  lemma UsmFieldsLayout(u: UsmParameters, data: seq<byte>)
    ensures UsmFields(u) + data == UsmLead(u) + (Tlv(OCTETS, u.authParams) + (Tlv(OCTETS, u.privParams) + data))
  {
    var auth, privacy := Tlv(OCTETS, u.authParams), Tlv(OCTETS, u.privParams);
    AssociateFour(Tlv(OCTETS, u.engineId), Integer(u.boots), Integer(u.time), Tlv(OCTETS, u.userName), auth + privacy);
    Associate(UsmLead(u), auth + privacy, data);
    Associate(auth, privacy, data);
  }

  /** The wire form is prefix, authentication element, suffix. */
  lemma WireLayout(codec: PduCodec, m: Message, u: UsmParameters)
    ensures Wire(codec, m, u) == AuthPrefix(codec, m, u) + (Tlv(OCTETS, u.authParams) + AuthSuffix(codec, m, u))
  {
    var outer := |MessageFields(codec, m.(security := EncodeUsm(u)))|;
    var data, fields := EncodeData(codec, m.data), UsmFields(u);
    var h0, h1, h2 := Head(SEQUENCE, outer), Head(OCTETS, |EncodeUsm(u)|), Head(SEQUENCE, |fields|);
    UsmFieldsLayout(u, data);
    Associate(h2, fields, data);
    Associate(h1, h2 + fields, data);
    AssociateSix(h0, Integer(m.version), Tlv(SEQUENCE, HeaderFields(m.header)), h1, h2, UsmLead(u),
                 Tlv(OCTETS, u.authParams) + AuthSuffix(codec, m, u));
  }

  /** Tags of one length leave everything around them unchanged. */
  lemma TagOnlyChangesItself(codec: PduCodec, m: Message, u: UsmParameters, tag: seq<byte>)
    requires |tag| == |u.authParams|
    ensures AuthPrefix(codec, m, u.(authParams := tag)) == AuthPrefix(codec, m, u)
    ensures AuthSuffix(codec, m, u.(authParams := tag)) == AuthSuffix(codec, m, u)
  {
    var v := u.(authParams := tag);
    assert |UsmFields(v)| == |UsmFields(u)|;
    assert |EncodeUsm(v)| == |EncodeUsm(u)|;
    assert |MessageFields(codec, m.(security := EncodeUsm(v)))| == |MessageFields(codec, m.(security := EncodeUsm(u)))|;
  }

  // ----- Searching across element boundaries -----

  /** The needle is unbordered: two matches never overlap. */
  lemma Unbordered(hay: seq<byte>, p: nat, n: nat)
    requires p < n < p + 26 <= |hay| && hay[n] in [0x02, 0x04, 0x30]
    ensures !At(hay, ZeroNeedle(), p)
  {
    var window := hay[p..p + 26];
    assert window[n - p] == hay[n] != ZeroNeedle()[n - p];
  }

  /** A match never straddles a boundary at which an element tag stands: the
      needle's only non-leading bytes are its length octet and zeros. */
  lemma NoMatchAcrossTag(x: seq<byte>, y: seq<byte>)
    requires y == [] || y[0] in [0x02, 0x04, 0x30]
    ensures Occurs(x + y, ZeroNeedle()) <==> Occurs(x, ZeroNeedle()) || Occurs(y, ZeroNeedle())
  {
    var z := ZeroNeedle();
    forall p | 0 <= p < |x| < p + 26 <= |x + y|
      ensures !At(x + y, z, p)
    {
      Unbordered(x + y, p, |x|);
    }
    if p :| 0 <= p <= |x + y| && At(x + y, z, p) {
      if p + 26 <= |x| {
        assert At(x, z, p);
      } else {
        assert At(y, z, p - |x|);
      }
    }
    if p :| 0 <= p <= |x| && At(x, z, p) {
      assert At(x + y, z, p);
    }
    if p :| 0 <= p <= |y| && At(y, z, p) {
      assert At(x + y, z, |x| + p);
    }
  }

  /** The placeholder is the first match exactly when its prefix hides none. */
  lemma FirstAfterPrefix(prefix: seq<byte>, suffix: seq<byte>)
    ensures FirstMatch(prefix + ZeroNeedle() + suffix, ZeroNeedle()) == Some(|prefix|)
       <==> !Occurs(prefix, ZeroNeedle())
  {
    var z := ZeroNeedle();
    var hay := prefix + z + suffix;
    assert At(hay, z, |prefix|);
    FirstMatchIs(hay, z, |prefix|);
    forall q | 0 <= q < |prefix|
      ensures At(hay, z, q) <==> At(prefix, z, q)
    {
      if q + 26 > |prefix| {
        var window := hay[q..q + 26];
        assert window[|prefix| - q] == hay[|prefix|] == z[0];
        assert window != z;
      } else {
        assert hay[q..q + 26] == prefix[q..q + 26];
      }
    }
  }

  // ----- Which fields can mimic the placeholder -----

  /** Some field copied into the prefix contains the 26 placeholder bytes. */
  ghost predicate Mimics(m: Message, u: UsmParameters) {
    || Occurs(Integer(m.header.messageId), ZeroNeedle())
    || Occurs(Integer(m.header.maxSize), ZeroNeedle())
    || Occurs(Tlv(OCTETS, u.engineId), ZeroNeedle())
    || Occurs(Tlv(OCTETS, u.userName), ZeroNeedle())
  }

  /** What every reply fixes: version 3, one flags octet, 32-bit boots and time. */
  predicate ReplyShaped(m: Message, u: UsmParameters) {
    && m.version == 3 && m.header.securityModel == 3 && |m.header.flags| == 1
    && 0 <= u.boots < U32_LIMIT && 0 <= u.time < U32_LIMIT
  }

  lemma ShortHidesNothing(x: seq<byte>)
    requires |x| < 26
    ensures !Occurs(x, ZeroNeedle())
  {
  }

  lemma SmallIntegerHidesNothing(n: int)
    requires -0x80 * Exp256(7) <= n < 0x80 * Exp256(7)
    ensures !Occurs(Integer(n), ZeroNeedle())
  {
    IntegerOctetsLength(n, 7);
    ShortHidesNothing(Integer(n));
  }

  lemma HeadHidesNothing(tag: byte, n: nat)
    requires n < USIZE_LIMIT
    ensures !Occurs(Head(tag, n), ZeroNeedle())
  {
    LengthOctetsFit(n);
    ShortHidesNothing(Head(tag, n));
  }

  lemma WordIsSmall(n: int)
    requires -I64_LIMIT <= n < I64_LIMIT
    ensures -0x80 * Exp256(7) <= n < 0x80 * Exp256(7)
  {
    assert Exp256(3) == 0x100_0000;
    assert Exp256(5) == 0x100_0000_0000;
    assert Exp256(7) == 0x100_0000_0000_0000;
  }

  /** Of the header's elements only two can hide a match. */
  lemma HeaderHides(h: Header)
    requires h.securityModel == 3 && |h.flags| == 1 && |HeaderFields(h)| < USIZE_LIMIT
    ensures Occurs(Tlv(SEQUENCE, HeaderFields(h)), ZeroNeedle())
       <==> Occurs(Integer(h.messageId), ZeroNeedle()) || Occurs(Integer(h.maxSize), ZeroNeedle())
  {
    var s, f := Integer(h.securityModel), Tlv(OCTETS, h.flags);
    HeadHidesNothing(SEQUENCE, |HeaderFields(h)|);
    WordIsSmall(3);
    SmallIntegerHidesNothing(3);
    ShortHidesNothing(f);
    NoMatchAcrossTag(f, s);
    NoMatchAcrossTag(Integer(h.maxSize), f + s);
    NoMatchAcrossTag(Integer(h.messageId), Integer(h.maxSize) + (f + s));
    NoMatchAcrossTag(Head(SEQUENCE, |HeaderFields(h)|), HeaderFields(h));
  }

  lemma LeadHides(u: UsmParameters)
    requires 0 <= u.boots < U32_LIMIT && 0 <= u.time < U32_LIMIT
    ensures Occurs(UsmLead(u), ZeroNeedle())
       <==> Occurs(Tlv(OCTETS, u.engineId), ZeroNeedle()) || Occurs(Tlv(OCTETS, u.userName), ZeroNeedle())
  {
    var b, t, n := Integer(u.boots), Integer(u.time), Tlv(OCTETS, u.userName);
    WordIsSmall(u.boots);
    WordIsSmall(u.time);
    SmallIntegerHidesNothing(u.boots);
    SmallIntegerHidesNothing(u.time);
    NoMatchAcrossTag(t, n);
    NoMatchAcrossTag(b, t + n);
    NoMatchAcrossTag(Tlv(OCTETS, u.engineId), b + (t + n));
  }

  /** Of everything before the field only four elements can hide a match. */
  lemma PrefixHides(m: Message, u: UsmParameters, outer: nat, security: nat, usm: nat)
    requires ReplyShaped(m, u) && outer < USIZE_LIMIT && security < USIZE_LIMIT && usm < USIZE_LIMIT
    requires |HeaderFields(m.header)| < USIZE_LIMIT
    ensures Occurs(Leading(m, u, outer, security, usm), ZeroNeedle()) <==> Mimics(m, u)
  {
    HeadHidesNothing(SEQUENCE, outer);
    HeadHidesNothing(OCTETS, security);
    HeadHidesNothing(SEQUENCE, usm);
    WordIsSmall(3);
    SmallIntegerHidesNothing(3);
    HeaderHides(m.header);
    LeadHides(u);
    var header, lead := Tlv(SEQUENCE, HeaderFields(m.header)), UsmLead(u);
    var c := Head(SEQUENCE, usm) + lead;
    var d := Head(OCTETS, security) + c;
    NoMatchAcrossTag(Head(SEQUENCE, usm), lead);
    NoMatchAcrossTag(Head(OCTETS, security), c);
    NoMatchAcrossTag(header, d);
    NoMatchAcrossTag(Integer(m.version), header + d);
    NoMatchAcrossTag(Head(SEQUENCE, outer), Integer(m.version) + (header + d));
  }

  // ----- Splicing is re-encoding -----

  lemma WireFits(codec: PduCodec, m: Message, u: UsmParameters)
    requires |Wire(codec, m, u)| < USIZE_LIMIT
    ensures |MessageFields(codec, m.(security := EncodeUsm(u)))| < USIZE_LIMIT
    ensures |EncodeUsm(u)| < USIZE_LIMIT && |UsmFields(u)| < USIZE_LIMIT && |HeaderFields(m.header)| < USIZE_LIMIT
    ensures |EncodeData(codec, m.data)| < USIZE_LIMIT
  {
  }

  lemma PlaceholderElement(tag: seq<byte>)
    requires |tag| == AUTH_TRUNC_LEN
    ensures Tlv(OCTETS, tag) == Needle(tag)
  {
  }

  /** A message whose authentication parameters are still the 24 zero bytes. */
  predicate Unsigned(u: UsmParameters) {
    u.authParams == Zeros(AUTH_TRUNC_LEN)
  }

  /** The first `04 18 0^24` of an encoded reply is its authentication field if
      and only if none of the four copied fields contains those 26 bytes. */
  lemma SearchFindsField(codec: PduCodec, m: Message, u: UsmParameters)
    requires |Wire(codec, m, u)| < USIZE_LIMIT && ReplyShaped(m, u) && Unsigned(u)
    ensures FirstMatch(Wire(codec, m, u), ZeroNeedle()).Some?
    ensures FirstMatch(Wire(codec, m, u), ZeroNeedle()) == Some(|AuthPrefix(codec, m, u)|) <==> !Mimics(m, u)
  {
    var prefix, suffix := AuthPrefix(codec, m, u), AuthSuffix(codec, m, u);
    WireLayout(codec, m, u);
    PlaceholderElement(u.authParams);
    Associate(prefix, ZeroNeedle(), suffix);
    FirstAfterPrefix(prefix, suffix);
    WireFits(codec, m, u);
    PrefixHides(m, u, |MessageFields(codec, m.(security := EncodeUsm(u)))|, |EncodeUsm(u)|, |UsmFields(u)|);
    assert At(prefix + ZeroNeedle() + suffix, ZeroNeedle(), |prefix|);
  }

  /** The wire form with any 24-byte tag in the field. */
  lemma TaggedLayout(codec: PduCodec, m: Message, u: UsmParameters, tag: seq<byte>)
    requires |u.authParams| == AUTH_TRUNC_LEN && |tag| == AUTH_TRUNC_LEN
    ensures Wire(codec, m, u.(authParams := tag)) == AuthPrefix(codec, m, u) + (Needle(tag) + AuthSuffix(codec, m, u))
  {
    WireLayout(codec, m, u.(authParams := tag));
    TagOnlyChangesItself(codec, m, u, tag);
    PlaceholderElement(tag);
  }

  lemma UnsignedLayout(codec: PduCodec, m: Message, u: UsmParameters)
    requires Unsigned(u)
    ensures Wire(codec, m, u) == AuthPrefix(codec, m, u) + (ZeroNeedle() + AuthSuffix(codec, m, u))
  {
    WireLayout(codec, m, u);
    PlaceholderElement(u.authParams);
  }

  /** Splicing a tag over the field equals encoding the message with that tag. */
  lemma SpliceAtField(codec: PduCodec, m: Message, u: UsmParameters, tag: seq<byte>)
    requires Unsigned(u) && |tag| == AUTH_TRUNC_LEN
    ensures Retagged(Wire(codec, m, u), Wire(codec, m, u.(authParams := tag)), |AuthPrefix(codec, m, u)|, tag)
  {
    TaggedLayout(codec, m, u, tag);
    UnsignedLayout(codec, m, u);
    SpliceMiddle(AuthPrefix(codec, m, u), tag, AuthSuffix(codec, m, u),
                 Wire(codec, m, u), Wire(codec, m, u.(authParams := tag)));
  }

  /** `tagged` is `wire` with the placeholder at `n` overwritten by `tag`. */
  predicate Retagged(wire: seq<byte>, tagged: seq<byte>, n: nat, tag: seq<byte>)
    requires |tag| == AUTH_TRUNC_LEN
  {
    && At(wire, ZeroNeedle(), n)
    && At(tagged, Needle(tag), n)
    && tagged == Splice(wire, n + 2, tag)
  }

  lemma SpliceMiddle(prefix: seq<byte>, tag: seq<byte>, suffix: seq<byte>, wire: seq<byte>, tagged: seq<byte>)
    requires |tag| == AUTH_TRUNC_LEN
    requires wire == prefix + (ZeroNeedle() + suffix) && tagged == prefix + (Needle(tag) + suffix)
    ensures Retagged(wire, tagged, |prefix|, tag)
  {
    var p := |prefix| + 2;
    assert wire[..p] == prefix + [0x04, AUTH_TRUNC_LEN];
    assert wire[p + 24..] == suffix;
  }

  /** Spliced at the first match, a nonzero tag lands on the match at `n` exactly
      when that is the first. */
  lemma SignedLands(hmac: Hmac, wire: seq<byte>, tagged: seq<byte>, n: nat, key: seq<byte>)
    requires Retagged(wire, tagged, n, Mac(hmac, key, wire)) && Mac(hmac, key, wire) != Zeros(AUTH_TRUNC_LEN)
    ensures FirstMatch(wire, ZeroNeedle()).Some?
    ensures Signed(hmac, wire, key) == tagged <==> FirstMatch(wire, ZeroNeedle()) == Some(n)
  {
    var p := FirstMatch(wire, ZeroNeedle()).value;
    if p != n {
      PlaceholderStays(wire, p, n, Mac(hmac, key, wire));
    }
  }

  lemma PlaceholderStays(wire: seq<byte>, p: nat, n: nat, tag: seq<byte>)
    requires |tag| == AUTH_TRUNC_LEN && tag != Zeros(AUTH_TRUNC_LEN)
    requires p < n && At(wire, ZeroNeedle(), p) && At(wire, ZeroNeedle(), n)
    ensures Splice(wire, p + 2, tag) != Splice(wire, n + 2, tag)
  {
    assert wire[n] == wire[n..n + 26][0] == 0x04;
    assert p + 26 <= n by {
      if n < p + 26 {
        Unbordered(wire, p, n);
      }
    }
    var j :| 0 <= j < 24 && tag[j] != Zeros(AUTH_TRUNC_LEN)[j];
    assert Splice(wire, p + 2, tag)[n + 2 + j] == wire[n + 2 + j] == wire[n..n + 26][2 + j];
    assert Splice(wire, n + 2, tag)[n + 2 + j] == tag[j];
  }

  lemma SplicedZeros(wire: seq<byte>, p: nat)
    requires At(wire, ZeroNeedle(), p)
    ensures Splice(wire, p + 2, Zeros(AUTH_TRUNC_LEN)) == wire
  {
    assert forall i | 0 <= i < 26 :: wire[p + i] == wire[p..p + 26][i] == ZeroNeedle()[i];
  }

  /** Signing by search and splice produces exactly the encoding of the message
      with its tag, if and only if no copied field mimics the placeholder or the
      tag is itself 24 zero bytes. */
  lemma SigningIsReencoding(hmac: Hmac, codec: PduCodec, m: Message, u: UsmParameters, key: seq<byte>)
    requires |Wire(codec, m, u)| < USIZE_LIMIT && ReplyShaped(m, u) && Unsigned(u)
    ensures FirstMatch(Wire(codec, m, u), ZeroNeedle()).Some?
    ensures Signed(hmac, Wire(codec, m, u), key) == Wire(codec, m, u.(authParams := Mac(hmac, key, Wire(codec, m, u))))
       <==> !Mimics(m, u) || Mac(hmac, key, Wire(codec, m, u)) == Zeros(AUTH_TRUNC_LEN)
  {
    var wire := Wire(codec, m, u);
    var tag := Mac(hmac, key, wire);
    var tagged := Wire(codec, m, u.(authParams := tag));
    SearchFindsField(codec, m, u);
    SpliceAtField(codec, m, u, tag);
    if tag == Zeros(AUTH_TRUNC_LEN) {
      SplicedZeros(wire, FirstMatch(wire, ZeroNeedle()).value);
    } else {
      SignedLands(hmac, wire, tagged, |AuthPrefix(codec, m, u)|, key);
    }
  }
}
