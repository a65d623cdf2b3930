/** What the agent sends when a copied field mimics the placeholder
    (mock-snmp-agent/src/v3.rs): the tag lands inside that field, and the result
    is the encoding of another, still untagged message. */
module MisplacedTag {
  import opened Numbers
  import opened ByteSearch
  import opened AuthTag
  import opened Ber
  import opened V3Message
  import opened AuthPlacement
  import opened FieldMimicry

  // ----- Splicing inside one of two parts -----

  /** `y` is `x` with a tag over the zeros of a placeholder it contains. */
  ghost predicate Respliced(x: seq<byte>, y: seq<byte>, tag: seq<byte>)
    requires |tag| == AUTH_TRUNC_LEN
  {
    exists q: nat :: At(x, ZeroNeedle(), q) && y == Splice(x, q + 2, tag)
  }

  lemma SpliceLeft(x: seq<byte>, y: seq<byte>, q: nat, tag: seq<byte>)
    requires |tag| == AUTH_TRUNC_LEN && q + 26 <= |x|
    ensures Splice(x + y, q + 2, tag) == Splice(x, q + 2, tag) + y
  {
  }

  lemma SpliceRight(x: seq<byte>, y: seq<byte>, q: nat, tag: seq<byte>)
    requires |tag| == AUTH_TRUNC_LEN && |x| <= q && q + 26 <= |x + y|
    ensures Splice(x + y, q + 2, tag) == x + Splice(y, q - |x| + 2, tag)
  {
  }

  /** At an element boundary a splice changes one side only. */
  lemma OneSide(x: seq<byte>, y: seq<byte>, z: seq<byte>, tag: seq<byte>) returns (left: bool, part: seq<byte>)
    requires |tag| == AUTH_TRUNC_LEN && Respliced(x + y, z, tag)
    requires y == [] || y[0] in [0x02, 0x04, 0x30]
    ensures left ==> Respliced(x, part, tag) && z == part + y
    ensures !left ==> Respliced(y, part, tag) && z == x + part
  {
    var q: nat :| At(x + y, ZeroNeedle(), q) && z == Splice(x + y, q + 2, tag);
    if q < |x| < q + 26 {
      Unbordered(x + y, q, |x|);
    }
    left := q < |x|;
    if left {
      assert x[q..q + 26] == (x + y)[q..q + 26];
      assert At(x, ZeroNeedle(), q);
      SpliceLeft(x, y, q, tag);
      part := Splice(x, q + 2, tag);
    } else {
      assert y[q - |x|..q - |x| + 26] == (x + y)[q..q + 26];
      SpliceRight(x, y, q, tag);
      part := Splice(y, q - |x| + 2, tag);
      assert At(y, ZeroNeedle(), q - |x|);
    }
  }

  lemma Hidden(x: seq<byte>, y: seq<byte>, tag: seq<byte>)
    requires |tag| == AUTH_TRUNC_LEN && Respliced(x, y, tag)
    ensures Occurs(x, ZeroNeedle()) && |y| == |x|
  {
  }

  /** Past a part that hides nothing. */
  lemma Past(x: seq<byte>, y: seq<byte>, z: seq<byte>, tag: seq<byte>) returns (part: seq<byte>)
    requires |tag| == AUTH_TRUNC_LEN && Respliced(x + y, z, tag) && !Occurs(x, ZeroNeedle())
    requires y == [] || y[0] in [0x02, 0x04, 0x30]
    ensures Respliced(y, part, tag) && z == x + part && |part| == |y|
  {
    var left, side := OneSide(x, y, z, tag);
    if left {
      Hidden(x, side, tag);
    }
    part := side;
    Hidden(y, part, tag);
  }

  lemma Before(x: seq<byte>, y: seq<byte>, z: seq<byte>, tag: seq<byte>) returns (part: seq<byte>)
    requires |tag| == AUTH_TRUNC_LEN && Respliced(x + y, z, tag) && !Occurs(y, ZeroNeedle())
    requires y == [] || y[0] in [0x02, 0x04, 0x30]
    ensures Respliced(x, part, tag) && z == part + y && |part| == |x|
  {
    var left, side := OneSide(x, y, z, tag);
    if !left {
      Hidden(y, side, tag);
    }
    part := side;
    Hidden(x, part, tag);
  }

  // ----- Splicing inside one element -----

  /** A match in an octet string of datagram size overwrites contents only. */
  lemma MatchInContents(c: seq<byte>, q: nat)
    requires |c| < 65536 && At(Tlv(OCTETS, c), ZeroNeedle(), q)
    ensures q + 2 >= |Head(OCTETS, |c|)|
  {
    var t := Tlv(OCTETS, c);
    PlaceholderAt(t, q);
    if 128 <= |c| < 256 {
      OneLengthOctet(|c|);
      assert t[1] == 0x81;
    } else if |c| >= 256 {
      TwoLengthOctets(|c|);
      assert t[1] == 0x82;
    }
  }

  lemma SpliceContents(head: seq<byte>, c: seq<byte>, q: nat, tag: seq<byte>)
    requires |tag| == AUTH_TRUNC_LEN && |head| <= q + 2 && q + 26 <= |head + c|
    ensures Splice(head + c, q + 2, tag) == head + Splice(c, q + 2 - |head|, tag)
  {
  }

  lemma OctetsRespliced(c: seq<byte>, z: seq<byte>, tag: seq<byte>) returns (c': seq<byte>)
    requires |tag| == AUTH_TRUNC_LEN && |c| < 65536 && Respliced(Tlv(OCTETS, c), z, tag)
    ensures |c'| == |c| && z == Tlv(OCTETS, c')
  {
    var q: nat :| At(Tlv(OCTETS, c), ZeroNeedle(), q) && z == Splice(Tlv(OCTETS, c), q + 2, tag);
    MatchInContents(c, q);
    SpliceContents(Head(OCTETS, |c|), c, q, tag);
    c' := Splice(c, q + 2 - |Head(OCTETS, |c|)|, tag);
  }

  /** The first nine bits of minimal contents octets are not all equal. */
  predicate Minimal(o: seq<byte>) {
    |o| >= 1 && (|o| >= 2 ==> !(o[0] == 0 && o[1] < 128) && !(o[0] == 255 && o[1] >= 128))
  }

  lemma OneOctet(n: int)
    ensures |IntegerOctets(n)| == 1 <==> -128 <= n < 128
  {
  }

  lemma {:induction false} IntegerIsMinimal(n: int)
    ensures Minimal(IntegerOctets(n))
    decreases if n < 0 then -n else n
  {
    if !(-128 <= n < 128) {
      IntegerIsMinimal(n / 256);
      OneOctet(n / 256);
    }
  }

  lemma NextOctet(v: int, b: byte)
    ensures (v * 256 + b) / 256 == v && (v * 256 + b) % 256 == b
    ensures !(-128 <= v < 128) ==> !(-128 <= v * 256 + b < 128)
  {
  }

  lemma TwoOctets(a: byte, b: byte)
    requires Minimal([a, b])
    ensures !(-128 <= IntegerValue([a]) * 256 + b < 128)
  {
    assert [a, b][0] == a && [a, b][1] == b;
  }

  /** Minimal contents octets are the encoding of their value. */
  lemma {:induction false} MinimalIsInteger(o: seq<byte>)
    requires Minimal(o)
    ensures IntegerOctets(IntegerValue(o)) == o
  {
    if |o| >= 2 {
      var init, last := o[..|o| - 1], o[|o| - 1];
      MinimalIsInteger(init);
      NextOctet(IntegerValue(init), last);
      OneOctet(IntegerValue(init));
      if |o| == 2 {
        assert o == [o[0], last] && init == [o[0]];
        TwoOctets(o[0], last);
      }
      OctetsEnd(IntegerValue(init), last);
    }
  }

  lemma OctetsEnd(v: int, b: byte)
    requires !(-128 <= v * 256 + b < 128)
    ensures IntegerOctets(v * 256 + b) == IntegerOctets(v) + [b]
  {
    NextOctet(v, b);
  }

  /** A match in an INTEGER of datagram size overwrites neither its length nor
      the octets that make it minimal. */
  lemma MatchInInteger(o: seq<byte>, q: nat, tag: seq<byte>)
    requires |tag| == AUTH_TRUNC_LEN && |o| < 65536 && Minimal(o) && At(Tlv(INTEGER, o), ZeroNeedle(), q)
    ensures q + 2 >= |Head(INTEGER, |o|)| && Minimal(Splice(o, q + 2 - |Head(INTEGER, |o|)|, tag))
  {
    var t := Tlv(INTEGER, o);
    var head := Head(INTEGER, |o|);
    PlaceholderAt(t, q);
    if 128 <= |o| < 256 {
      assert head == [0x02, 0x81, |o|];
    } else if |o| >= 256 {
      assert Digits(|o|) == [|o| / 256] + [|o| % 256];
      assert head == [0x02, 0x82, |o| / 256, |o| % 256];
    }
    assert forall i | 0 <= i < |head| :: t[i] == head[i];
    assert forall i | 0 <= i < |o| :: t[|head| + i] == o[i];
    assert q + 2 >= |head|;
  }

  lemma IntegerRespliced(n: int, z: seq<byte>, tag: seq<byte>) returns (n': int)
    requires |tag| == AUTH_TRUNC_LEN && |IntegerOctets(n)| < 65536 && Respliced(Integer(n), z, tag)
    ensures z == Integer(n') && |IntegerOctets(n')| == |IntegerOctets(n)|
  {
    var o := IntegerOctets(n);
    var q: nat :| At(Integer(n), ZeroNeedle(), q) && z == Splice(Integer(n), q + 2, tag);
    IntegerIsMinimal(n);
    MatchInInteger(o, q, tag);
    SpliceContents(Head(INTEGER, |o|), o, q, tag);
    var o' := Splice(o, q + 2 - |Head(INTEGER, |o|)|, tag);
    MinimalIsInteger(o');
    n' := IntegerValue(o');
  }

  // ----- Splicing inside the prefix -----

  /** The echoed header fields have the size of a datagram at most. */
  predicate SmallHeader(h: Header) {
    && |IntegerOctets(h.messageId)| < 65536 && |IntegerOctets(h.maxSize)| < 65536
    && h.securityModel == 3 && |h.flags| == 1 && |HeaderFields(h)| < USIZE_LIMIT
  }

  predicate SmallNames(u: UsmParameters) {
    |u.engineId| < 65536 && |u.userName| < 65536 && 0 <= u.boots < U32_LIMIT && 0 <= u.time < U32_LIMIT
  }

  lemma HeaderTailHidesNothing(h: Header)
    requires SmallHeader(h)
    ensures !Occurs(Tlv(OCTETS, h.flags) + Integer(h.securityModel), ZeroNeedle())
  {
    WordIsSmall(3);
    SmallIntegerHidesNothing(3);
    ShortHidesNothing(Tlv(OCTETS, h.flags));
    NoMatchAcrossTag(Tlv(OCTETS, h.flags), Integer(h.securityModel));
  }

  /** A splice inside the header gives another header of the same size. */
  lemma HeaderRespliced(h: Header, z: seq<byte>, tag: seq<byte>) returns (h': Header)
    requires |tag| == AUTH_TRUNC_LEN && SmallHeader(h) && Respliced(Tlv(SEQUENCE, HeaderFields(h)), z, tag)
    ensures z == Tlv(SEQUENCE, HeaderFields(h')) && |HeaderFields(h')| == |HeaderFields(h)|
    ensures h' == Header(h'.messageId, h'.maxSize, h.flags, h.securityModel)
  {
    var tail := Tlv(OCTETS, h.flags) + Integer(h.securityModel);
    var head := Head(SEQUENCE, |HeaderFields(h)|);
    HeadHidesNothing(SEQUENCE, |HeaderFields(h)|);
    HeaderTailHidesNothing(h);
    var fields := Past(head, HeaderFields(h), z, tag);
    var first, part := OneSide(Integer(h.messageId), Integer(h.maxSize) + tail, fields, tag);
    if first {
      var n := IntegerRespliced(h.messageId, part, tag);
      h' := h.(messageId := n);
    } else {
      var size := Before(Integer(h.maxSize), tail, part, tag);
      var n := IntegerRespliced(h.maxSize, size, tag);
      h' := h.(maxSize := n);
    }
  }

  /** A splice inside the leading USM fields gives other names of the same size. */
  lemma LeadRespliced(u: UsmParameters, z: seq<byte>, tag: seq<byte>) returns (u': UsmParameters)
    requires |tag| == AUTH_TRUNC_LEN && SmallNames(u) && Respliced(UsmLead(u), z, tag)
    ensures z == UsmLead(u') && |u'.engineId| == |u.engineId| && |u'.userName| == |u.userName|
    ensures u' == u.(engineId := u'.engineId, userName := u'.userName)
  {
    var name := Tlv(OCTETS, u.userName);
    WordIsSmall(u.boots);
    WordIsSmall(u.time);
    SmallIntegerHidesNothing(u.boots);
    SmallIntegerHidesNothing(u.time);
    var first, part := OneSide(Tlv(OCTETS, u.engineId), Integer(u.boots) + (Integer(u.time) + name), z, tag);
    if first {
      var c := OctetsRespliced(u.engineId, part, tag);
      u' := u.(engineId := c);
    } else {
      var rest := Past(Integer(u.boots), Integer(u.time) + name, part, tag);
      var last := Past(Integer(u.time), name, rest, tag);
      var c := OctetsRespliced(u.userName, last, tag);
      u' := u.(userName := c);
    }
  }

  /** Same message but for copied fields, each of its old size. */
  predicate Redirected(m: Message, u: UsmParameters, m': Message, u': UsmParameters) {
    && m' == m.(header := m'.header)
    && m'.header == Header(m'.header.messageId, m'.header.maxSize, m.header.flags, m.header.securityModel)
    && |HeaderFields(m'.header)| == |HeaderFields(m.header)|
    && u' == u.(engineId := u'.engineId, userName := u'.userName)
    && |u'.engineId| == |u.engineId| && |u'.userName| == |u.userName|
  }

  lemma PrefixRespliced(m: Message, u: UsmParameters, outer: nat, security: nat, usm: nat, z: seq<byte>, tag: seq<byte>)
    returns (m': Message, u': UsmParameters)
    requires |tag| == AUTH_TRUNC_LEN && m.version == 3 && SmallHeader(m.header) && SmallNames(u)
    requires outer < USIZE_LIMIT && security < USIZE_LIMIT && usm < USIZE_LIMIT
    requires Respliced(Leading(m, u, outer, security, usm), z, tag)
    ensures z == Leading(m', u', outer, security, usm) && Redirected(m, u, m', u')
  {
    HeadHidesNothing(SEQUENCE, outer);
    HeadHidesNothing(OCTETS, security);
    HeadHidesNothing(SEQUENCE, usm);
    WordIsSmall(3);
    SmallIntegerHidesNothing(3);
    var header := Tlv(SEQUENCE, HeaderFields(m.header));
    var c := Head(SEQUENCE, usm) + UsmLead(u);
    var d := Head(OCTETS, security) + c;
    var z1 := Past(Head(SEQUENCE, outer), Integer(m.version) + (header + d), z, tag);
    var z2 := Past(Integer(m.version), header + d, z1, tag);
    var inHeader, part := OneSide(header, d, z2, tag);
    if inHeader {
      var h := HeaderRespliced(m.header, part, tag);
      m', u' := m.(header := h), u;
    } else {
      var z3 := Past(Head(OCTETS, security), c, part, tag);
      var z4 := Past(Head(SEQUENCE, usm), UsmLead(u), z3, tag);
      u' := LeadRespliced(u, z4, tag);
      m' := m;
    }
  }

  // ----- The reply that is sent -----

  lemma SameSizes(codec: PduCodec, m: Message, u: UsmParameters, m': Message, u': UsmParameters)
    requires Redirected(m, u, m', u')
    ensures |UsmFields(u')| == |UsmFields(u)| && |EncodeUsm(u')| == |EncodeUsm(u)|
    ensures |MessageFields(codec, m'.(security := EncodeUsm(u')))|
         == |MessageFields(codec, m.(security := EncodeUsm(u)))|
    ensures AuthSuffix(codec, m', u') == AuthSuffix(codec, m, u)
  {
    assert |UsmFields(u')| == |UsmFields(u)|;
    assert |EncodeUsm(u')| == |EncodeUsm(u)|;
  }

  lemma RedirectedLayout(codec: PduCodec, m: Message, u: UsmParameters, m': Message, u': UsmParameters)
    requires Redirected(m, u, m', u')
    ensures Wire(codec, m', u') ==
            Leading(m', u', |MessageFields(codec, m.(security := EncodeUsm(u)))|, |EncodeUsm(u)|, |UsmFields(u)|)
            + (Tlv(OCTETS, u.authParams) + AuthSuffix(codec, m, u))
  {
    SameSizes(codec, m, u, m', u');
    WireLayout(codec, m', u');
  }

  lemma FirstInPrefix(prefix: seq<byte>, suffix: seq<byte>)
    requires Occurs(prefix, ZeroNeedle())
    ensures
      var p := FirstMatch(prefix + suffix, ZeroNeedle());
      p.Some? && p.value + 26 <= |prefix| && At(prefix, ZeroNeedle(), p.value)
  {
    var q :| 0 <= q <= |prefix| && At(prefix, ZeroNeedle(), q);
    assert (prefix + suffix)[q..q + 26] == prefix[q..q + 26];
    assert At(prefix + suffix, ZeroNeedle(), q);
    var p := FirstMatch(prefix + suffix, ZeroNeedle()).value;
    assert p <= q;
    assert (prefix + suffix)[p..p + 26] == prefix[p..p + 26];
  }

  /** When a copied field mimics the placeholder, the signed reply is the encoding
      of another message whose authentication parameters are still zero. */
  lemma MisplacedReply(codec: PduCodec, m: Message, u: UsmParameters, tag: seq<byte>)
    returns (m': Message, u': UsmParameters)
    requires |Wire(codec, m, u)| < USIZE_LIMIT && ReplyShaped(m, u) && Unsigned(u) && Mimics(m, u)
    requires |tag| == AUTH_TRUNC_LEN && SmallHeader(m.header) && SmallNames(u)
    ensures FirstMatch(Wire(codec, m, u), ZeroNeedle()).Some?
    ensures Splice(Wire(codec, m, u), FirstMatch(Wire(codec, m, u), ZeroNeedle()).value + 2, tag) == Wire(codec, m', u')
    ensures Redirected(m, u, m', u')
  {
    var outer := |MessageFields(codec, m.(security := EncodeUsm(u)))|;
    var prefix := AuthPrefix(codec, m, u);
    var rest := Tlv(OCTETS, u.authParams) + AuthSuffix(codec, m, u);
    WireLayout(codec, m, u);
    WireFits(codec, m, u);
    PrefixHides(m, u, outer, |EncodeUsm(u)|, |UsmFields(u)|);
    FirstInPrefix(prefix, rest);
    var p := FirstMatch(prefix + rest, ZeroNeedle()).value;
    SpliceLeft(prefix, rest, p, tag);
    m', u' := PrefixRespliced(m, u, outer, |EncodeUsm(u)|, |UsmFields(u)|, Splice(prefix, p + 2, tag), tag);
    RedirectedLayout(codec, m, u, m', u');
  }
}
