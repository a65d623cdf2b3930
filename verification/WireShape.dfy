/** The order of the elements inside a v3 message, by tag and contents octets: what
    the SEQUENCEs of RFC 3412 section 6 and RFC 3414 section 2.4 hold on the wire
    of mock-snmp-agent/src/v3.rs, whoever wrote it. */
module WireShape {
  import opened Numbers
  import opened Ber
  import opened V3Message

  /** Elements one after another, each with its tag and contents octets. */
  datatype Elements = End | Then(tag: byte, content: seq<byte>, next: Elements)

  /** The elements that some octets consist of, if they do. */
  function Split(bs: seq<byte>): (r: Option<Elements>)
    decreases |bs|
  {
    if bs == [] then Some(End)
    else
      var e :- ReadTlv(bs);
      var next :- Split(e.rest);
      Some(Then(e.tag, e.content, next))
  }

  // ----- Elements and integers, from the octets -----

  /** Tag, length and contents octets: the length in one octet below 128, or in
      0x80 + k and k big-endian octets, minimal or not. */
  ghost predicate Spells(bs: seq<byte>, tag: byte, content: seq<byte>, rest: seq<byte>) {
    || (|content| < 128 && bs == [tag, |content|] + content + rest)
    || exists length: seq<byte> | 0 < |length| < 127 && FromDigits(length) == |content| ::
         bs == [tag, 0x80 + |length|] + length + content + rest
  }

  lemma ReadExactly(bs: seq<byte>, tag: byte, content: seq<byte>, rest: seq<byte>)
    ensures ReadTlv(bs) == Some(Element(tag, content, rest)) <==> Spells(bs, tag, content, rest)
  {
    if ReadTlv(bs) == Some(Element(tag, content, rest)) {
      SpelledWhenRead(bs, tag, content, rest);
    }
    if |content| < 128 && bs == [tag, |content|] + content + rest {
      assert bs[2..2 + |content|] == content && bs[2 + |content|..] == rest;
    } else if Spells(bs, tag, content, rest) {
      var length: seq<byte> :| 0 < |length| < 127 && FromDigits(length) == |content|
                               && bs == [tag, 0x80 + |length|] + length + content + rest;
      ReadWhenSpelled(tag, length, content, rest);
    }
  }

  lemma Rejoined(s: seq<byte>, a: seq<byte>, b: seq<byte>, c: seq<byte>, d: seq<byte>)
    requires |s| == |a| + |b| + |c| + |d| && s[..|a|] == a && s[|a|..|a| + |b|] == b
    requires s[|a| + |b|..|a| + |b| + |c|] == c && s[|a| + |b| + |c|..] == d
    ensures s == a + b + c + d
  {
  }

  lemma SpelledWhenRead(bs: seq<byte>, tag: byte, content: seq<byte>, rest: seq<byte>)
    requires ReadTlv(bs) == Some(Element(tag, content, rest))
    ensures Spells(bs, tag, content, rest)
  {
    if bs[1] < 128 {
      assert bs == [tag, |content|] + content + rest by {
        Rejoined(bs, [tag, |content|], [], content, rest);
      }
    } else {
      LongForm(bs, bs[2..bs[1] as int - 126], tag, content, rest);
    }
  }

  lemma LongForm(bs: seq<byte>, length: seq<byte>, tag: byte, content: seq<byte>, rest: seq<byte>)
    requires ReadTlv(bs) == Some(Element(tag, content, rest)) && bs[1] >= 128
    requires length == bs[2..bs[1] as int - 126]
    ensures 0 < |length| < 127 && FromDigits(length) == |content|
    ensures bs == [tag, 0x80 + |length|] + length + content + rest
  {
    Rejoined(bs, [tag, 0x80 + |length|], length, content, rest);
  }

  lemma Slices(a: seq<byte>, b: seq<byte>, c: seq<byte>, d: seq<byte>)
    ensures
      var s := a + b + c + d;
      var i, j := |a| + |b|, |a| + |b| + |c|;
      |s| >= j && s[..|a|] == a && s[|a|..i] == b && s[i..j] == c && s[j..] == d
  {
  }

  lemma ReadWhenSpelled(tag: byte, length: seq<byte>, content: seq<byte>, rest: seq<byte>)
    requires 0 < |length| < 127 && FromDigits(length) == |content|
    ensures ReadTlv([tag, 0x80 + |length|] + length + content + rest) == Some(Element(tag, content, rest))
  {
    Slices([tag, 0x80 + |length|], length, content, rest);
  }

  /** Base 256, most significant octet first. */
  lemma {:induction false} DigitsPlace(bs: seq<byte>)
    requires bs != []
    ensures FromDigits(bs) == bs[0] as int * Exp256(|bs| - 1) + FromDigits(bs[1..])
  {
    if |bs| > 1 {
      var low := bs[..|bs| - 1];
      DigitsPlace(low);
      assert bs[1..][..|bs| - 2] == low[1..];
      Shift(bs[0], Exp256(|bs| - 2), FromDigits(low[1..]), bs[|bs| - 1]);
    } else {
      assert bs[..0] == [];
    }
  }

  lemma Shift(first: byte, scale: nat, middle: nat, last: byte)
    ensures (first as int * scale + middle) * 256 + last as int ==
              first as int * (256 * scale) + (middle * 256 + last as int)
  {
  }

  /** Contents octets denote their base-256 value, less 256 to their number when
      the top bit is set: two's complement. */
  lemma {:induction false} TwosComplement(bs: seq<byte>)
    requires bs != []
    ensures IntegerValue(bs) == FromDigits(bs) - (if bs[0] < 128 then 0 else Exp256(|bs|))
  {
    if |bs| > 1 {
      TwosComplement(bs[..|bs| - 1]);
    } else {
      assert bs[..0] == [];
      assert Exp256(1) == 256;
    }
  }

  lemma FirstElement(tag: byte, content: seq<byte>, rest: seq<byte>, next: Elements)
    requires |content| < USIZE_LIMIT && Split(rest) == Some(next)
    ensures Split(Tlv(tag, content) + rest) == Some(Then(tag, content, next))
  {
    ReadBack(tag, content, rest);
  }

  lemma LastElement(tag: byte, content: seq<byte>)
    requires |content| < USIZE_LIMIT
    ensures Split(Tlv(tag, content)) == Some(Then(tag, content, End))
  {
    FirstElement(tag, content, [], End);
    assert Tlv(tag, content) + [] == Tlv(tag, content);
  }

  // ----- USM parameters -----

  /** Engine id, boots, time, user name, authentication and privacy parameters. */
  lemma UsmOrder(u: UsmParameters)
    requires |UsmFields(u)| < USIZE_LIMIT
    ensures Split(UsmFields(u)) ==
      Some(Then(4, u.engineId, Then(2, IntegerOctets(u.boots), Then(2, IntegerOctets(u.time),
        Then(4, u.userName, Then(4, u.authParams, Then(4, u.privParams, End)))))))
  {
    var p := Tlv(OCTETS, u.privParams);
    var a := Tlv(OCTETS, u.authParams) + p;
    var n := Tlv(OCTETS, u.userName) + a;
    var t := Integer(u.time) + n;
    var b := Integer(u.boots) + t;
    var p' := Then(4, u.privParams, End);
    var n' := Then(4, u.userName, Then(4, u.authParams, p'));
    var t' := Then(2, IntegerOctets(u.time), n');
    LastElement(OCTETS, u.privParams);
    FirstElement(OCTETS, u.authParams, p, p');
    FirstElement(OCTETS, u.userName, a, n'.next);
    FirstElement(INTEGER, IntegerOctets(u.time), n, n');
    FirstElement(INTEGER, IntegerOctets(u.boots), t, t');
    FirstElement(OCTETS, u.engineId, b, Then(2, IntegerOctets(u.boots), t'));
  }

  /** The first element is an octet string with these octets. */
  predicate Octets(es: Elements, octets: seq<byte>) {
    es.Then? && es.tag == 4 && es.content == octets
  }

  /** The first element is an INTEGER with this value. */
  predicate Denotes(es: Elements, n: int) {
    es.Then? && es.tag == 2 && es.content != [] && IntegerValue(es.content) == n
  }

  predicate ThreeOctets(es: Elements, a: seq<byte>, b: seq<byte>, c: seq<byte>) {
    Octets(es, a) && Octets(es.next, b) && Octets(es.next.next, c) && es.next.next.next == End
  }

  /** Six elements in that order, each with the value it has in `u`. */
  predicate UsmSpelled(es: Elements, u: UsmParameters) {
    && Octets(es, u.engineId) && Denotes(es.next, u.boots) && Denotes(es.next.next, u.time)
    && ThreeOctets(es.next.next.next, u.userName, u.authParams, u.privParams)
  }

  /** What follows the first element. */
  function Rest(bs: seq<byte>): (r: seq<byte>) {
    match ReadTlv(bs)
    case Some(e) => e.rest
    case None => []
  }

  lemma OctetsSplit(bs: seq<byte>, octets: seq<byte>)
    ensures Split(bs).Some? && Octets(Split(bs).value, octets) <==>
              ReadOctets(bs) == Some((octets, Rest(bs))) && Split(Rest(bs)).Some?
    ensures Split(bs).Some? && Split(bs).value.Then? ==> Split(Rest(bs)) == Some(Split(bs).value.next)
  {
  }

  lemma IntegerSplit(bs: seq<byte>, n: int)
    ensures Split(bs).Some? && Denotes(Split(bs).value, n) <==>
              ReadInteger(bs) == Some((n, Rest(bs))) && Split(Rest(bs)).Some?
    ensures Split(bs).Some? && Split(bs).value.Then? ==> Split(Rest(bs)) == Some(Split(bs).value.next)
  {
  }

  lemma EndSplit(bs: seq<byte>)
    ensures Split(bs) == Some(End) <==> bs == []
  {
  }

  predicate ReadsThree(bs: seq<byte>, a: seq<byte>, b: seq<byte>, c: seq<byte>) {
    var r1, r2 := Rest(bs), Rest(Rest(bs));
    && ReadOctets(bs) == Some((a, r1)) && ReadOctets(r1) == Some((b, r2)) && ReadOctets(r2) == Some((c, Rest(r2)))
    && Rest(r2) == []
  }

  lemma ThreeSplit(bs: seq<byte>, a: seq<byte>, b: seq<byte>, c: seq<byte>)
    ensures Split(bs).Some? && ThreeOctets(Split(bs).value, a, b, c) <==> ReadsThree(bs, a, b, c)
  {
    var r1, r2 := Rest(bs), Rest(Rest(bs));
    OctetsSplit(bs, a);
    OctetsSplit(r1, b);
    OctetsSplit(r2, c);
    EndSplit(Rest(r2));
  }

  predicate UsmReads(bs: seq<byte>, u: UsmParameters) {
    var r1, r2 := Rest(bs), Rest(Rest(bs));
    && ReadOctets(bs) == Some((u.engineId, r1)) && ReadInteger(r1) == Some((u.boots, r2))
    && ReadInteger(r2) == Some((u.time, Rest(r2)))
    && ReadsThree(Rest(r2), u.userName, u.authParams, u.privParams)
  }

  lemma ReadWhenDecoded(bs: seq<byte>, u: UsmParameters)
    requires DecodeUsmFields(bs) == Some(u)
    ensures UsmReads(bs, u)
  {
    var r1 := ReadOctets(bs).value.1;
    var r2 := ReadInteger(r1).value.1;
    var r3 := ReadInteger(r2).value.1;
    var r4 := ReadOctets(r3).value.1;
    var r5 := ReadOctets(r4).value.1;
    assert r1 == Rest(bs);
    assert r2 == Rest(r1);
    assert r3 == Rest(r2);
    assert r4 == Rest(r3);
    assert r5 == Rest(r4);
    assert Rest(r5) == [];
  }

  lemma DecodedWhenRead(bs: seq<byte>, u: UsmParameters)
    requires UsmReads(bs, u)
    ensures DecodeUsmFields(bs) == Some(u)
  {
  }

  /** Any octets at all decode to `u` exactly when they are its six elements. */
  lemma UsmDecodedExactly(bs: seq<byte>, u: UsmParameters)
    ensures DecodeUsmFields(bs) == Some(u) <==> Split(bs).Some? && UsmSpelled(Split(bs).value, u)
  {
    var r1 := Rest(bs);
    var r2 := Rest(r1);
    if DecodeUsmFields(bs) == Some(u) {
      ReadWhenDecoded(bs, u);
    }
    if UsmReads(bs, u) {
      DecodedWhenRead(bs, u);
    }
    OctetsSplit(bs, u.engineId);
    IntegerSplit(r1, u.boots);
    IntegerSplit(r2, u.time);
    ThreeSplit(Rest(r2), u.userName, u.authParams, u.privParams);
  }

  // ----- Header, message and scoped PDU -----

  /** Message id, maximum size, flags, security model. */
  lemma HeaderOrder(h: Header)
    requires |HeaderFields(h)| < USIZE_LIMIT
    ensures Split(HeaderFields(h)) == Some(Then(2, IntegerOctets(h.messageId), Then(2, IntegerOctets(h.maxSize),
      Then(4, h.flags, Then(2, IntegerOctets(h.securityModel), End)))))
  {
    var s := Integer(h.securityModel);
    var f := Tlv(OCTETS, h.flags) + s;
    var m := Integer(h.maxSize) + f;
    var s' := Then(2, IntegerOctets(h.securityModel), End);
    var f' := Then(4, h.flags, s');
    LastElement(INTEGER, IntegerOctets(h.securityModel));
    FirstElement(OCTETS, h.flags, s, s');
    FirstElement(INTEGER, IntegerOctets(h.maxSize), f, f');
    FirstElement(INTEGER, IntegerOctets(h.messageId), m, Then(2, IntegerOctets(h.maxSize), f'));
  }

  predicate HeaderSpelled(es: Elements, h: Header) {
    && Denotes(es, h.messageId) && Denotes(es.next, h.maxSize) && Octets(es.next.next, h.flags)
    && Denotes(es.next.next.next, h.securityModel) && es.next.next.next.next == End
  }

  lemma HeaderReads(bs: seq<byte>, h: Header)
    requires DecodeHeader(bs) == Some(h)
    ensures
      var r1, r2, r3 := Rest(bs), Rest(Rest(bs)), Rest(Rest(Rest(bs)));
      && ReadInteger(bs) == Some((h.messageId, r1)) && ReadInteger(r1) == Some((h.maxSize, r2))
      && ReadOctets(r2) == Some((h.flags, r3)) && ReadInteger(r3) == Some((h.securityModel, [])) && Rest(r3) == []
  {
    var r1 := ReadInteger(bs).value.1;
    var r2 := ReadInteger(r1).value.1;
    var r3 := ReadOctets(r2).value.1;
    assert r1 == Rest(bs);
    assert r2 == Rest(r1);
    assert r3 == Rest(r2);
    assert Rest(r3) == [];
  }

  /** Any octets at all decode to `h` exactly when they are its four elements. */
  lemma HeaderDecodedExactly(bs: seq<byte>, h: Header)
    ensures DecodeHeader(bs) == Some(h) <==> Split(bs).Some? && HeaderSpelled(Split(bs).value, h)
  {
    var r1, r2, r3 := Rest(bs), Rest(Rest(bs)), Rest(Rest(Rest(bs)));
    IntegerSplit(bs, h.messageId);
    IntegerSplit(r1, h.maxSize);
    OctetsSplit(r2, h.flags);
    IntegerSplit(r3, h.securityModel);
    EndSplit(Rest(r3));
    if DecodeHeader(bs) == Some(h) {
      HeaderReads(bs, h);
    }
    if Split(bs).Some? && HeaderSpelled(Split(bs).value, h) {
      assert ReadInteger(bs) == Some((h.messageId, r1));
      assert ReadInteger(r1) == Some((h.maxSize, r2));
      assert ReadOctets(r2) == Some((h.flags, r3));
      assert ReadInteger(r3) == Some((h.securityModel, []));
    }
  }

  /** Version, header, security parameters, and the scoped PDU: a SEQUENCE in the
      clear or an OCTET STRING encrypted. */
  lemma MessageOrder(codec: PduCodec, m: Message, tag: byte, data: seq<byte>)
    requires |EncodeMessage(codec, m)| < USIZE_LIMIT
    requires match m.data
      case Encrypted(octets) => tag == 4 && data == octets
      case Cleartext(s) => tag == 0x30 && data == Tlv(4, s.engineId) + (Tlv(4, s.name) + codec.encode(s.data))
    ensures Split(MessageFields(codec, m)) == Some(Then(2, IntegerOctets(m.version),
      Then(0x30, HeaderFields(m.header), Then(4, m.security, Then(tag, data, End)))))
  {
    var d := EncodeData(codec, m.data);
    var s := Tlv(OCTETS, m.security) + d;
    var h := Tlv(SEQUENCE, HeaderFields(m.header)) + s;
    var s' := Then(4, m.security, Then(tag, data, End));
    assert d == Tlv(tag, data);
    LastElement(tag, data);
    FirstElement(OCTETS, m.security, d, s'.next);
    FirstElement(SEQUENCE, HeaderFields(m.header), s, s');
    FirstElement(INTEGER, IntegerOctets(m.version), h, Then(0x30, HeaderFields(m.header), s'));
  }
}
