/** The SNMPv3 message envelope and its USM parameters on the wire (RFC 3412
    section 6, RFC 3414 section 2.4), and the version peek that routes datagrams
    (mock-snmp-agent/src/main.rs). The inner PDU codec is a parameter. */
module V3Message {
  import opened Numbers
  import opened Ber
  import opened Snmp

  datatype PduCodec = PduCodec(encode: Pdus -> seq<byte>, decode: seq<byte> -> Option<Pdus>)

  /** The codec carries this PDU faithfully. */
  predicate Carries(codec: PduCodec, pdu: Pdus) {
    codec.decode(codec.encode(pdu)) == Some(pdu)
  }

  datatype ScopedPdu = ScopedPdu(engineId: seq<byte>, name: seq<byte>, data: Pdus)

  datatype ScopedData = Cleartext(scoped: ScopedPdu) | Encrypted(octets: seq<byte>)

  datatype Header = Header(messageId: int, maxSize: int, flags: seq<byte>, securityModel: int)

  datatype Message = Message(version: int, header: Header, security: seq<byte>, data: ScopedData)

  datatype UsmParameters = UsmParameters(
    engineId: seq<byte>, boots: int, time: int, userName: seq<byte>, authParams: seq<byte>, privParams: seq<byte>)

  // ----- Reading fields -----

  function ReadOctets(bs: seq<byte>): (r: Option<(seq<byte>, seq<byte>)>) {
    var e :- ReadTagged(OCTETS, bs);
    Some((e.content, e.rest))
  }

  lemma ReadOctetsBack(content: seq<byte>, rest: seq<byte>)
    requires |content| < USIZE_LIMIT
    ensures ReadOctets(Tlv(OCTETS, content) + rest) == Some((content, rest))
  {
    ReadBack(OCTETS, content, rest);
  }

  // ----- Scoped PDU -----

  function EncodeScoped(codec: PduCodec, s: ScopedPdu): (r: seq<byte>) {
    Tlv(SEQUENCE, Tlv(OCTETS, s.engineId) + (Tlv(OCTETS, s.name) + codec.encode(s.data)))
  }

  function DecodeScopedFields(codec: PduCodec, content: seq<byte>): (r: Option<ScopedPdu>) {
    var (engineId, r1) :- ReadOctets(content);
    var (name, r2) :- ReadOctets(r1);
    var data :- codec.decode(r2);
    Some(ScopedPdu(engineId, name, data))
  }

  function DecodeScoped(codec: PduCodec, bs: seq<byte>): (r: Option<ScopedPdu>) {
    var e :- ReadTagged(SEQUENCE, bs);
    DecodeScopedFields(codec, e.content)
  }

  lemma ScopedFieldsRoundTrip(codec: PduCodec, s: ScopedPdu, rest: seq<byte>)
    requires |EncodeScoped(codec, s)| < USIZE_LIMIT && Carries(codec, s.data)
    ensures
      var e := ReadTlv(EncodeScoped(codec, s) + rest);
      && e.Some? && e.value.tag == SEQUENCE && e.value.rest == rest
      && DecodeScopedFields(codec, e.value.content) == Some(s)
  {
    var pdu := codec.encode(s.data);
    var content := Tlv(OCTETS, s.engineId) + (Tlv(OCTETS, s.name) + pdu);
    ReadBack(SEQUENCE, content, rest);
    ReadOctetsBack(s.engineId, Tlv(OCTETS, s.name) + pdu);
    ReadOctetsBack(s.name, pdu);
  }

  lemma ScopedRoundTrip(codec: PduCodec, s: ScopedPdu)
    requires |EncodeScoped(codec, s)| < USIZE_LIMIT && Carries(codec, s.data)
    ensures DecodeScoped(codec, EncodeScoped(codec, s)) == Some(s)
  {
    ScopedFieldsRoundTrip(codec, s, []);
    assert EncodeScoped(codec, s) + [] == EncodeScoped(codec, s);
  }

  // ----- USM parameters -----

  function UsmFields(u: UsmParameters): (r: seq<byte>) {
    Tlv(OCTETS, u.engineId) + (Integer(u.boots) + (Integer(u.time) + (Tlv(OCTETS, u.userName)
      + (Tlv(OCTETS, u.authParams) + Tlv(OCTETS, u.privParams)))))
  }

  function EncodeUsm(u: UsmParameters): (r: seq<byte>) {
    Tlv(SEQUENCE, UsmFields(u))
  }

  function DecodeUsmFields(content: seq<byte>): (r: Option<UsmParameters>) {
    var (engineId, r1) :- ReadOctets(content);
    var (boots, r2) :- ReadInteger(r1);
    var (time, r3) :- ReadInteger(r2);
    var (userName, r4) :- ReadOctets(r3);
    var (authParams, r5) :- ReadOctets(r4);
    var (privParams, r6) :- ReadOctets(r5);
    if r6 == [] then Some(UsmParameters(engineId, boots, time, userName, authParams, privParams)) else None
  }

  function DecodeUsm(bs: seq<byte>): (r: Option<UsmParameters>) {
    var e :- ReadTagged(SEQUENCE, bs);
    DecodeUsmFields(e.content)
  }

  lemma UsmRoundTrip(u: UsmParameters)
    requires |EncodeUsm(u)| < USIZE_LIMIT
    ensures DecodeUsm(EncodeUsm(u)) == Some(u)
  {
    var p := Tlv(OCTETS, u.privParams);
    var a := Tlv(OCTETS, u.authParams) + p;
    var n := Tlv(OCTETS, u.userName) + a;
    var t := Integer(u.time) + n;
    var b := Integer(u.boots) + t;
    ReadBack(SEQUENCE, UsmFields(u), []);
    assert EncodeUsm(u) + [] == EncodeUsm(u);
    ReadOctetsBack(u.engineId, b);
    ReadIntegerBack(u.boots, t);
    ReadIntegerBack(u.time, n);
    ReadOctetsBack(u.userName, a);
    ReadOctetsBack(u.authParams, p);
    ReadOctetsBack(u.privParams, []);
    assert p + [] == p;
  }

  // ----- Message -----

  function HeaderFields(h: Header): (r: seq<byte>) {
    Integer(h.messageId) + (Integer(h.maxSize) + (Tlv(OCTETS, h.flags) + Integer(h.securityModel)))
  }

  function DecodeHeader(content: seq<byte>): (r: Option<Header>) {
    var (messageId, r1) :- ReadInteger(content);
    var (maxSize, r2) :- ReadInteger(r1);
    var (flags, r3) :- ReadOctets(r2);
    var (securityModel, r4) :- ReadInteger(r3);
    if r4 == [] then Some(Header(messageId, maxSize, flags, securityModel)) else None
  }

  lemma HeaderRoundTrip(h: Header)
    requires |HeaderFields(h)| < USIZE_LIMIT
    ensures DecodeHeader(HeaderFields(h)) == Some(h)
  {
    var s := Integer(h.securityModel);
    var f := Tlv(OCTETS, h.flags) + s;
    var m := Integer(h.maxSize) + f;
    ReadIntegerBack(h.messageId, m);
    ReadIntegerBack(h.maxSize, f);
    ReadOctetsBack(h.flags, s);
    ReadIntegerBack(h.securityModel, []);
    assert s + [] == s;
  }

  function EncodeData(codec: PduCodec, d: ScopedData): (r: seq<byte>) {
    match d
    case Cleartext(scoped) => EncodeScoped(codec, scoped)
    case Encrypted(octets) => Tlv(OCTETS, octets)
  }

  function DecodeData(codec: PduCodec, bs: seq<byte>): (r: Option<ScopedData>) {
    var e :- ReadTlv(bs);
    if e.rest != [] then None
    else if e.tag == OCTETS then Some(Encrypted(e.content))
    else if e.tag == SEQUENCE then
      var scoped :- DecodeScopedFields(codec, e.content);
      Some(Cleartext(scoped))
    else None
  }

  predicate DataCarried(codec: PduCodec, d: ScopedData) {
    d.Cleartext? ==> Carries(codec, d.scoped.data)
  }

  lemma DataRoundTrip(codec: PduCodec, d: ScopedData)
    requires |EncodeData(codec, d)| < USIZE_LIMIT && DataCarried(codec, d)
    ensures DecodeData(codec, EncodeData(codec, d)) == Some(d)
  {
    assert EncodeData(codec, d) + [] == EncodeData(codec, d);
    match d
    case Cleartext(scoped) => ScopedFieldsRoundTrip(codec, scoped, []);
    case Encrypted(octets) => ReadBack(OCTETS, octets, []);
  }

  function MessageFields(codec: PduCodec, m: Message): (r: seq<byte>) {
    Integer(m.version) + (Tlv(SEQUENCE, HeaderFields(m.header)) + (Tlv(OCTETS, m.security) + EncodeData(codec, m.data)))
  }

  function EncodeMessage(codec: PduCodec, m: Message): (r: seq<byte>) {
    Tlv(SEQUENCE, MessageFields(codec, m))
  }

  /** Bytes after the outermost element are ignored. */
  function DecodeMessage(codec: PduCodec, bs: seq<byte>): (r: Option<Message>) {
    var e :- ReadTagged(SEQUENCE, bs);
    var (version, r1) :- ReadInteger(e.content);
    var h :- ReadTagged(SEQUENCE, r1);
    var header :- DecodeHeader(h.content);
    var (security, r2) :- ReadOctets(h.rest);
    var data :- DecodeData(codec, r2);
    Some(Message(version, header, security, data))
  }

  /** Every message decodes from its encoding, whatever bytes follow it. */
  lemma MessageRoundTrip(codec: PduCodec, m: Message, trailing: seq<byte>)
    requires |EncodeMessage(codec, m)| < USIZE_LIMIT && DataCarried(codec, m.data)
    ensures DecodeMessage(codec, EncodeMessage(codec, m) + trailing) == Some(m)
  {
    var d := EncodeData(codec, m.data);
    var s := Tlv(OCTETS, m.security) + d;
    var h := Tlv(SEQUENCE, HeaderFields(m.header)) + s;
    ReadBack(SEQUENCE, MessageFields(codec, m), trailing);
    ReadIntegerBack(m.version, h);
    ReadBack(SEQUENCE, HeaderFields(m.header), s);
    HeaderRoundTrip(m.header);
    ReadOctetsBack(m.security, d);
    DataRoundTrip(codec, m.data);
  }

  // ----- Version peek -----

  /** `peek_snmp_version`. */
  function PeekVersion(datagram: seq<byte>): (r: Option<byte>) {
    if |datagram| == 0 || datagram[0] != 0x30 || |datagram| < 2 then None
    else
      var headerLen := if datagram[1] < 0x80 then 2 else 2 + datagram[1] % 128;
      if headerLen + 2 >= |datagram| || datagram[headerLen] != 0x02 || datagram[headerLen + 1] != 0x01 then None
      else Some(datagram[headerLen + 2])
  }

  lemma IntegerStart(n: int)
    requires |IntegerOctets(n)| < USIZE_LIMIT
    ensures |Integer(n)| >= 3 && Integer(n)[0] == 0x02
    ensures Integer(n)[1] == 0x01 <==> -128 <= n < 128
    ensures -128 <= n < 128 ==> Integer(n)[2] == n % 256
  {
    LengthOctetsFit(|IntegerOctets(n)|);
  }

  lemma PeekSkipsHead(content: seq<byte>, trailing: seq<byte>)
    requires 3 <= |content| < USIZE_LIMIT
    ensures PeekVersion(Tlv(SEQUENCE, content) + trailing) ==
            if content[0] == 0x02 && content[1] == 0x01 then Some(content[2]) else None
  {
    var head := Head(SEQUENCE, |content|);
    var k := |head|;
    var bs := Tlv(SEQUENCE, content) + trailing;
    LengthOctetsFit(|content|);
    assert bs[0] == head[0] && bs[1] == head[1];
    assert k == if bs[1] < 0x80 then 2 else 2 + bs[1] % 128;
    assert bs[k] == content[0] && bs[k + 1] == content[1] && bs[k + 2] == content[2];
  }

  /** For every encoded message, short or long form, the peek finds exactly the
      version when it fits one octet and nothing otherwise; so a datagram is
      routed to v3 if and only if its version is 3. */
  lemma PeekFindsVersion(codec: PduCodec, m: Message, trailing: seq<byte>)
    requires |EncodeMessage(codec, m)| < USIZE_LIMIT
    ensures PeekVersion(EncodeMessage(codec, m) + trailing) ==
            if -128 <= m.version < 128 then Some(m.version % 256) else None
    ensures PeekVersion(EncodeMessage(codec, m) + trailing) == Some(3) <==> m.version == 3
  {
    var fields := MessageFields(codec, m);
    PeekSkipsHead(fields, trailing);
    IntegerStart(m.version);
    var v := Integer(m.version);
    assert fields[0] == v[0] && fields[1] == v[1] && fields[2] == v[2];
  }
}
