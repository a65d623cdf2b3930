/** What the agent does with each SNMPv3 request, by the octets of the request
    alone (mock-snmp-agent/src/v3.rs): which flag asks for what, and which check
    drops what. */
module V3Decisions {
  import opened Numbers
  import opened AuthTag
  import opened ByteSearch
  import opened Control
  import opened Snmp
  import opened Usm
  import opened Utf8
  import opened V3Message
  import opened AuthPlacement
  import opened V3Agent

  // ----- The request's octets -----

  /** The datagram decodes to this message and these parameters. */
  predicate Decodes(p: Primitives, datagram: seq<byte>, m: Message, u: UsmParameters) {
    DecodeMessage(p.codec, datagram) == Some(m) && DecodeUsm(m.security) == Some(u)
  }

  /** The first flags octet is there and has its lowest bit set: authFlag. */
  predicate AuthFlag(h: Header) {
    h.flags != [] && h.flags[0] % 2 == 1
  }

  /** It has its second lowest bit set: privFlag. */
  predicate PrivFlag(h: Header) {
    h.flags != [] && (h.flags[0] % 4 == 2 || h.flags[0] % 4 == 3)
  }

  /** The registered user named: the octets themselves if they are UTF-8, else
      the empty name. */
  predicate NamesUser(e: Engine, u: UsmParameters, user: UsmUser) {
    if ValidUtf8(u.userName) then u.userName in e.users && user == e.users[u.userName]
    else [] in e.users && user == e.users[[]]
  }

  predicate NamesNobody(e: Engine, u: UsmParameters) {
    (if ValidUtf8(u.userName) then u.userName else []) !in e.users
  }

  /** The request carries the scoped PDU: in the clear, or encrypted under the
      user's key, the clock it states (an unrepresentable one counts as 0) and
      its eight salt octets. */
  predicate Contains(p: Primitives, m: Message, u: UsmParameters, user: UsmUser, scoped: Option<ScopedPdu>) {
    match m.data
    case Cleartext(s) => scoped == Some(s)
    case Encrypted(ct) =>
      && |u.privParams| >= 8
      && var boots: u32 := if 0 <= u.boots < 0x1_0000_0000 then u.boots else 0;
         var time: u32 := if 0 <= u.time < 0x1_0000_0000 then u.time else 0;
         scoped == DecodeScoped(p.codec, Decrypt(p.cipher, user.privKey, boots, time, u.privParams, ct))
  }

  lemma FlagsAre(h: Header)
    ensures WantsAuth(h) <==> AuthFlag(h)
    ensures WantsPriv(h) <==> PrivFlag(h)
  {
  }

  lemma UserIs(e: Engine, u: UsmParameters, user: UsmUser)
    requires NamesUser(e, u, user)
    ensures LookupName(u.userName) in e.users && e.users[LookupName(u.userName)] == user
  {
  }

  // ----- Dropped requests -----

  /** Undecodable datagrams, other engines' and unknown users' requests draw nothing. */
  lemma Strangers(p: Primitives, e: Engine, values: Values, datagram: seq<byte>, m: Message, u: UsmParameters,
                  salt: seq<byte>)
    requires |salt| == 8
    ensures DecodeMessage(p.codec, datagram) == None ==>
              Handle(p, e, values, datagram, salt) == Dropped(NotDecodable)
    ensures DecodeMessage(p.codec, datagram) == Some(m) && DecodeUsm(m.security) == None ==>
              Handle(p, e, values, datagram, salt) == Dropped(ParametersNotDecodable)
    ensures Decodes(p, datagram, m, u) && u.engineId != [] && u.engineId != e.engineId ==>
              Handle(p, e, values, datagram, salt) == Dropped(EngineMismatch)
    ensures Decodes(p, datagram, m, u) && u.engineId != [] && u.engineId == e.engineId && NamesNobody(e, u) ==>
              Handle(p, e, values, datagram, salt) == Dropped(UnknownUser)
  {
  }

  /** A request with authFlag set draws a reply only if its tag is the MAC, under
      the named user's key, of the datagram with the tag's octets zeroed. */
  lemma ForgedIsDropped(p: Primitives, e: Engine, values: Values, datagram: seq<byte>, m: Message, u: UsmParameters,
                        user: UsmUser, salt: seq<byte>)
    requires |salt| == 8 && Decodes(p, datagram, m, u) && u.engineId == e.engineId != [] && NamesUser(e, u, user)
    requires m.header.flags != [] && m.header.flags[0] % 2 == 1
    ensures !Authentic(p.hmac, datagram, u.authParams, user.authKey) ==>
              Handle(p, e, values, datagram, salt) == Dropped(NotAuthentic)
  {
    FlagsAre(m.header);
    UserIs(e, u, user);
    AcceptanceMeansMac(p.hmac, datagram, u.authParams, user.authKey);
  }

  /** Encrypted data without privFlag is dropped, as is a salt too short to use. */
  lemma UnflaggedCiphertextIsDropped(p: Primitives, e: Engine, values: Values, datagram: seq<byte>, m: Message,
                                     u: UsmParameters, user: UsmUser, salt: seq<byte>)
    requires |salt| == 8 && Decodes(p, datagram, m, u) && u.engineId == e.engineId != [] && NamesUser(e, u, user)
    requires AuthFlag(m.header) ==> Authentic(p.hmac, datagram, u.authParams, user.authKey)
    requires m.data.Encrypted?
    ensures m.header.flags == [] || m.header.flags[0] / 2 % 2 == 0 ==>
              Handle(p, e, values, datagram, salt) == Dropped(PrivacyOff)
    ensures m.header.flags != [] && m.header.flags[0] / 2 % 2 == 1 && |u.privParams| < 8 ==>
              Handle(p, e, values, datagram, salt) == Dropped(SaltTooShort)
  {
    FlagsAre(m.header);
    UserIs(e, u, user);
    AcceptanceMeansMac(p.hmac, datagram, u.authParams, user.authKey);
  }

  // ----- Answered requests -----

  /** An authentic or unflagged request whose data may be opened is answered if it
      contains a Get or GetNext, and dropped otherwise. */
  lemma OpenedIsAnswered(p: Primitives, e: Engine, values: Values, datagram: seq<byte>, m: Message, u: UsmParameters,
                         user: UsmUser, scoped: Option<ScopedPdu>, salt: seq<byte>)
    requires |salt| == 8 && Decodes(p, datagram, m, u) && u.engineId == e.engineId != [] && NamesUser(e, u, user)
    requires AuthFlag(m.header) ==> Authentic(p.hmac, datagram, u.authParams, user.authKey)
    requires (m.data.Encrypted? ==> PrivFlag(m.header)) && Contains(p, m, u, user, scoped)
    ensures Handle(p, e, values, datagram, salt) ==
      if scoped.None? then Dropped(ScopedNotDecodable)
      else if !scoped.value.data.GetRequest? && !scoped.value.data.GetNextRequest? then Dropped(UnsupportedPdu)
      else ReplyWith(p, e, m, u, user, scoped.value,
                     Respond(values, scoped.value.data.pdu, scoped.value.data.GetNextRequest?), salt)
  {
    FlagsAre(m.header);
    UserIs(e, u, user);
    AcceptanceMeansMac(p.hmac, datagram, u.authParams, user.authKey);
  }

  /** The reply answers in kind: the request's version, ids and name, the agent's
      engine and clock, encrypted with the salt if and only if privFlag was set,
      and always signed. */
  lemma RepliesInKind(p: Primitives, e: Engine, m: Message, u: UsmParameters, user: UsmUser, scoped: ScopedPdu,
                      response: Pdu, salt: seq<byte>)
    requires |salt| == 8
    ensures
      var priv := m.header.flags != [] && m.header.flags[0] / 2 % 2 == 1;
      var out := ScopedPdu(e.engineId, scoped.name, Response(response));
      var data :=
        if priv then Encrypted(Encrypt(p.cipher, user.privKey, e.boots, e.time, salt, EncodeScoped(p.codec, out)))
        else Cleartext(out);
      var r := Message(m.version, Header(m.header.messageId, m.header.maxSize, [if priv then 3 else 1], 3), [], data);
      var v := UsmParameters(e.engineId, e.boots, e.time, u.userName, Zeros(24), if priv then salt else []);
      Unsigned(v) && ReplyWith(p, e, m, u, user, scoped, response, salt) == Reply(SignedWire(p, r, v, user.authKey))
  {
    FlagsAre(m.header);
  }

  lemma ReplyIgnoresTag(p: Primitives, e: Engine, values: Values, m1: Message, m2: Message, u: UsmParameters,
                        tag: seq<byte>, user: UsmUser, scoped: ScopedPdu, salt: seq<byte>)
    requires |salt| == 8 && m2 == m1.(security := m2.security)
    ensures ReplyTo(p, e, values, m1, u, user, scoped, salt) ==
              ReplyTo(p, e, values, m2, u.(authParams := tag), user, scoped, salt)
  {
  }

  lemma OpeningIgnoresTag(p: Primitives, m1: Message, m2: Message, u: UsmParameters, tag: seq<byte>, user: UsmUser)
    requires m2 == m1.(security := m2.security)
    ensures OpenScoped(p, m1, u, user) == OpenScoped(p, m2, u.(authParams := tag), user)
  {
  }

  lemma DecodedIgnoresTag(p: Primitives, e: Engine, values: Values, d1: seq<byte>, d2: seq<byte>,
                          m1: Message, m2: Message, u: UsmParameters, tag: seq<byte>, salt: seq<byte>)
    requires |salt| == 8 && m2 == m1.(security := m2.security) && !WantsAuth(m1.header)
    ensures HandleDecoded(p, e, values, d1, m1, u, salt) ==
              HandleDecoded(p, e, values, d2, m2, u.(authParams := tag), salt)
  {
    if u.engineId == e.engineId != [] && LookupName(u.userName) in e.users {
      var user := e.users[LookupName(u.userName)];
      OpeningIgnoresTag(p, m1, m2, u, tag, user);
      var scoped := OpenScoped(p, m1, u, user).0;
      if scoped.Some? {
        ReplyIgnoresTag(p, e, values, m1, m2, u, tag, user, scoped.value, salt);
      }
    }
  }

  /** Without authFlag the tag plays no part: two datagrams that differ in it alone
      draw the same outcome. */
  lemma UnflaggedTagIsIgnored(p: Primitives, e: Engine, values: Values, d1: seq<byte>, d2: seq<byte>,
                              m1: Message, m2: Message, u: UsmParameters, tag: seq<byte>, salt: seq<byte>)
    requires |salt| == 8 && Decodes(p, d1, m1, u) && Decodes(p, d2, m2, u.(authParams := tag))
    requires m2 == m1.(security := m2.security)
    requires m1.header.flags == [] || m1.header.flags[0] % 2 == 0
    ensures Handle(p, e, values, d1, salt) == Handle(p, e, values, d2, salt)
  {
    FlagsAre(m1.header);
    DecodedIgnoresTag(p, e, values, d1, d2, m1, m2, u, tag, salt);
  }
}
