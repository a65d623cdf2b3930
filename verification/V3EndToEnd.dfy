/** Sealed requests against the SNMPv3 agent, end to end: what a client seals is
    routed, authenticated, opened and answered, and the sealed answer opens to
    exactly the response (mock-snmp-agent/src/v3.rs, main.rs). */
module V3EndToEnd {
  import opened Numbers
  import opened ByteSearch
  import opened AuthTag
  import opened Usm
  import opened Ber
  import opened Control
  import opened Snmp
  import opened V3Message
  import opened AuthPlacement
  import opened FieldMimicry
  import opened MisplacedTag
  import opened V3Agent
  import opened Utf8

  // ----- The client side -----

  /** What the sender of a sealed message chooses besides the scoped PDU. Boots and
      time are those the client last heard; the agent does not compare them. */
  datatype Envelope = Envelope(messageId: int, maxSize: int, flags: byte, boots: u32, time: u32, salt: seq<byte>)

  /** The flags ask for authentication, and the salt has eight bytes. */
  predicate WellFormed(env: Envelope) {
    env.flags % 2 == 1 && |env.salt| == 8
  }

  function Private(env: Envelope): (r: bool) {
    env.flags / 2 % 2 == 1
  }

  function SealedMessage(p: Primitives, user: UsmUser, env: Envelope, scoped: ScopedPdu): (r: Message)
    requires WellFormed(env)
  {
    var data :=
      if !Private(env) then Cleartext(scoped)
      else
        var plaintext := EncodeScoped(p.codec, scoped);
        Encrypted(Encrypt(p.cipher, user.privKey, env.boots, env.time, env.salt, plaintext));
    Message(3, Header(env.messageId, env.maxSize, [env.flags], 3), [], data)
  }

  function SealedUsm(engineId: seq<byte>, userName: seq<byte>, env: Envelope): (r: UsmParameters) {
    UsmParameters(engineId, env.boots, env.time, userName, Zeros(AUTH_TRUNC_LEN), if Private(env) then env.salt else [])
  }

  /** The message encoded a second time, with the MAC of its zero-tagged encoding. */
  function Tagged(p: Primitives, m: Message, u: UsmParameters, key: seq<byte>): (r: seq<byte>) {
    Wire(p.codec, m, u.(authParams := Mac(p.hmac, key, Wire(p.codec, m, u))))
  }

  /** `make_authpriv_request`, for any user, envelope and scoped PDU. */
  function Seal(p: Primitives, engineId: seq<byte>, userName: seq<byte>, user: UsmUser, env: Envelope,
                scoped: ScopedPdu): (r: seq<byte>)
    requires WellFormed(env)
  {
    Tagged(p, SealedMessage(p, user, env, scoped), SealedUsm(engineId, userName, env), user.authKey)
  }

  /** Decode, verify and decrypt. */
  ghost function Open(p: Primitives, user: UsmUser, datagram: seq<byte>): (r: Option<ScopedPdu>) {
    var m :- DecodeMessage(p.codec, datagram);
    var u :- DecodeUsm(m.security);
    if !Verifies(p.hmac, datagram, u.authParams, user.authKey) then None
    else OpenScoped(p, m, u, user).0
  }

  /** `04 18 tag` does not stand before the message's own field. */
  ghost predicate TagUnseen(p: Primitives, m: Message, u: UsmParameters, key: seq<byte>) {
    var tag := Mac(p.hmac, key, Wire(p.codec, m, u));
    forall q | 0 <= q < |AuthPrefix(p.codec, m, u)| :: !At(Tagged(p, m, u, key), Needle(tag), q)
  }

  // ----- Tagged messages -----

  lemma TaggedDecodes(p: Primitives, m: Message, u: UsmParameters, key: seq<byte>)
    requires Unsigned(u) && |Wire(p.codec, m, u)| < USIZE_LIMIT && DataCarried(p.codec, m.data)
    ensures
      var v := u.(authParams := Mac(p.hmac, key, Wire(p.codec, m, u)));
      && DecodeMessage(p.codec, Tagged(p, m, u, key)) == Some(m.(security := EncodeUsm(v)))
      && DecodeUsm(EncodeUsm(v)) == Some(v)
  {
    var tag := Mac(p.hmac, key, Wire(p.codec, m, u));
    var v := u.(authParams := tag);
    SpliceAtField(p.codec, m, u, tag);
    WireFits(p.codec, m, v);
    MessageRoundTrip(p.codec, m.(security := EncodeUsm(v)), []);
    assert Wire(p.codec, m, v) + [] == Wire(p.codec, m, v);
    UsmRoundTrip(v);
  }

  lemma TaggedIsRouted(p: Primitives, m: Message, u: UsmParameters, key: seq<byte>)
    requires Unsigned(u) && |Wire(p.codec, m, u)| < USIZE_LIMIT && m.version == 3
    ensures PeekVersion(Tagged(p, m, u, key)) == Some(3)
  {
    var tag := Mac(p.hmac, key, Wire(p.codec, m, u));
    var sent := m.(security := EncodeUsm(u.(authParams := tag)));
    SpliceAtField(p.codec, m, u, tag);
    PeekFindsVersion(p.codec, sent, []);
    assert EncodeMessage(p.codec, sent) + [] == EncodeMessage(p.codec, sent);
  }

  lemma RetaggedVerifies(hmac: Hmac, wire: seq<byte>, tagged: seq<byte>, n: nat, key: seq<byte>)
    requires Retagged(wire, tagged, n, Mac(hmac, key, wire))
    requires forall q | 0 <= q < n :: !At(tagged, Needle(Mac(hmac, key, wire)), q)
    ensures Verifies(hmac, tagged, Mac(hmac, key, wire), key)
  {
    FirstMatchIs(tagged, Needle(Mac(hmac, key, wire)), n);
    SpliceBack(wire, n, Mac(hmac, key, wire));
  }

  lemma TaggedVerifies(p: Primitives, m: Message, u: UsmParameters, key: seq<byte>)
    requires Unsigned(u) && TagUnseen(p, m, u, key)
    ensures Verifies(p.hmac, Tagged(p, m, u, key), Mac(p.hmac, key, Wire(p.codec, m, u)), key)
  {
    var wire := Wire(p.codec, m, u);
    SpliceAtField(p.codec, m, u, Mac(p.hmac, key, wire));
    RetaggedVerifies(p.hmac, wire, Tagged(p, m, u, key), |AuthPrefix(p.codec, m, u)|, key);
  }

  /** The agent's search-and-splice reply is the tagged message. */
  lemma SignedIsTagged(p: Primitives, m: Message, u: UsmParameters, key: seq<byte>)
    requires |Wire(p.codec, m, u)| < USIZE_LIMIT && ReplyShaped(m, u) && Unsigned(u) && !Mimics(m, u)
    ensures SignedWire(p, m, u, key) == Tagged(p, m, u, key)
  {
    var tag := Mac(p.hmac, key, Wire(p.codec, m, u));
    SearchFindsField(p.codec, m, u);
    SpliceAtField(p.codec, m, u, tag);
    SignedAtFirst(p.hmac, Wire(p.codec, m, u), Tagged(p, m, u, key), |AuthPrefix(p.codec, m, u)|, key);
  }

  // ----- Sealing and opening -----

  /** What a sealed message must satisfy to travel: its scoped PDU survives the
      codec, it fits in memory, and its tag is not seen early. */
  ghost predicate Travels(p: Primitives, engineId: seq<byte>, userName: seq<byte>, user: UsmUser, env: Envelope,
                          scoped: ScopedPdu)
  {
    && WellFormed(env)
    && Carries(p.codec, scoped.data)
    && |Wire(p.codec, SealedMessage(p, user, env, scoped), SealedUsm(engineId, userName, env))| < USIZE_LIMIT
    && TagUnseen(p, SealedMessage(p, user, env, scoped), SealedUsm(engineId, userName, env), user.authKey)
  }

  /** The plaintext of a sealed message comes back, encrypted or not. */
  lemma SealedOpensScoped(p: Primitives, engineId: seq<byte>, userName: seq<byte>, user: UsmUser, env: Envelope,
                          scoped: ScopedPdu,
                          m: Message, u: UsmParameters)
    requires Travels(p, engineId, userName, user, env, scoped)
    requires m.header.flags == [env.flags] && m.data == SealedMessage(p, user, env, scoped).data
    requires u.boots == env.boots && u.time == env.time && (Private(env) ==> u.privParams == env.salt)
    ensures OpenScoped(p, m, u, user).0 == Some(scoped)
  {
    if Private(env) {
      var sealed := SealedMessage(p, user, env, scoped);
      WireFits(p.codec, sealed, SealedUsm(engineId, userName, env));
      EncryptRoundTrip(p.cipher, user.privKey, env.boots, env.time, env.salt, EncodeScoped(p.codec, scoped));
      assert |EncodeScoped(p.codec, scoped)| <= |EncodeData(p.codec, sealed.data)|;
      ScopedRoundTrip(p.codec, scoped);
    }
  }

  /** The agent's view of a sealed datagram: it decodes, verifies and opens. */
  lemma SealedIsAccepted(p: Primitives, engineId: seq<byte>, userName: seq<byte>, user: UsmUser, env: Envelope,
                         scoped: ScopedPdu)
    requires Travels(p, engineId, userName, user, env, scoped)
    ensures
      var datagram := Seal(p, engineId, userName, user, env, scoped);
      var m := DecodeMessage(p.codec, datagram);
      && PeekVersion(datagram) == Some(3)
      && m.Some? && m.value.version == 3
      && m.value.header == Header(env.messageId, env.maxSize, [env.flags], 3)
      && var u := DecodeUsm(m.value.security);
      && u.Some? && u.value.engineId == engineId && u.value.userName == userName
      && Verifies(p.hmac, datagram, u.value.authParams, user.authKey)
      && OpenScoped(p, m.value, u.value, user).0 == Some(scoped)
  {
    var m, u := SealedMessage(p, user, env, scoped), SealedUsm(engineId, userName, env);
    var v := u.(authParams := Mac(p.hmac, user.authKey, Wire(p.codec, m, u)));
    var sent := m.(security := EncodeUsm(v));
    TaggedDecodes(p, m, u, user.authKey);
    TaggedVerifies(p, m, u, user.authKey);
    SealedOpensScoped(p, engineId, userName, user, env, scoped, sent, v);
    TaggedIsRouted(p, m, u, user.authKey);
  }

  /** Opening undoes sealing. */
  lemma OpenUndoesSeal(p: Primitives, engineId: seq<byte>, userName: seq<byte>, user: UsmUser, env: Envelope,
                       scoped: ScopedPdu)
    requires Travels(p, engineId, userName, user, env, scoped)
    ensures Open(p, user, Seal(p, engineId, userName, user, env, scoped)) == Some(scoped)
  {
    SealedIsAccepted(p, engineId, userName, user, env, scoped);
  }

  // ----- End to end -----

  /** The envelope of the agent's reply: the request's id and size, the agent's own
      clock and salt, and no reportable bit. */
  function ReplyEnvelopeOf(e: Engine, env: Envelope, salt: seq<byte>): (r: Envelope)
    requires |salt| == 8
    ensures WellFormed(r) && Private(r) == Private(env)
  {
    Envelope(env.messageId, env.maxSize, if Private(env) then 3 else 1, e.boots, e.time, salt)
  }

  /** The response a Get or GetNext must carry back. */
  ghost function Expected(e: Engine, values: Values, scoped: ScopedPdu): (r: ScopedPdu) {
    ScopedPdu(e.engineId, scoped.name, Response(Respond(values, scoped.data.pdu, scoped.data.GetNextRequest?)))
  }

  /** The reply the agent builds is the sealed response. */
  lemma ReplyIsSealed(p: Primitives, e: Engine, values: Values, m: Message, u: UsmParameters, user: UsmUser,
                      env: Envelope, scoped: ScopedPdu, salt: seq<byte>)
    requires WellFormed(env) && |salt| == 8 && Answerable(scoped.data)
    requires m.version == 3 && m.header == Header(env.messageId, env.maxSize, [env.flags], 3)
    requires Travels(p, e.engineId, u.userName, user, ReplyEnvelopeOf(e, env, salt), Expected(e, values, scoped))
    requires !Mimics(m, SealedUsm(e.engineId, u.userName, ReplyEnvelopeOf(e, env, salt)))
    ensures ReplyTo(p, e, values, m, u, user, scoped, salt)
         == Reply(Seal(p, e.engineId, u.userName, user, ReplyEnvelopeOf(e, env, salt), Expected(e, values, scoped)))
  {
    var out := ReplyEnvelopeOf(e, env, salt);
    var reply := ReplyMessage(p, e, m, user, Expected(e, values, scoped), Private(env), salt);
    assert reply == SealedMessage(p, user, out, Expected(e, values, scoped));
    assert ReplyUsm(e, u.userName, Private(env), salt) == SealedUsm(e.engineId, u.userName, out);
    SignedIsTagged(p, reply, SealedUsm(e.engineId, u.userName, out), user.authKey);
  }

  /** End to end: a Get or GetNext sealed for a registered user, under any
      envelope, is routed to v3 and answered, and the answer opens to exactly the
      response `build_response` computes from the map of that moment. Assumed: the
      codec carries the two PDUs, neither tag is seen before its own field, and no
      copied field of the reply mimics the placeholder. */
  lemma EndToEnd(p: Primitives, e: Engine, values: Values, userName: seq<byte>, env: Envelope, scoped: ScopedPdu,
                 salt: seq<byte>)
    requires e.engineId != [] && ValidUtf8(userName) && userName in e.users && |salt| == 8
    requires Answerable(scoped.data)
    requires Travels(p, e.engineId, userName, e.users[userName], env, scoped)
    requires Travels(p, e.engineId, userName, e.users[userName], ReplyEnvelopeOf(e, env, salt),
                     Expected(e, values, scoped))
    requires !Mimics(SealedMessage(p, e.users[userName], env, scoped),
                     SealedUsm(e.engineId, userName, ReplyEnvelopeOf(e, env, salt)))
    ensures
      var datagram := Seal(p, e.engineId, userName, e.users[userName], env, scoped);
      var outcome := Handle(p, e, values, datagram, salt);
      && PeekVersion(datagram) == Some(3)
      && outcome.Reply?
      && Open(p, e.users[userName], outcome.bytes) == Some(Expected(e, values, scoped))
  {
    var user := e.users[userName];
    var datagram := Seal(p, e.engineId, userName, user, env, scoped);
    var out := ReplyEnvelopeOf(e, env, salt);
    SealedIsAccepted(p, e.engineId, userName, user, env, scoped);
    var m := DecodeMessage(p.codec, datagram).value;
    var u := DecodeUsm(m.security).value;
    assert Mimics(m, SealedUsm(e.engineId, userName, out))
        == Mimics(SealedMessage(p, user, env, scoped), SealedUsm(e.engineId, userName, out));
    ReplyIsSealed(p, e, values, m, u, user, env, scoped, salt);
    OpenUndoesSeal(p, e.engineId, userName, user, out, Expected(e, values, scoped));
  }

  // ----- When a copied field mimics the placeholder -----

  /** A zero tag verifies only if it is the MAC of the datagram itself. */
  lemma ZeroTagVerifies(hmac: Hmac, raw: seq<byte>, key: seq<byte>)
    requires Verifies(hmac, raw, Zeros(AUTH_TRUNC_LEN), key)
    ensures Mac(hmac, key, raw) == Zeros(AUTH_TRUNC_LEN)
  {
    SplicedZeros(raw, FirstMatch(raw, ZeroNeedle()).value);
  }

  lemma WireDecodes(codec: PduCodec, m: Message, u: UsmParameters)
    requires |Wire(codec, m, u)| < USIZE_LIMIT && DataCarried(codec, m.data)
    ensures DecodeMessage(codec, Wire(codec, m, u)) == Some(m.(security := EncodeUsm(u)))
    ensures DecodeUsm(EncodeUsm(u)) == Some(u)
  {
    WireFits(codec, m, u);
    MessageRoundTrip(codec, m.(security := EncodeUsm(u)), []);
    assert Wire(codec, m, u) + [] == Wire(codec, m, u);
    UsmRoundTrip(u);
  }

  /** A reply whose tag was drawn into a copied field decodes to a message without
      a tag, which nobody accepts. */
  lemma MisplacedNeverOpens(p: Primitives, m: Message, u: UsmParameters, user: UsmUser)
    requires |Wire(p.codec, m, u)| < USIZE_LIMIT && ReplyShaped(m, u) && Unsigned(u) && Mimics(m, u)
    requires SmallHeader(m.header) && SmallNames(u) && DataCarried(p.codec, m.data)
    requires Mac(p.hmac, user.authKey, SignedWire(p, m, u, user.authKey)) != Zeros(AUTH_TRUNC_LEN)
    ensures Open(p, user, SignedWire(p, m, u, user.authKey)) == None
  {
    var key := user.authKey;
    var m', u' := MisplacedReply(p.codec, m, u, Mac(p.hmac, key, Wire(p.codec, m, u)));
    var signed := SignedWire(p, m, u, key);
    assert signed == Wire(p.codec, m', u');
    WireDecodes(p.codec, m', u');
    if Verifies(p.hmac, signed, u'.authParams, key) {
      ZeroTagVerifies(p.hmac, signed, key);
    }
  }

  /** The request's echoed header integers and the names have datagram size. */
  predicate DatagramSized(e: Engine, userName: seq<byte>, env: Envelope) {
    && |IntegerOctets(env.messageId)| < 65536 && |IntegerOctets(env.maxSize)| < 65536
    && |e.engineId| < 65536 && |userName| < 65536
  }

  lemma ReplyNeverOpens(p: Primitives, e: Engine, values: Values, m: Message, u: UsmParameters, user: UsmUser,
                        env: Envelope, scoped: ScopedPdu, salt: seq<byte>)
    requires WellFormed(env) && |salt| == 8 && Answerable(scoped.data) && DatagramSized(e, u.userName, env)
    requires m.version == 3 && m.header == Header(env.messageId, env.maxSize, [env.flags], 3)
    requires Travels(p, e.engineId, u.userName, user, ReplyEnvelopeOf(e, env, salt), Expected(e, values, scoped))
    requires Mimics(m, SealedUsm(e.engineId, u.userName, ReplyEnvelopeOf(e, env, salt)))
    requires Mac(p.hmac, user.authKey, ReplyTo(p, e, values, m, u, user, scoped, salt).bytes) != Zeros(AUTH_TRUNC_LEN)
    ensures Open(p, user, ReplyTo(p, e, values, m, u, user, scoped, salt).bytes) == None
  {
    var out := ReplyEnvelopeOf(e, env, salt);
    var reply := ReplyMessage(p, e, m, user, Expected(e, values, scoped), Private(env), salt);
    var v := SealedUsm(e.engineId, u.userName, out);
    assert reply == SealedMessage(p, user, out, Expected(e, values, scoped));
    assert ReplyUsm(e, u.userName, Private(env), salt) == v;
    assert Mimics(reply, v);
    WireFits(p.codec, reply, v);
    MisplacedNeverOpens(p, reply, v, user);
  }

  /** End to end, exactly: the reply always comes, and unless its own MAC is 24
      zero bytes it opens to the response if and only if no copied field mimics
      the placeholder; otherwise it does not open at all. */
  lemma EndToEndExactly(p: Primitives, e: Engine, values: Values, userName: seq<byte>, env: Envelope, scoped: ScopedPdu,
                        salt: seq<byte>)
    requires e.engineId != [] && ValidUtf8(userName) && userName in e.users && |salt| == 8
    requires Answerable(scoped.data) && DatagramSized(e, userName, env)
    requires Travels(p, e.engineId, userName, e.users[userName], env, scoped)
    requires Travels(p, e.engineId, userName, e.users[userName], ReplyEnvelopeOf(e, env, salt),
                     Expected(e, values, scoped))
    ensures
      var user := e.users[userName];
      var outcome := Handle(p, e, values, Seal(p, e.engineId, userName, user, env, scoped), salt);
      var mimics := Mimics(SealedMessage(p, user, env, scoped),
                           SealedUsm(e.engineId, userName, ReplyEnvelopeOf(e, env, salt)));
      && outcome.Reply?
      && (Mac(p.hmac, user.authKey, outcome.bytes) != Zeros(AUTH_TRUNC_LEN) ==>
            Open(p, user, outcome.bytes) == if mimics then None else Some(Expected(e, values, scoped)))
  {
    var user := e.users[userName];
    var datagram := Seal(p, e.engineId, userName, user, env, scoped);
    var v := SealedUsm(e.engineId, userName, ReplyEnvelopeOf(e, env, salt));
    SealedIsAccepted(p, e.engineId, userName, user, env, scoped);
    var m := DecodeMessage(p.codec, datagram).value;
    var u := DecodeUsm(m.security).value;
    assert Handle(p, e, values, datagram, salt) == ReplyTo(p, e, values, m, u, user, scoped, salt);
    assert Mimics(m, v) == Mimics(SealedMessage(p, user, env, scoped), v);
    if !Mimics(m, v) {
      EndToEnd(p, e, values, userName, env, scoped, salt);
    } else {
      var bytes := ReplyTo(p, e, values, m, u, user, scoped, salt).bytes;
      if Mac(p.hmac, user.authKey, bytes) != Zeros(AUTH_TRUNC_LEN) {
        ReplyNeverOpens(p, e, values, m, u, user, env, scoped, salt);
      }
    }
  }

  /** A request any registered user may send, with a 26-byte message id, draws a
      reply that its sender cannot open. */
  lemma LongMessageIdUnopened(p: Primitives, e: Engine, values: Values, userName: seq<byte>, env: Envelope,
                              scoped: ScopedPdu, salt: seq<byte>)
    requires e.engineId != [] && ValidUtf8(userName) && userName in e.users && |salt| == 8
    requires Answerable(scoped.data) && |IntegerOctets(env.maxSize)| < 65536
    requires |e.engineId| < 65536 && |userName| < 65536
    requires env.messageId == ShiftedInteger(AUTH_TRUNC_LEN)
    requires Travels(p, e.engineId, userName, e.users[userName], env, scoped)
    requires Travels(p, e.engineId, userName, e.users[userName], ReplyEnvelopeOf(e, env, salt),
                     Expected(e, values, scoped))
    ensures
      var user := e.users[userName];
      var outcome := Handle(p, e, values, Seal(p, e.engineId, userName, user, env, scoped), salt);
      && outcome.Reply?
      && (Mac(p.hmac, user.authKey, outcome.bytes) != Zeros(AUTH_TRUNC_LEN) ==> Open(p, user, outcome.bytes) == None)
  {
    ShiftedMimics(AUTH_TRUNC_LEN);
    ShiftedOctets(AUTH_TRUNC_LEN);
    EndToEndExactly(p, e, values, userName, env, scoped, salt);
  }

  // ----- What draws a reply -----

  /** The datagram names this engine and a registered user, carries the MAC of all
      its other bytes when it asks to, and opens to a Get or GetNext. */
  ghost predicate Served(p: Primitives, e: Engine, datagram: seq<byte>, m: Message, u: UsmParameters) {
    && u.engineId == e.engineId
    && LookupName(u.userName) in e.users
    && var user := e.users[LookupName(u.userName)];
       && (WantsAuth(m.header) ==> Authentic(p.hmac, datagram, u.authParams, user.authKey))
       && OpenScoped(p, m, u, user).0.Some?
       && Answerable(OpenScoped(p, m, u, user).0.value.data)
  }

  function Request(codec: PduCodec, datagram: seq<byte>): (r: Option<(Message, UsmParameters)>) {
    var m :- DecodeMessage(codec, datagram);
    var u :- DecodeUsm(m.security);
    Some((m, u))
  }

  /** A datagram draws a reply if and only if it decodes and is a discovery or
      served; whether it does never depends on the OID map or the salt. */
  lemma RepliesExactlyWhen(p: Primitives, e: Engine, values: Values, datagram: seq<byte>, salt: seq<byte>)
    requires |salt| == 8
    ensures
      var request := Request(p.codec, datagram);
      Handle(p, e, values, datagram, salt).Reply? <==>
        request.Some? && (request.value.1.engineId == [] || Served(p, e, datagram, request.value.0, request.value.1))
  {
    var request := Request(p.codec, datagram);
    if request.Some? {
      DecodedReplies(p, e, values, datagram, request.value.0, request.value.1, salt);
    }
  }

  lemma DecodedReplies(p: Primitives, e: Engine, values: Values, datagram: seq<byte>, m: Message, u: UsmParameters,
                       salt: seq<byte>)
    requires |salt| == 8
    ensures HandleDecoded(p, e, values, datagram, m, u, salt).Reply?
       <==> u.engineId == [] || Served(p, e, datagram, m, u)
  {
    if LookupName(u.userName) in e.users {
      AcceptanceMeansMac(p.hmac, datagram, u.authParams, e.users[LookupName(u.userName)].authKey);
    }
  }

  /** A sealed Get or GetNext of a registered user is served. */
  lemma SealedIsServed(p: Primitives, e: Engine, userName: seq<byte>, env: Envelope, scoped: ScopedPdu)
    requires ValidUtf8(userName) && userName in e.users && Answerable(scoped.data)
    requires Travels(p, e.engineId, userName, e.users[userName], env, scoped)
    ensures
      var datagram := Seal(p, e.engineId, userName, e.users[userName], env, scoped);
      var request := Request(p.codec, datagram);
      && request.Some? && request.value.1.engineId == e.engineId
      && Served(p, e, datagram, request.value.0, request.value.1)
  {
    var user := e.users[userName];
    var datagram := Seal(p, e.engineId, userName, user, env, scoped);
    SealedIsAccepted(p, e.engineId, userName, user, env, scoped);
    AcceptanceMeansMac(p.hmac, datagram, Request(p.codec, datagram).value.1.authParams, user.authKey);
  }

  // ----- Discovery -----

  /** The request id a report echoes: that of a cleartext Get, GetNext or GetBulk,
      zero for anything else. */
  predicate EchoedId(m: Message, id: int) {
    if m.data.Cleartext? && (m.data.scoped.data.GetRequest? || m.data.scoped.data.GetNextRequest?
                             || m.data.scoped.data.GetBulkRequest?)
    then id == m.data.scoped.data.pdu.requestId
    else id == 0
  }

  /** `bytes` decode to an unauthenticated report for the request `m`: the agent's
      engine id and clock, the request's message and request ids, its user name,
      and one binding, usmStatsUnknownEngineIDs. */
  predicate Announces(p: Primitives, e: Engine, m: Message, userName: seq<byte>, bytes: seq<byte>) {
    var r := DecodeMessage(p.codec, bytes);
    && r.Some?
    && r.value.version == m.version
    && r.value.header == Header(m.header.messageId, m.header.maxSize, [4], 3)
    && DecodeUsm(r.value.security) == Some(UsmParameters(e.engineId, e.boots, e.time, userName, [], []))
    && r.value.data.Cleartext?
    && r.value.data.scoped.engineId == e.engineId && r.value.data.scoped.name == []
    && r.value.data.scoped.data.Report?
    && var pdu := r.value.data.scoped.data.pdu;
       && EchoedId(m, pdu.requestId) && pdu.errorStatus == 0 && pdu.errorIndex == 0
       && pdu.bindings == [VarBind([1, 3, 6, 1, 6, 3, 15, 1, 1, 4, 0], IntegerValue(1))]
  }

  lemma ReportAnnounces(p: Primitives, e: Engine, m: Message, userName: seq<byte>)
    requires Carries(p.codec, ReportScoped(e, m).data) && |DiscoveryReport(p, e, m, userName)| < USIZE_LIMIT
    ensures Announces(p, e, m, userName, DiscoveryReport(p, e, m, userName))
  {
    var report := ReplyEnvelope(m, 4, Cleartext(ReportScoped(e, m)));
    var v := ReportUsm(e, userName);
    WireFits(p.codec, report, v);
    MessageRoundTrip(p.codec, report.(security := EncodeUsm(v)), []);
    assert Wire(p.codec, report, v) + [] == Wire(p.codec, report, v);
    UsmRoundTrip(v);
  }

  /** Any decodable datagram with an empty engine id, whoever sent it and whatever
      it asks, draws a report that announces the engine. Assumed: the codec
      carries the report, and it fits in memory. */
  lemma DiscoveryAnnouncesEngine(p: Primitives, e: Engine, values: Values, datagram: seq<byte>, salt: seq<byte>)
    requires |salt| == 8
    ensures
      var request := Request(p.codec, datagram);
      request.Some? && request.value.1.engineId == [] ==>
        var (m, u) := request.value;
        var outcome := Handle(p, e, values, datagram, salt);
        && outcome.Reply?
        && (Carries(p.codec, ReportScoped(e, m).data) && |outcome.bytes| < USIZE_LIMIT ==>
              Announces(p, e, m, u.userName, outcome.bytes))
  {
    var request := Request(p.codec, datagram);
    if request.Some? && request.value.1.engineId == [] {
      var (m, u) := request.value;
      if Carries(p.codec, ReportScoped(e, m).data) && |DiscoveryReport(p, e, m, u.userName)| < USIZE_LIMIT {
        ReportAnnounces(p, e, m, u.userName);
      }
    }
  }
}
