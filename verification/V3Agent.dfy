/** The SNMPv3 request path of the agent (mock-snmp-agent/src/v3.rs): dispatch,
    discovery reports and authenticated replies. Hash, MAC, block cipher and PDU
    codec are parameters; the engine clock and the random salt are arguments. */
module V3Agent {
  import opened Numbers
  import opened ByteSearch
  import opened AuthTag
  import opened Usm
  import opened Ber
  import opened Oids
  import opened Control
  import opened Snmp
  import opened V3Message
  import opened AuthPlacement
  import opened Utf8

  datatype Primitives = Primitives(hash: Hash, hmac: Hmac, cipher: BlockCipher, codec: PduCodec)

  /** Localized keys; the privacy key is cut to 16 bytes at registration. */
  datatype UserKeys = UserKeys(authKey: seq<byte>, privKey: seq<byte>)

  type UsmUser = u: UserKeys | |u.privKey| == PRIV_KEY_LEN witness UserKeys([], seq(16, i => 0))

  /** The agent as one request sees it. */
  datatype Engine = Engine(engineId: seq<byte>, boots: u32, time: u32, users: map<seq<byte>, UsmUser>)

  /** Why a datagram gets no reply. A privacy salt under eight bytes makes the
      source's slice panic, which drops the datagram's task. */
  datatype Cause =
    | NotDecodable | ParametersNotDecodable | EngineMismatch | UnknownUser | NotAuthentic
    | SaltTooShort | ScopedNotDecodable | PrivacyOff | UnsupportedPdu

  datatype Outcome = Reply(bytes: seq<byte>) | Dropped(cause: Cause)

  // ----- Small decisions -----

  /** An undecodable user name is looked up as the empty one. */
  function LookupName(name: seq<byte>): (r: seq<byte>) {
    if ValidUtf8(name) then name else []
  }

  /** `u32::try_from(..).unwrap_or(0)`. */
  function ToU32(n: int): (r: u32) {
    if 0 <= n < U32_LIMIT then n else 0
  }

  function Flags(h: Header): (r: byte) {
    if h.flags == [] then 0 else h.flags[0]
  }

  predicate WantsAuth(h: Header) {
    Flags(h) % 2 == 1
  }

  predicate WantsPriv(h: Header) {
    Flags(h) / 2 % 2 == 1
  }

  // ----- Replies -----

  /** The reply's envelope: version, id and size echoed, reportable bit off. */
  function ReplyEnvelope(request: Message, flags: byte, data: ScopedData): (r: Message) {
    Message(request.version, Header(request.header.messageId, request.header.maxSize, [flags], 3), [], data)
  }

  function ReplyData(p: Primitives, e: Engine, user: UsmUser, scoped: ScopedPdu, encrypt: bool, salt: seq<byte>)
    : (r: ScopedData)
    requires |salt| == 8
  {
    if encrypt then Encrypted(Encrypt(p.cipher, user.privKey, e.boots, e.time, salt, EncodeScoped(p.codec, scoped)))
    else Cleartext(scoped)
  }

  function ReplyMessage(p: Primitives, e: Engine, request: Message, user: UsmUser, scoped: ScopedPdu, encrypt: bool,
                        salt: seq<byte>): (r: Message)
    requires |salt| == 8
  {
    ReplyEnvelope(request, if encrypt then 3 else 1, ReplyData(p, e, user, scoped, encrypt, salt))
  }

  /** The reply's parameters with the zero placeholder. */
  function ReplyUsm(e: Engine, userName: seq<byte>, encrypt: bool, salt: seq<byte>): (r: UsmParameters) {
    UsmParameters(e.engineId, e.boots, e.time, userName, Zeros(AUTH_TRUNC_LEN), if encrypt then salt else [])
  }

  /** The placeholder the reply is searched for is always there. */
  lemma PlaceholderPresent(codec: PduCodec, m: Message, u: UsmParameters)
    requires Unsigned(u)
    ensures FirstMatch(Wire(codec, m, u), ZeroNeedle()).Some? && Occurs(Wire(codec, m, u), ZeroNeedle())
  {
    SpliceAtField(codec, m, u, Zeros(AUTH_TRUNC_LEN));
  }

  function SignedWire(p: Primitives, m: Message, u: UsmParameters, key: seq<byte>): (r: seq<byte>)
    requires Unsigned(u)
  {
    PlaceholderPresent(p.codec, m, u);
    Signed(p.hmac, Wire(p.codec, m, u), key)
  }

  /** `build_authenticated_reply`. */
  method BuildAuthenticatedReply(p: Primitives, e: Engine, request: Message, userName: seq<byte>, user: UsmUser,
                                 scoped: ScopedPdu, encrypt: bool, salt: seq<byte>)
    returns (bytes: seq<byte>)
    requires |salt| == 8
    ensures bytes == SignedWire(p, ReplyMessage(p, e, request, user, scoped, encrypt, salt),
                                ReplyUsm(e, userName, encrypt, salt), user.authKey)
  {
    var data: ScopedData;
    if encrypt {
      var ct := AesCfbEncrypt(p.cipher, user.privKey, e.boots, e.time, salt, EncodeScoped(p.codec, scoped));
      data := Encrypted(ct);
    } else {
      data := Cleartext(scoped);
    }
    var response := ReplyEnvelope(request, if encrypt then 3 else 1, data);
    var usm := ReplyUsm(e, userName, encrypt, salt);
    PlaceholderPresent(p.codec, response, usm);
    bytes := Sign(p.hmac, Wire(p.codec, response, usm), user.authKey);
  }

  // ----- Discovery -----

  const USM_STATS_UNKNOWN_ENGINE_IDS: Oid := [1, 3, 6, 1, 6, 3, 15, 1, 1, 4, 0]

  /** `extract_request_id`, zero when there is none to extract. */
  function ReportedRequestId(m: Message): (r: i32) {
    match m.data
    case Encrypted(_) => 0
    case Cleartext(s) =>
      match s.data
      case GetRequest(pdu) => pdu.requestId
      case GetNextRequest(pdu) => pdu.requestId
      case GetBulkRequest(pdu) => pdu.requestId
      case _ => 0
  }

  function ReportScoped(e: Engine, request: Message): (r: ScopedPdu) {
    ScopedPdu(e.engineId, [], Report(Pdu(ReportedRequestId(request), 0, 0,
      [VarBind(USM_STATS_UNKNOWN_ENGINE_IDS, IntegerValue(1))])))
  }

  function ReportUsm(e: Engine, userName: seq<byte>): (r: UsmParameters) {
    UsmParameters(e.engineId, e.boots, e.time, userName, [], [])
  }

  function DiscoveryReport(p: Primitives, e: Engine, request: Message, userName: seq<byte>): (r: seq<byte>) {
    Wire(p.codec, ReplyEnvelope(request, 4, Cleartext(ReportScoped(e, request))), ReportUsm(e, userName))
  }

  // ----- Dispatch -----

  /** Decrypt or take the scoped PDU. */
  function OpenScoped(p: Primitives, m: Message, u: UsmParameters, user: UsmUser): (r: (Option<ScopedPdu>, Cause))
  {
    match m.data
    case Cleartext(s) => (Some(s), ScopedNotDecodable)
    case Encrypted(ct) =>
      if !WantsPriv(m.header) then (None, PrivacyOff)
      else if |u.privParams| < 8 then (None, SaltTooShort)
      else
        var plaintext := Decrypt(p.cipher, user.privKey, ToU32(u.boots), ToU32(u.time), u.privParams, ct);
        (DecodeScoped(p.codec, plaintext), ScopedNotDecodable)
  }

  /** Decrypt or take the scoped PDU, with the in-place decryptor. */
  method Uncover(p: Primitives, m: Message, u: UsmParameters, user: UsmUser)
    returns (scoped: Option<ScopedPdu>, cause: Cause)
    ensures (scoped, cause) == OpenScoped(p, m, u, user)
  {
    match m.data
    case Cleartext(s) => return Some(s), ScopedNotDecodable;
    case Encrypted(ct) =>
      if !WantsPriv(m.header) {
        return None, PrivacyOff;
      }
      if |u.privParams| < 8 {
        return None, SaltTooShort;
      }
      var plaintext := AesCfbDecrypt(p.cipher, user.privKey, ToU32(u.boots), ToU32(u.time), u.privParams, ct);
      return DecodeScoped(p.codec, plaintext), ScopedNotDecodable;
  }

  predicate Answerable(pdus: Pdus) {
    pdus.GetRequest? || pdus.GetNextRequest?
  }

  /** The signed reply that carries `response`. */
  function ReplyWith(p: Primitives, e: Engine, m: Message, u: UsmParameters, user: UsmUser,
                     scoped: ScopedPdu, response: Pdu, salt: seq<byte>): (outcome: Outcome)
    requires |salt| == 8
    ensures outcome.Reply?
  {
    var out := ScopedPdu(e.engineId, scoped.name, Response(response));
    Reply(SignedWire(p, ReplyMessage(p, e, m, user, out, WantsPriv(m.header), salt),
                     ReplyUsm(e, u.userName, WantsPriv(m.header), salt), user.authKey))
  }

  /** The answer to an opened request. */
  ghost function ReplyTo(p: Primitives, e: Engine, values: Values, m: Message, u: UsmParameters, user: UsmUser,
                         scoped: ScopedPdu, salt: seq<byte>): (outcome: Outcome)
    requires |salt| == 8
  {
    if !Answerable(scoped.data) then Dropped(UnsupportedPdu)
    else ReplyWith(p, e, m, u, user, scoped,
                   Respond(values, scoped.data.pdu, scoped.data.GetNextRequest?), salt)
  }

  /** `handle_v3_datagram`, after decoding. */
  ghost function HandleDecoded(p: Primitives, e: Engine, values: Values, datagram: seq<byte>, m: Message,
                               u: UsmParameters, salt: seq<byte>): (r: Outcome)
    requires |salt| == 8
  {
    if u.engineId == [] then Reply(DiscoveryReport(p, e, m, u.userName))
    else if u.engineId != e.engineId then Dropped(EngineMismatch)
    else if LookupName(u.userName) !in e.users then Dropped(UnknownUser)
    else
      var user := e.users[LookupName(u.userName)];
      if WantsAuth(m.header) && !Verifies(p.hmac, datagram, u.authParams, user.authKey) then Dropped(NotAuthentic)
      else
        var (scoped, cause) := OpenScoped(p, m, u, user);
        if scoped.None? then Dropped(cause) else ReplyTo(p, e, values, m, u, user, scoped.value, salt)
  }

  /** `handle_v3_datagram` against one state of the OID map. */
  ghost function Handle(p: Primitives, e: Engine, values: Values, datagram: seq<byte>, salt: seq<byte>): (r: Outcome)
    requires |salt| == 8
  {
    var m := DecodeMessage(p.codec, datagram);
    if m.None? then Dropped(NotDecodable)
    else
      var u := DecodeUsm(m.value.security);
      if u.None? then Dropped(ParametersNotDecodable)
      else HandleDecoded(p, e, values, datagram, m.value, u.value, salt)
  }

  /** Every binding of a decoded PDU names an OID with at least one arc. */
  predicate Named(pdus: Pdus) {
    forall vb | vb in pdus.pdu.bindings :: vb.name != []
  }

  ghost predicate YieldsNames(codec: PduCodec) {
    forall bs :: codec.decode(bs).Some? ==> Named(codec.decode(bs).value)
  }

  lemma ScopedIsNamed(codec: PduCodec, bs: seq<byte>)
    requires YieldsNames(codec)
    ensures DecodeScopedFields(codec, bs).Some? ==> Named(DecodeScopedFields(codec, bs).value.data)
    ensures DecodeScoped(codec, bs).Some? ==> Named(DecodeScoped(codec, bs).value.data)
  {
  }

  lemma DataIsNamed(codec: PduCodec, bs: seq<byte>)
    requires YieldsNames(codec) && DecodeData(codec, bs).Some? && DecodeData(codec, bs).value.Cleartext?
    ensures Named(DecodeData(codec, bs).value.scoped.data)
  {
    ScopedIsNamed(codec, ReadTlv(bs).value.content);
  }

  lemma CleartextIsNamed(codec: PduCodec, datagram: seq<byte>, m: Message)
    requires YieldsNames(codec) && DecodeMessage(codec, datagram) == Some(m) && m.data.Cleartext?
    ensures Named(m.data.scoped.data)
  {
    var e := ReadTagged(SEQUENCE, datagram).value;
    var r1 := ReadInteger(e.content).value.1;
    var h := ReadTagged(SEQUENCE, r1).value;
    var r2 := ReadOctets(h.rest).value.1;
    DataIsNamed(codec, r2);
  }

  lemma OpenedIsNamed(p: Primitives, datagram: seq<byte>, m: Message, u: UsmParameters, user: UsmUser)
    requires YieldsNames(p.codec) && DecodeMessage(p.codec, datagram) == Some(m)
    ensures OpenScoped(p, m, u, user).0.Some? ==> Named(OpenScoped(p, m, u, user).0.value.data)
  {
    match m.data
    case Cleartext(_) => CleartextIsNamed(p.codec, datagram, m);
    case Encrypted(ct) =>
      if WantsPriv(m.header) && |u.privParams| >= 8 {
        ScopedIsNamed(p.codec, Decrypt(p.cipher, user.privKey, ToU32(u.boots), ToU32(u.time), u.privParams, ct));
      }
  }

  /** The authoritative engine and its registered users. */
  class AgentState {
    const engineId: seq<byte>
    var engineBoots: u32
    var users: map<seq<byte>, UsmUser>

    constructor (engineId: seq<byte>)
      ensures this.engineId == engineId && engineBoots == 1 && users == map[]
    {
      this.engineId := engineId;
      engineBoots := 1;
      users := map[];
    }

    function At(time: u32): (r: Engine)
      reads this
    {
      Engine(engineId, engineBoots, time, users)
    }

    /** `register_user`: both keys are stretched and localized once. */
    method RegisterUser(hash: Hash, name: seq<byte>, authPass: seq<byte>, privPass: seq<byte>)
      requires authPass != [] && privPass != []
      modifies this`users
      ensures users == old(users)[name := UserKeys(LocalizedKey(hash, authPass, engineId),
                                                   LocalizedKey(hash, privPass, engineId)[..16])]
    {
      var authKey := DeriveLocalizedKey(hash, authPass, engineId);
      var privKey := DeriveLocalizedKey(hash, privPass, engineId);
      users := users[name := UserKeys(authKey, privKey[..PRIV_KEY_LEN])];
    }

    /** The request path. PDUs the codec yields name non-empty OIDs. */
    method HandleV3Datagram(p: Primitives, values: Values, datagram: seq<byte>, time: u32, salt: seq<byte>)
      returns (outcome: Outcome)
      requires |salt| == 8 && [] !in values
      requires YieldsNames(p.codec)
      ensures outcome == Handle(p, At(time), values, datagram, salt)
    {
      var decoded := DecodeMessage(p.codec, datagram);
      if decoded.None? {
        return Dropped(NotDecodable);
      }
      var m := decoded.value;
      var parameters := DecodeUsm(m.security);
      if parameters.None? {
        return Dropped(ParametersNotDecodable);
      }
      var u := parameters.value;
      if u.engineId == [] {
        return Reply(DiscoveryReport(p, At(time), m, u.userName));
      }
      if u.engineId != engineId {
        return Dropped(EngineMismatch);
      }
      var name := LookupName(u.userName);
      if name !in users {
        return Dropped(UnknownUser);
      }
      var user := users[name];
      if WantsAuth(m.header) {
        var ok := VerifyHmac(p.hmac, datagram, u.authParams, user.authKey);
        if !ok {
          return Dropped(NotAuthentic);
        }
      }
      var scoped, cause := Uncover(p, m, u, user);
      if scoped.None? {
        return Dropped(cause);
      }
      OpenedIsNamed(p, datagram, m, u, user);
      outcome := Dispatch(p, values, m, u, user, scoped.value, time, salt);
    }

    method Dispatch(p: Primitives, values: Values, m: Message, u: UsmParameters, user: UsmUser,
                    scoped: ScopedPdu, time: u32, salt: seq<byte>)
      returns (outcome: Outcome)
      requires |salt| == 8 && [] !in values
      requires Named(scoped.data)
      ensures outcome == ReplyTo(p, At(time), values, m, u, user, scoped, salt)
    {
      if !Answerable(scoped.data) {
        return Dropped(UnsupportedPdu);
      }
      var response := BuildResponse(values, scoped.data.pdu, scoped.data.GetNextRequest?);
      var out := ScopedPdu(engineId, scoped.name, Response(response));
      var bytes := BuildAuthenticatedReply(p, At(time), m, u.userName, user, out, WantsPriv(m.header), salt);
      return Reply(bytes);
    }
  }
}
