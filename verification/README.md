# Telemetry fixtures: a verified model

Two fixtures of the repository are modelled: the SNMP agent
(`mock-snmp-agent`), which serves a power distribution unit and a switch over
SNMPv2c and SNMPv3, and the Modbus server (`mock-modbus-server`), which serves a
battery rack and a grid meter. `dafny verify dfyconfig.toml` checks everything.

**SNMPv3 messages.** `Ber` writes and reads definite-length TLVs (ITU-T X.690
sections 8.1.3, 8.3 and 8.7), `V3Message` the envelope and USM parameters (RFC
3412 section 6, RFC 3414 section 2.4), and `WireShape` the order of their elements as
any reader of the octets finds it. The agent signs a reply by searching the
encoded bytes for `04 18` and 24 zero bytes and splicing the tag in, and verifies
a request by searching for `04 18 tag` and blanking it; `ByteSearch` and `AuthTag`
state what those searches and splices do to raw bytes, `AuthPlacement` and
`FieldMimicry` prove when the search lands on the authentication field, and
`MisplacedTag` what is sent when it does not. `Usm` has
the password stretch, the IV and CFB chaining, `Utf8` the names that can
be looked up, `V3Agent` the request path, `V3Decisions` which octets of a request
decide its outcome, and `V3EndToEnd` the round trip between a client and the agent;
`V3Runs` places it in the runs of the concurrent tasks below. SHA-256, HMAC, the AES
block function and the inner PDU codec are parameters.

**The OID map.** `Oids` and `Snmp` model Get and GetNext (RFC 3416 sections 4.2.1
and 4.2.2) and a manager's walk, on a fixed map and on one that grows meanwhile.
`Control` has the batch PUT, `PduView` the Raritan view derived from the Sentry4
readings, the drift tick and the load follower. `SharedOids` is the shared state
updated in place, one method per critical section.

**The tasks.** `AgentTasks` gives every program point of the concurrent tasks over
the three mutexes, one step per lock operation or data access; `AgentRuns` is any
number of them interleaved, with deadlock freedom and mutual exclusion; `Commits`
replays the history of completed sections one whole section at a time, and
`AgentHistory` proves that every run is explained by that history.

**The Modbus server.** `Registers` and `MeterHandlers` are the register file and
its writers, `Derate` and `RackEnergy` the rack's limits and energy balance over
`real`, `BessRack` the battery object and its projection into words, `Sawtooth`
the two-word channels, `ModbusHistory` every interleaving of all the writers.

What the proofs show about the code:

- Signing by search and splice equals encoding with the tag if and only if none of
  four copied fields contains the 26 placeholder bytes, or the tag is itself zero
  (`AuthPlacement.SigningIsReencoding`): the engine id, the user name, and the message
  id and maximum size, which are echoed from the request as integers of any length. A
  request with a 26-octet message id draws a reply that its sender cannot open
  (`V3EndToEnd.LongMessageIdUnopened`); the bytes sent are then the encoding of
  another, untagged message (`MisplacedTag.MisplacedReply`).
- The comments at v3.rs:203 and usm.rs:41 speak of a 16-byte tag; the constant is 24
  and the model follows the constant.
- The comments at control.rs:7-8 and simulator.rs:2-3 of the agent promise that driven
  OIDs survive the simulator. That holds outside the PDU2-MIB view
  (`AgentHistory.DrivenValuesSurvive`). Inside it, a driven OID keeps its last write if
  and only if no tick ran since or the last tick mirrored that very value
  (`AgentHistory.DrivenTargetsHold`); one PUT and one tick lose it
  (`Commits.DrivenTargetLost`).
- A batch that spells one OID twice with different values (`2.2` and `2.02`) leaves a
  result that depends on the hash map's iteration order; no other batch does
  (`Control.BatchOrderIrrelevant`).
- The rack's state-of-charge clamps can bind if and only if one step lasts longer
  than 100 cap / rated simulated hours, 0.2 h for the shipped rack
  (`RackEnergy.ClampBound`).
- A sawtooth whose upper bound is 2^32 - 1 sticks at the top instead of wrapping
  (`Sawtooth.SawtoothClosedForm`).

## Model

| member | source | states |
|---|---|---|
| ByteSearch.Position | mock-snmp-agent/src/v3.rs:210-212 | The search loop returns the first position where the needle stands, or nothing when it stands nowhere |
| ByteSearch.Overwrite | mock-snmp-agent/src/v3.rs:213-214 | Overwriting a slice in place replaces exactly those bytes and keeps every other byte |
| AuthTag.VerifyHmac | mock-snmp-agent/src/v3.rs:198-217 | The in-place verifier accepts exactly when the tag has 24 bytes, stands in the datagram as `04 18 tag`, and is the MAC of the datagram with that tag blanked |
| AuthTag.Sign | mock-snmp-agent/src/v3.rs:267-283 | Signing overwrites the 24 bytes after the first zero placeholder with the MAC of the unsigned bytes and changes nothing else |
| AuthTag.VerifyUndoesSign | mock-snmp-agent/src/v3.rs:198-283 | For all bytes and keys, verification rebuilds the exact pre-signing bytes if and only if `04 18 tag` does not stand before the spliced position |
| AuthTag.SignedIsAccepted | mock-snmp-agent/src/v3.rs:198-283 | A signed datagram whose tag is not mimicked earlier is accepted under the same key |
| AuthTag.EarlierTagIsFatal | mock-snmp-agent/src/v3.rs:210-214 | Blanking at an earlier occurrence of the tag never gives back the pre-signing bytes |
| AuthTag.AcceptanceMeansMac | mock-snmp-agent/src/v3.rs:198-217 | Acceptance if and only if the tag is the MAC of the datagram with just the 24 bytes of its first `04 18 tag` zeroed |
| Ber.ReadBack | mock-snmp-agent/src/v3.rs:82-97 | Every TLV, in short or long form, reads back with its tag, content and the bytes after it |
| Ber.IntegerRoundTrip | mock-snmp-agent/src/v3.rs:243-245 | Two's-complement INTEGER contents decode to the encoded integer, for every integer |
| Ber.ReadIntegerBack | mock-snmp-agent/src/v3.rs:243-245 | An encoded INTEGER element reads back with the bytes after it |
| WireShape.ReadExactly | mock-snmp-agent/src/v3.rs:82-97 | On any octets the reader yields a tag, contents and remainder if and only if the octets are the tag, a short or 1 to 126 octet long length equal to the number of contents octets, the contents and the remainder |
| WireShape.DigitsPlace | mock-snmp-agent/src/v3.rs:142-143 | Base-256 contents octets are read most significant first: the first octet weighs 256 to the number of those after it |
| WireShape.TwosComplement | mock-snmp-agent/src/v3.rs:142-143 | Any INTEGER contents denote their base-256 value, less 256 to their number when the top bit is set |
| V3Message.ScopedRoundTrip | mock-snmp-agent/src/v3.rs:131-141 | A scoped PDU decodes from its encoding |
| V3Message.UsmRoundTrip | mock-snmp-agent/src/v3.rs:89-97 | USM parameters decode from their encoding, all six fields |
| V3Message.MessageRoundTrip | mock-snmp-agent/src/v3.rs:82-88 | A v3 message decodes from its encoding whatever bytes follow it, cleartext or encrypted |
| V3Message.PeekFindsVersion | mock-snmp-agent/src/main.rs:132-146 | For every encoded message the peek yields the version when it fits one octet and nothing otherwise, so it routes to v3 if and only if the version is 3 |
| WireShape.UsmOrder | mock-snmp-agent/src/v3.rs:259-266 | Encoded USM parameters are six elements in this order: engine id, boots, time, user name, authentication and privacy parameters, with tags 4 2 2 4 4 4 |
| WireShape.UsmDecodedExactly | mock-snmp-agent/src/v3.rs:89-97 | Any octets decode to given USM parameters if and only if they are those six elements with those values |
| WireShape.HeaderOrder | mock-snmp-agent/src/v3.rs:240-257 | The encoded header is message id, maximum size, flags and security model, in that order |
| WireShape.HeaderDecodedExactly | mock-snmp-agent/src/v3.rs:82-88 | Any octets decode to a given header if and only if they are those four elements with those values |
| WireShape.MessageOrder | mock-snmp-agent/src/v3.rs:240-283 | An encoded message holds version, header, security parameters and data, the data a SEQUENCE in the clear and an OCTET STRING when encrypted |
| AuthPlacement.WireLayout | mock-snmp-agent/src/v3.rs:240-266 | The wire form is a prefix, the authentication element and a suffix, through three enclosing elements |
| AuthPlacement.NoMatchAcrossTag | mock-snmp-agent/src/v3.rs:272-279 | A placeholder match never straddles an element boundary: it lies in one side or the other |
| AuthPlacement.PrefixHides | mock-snmp-agent/src/v3.rs:240-266 | Of everything before the field, only the message id, the maximum size, the engine id and the user name can contain a match |
| AuthPlacement.SearchFindsField | mock-snmp-agent/src/v3.rs:272-279 | The first match in an encoded reply always exists, and is the authentication field if and only if no copied field mimics the placeholder |
| AuthPlacement.SpliceAtField | mock-snmp-agent/src/v3.rs:267-282 | Splicing any 24-byte tag over the field equals encoding the message with that tag: no length changes at any level |
| AuthPlacement.SigningIsReencoding | mock-snmp-agent/src/v3.rs:267-283 | Search-and-splice signing gives the encoding of the tagged message if and only if no copied field mimics the placeholder, or the tag is itself zero |
| FieldMimicry.OctetStringMimics | mock-snmp-agent/src/v3.rs:242-249 | An octet string of datagram size mimics the placeholder in exactly four ways, length octets included |
| FieldMimicry.OrdinaryRepliesSignExactly | mock-snmp-agent/src/v3.rs:267-283 | With engine id and user name free of 24 zero bytes in a row and 64-bit header integers, signing is exact whatever the tag |
| FieldMimicry.ZeroEngineIdBreaksSigning | mock-snmp-agent/src/v3.rs:267-283 | An engine id of 24 zero bytes takes the tag into itself, so the reply is not the tagged message |
| FieldMimicry.MessageIdBreaksSigning | mock-snmp-agent/src/v3.rs:254-259 | A 26-octet message id, which a request may carry and the reply echoes, takes the tag into itself |
| MisplacedTag.MinimalIsInteger | mock-snmp-agent/src/v3.rs:254-259 | Contents octets whose first nine bits differ are the encoding of their value, so an integer with a tag spliced in is still one |
| MisplacedTag.OneSide | mock-snmp-agent/src/v3.rs:275-281 | A splice at a placeholder match changes one side of an element boundary only |
| MisplacedTag.MisplacedReply | mock-snmp-agent/src/v3.rs:267-283 | When a copied field mimics the placeholder, the sent bytes are the encoding of another message, same sizes, whose authentication parameters are still zero |
| Usm.DeriveLocalizedKey | mock-snmp-agent/src/usm.rs:22-39 | The nested loops feed the hash exactly 1 048 576 bytes, byte i being password[i mod len], and with d their digest the key is the hash of d, engine id, d |
| Usm.FillBuffer | mock-snmp-agent/src/usm.rs:26-33 | One 64-byte block continues the password where the last one stopped |
| Usm.RepetitionsShareKeys | mock-snmp-agent/src/usm.rs:22-39 | A password and any whole-number repetition of it derive the same key |
| Usm.BuildIv | mock-snmp-agent/src/usm.rs:86-92 | The array filled by slices is boots, time and salt, big-endian |
| Usm.IvInjective | mock-snmp-agent/src/usm.rs:86-92 | Different (boots, time, 8-byte salt) give different vectors |
| Usm.IvReads | mock-snmp-agent/src/usm.rs:86-92 | Octets 0-3 read boots, 4-7 time, both big-endian, and 8-15 are the salt |
| Usm.XorIsBitwise | mock-snmp-agent/src/usm.rs:50-84 | Each bit of a combined octet is set if and only if exactly one of the two bits is |
| Usm.CiphertextBlock | mock-snmp-agent/src/usm.rs:77-82 | Every ciphertext block is its plaintext block combined with the enciphered previous ciphertext block, the first with the enciphered vector |
| Usm.EncryptedOctet | mock-snmp-agent/src/usm.rs:68-84 | Each octet of `aes_cfb_encrypt` is the plaintext octet combined with that octet of the enciphered previous block, under the first 16 key octets and the vector of boots, time and salt |
| Usm.CfbRoundTrip | mock-snmp-agent/src/usm.rs:50-84 | For an arbitrary block function, any vector and any length, partial last block included, decryption undoes encryption |
| Usm.CfbEncryptInPlace | mock-snmp-agent/src/usm.rs:77-82 | The in-place encryptor leaves the CFB encryption of the buffer |
| Usm.CfbDecryptInPlace | mock-snmp-agent/src/usm.rs:57-62 | The in-place decryptor leaves the CFB decryption of the buffer |
| Usm.EncryptRoundTrip | mock-snmp-agent/src/usm.rs:50-84 | Under equal key, boots, time and salt the agent's decryption undoes its encryption |
| Usm.AesCfbEncrypt | mock-snmp-agent/src/usm.rs:68-84 | The buffer method returns the CFB encryption under the vector of boots, time and salt |
| Usm.AesCfbDecrypt | mock-snmp-agent/src/usm.rs:50-63 | The buffer method returns the CFB decryption under the vector of boots, time and salt |
| V3Agent.AgentState.RegisterUser | mock-snmp-agent/src/v3.rs:56-66 | A user is stored under both localized keys, the privacy key its first 16 bytes, the other users unchanged |
| V3Agent.BuildAuthenticatedReply | mock-snmp-agent/src/v3.rs:221-283 | The reply is the signed encoding of the echoed envelope, the agent's engine and clock, and the scoped PDU, encrypted when asked |
| V3Agent.Uncover | mock-snmp-agent/src/v3.rs:135-158 | The scoped PDU, taken or decrypted in place and decoded, or the cause of the drop |
| V3Agent.AgentState.HandleV3Datagram | mock-snmp-agent/src/v3.rs:77-182 | The request path is total: every datagram yields the reply or the drop cause of its first failing check, in order |
| Utf8.ValidUtf8Exactly | mock-snmp-agent/src/v3.rs:113-114 | A name can be looked up as itself if and only if it is the UTF-8 encoding of some Unicode scalar values, surrogates and overlong forms excluded |
| V3Decisions.Strangers | mock-snmp-agent/src/v3.rs:82-125 | Undecodable datagrams, other engines' and unknown users' requests draw nothing, each dropped by its own check |
| V3Decisions.ForgedIsDropped | mock-snmp-agent/src/v3.rs:126-133 | When bit 0 of the first flags octet is set, a tag that is not the MAC of the datagram with the tag zeroed draws nothing |
| V3Decisions.UnflaggedTagIsIgnored | mock-snmp-agent/src/v3.rs:126-133 | When that bit is clear or the octet absent, two datagrams that differ in the tag alone draw the same outcome |
| V3Decisions.UnflaggedCiphertextIsDropped | mock-snmp-agent/src/v3.rs:138-157 | Encrypted data is dropped when bit 1 of the flags octet is clear or the octet absent, and when set with a salt under eight octets |
| V3Decisions.OpenedIsAnswered | mock-snmp-agent/src/v3.rs:136-181 | Otherwise the scoped PDU, in the clear or decrypted under the named user's key, the stated clock (0 when not 32 bits) and salt, is answered if it is a Get or GetNext and dropped if not |
| V3Decisions.RepliesInKind | mock-snmp-agent/src/v3.rs:221-283 | The reply carries the request's version, ids and name, flags 3 and the salt if bit 1 was set and else 1, the agent's engine and clock, and is signed from 24 zero octets |
| V3EndToEnd.SignedIsTagged | mock-snmp-agent/src/v3.rs:267-283 | The agent's spliced reply is the message a client would encode with the tag |
| V3EndToEnd.SealedIsAccepted | mock-snmp-agent/src/v3.rs:466-519 | A sealed datagram peeks as version 3, decodes, verifies and opens to the sealed scoped PDU |
| V3EndToEnd.OpenUndoesSeal | mock-snmp-agent/src/v3.rs:425-442 | Opening undoes sealing, with or without privacy, for every user, envelope and scoped PDU |
| V3EndToEnd.EndToEnd | mock-snmp-agent/src/v3.rs:77-182 | A Get or GetNext sealed for a registered user is routed to v3 and answered, and the answer opens to exactly the response computed from the map |
| V3EndToEnd.MisplacedNeverOpens | mock-snmp-agent/src/v3.rs:267-283 | A reply whose tag was drawn into a copied field opens for nobody, unless its MAC is zero |
| V3EndToEnd.EndToEndExactly | mock-snmp-agent/src/v3.rs:77-182 | The reply always comes, and unless its MAC is zero it opens to the response if and only if no copied field mimics the placeholder, and otherwise not at all |
| V3EndToEnd.LongMessageIdUnopened | mock-snmp-agent/src/v3.rs:77-182 | A registered user's sealed request with a 26-octet message id draws a reply its sender cannot open |
| V3EndToEnd.RepliesExactlyWhen | mock-snmp-agent/src/v3.rs:77-182 | A datagram draws a reply if and only if it decodes and is a discovery, or names this engine and a registered user, carries the MAC of all its other bytes when flagged so, and opens to a Get or GetNext; never depending on the map |
| V3EndToEnd.DiscoveryAnnouncesEngine | mock-snmp-agent/src/v3.rs:287-346 | Any decodable message with an empty engine id draws a report that decodes to the engine id, boots, time, user name, message id, the request id of a cleartext Get, GetNext or GetBulk (else 0), and 1.3.6.1.6.3.15.1.1.4.0 |
| V3Runs.V3OutcomeInRuns | mock-snmp-agent/src/main.rs:97-128 | In every run, what a finished v3 task sends is the outcome of its datagram on one committed map, which existed between arrival and answer |
| V3Runs.EndToEndInRuns | mock-snmp-agent/src/main.rs:97-128 | In every run, an answered sealed Get or GetNext sent bytes that open to the response computed from one map committed between its arrival and its answer |
| Oids.SortedCandidates | mock-snmp-agent/src/main.rs:186-187 | Filtering the keys in any hash order and sorting gives the sorted greater keys, each once |
| Oids.CandidatesAreTheWalk | mock-snmp-agent/src/main.rs:186-191 | The first sorted candidate is the lexicographic successor, and the candidates are the rest of the walk |
| Oids.WalkIsTheSortedKeys | mock-snmp-agent/src/main.rs:185-191 | Iterating GetNext on a fixed map visits every greater key once, in order, and then ends |
| Oids.NothingIsSkipped | mock-snmp-agent/src/main.rs:185-191 | A key present when the walk stands before it is visited later, whatever is inserted meanwhile |
| Oids.LiveWalkIsComplete | mock-snmp-agent/src/main.rs:185-206 | With inserts between requests, answers strictly increase, and the end comes only after every key present at the start or inserted ahead |
| Oids.LessIsLexicographic | mock-snmp-agent/src/main.rs:186-187 | One OID is below another if and only if, at some arc where they are equal before, it ends or has the smaller arc |
| Snmp.BuildResponse | mock-snmp-agent/src/main.rs:175-214 | One answer per binding, in order, all from one map, under the request's id and no error; each spelt out as by `Snmp.RespondIs` |
| Snmp.RespondIs | mock-snmp-agent/src/main.rs:183-213 | A GetNext answer is the least greater OID with its stored value cut to 32 bits, or EndOfMibView if and only if there is none; a Get answer echoes the name with the stored value, or NoSuchInstance if and only if there is none |
| Numbers.WrapIsCongruent | mock-snmp-agent/src/main.rs:198 | A served value is the one 32-bit integer that differs from the stored one by a multiple of 2^32 |
| Snmp.AnswersIncrease | mock-snmp-agent/src/main.rs:185-206 | Answers before EndOfMibView strictly increase, whatever maps they meet |
| Snmp.ProtocolWalk | mock-snmp-agent/src/main.rs:175-206 | A manager's walk over successive maps: increasing, each value the one stored at its moment, complete before EndOfMibView |
| Control.DottedRoundTrip | mock-snmp-agent/src/control.rs:47-52 | Parsing the dotted rendering of a non-empty OID gives it back |
| Control.ParseU32Exactly | mock-snmp-agent/src/control.rs:50 | A segment parses to n if and only if it is an optional plus sign and at least one digit, of place value n below 2^32 |
| Control.ParseOidExactly | mock-snmp-agent/src/control.rs:47-52 | A dotted string parses to an OID if and only if its segments between dots are the numerals of the arcs, one each |
| Control.SplitIsExact | mock-snmp-agent/src/control.rs:49 | The segments hold no dot and joined by dots give the string back |
| Control.StrayCharacterIsRefused | mock-snmp-agent/src/control.rs:47-52 | A string with any character that is no digit, dot or plus sign does not parse |
| Control.WellFormedExactly | mock-snmp-agent/src/control.rs:64-70 | A body is well formed if and only if every segment of every key is a numeral below 2^32 |
| Control.BatchOrderIrrelevant | mock-snmp-agent/src/control.rs:63-78 | The result of a batch is the same under every iteration order if and only if no OID is spelt twice with different values |
| Control.SpellingsCollide | mock-snmp-agent/src/control.rs:47-52 | `2.2` and `2.02` are such a pair |
| PduView.LineMagnitudeIsNearest | mock-snmp-agent/src/raritan.rs:61-67 | The line-to-line reading is the one integer within half of decivolts times sqrt 3 / 10, by integer inequalities |
| PduView.MirroredVoltage | mock-snmp-agent/src/raritan.rs:64-69 | The mirrored voltage is the integer nearest to decivolts times sqrt 3 / 10 |
| PduView.MirroredCurrent | mock-snmp-agent/src/raritan.rs:61-63 | The mirrored current is ten times its source exactly if and only if that fits 64 bits |
| PduView.LineVoltsIsOdd | mock-snmp-agent/src/raritan.rs:64-69 | A negative voltage mirrors to the negated mirror of its magnitude |
| PduView.MirrorMap | mock-snmp-agent/src/raritan.rs:45-72 | The loop of conditional inserts builds the mirror of whatever readings are present |
| PduView.MirrorAt | mock-snmp-agent/src/raritan.rs:45-72 | The mirror carries each reading, converted, exactly when its source is present, and nothing else |
| PduView.AgreeIsFixpoint | mock-snmp-agent/src/raritan.rs:45-72 | The two views agree if and only if the map already contains its own mirror |
| PduView.BootAgrees | mock-snmp-agent/src/oids.rs:37-62 | At boot the views agree and every reading has its canned value |
| PduView.ShippedOids | mock-snmp-agent/src/oids.rs:43-55 | The fourteen OIDs of the two MIBs, arc by arc |
| PduView.BootPowerIsThePhases | mock-snmp-agent/src/oids.rs:18-20 | The canned input power is the sum of the canned phases' volts times amps to within half a watt |
| PduView.DriftRestores | mock-snmp-agent/src/main.rs:82-90 | A tick restores the PDU2-MIB view whatever was put there, leaves driven OIDs outside it alone and removes no key |
| PduView.DriftShows | mock-snmp-agent/src/main.rs:82-90 | A tick leaves at every PDU2-MIB OID, driven or not, the conversion of the source it found, one step on for an undriven L1 current |
| PduView.DrivenTargetSurvives | mock-snmp-agent/src/main.rs:86-89 | A driven PDU2-MIB OID survives a tick if and only if, in the map before the tick, it already shows its converted source, one step on for an undriven L1 current |
| PduView.Readings | mock-snmp-agent/src/pdu_load.rs:91-108 | The local map filled by the loop is the power, three currents at the snapshot's voltages, and their mirror |
| PduView.StoreKeepsAgreement | mock-snmp-agent/src/pdu_load.rs:57-108 | Storing readings, even ones computed from an older map, keeps the two views in agreement |
| PduView.PhasePowerBound | mock-snmp-agent/src/pdu_load.rs:91-108 | The three reported currents, each at its own phase's voltage in the snapshot (240.0 V when absent), carry the power to within the sum of decivolts / 2000 W, and the reported power is within 0.5 W |
| PduView.PhaseWattsBound | mock-snmp-agent/src/pdu_load.rs:98-104 | Each phase's current at that phase's own voltage in the snapshot carries a third of the power to within decivolts / 2000 W |
| PduView.PollCarriesLoad | mock-snmp-agent/src/pdu_load.rs:91-108 | What one poll stores carries the power P with P share = nodes nodeW + baseW, at the snapshot's voltages |
| Commits.DrivenHoldsLastWrite | mock-snmp-agent/src/simulator.rs:40-53 | Over every history an OID is driven if and only if it was written, and outside the PDU2-MIB view holds the last value written |
| Commits.TargetShows | mock-snmp-agent/src/main.rs:82-90 | Over every history a written PDU2-MIB OID shows its last write, or the mirror of its source at the last tick since |
| Commits.DrivenTargetHolds | mock-snmp-agent/src/main.rs:82-90 | It still holds its last write if and only if no tick ran since or the last one mirrored that very value |
| Commits.DrivenTargetLost | mock-snmp-agent/src/main.rs:82-90 | A batch puts 5 W on the PDU2-MIB input power and one tick runs: the OID is driven, was last written 5, and shows 10 800 |
| Commits.DriftClosedForm | mock-snmp-agent/src/simulator.rs:26-53 | Undriven, the L1 current after n ticks is 1500 + 5 (n mod 21) |
| Commits.AgreementAfterTick | mock-snmp-agent/src/main.rs:86-89 | Every tick restores agreement, which lasts until the next PUT |
| Commits.NoEmptyKey | mock-snmp-agent/src/main.rs:196 | The empty OID never becomes a key, so a response name is never empty |
| SharedOids.SharedState.constructor | mock-snmp-agent/src/oids.rs:37-41 | Boot is the empty history |
| SharedOids.ParseBody | mock-snmp-agent/src/control.rs:64-70 | Parsing succeeds exactly when every OID is well formed, and yields the batch in some iteration order |
| SharedOids.SharedState.PutOids | mock-snmp-agent/src/control.rs:63-78 | In place: a body with a key that is not numerals below 2^32 between dots changes nothing; of any other the OIDs it spells become driven and hold a value it gives them, and nothing else changes |
| SharedOids.CommitWritesBody | mock-snmp-agent/src/control.rs:71-76 | In every iteration order the commit of a well-formed body drives exactly the OIDs it spells, gives each a value the body gives it, and leaves every other OID alone |
| SharedOids.SharedState.DriftSection | mock-snmp-agent/src/main.rs:82-90 | In place: tick, then extend by the mirror |
| SharedOids.SharedState.Store | mock-snmp-agent/src/pdu_load.rs:57-61 | In place: mark the readings' OIDs driven and overwrite them, nothing else |
| AgentTasks.LockOrderRespected | mock-snmp-agent/src/control.rs:25-28 | At every program point, every lock waited for is above every lock held |
| AgentTasks.TaskStepOk | mock-snmp-agent/src/main.rs:82-90 | Every step of every task keeps the link between the shared data and the committed history |
| AgentRuns.DeadlockFree | mock-snmp-agent/src/control.rs:25-28 | Any number of tasks at any program points: while one is unfinished, one can move |
| AgentRuns.MutualExclusion | mock-snmp-agent/src/control.rs:71-72 | In every reachable state no two tasks hold the same lock |
| AgentRuns.Reachable | mock-snmp-agent/src/main.rs:78-130 | Every reachable state satisfies the invariant over the replayed history |
| AgentRuns.SectionsCanEnd | mock-snmp-agent/src/pdu_load.rs:57-61 | From every reachable state, moving only tasks that hold a lock frees every lock |
| AgentRuns.RequestCanFinish | mock-snmp-agent/src/control.rs:25-28 | From every reachable state every unfinished PUT or Get can be brought to its end, whatever the other tasks hold |
| AgentHistory.UnlockedMapIsCommitted | mock-snmp-agent/src/control.rs:61-78 | Whenever `values` is unlocked it is exactly the committed map: no part of a batch, tick or store shows |
| AgentHistory.ReadsAreAtomic | mock-snmp-agent/src/main.rs:180-206 | Every answered request was read entirely from one committed map |
| AgentHistory.ReadsAreRecent | mock-snmp-agent/src/main.rs:180-206 | That map existed between the request's arrival and its answer |
| AgentHistory.BatchAllOrNothing | mock-snmp-agent/src/control.rs:61-78 | A PUT is accepted exactly when every segment of every key is a numeral below 2^32, an accepted batch was committed whole between the PUT's arrival and its answer, and a malformed one never holds a lock |
| AgentHistory.StrayCharactersAreRefused | mock-snmp-agent/src/control.rs:61-70 | In every run a PUT with a key holding any character that is no digit, dot or plus sign is never accepted and never holds a lock |
| AgentHistory.ReadsSeeAcceptedPuts | mock-snmp-agent/src/main.rs:180-206 | A request not yet read when a PUT was accepted is answered from a map that includes that PUT's batch |
| AgentHistory.LastWriteIsServed | mock-snmp-agent/src/main.rs:192-199 | An answered Get of a driven OID outside the PDU2-MIB view carries the last value written, exactly if and only if it fits 32 bits |
| AgentHistory.GetNextIsServed | mock-snmp-agent/src/main.rs:185-205 | Every answered GetNext names the least OID above the request in one committed map with its stored value, or EndOfMibView if and only if none is above |
| AgentHistory.GetIsServed | mock-snmp-agent/src/main.rs:192-205 | Every answered Get echoes each name with the value stored in one committed map, or NoSuchInstance if and only if that map has none; never EndOfMibView |
| AgentHistory.RequestsAreServed | mock-snmp-agent/src/main.rs:175-214 | Every answered request got the response spelt out by `Snmp.RespondIs` for one committed map: its id, no error, one answer per binding |
| AgentHistory.DrivenValuesSurvive | mock-snmp-agent/src/control.rs:63-78 | Over every interleaving a driven OID outside the PDU2-MIB view holds the last value a batch or a store gave it |
| AgentHistory.DrivenTargetsHold | mock-snmp-agent/src/main.rs:82-90 | Over every interleaving a driven OID inside the view holds its last write if and only if no tick was committed since or the last one mirrored that value |
| AgentHistory.ViewsAgree | mock-snmp-agent/src/main.rs:86-89 | In runs without PUTs the views agree whenever `values` is unlocked; with PUTs each tick restores that until the next |
| AgentHistory.UndrivenCurrentDrifts | mock-snmp-agent/src/simulator.rs:40-53 | Over every interleaving the undriven L1 current is the closed form of the ticks so far |
| AgentHistory.WalkUnderInterleaving | mock-snmp-agent/src/main.rs:175-206 | A finished GetNext walk whose requests interleave with every other task strictly increases and misses no OID committed while its first request was unread, nor one inserted ahead of it |
| AgentHistory.WalkIncreases | mock-snmp-agent/src/main.rs:175-206 | A walk, finished or not, strictly increases as long as it has not reached EndOfMibView |
| Registers.WordsRoundTrip | mock-modbus-server/src/rack_registers.rs:73-94 | Splitting an int32 into words and joining them is the identity, negative values included |
| Registers.PutI32ReadsBack | mock-modbus-server/src/rack_registers.rs:73-94 | An undriven pair reads back what was put; a pair with either word driven keeps both |
| Registers.ReadI32Exactly | mock-modbus-server/src/rack_registers.rs:73-77 | The signed integer congruent to high times 65536 plus low modulo 2^32, absent words counting as 0 |
| Registers.WrittenHoldsLast | mock-modbus-server/src/handler.rs:78-87 | After a list of writes each named address holds the last value written to it |
| Registers.BatchOrderIrrelevant | mock-modbus-server/src/handler.rs:42-47 | A register batch leaves the same registers whatever order its map is iterated in |
| MeterHandlers.MeterHandler.ApplyWrites | mock-modbus-server/src/handler.rs:42-47 | In place: every address of the batch is written and driven, in any order, and nothing else changes |
| MeterHandlers.MeterHandler.WriteSingleRegister | mock-modbus-server/src/handler.rs:66-73 | Function code 6: write and mark when writable, IllegalFunction and no change otherwise |
| MeterHandlers.MeterHandler.WriteMultipleRegisters | mock-modbus-server/src/handler.rs:78-87 | Function code 16: all writes in order, the last to an address winning, exactly the named addresses becoming driven, or IllegalFunction and no change |
| MeterHandlers.MeterHandler.ReadHoldingRegister | mock-modbus-server/src/handler.rs:51-56 | The stored word, or IllegalDataAddress when there is none |
| MeterHandlers.MeterHandler.ReadInputRegister | mock-modbus-server/src/handler.rs:58-63 | The word of the separate input space, or IllegalDataAddress |
| MeterHandlers.MeterHandler.PutDouble | mock-modbus-server/src/rack_registers.rs:87-94 | Writes both words, high first, unless either is driven |
| MeterHandlers.MeterHandler.WritePoiPower | mock-modbus-server/src/poi.rs:35-43 | Writes the float's high word at 3060 and its low word at 3061 unless either is driven, and nothing else |
| Derate.LimitsAreMonotone | mock-modbus-server/src/derate.rs:15-23 | Filling up never lowers the discharge limit nor raises the charge limit |
| Derate.DischargeIsBounded | mock-modbus-server/src/derate.rs:15-17 | The discharge limit is between 0 and the rating, and 0 W exactly when empty |
| Derate.ChargeIsBounded | mock-modbus-server/src/derate.rs:20-23 | The charge limit is between 0 and the rating, and 0 W exactly when full |
| RackEnergy.NeverBelowEmpty | mock-modbus-server/src/battery.rs:51-55 | Within 200 cap / rated hours no allowed power takes out more than is stored |
| RackEnergy.NeverAboveFull | mock-modbus-server/src/battery.rs:51-55 | Within 100 cap / rated hours no allowed power overfills |
| RackEnergy.ClampBound | mock-modbus-server/src/battery.rs:54-55 | Some state of charge and setpoint make a clamp bind if and only if rated times hours exceeds 100 cap |
| RackEnergy.ClampBoundInSeconds | mock-modbus-server/src/battery.rs:52-55 | The same in wall time: a clamp can bind if and only if rated watts times seconds times time scale exceeds 360 000 times the capacity in kWh |
| RackEnergy.DeliverableIsNearest | mock-modbus-server/src/battery.rs:98-103 | The delivered power is the unique allowed power nearest the setpoint |
| RackEnergy.StepConserves | mock-modbus-server/src/battery.rs:51-58 | A step within the bound takes from the store exactly what it delivers, and counts it when discharging |
| RackEnergy.DischargeClosedForm | mock-modbus-server/src/derate.rs:15-17 | Saturated discharge from at most 20 % leaves soc times (1 - rated h / 200 cap) to the n-th after n steps |
| RackEnergy.ChargeClosedForm | mock-modbus-server/src/derate.rs:20-23 | Saturated charge from at least 90 % shrinks the room by (1 - rated h / 100 cap) per step |
| RackEnergy.RunsDryOnlyAtTheBound | mock-modbus-server/src/derate.rs:15-17 | Within the step bound a non-empty rack ever reaches 0 if and only if the bound is met exactly |
| BessRack.Battery.Step | mock-modbus-server/src/battery.rs:47-87 | In place: the new charge and the new registers, from the driven or kept state of charge and the setpoint words |
| BessRack.StepFollowsCommand | mock-modbus-server/src/battery.rs:48-51 | The power delivered is the allowed one nearest the signed integer at 50-51, at the charge of register 0 in tenths when that is driven and the kept one otherwise |
| BessRack.BatteryConserves | mock-modbus-server/src/battery.rs:47-58 | From either charge, a step within the bound takes power times hours from the store, 3600 times the hours being seconds times time scale |
| BessRack.PublishedReads | mock-modbus-server/src/battery.rs:67-86 | After a step each undriven reading decodes to its value, independently of which others are driven |
| BessRack.StepReports | mock-modbus-server/src/battery.rs:47-87 | Each undriven register reports what the step did: power at 10-11, charge in tenths of a percent at 0, lifetime energy at 30-31 and the new limits at 60-63 to the nearest unit, and at 40 the sign of the power |
| BessRack.PublishedFrame | mock-modbus-server/src/battery.rs:67-86 | A step touches no driven address and none outside its ten |
| BessRack.InitialLimits | mock-modbus-server/src/rack_registers.rs:44-70 | The boot registers decode to the limits of the initial state of charge and an idle setpoint |
| BessRack.InitialReadings | mock-modbus-server/src/rack_registers.rs:44-70 | At boot register 0 is the charge in tenths of a percent and 60-63 the limits in watts, to the nearest; 20 and 22 read 4800 and 6000, all others 0, and no others exist |
| Numbers.SaturationIsNearest | mock-modbus-server/src/battery.rs:67-84 | A saturating cast yields the nearest value in range |
| BessRack.RoundedWithinLimits | mock-modbus-server/src/battery.rs:73-84 | A power within real limits is within them after both are rounded and saturated |
| Sawtooth.Tick | mock-modbus-server/src/simulator.rs:51-66 | In place: the channels advance in order, channels with a driven word skipped |
| Sawtooth.TickAdvances | mock-modbus-server/src/simulator.rs:56-64 | The split words of an undriven channel decode to the advanced value |
| Sawtooth.SawtoothClosedForm | mock-modbus-server/src/simulator.rs:51-66 | n ticks from the lower bound give min + (n mod period) step for all n, if and only if the upper bound is below 2^32 - 1 or is the lower bound |
| ModbusHistory.Server.Perform | mock-modbus-server/src/main.rs:151-173 | Each event, performed on the live objects, leaves the device of the event model |
| ModbusHistory.InternalFrame | mock-modbus-server/src/rack_registers.rs:80-94 | Internal writers keep driven words and every word they do not own |
| ModbusHistory.DrivenOnlyGrows | mock-modbus-server/src/handler.rs:42-47 | Over every run the driven set and the registers only grow; driven addresses always have registers |
| ModbusHistory.UnwrittenIsUndriven | mock-modbus-server/src/handler.rs:40-87 | Words are undriven after a run exactly when no accepted external write named them |
| ModbusHistory.DrivenHoldsLastAccepted | mock-modbus-server/src/handler.rs:40-87 | Over every interleaving an address is driven if and only if an external write to it was accepted, and holds the last one |
| ModbusHistory.EnergyIsConserved | mock-modbus-server/src/battery.rs:47-58 | Over every interleaving in which nobody writes SoC and steps stay within the bound, 36 000 cap watt-seconds per percent of charge lost are exactly the sum of power times seconds times time scale, and the counter rises by its positive part over 3600 |
| ModbusHistory.ChargeStaysFilled | mock-modbus-server/src/battery.rs:48-55 | The state of charge is a percentage after every event, driven or not |
| ModbusHistory.HeldUnderInterleaving | mock-modbus-server/src/battery.rs:47-58 | With a setpoint nobody writes, the state of charge depends only on the number of steps of seconds times scale / 3600 hours each, whatever runs in between |
| ModbusHistory.PublishedLimitsBind | mock-modbus-server/src/battery.rs:73-84 | From boot on, each step's reported power lies within the limit registers as they were before it, rounding included |
| ModbusHistory.SawtoothUnderInterleaving | mock-modbus-server/src/simulator.rs:51-66 | An undriven channel shows exactly the value of as many ticks as have happened |
| ModbusHistory.KwhDelivered | mock-modbus-server/src/registers.rs:37-41 | The int64 at 3204-3207 is 1 000 000 + 100 (n mod 101) after n ticks, in every run that leaves its words undriven |

## Left out

- Sockets, HTTP routing, JSON, TLS, environment parsing, logging and task spawning.
- The insides of SHA-256, HMAC and AES, random salts and the clock: parameters of the model.
- Full ASN.1: only definite lengths and the elements of the v3 envelope; the inner PDU codec is a parameter, assumed to carry the two PDUs of an exchange and to yield non-empty names.
- V3EndToEnd.EndToEnd: assumes that neither tag stands in its datagram before its own field; with a MAC as a parameter that cannot be excluded.
- V3EndToEnd.EndToEndExactly: copied fields are below 65536 bytes, the size of the receive buffer; says nothing of a reply whose own MAC is 24 zero bytes.
- PduView.MirroredCurrent: this, MirroredVoltage and PhasePowerBound speak of layouts with the fixture's own unit conversions.
- FieldMimicry.OctetStringMimics: covers octet strings below 65536 bytes, the size of the receive buffer.
- A privacy salt under eight bytes makes the source's slice index panic; the model drops that datagram with its own cause.
- IEEE rounding of f64: reals with round-half-away-from-zero; the POI float's bits are an argument.
- PduView.PhasePowerBound: needs positive phase voltages and readings that fit 64 bits; zero volts divide by zero in the source.
- PduView.Readings: requires a non-zero share; the source divides by it in floating point.
- Debug-build overflow panics: `centiamps * 10` wraps, as in a release build.
- The OID constants are a parameter with distinct slots, and the shipped OIDs are shown to be one instance, so that proofs do not unfold long literals.
- Fairness of the mutexes: only safety, deadlock freedom and that sections can end are proved, not that each waiter is served.
- A v2c or v3 request in the task model is a decoded request, or one that is dropped; its bytes are the subject of the v3 modules.
- The POI polling loop and node power polling: the polled numbers are arguments.
- MeterHandlers.MeterHandler.WriteMultipleRegisters: takes any list of writes; the frame format that yields consecutive addresses is not part of this model.
- `mock-dnp3-outstation`, `mock-bacnet-device`, `mock-redfish-service`, `compute_load.rs`, `dc_external.rs` and `pv_inverter.rs`: constants, stubs, JSON shapes or one-line formulas.
