/** SNMP PDUs and the Get/GetNext responder (mock-snmp-agent/src/main.rs). */
module Snmp {
  import opened Numbers
  import opened Oids
  import opened Control

  datatype BindingValue = Unspecified | IntegerValue(v: i32) | NoSuchInstance | EndOfMibView

  datatype VarBind = VarBind(name: Oid, value: BindingValue)

  datatype Pdu = Pdu(requestId: i32, errorStatus: nat, errorIndex: nat, bindings: seq<VarBind>)

  datatype Pdus =
    | GetRequest(pdu: Pdu)
    | GetNextRequest(pdu: Pdu)
    | GetBulkRequest(pdu: Pdu)
    | SetRequest(pdu: Pdu)
    | Response(pdu: Pdu)
    | Report(pdu: Pdu)

  /** The answer to one binding against one state of the map. */
  ghost function Answer(values: Values, name: Oid, isNext: bool): (r: VarBind) {
    if isNext then
      match Successor(values.Keys, name)
      case Some(next) => VarBind(next, IntegerValue(WrapI32(values[next])))
      case None => VarBind(name, EndOfMibView)
    else if name in values then VarBind(name, IntegerValue(WrapI32(values[name])))
    else VarBind(name, NoSuchInstance)
  }

  /** The response a single state of the map determines. */
  ghost function Respond(values: Values, request: Pdu, isNext: bool): (r: Pdu) {
    Pdu(request.requestId, 0, 0,
        seq(|request.bindings|, i requires 0 <= i < |request.bindings| =>
          Answer(values, request.bindings[i].name, isNext)))
  }

  /** `build_response`, run under the `values` lock. The OIDs are non-empty, as
      the decoder and `parse_oid` make them; the source panics on an empty one. */
  method BuildResponse(values: Values, request: Pdu, isNext: bool) returns (response: Pdu)
    requires [] !in values && forall vb | vb in request.bindings :: vb.name != []
    ensures response == Respond(values, request, isNext)
    ensures Responds(values, request, isNext, response)
  {
    RespondIs(values, request, isNext);
    var vars: seq<VarBind> := [];
    for i := 0 to |request.bindings|
      invariant |vars| == i
      invariant forall j | 0 <= j < i :: vars[j] == Answer(values, request.bindings[j].name, isNext)
    {
      assert request.bindings[i] in request.bindings;
      var reqOid := request.bindings[i].name;
      var respOid, respValue := reqOid, None;
      if isNext {
        var candidates := SortedCandidates(values.Keys, reqOid);
        CandidatesAreTheWalk(values.Keys, reqOid, candidates);
        if candidates != [] {
          respOid, respValue := candidates[0], Some(values[candidates[0]]);
        }
      } else if reqOid in values {
        respValue := Some(values[reqOid]);
      }
      assert respOid != [];
      var value :=
        match respValue
        case Some(v) => IntegerValue(WrapI32(v))
        case None => if isNext then EndOfMibView else NoSuchInstance;
      vars := vars + [VarBind(respOid, value)];
    }
    return Pdu(request.requestId, 0, 0, vars);
  }

  /** `v` is the stored value cut to 32 bits. */
  predicate Truncates(v: i32, stored: i64) {
    (stored as int - v as int) % 0x1_0000_0000 == 0
  }

  lemma ServedTruncates(stored: i64, v: i32)
    ensures v == WrapI32(stored) <==> Truncates(v, stored)
  {
    WrapIsCongruent(stored);
  }

  /** GetNext, spelt out: the least stored OID above the request with its stored
      value cut to 32 bits; EndOfMibView if and only if nothing is above. */
  ghost predicate NextIs(values: Values, name: Oid, a: VarBind) {
    if exists k :: k in values && Less(name, k) then
      && a.name in values && Less(name, a.name)
      && (forall k | k in values && Less(name, k) :: LessEq(a.name, k))
      && a.value.IntegerValue? && Truncates(a.value.v, values[a.name])
    else a == VarBind(name, EndOfMibView)
  }

  lemma GetNextAnswer(values: Values, name: Oid)
    ensures NextIs(values, name, Answer(values, name, true))
  {
    var a := Answer(values, name, true);
    if a.value.IntegerValue? {
      ServedTruncates(values[a.name], a.value.v);
    }
  }

  /** Get, spelt out: the name echoed, with the stored value cut to 32 bits if
      there is one and NoSuchInstance if and only if there is none. */
  predicate GetIs(values: Values, name: Oid, a: VarBind) {
    && a.name == name
    && (name in values ==> a.value.IntegerValue? && Truncates(a.value.v, values[name]))
    && (name !in values ==> a.value == NoSuchInstance)
  }

  lemma GetAnswer(values: Values, name: Oid)
    ensures GetIs(values, name, Answer(values, name, false))
  {
    if name in values {
      ServedTruncates(values[name], WrapI32(values[name]));
    }
  }

  /** The response to a request, spelt out: its id, no error, one answer for each
      binding in order. */
  ghost predicate Responds(values: Values, request: Pdu, isNext: bool, response: Pdu) {
    && response.requestId == request.requestId && response.errorStatus == 0 && response.errorIndex == 0
    && |response.bindings| == |request.bindings|
    && forall b | 0 <= b < |request.bindings| ::
         if isNext then NextIs(values, request.bindings[b].name, response.bindings[b])
         else GetIs(values, request.bindings[b].name, response.bindings[b])
  }

  lemma RespondIs(values: Values, request: Pdu, isNext: bool)
    ensures Responds(values, request, isNext, Respond(values, request, isNext))
  {
    forall b | 0 <= b < |request.bindings|
      ensures if isNext then NextIs(values, request.bindings[b].name, Respond(values, request, isNext).bindings[b])
              else GetIs(values, request.bindings[b].name, Respond(values, request, isNext).bindings[b])
    {
      if isNext {
        GetNextAnswer(values, request.bindings[b].name);
      } else {
        GetAnswer(values, request.bindings[b].name);
      }
    }
  }

  /** A 32-bit value is served unchanged. */
  lemma SmallValuesServedExactly(v: i64)
    ensures -I32_LIMIT <= v < I32_LIMIT <==> WrapI32(v) == v
  {
  }

  /** The OID the manager's `i`-th request names: the previous answer's. */
  function Asked(start: Oid, answers: seq<VarBind>, i: nat): (r: Oid)
    requires i <= |answers|
  {
    if i == 0 then start else answers[i - 1].name
  }

  ghost predicate AnsweredBy(values: Values, start: Oid, answers: seq<VarBind>, i: nat)
    requires i < |answers|
  {
    answers[i] == Answer(values, Asked(start, answers, i), true)
  }

  /** A manager's walk whose `i`-th GetNext meets the map `maps[i]`. */
  ghost predicate LiveAnswers(maps: seq<Values>, start: Oid, answers: seq<VarBind>) {
    && |answers| <= |maps|
    && forall i | 0 <= i < |answers| :: AnsweredBy(maps[i], start, answers, i)
  }

  /** Only the last answer, if any, is EndOfMibView. */
  predicate RunsToTheEnd(answers: seq<VarBind>) {
    && |answers| > 0
    && answers[|answers| - 1].value == EndOfMibView
    && forall i | 0 <= i < |answers| - 1 :: answers[i].value != EndOfMibView
  }

  /** The OIDs answered before EndOfMibView. */
  function Visited(answers: seq<VarBind>): (r: seq<Oid>)
    requires |answers| > 0
    ensures |r| == |answers| - 1
    ensures forall i | 0 <= i < |r| :: r[i] == answers[i].name
  {
    seq(|answers| - 1, i requires 0 <= i < |answers| - 1 => answers[i].name)
  }

  function Names(answers: seq<VarBind>): (r: seq<Oid>)
    ensures |r| == |answers|
    ensures forall i | 0 <= i < |r| :: r[i] == answers[i].name
  {
    seq(|answers|, i requires 0 <= i < |answers| => answers[i].name)
  }

  function KeySets(maps: seq<Values>): (r: seq<set<Oid>>)
    ensures |r| == |maps|
    ensures forall i | 0 <= i < |r| :: r[i] == maps[i].Keys
  {
    seq(|maps|, i requires 0 <= i < |maps| => maps[i].Keys)
  }

  lemma AnswersFollowSuccessors(maps: seq<Values>, start: Oid, answers: seq<VarBind>)
    requires LiveAnswers(maps, start, answers) && RunsToTheEnd(answers)
    ensures LiveWalk(KeySets(maps), start, Visited(answers))
    ensures Successor(maps[|answers| - 1].Keys, Asked(start, answers, |answers| - 1)).None?
  {
    var visited := Visited(answers);
    forall i | 0 <= i < |visited|
      ensures Answered(KeySets(maps), start, visited, i)
    {
      assert AnsweredBy(maps[i], start, answers, i) && answers[i].value != EndOfMibView;
    }
    assert AnsweredBy(maps[|visited|], start, answers, |visited|);
  }

  /** Answers before EndOfMibView strictly increase, whatever maps they meet. */
  lemma AnswersIncrease(maps: seq<Values>, start: Oid, answers: seq<VarBind>)
    requires LiveAnswers(maps, start, answers)
    requires forall i | 0 <= i < |answers| :: answers[i].value != EndOfMibView
    ensures Sorted([start] + Names(answers))
  {
    var visited, snaps := Names(answers), KeySets(maps);
    forall i | 0 <= i < |visited|
      ensures Answered(snaps, start, visited, i)
    {
      assert AnsweredBy(maps[i], start, answers, i);
    }
    forall i, j | 0 <= i < j < |[start] + visited|
      ensures Less(([start] + visited)[i], ([start] + visited)[j])
    {
      LiveWalkIncreases(snaps, start, visited, i, j);
    }
  }

  /** The protocol walk: answers before EndOfMibView strictly increase, each
      carries the value stored at its moment, and the walk ends only after every
      OID present at the start (or inserted ahead of it) was answered. */
  lemma ProtocolWalk(maps: seq<Values>, start: Oid, answers: seq<VarBind>)
    requires Growing(KeySets(maps)) && LiveAnswers(maps, start, answers) && RunsToTheEnd(answers)
    ensures Sorted([start] + Visited(answers))
    ensures Above(maps[0].Keys, start) <= Elements(Visited(answers))
    ensures forall i, k | 0 <= i < |answers| && k in maps[i] && Less(Asked(start, answers, i), k) ::
              k in Visited(answers)[i..]
    ensures forall i | 0 <= i < |answers| - 1 ::
              answers[i].name in maps[i] && answers[i].value == IntegerValue(WrapI32(maps[i][answers[i].name]))
  {
    var visited, snaps := Visited(answers), KeySets(maps);
    AnswersFollowSuccessors(maps, start, answers);
    LiveWalkIsComplete(snaps, start, visited);
    forall i, k | 0 <= i < |answers| && k in maps[i] && Less(Asked(start, answers, i), k)
      ensures k in visited[i..]
    {
      assert k in snaps[i] && Asked(start, answers, i) == Oids.Position(start, visited, i);
    }
    forall i | 0 <= i < |answers| - 1
      ensures answers[i].name in maps[i] && answers[i].value == IntegerValue(WrapI32(maps[i][answers[i].name]))
    {
      assert AnsweredBy(maps[i], start, answers, i);
    }
  }
}
