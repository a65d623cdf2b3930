/** SNMPv3 datagrams inside a run of the agent: the bytes a v3 task sends are
    those of `Handle` on one committed map (mock-snmp-agent/src/main.rs, v3.rs). */
module V3Runs {
  import opened Numbers
  import opened Control
  import opened Snmp
  import opened PduView
  import opened Commits
  import opened AgentTasks
  import opened AgentRuns
  import opened AgentHistory
  import opened AuthTag
  import opened AuthPlacement
  import opened V3Message
  import opened V3Agent
  import opened Utf8
  import V3EndToEnd

  // ----- A datagram as a task -----

  function NoPdu(): (pdu: Pdu) {
    Pdu(0, 0, 0, [])
  }

  /** The job a datagram becomes: undecodable ones end before any lock, discoveries
      and refused ones under the AgentState lock, served ones read the map. */
  ghost function V3Job(p: Primitives, e: Engine, datagram: seq<byte>): (job: Job) {
    var request := V3EndToEnd.Request(p.codec, datagram);
    if request.None? then Job(NoPdu(), false, false, true)
    else
      var (m, u) := request.value;
      if u.engineId != [] && V3EndToEnd.Served(p, e, datagram, m, u) then
        var data := ServedScoped(p, e, datagram, m, u).data;
        Job(data.pdu, data.GetNextRequest?, true, false)
      else Job(NoPdu(), false, true, true)
  }

  /** The opened scoped PDU of a served datagram. */
  ghost function ServedScoped(p: Primitives, e: Engine, datagram: seq<byte>, m: Message, u: UsmParameters)
    : (scoped: ScopedPdu)
    requires V3EndToEnd.Served(p, e, datagram, m, u)
    ensures Answerable(scoped.data)
  {
    OpenScoped(p, m, u, e.users[LookupName(u.userName)]).0.value
  }

  /** The bytes sent for a task's result: the signed reply that carries the task's
      response, or whatever the datagram draws without reading the map. */
  ghost function Sent(p: Primitives, e: Engine, datagram: seq<byte>, reply: Option<Pdu>, salt: seq<byte>)
    : (outcome: Outcome)
    requires |salt| == 8 && (reply.Some? ==> !V3Job(p, e, datagram).dropped)
  {
    if reply.None? then Handle(p, e, map[], datagram, salt)
    else
      var (m, u) := V3EndToEnd.Request(p.codec, datagram).value;
      ReplyWith(p, e, m, u, e.users[LookupName(u.userName)], ServedScoped(p, e, datagram, m, u), reply.value, salt)
  }

  /** A dropped job's datagram draws the same outcome from every map. */
  lemma DroppedIgnoresMap(p: Primitives, e: Engine, values: Values, datagram: seq<byte>, salt: seq<byte>)
    requires |salt| == 8 && V3Job(p, e, datagram).dropped
    ensures Handle(p, e, values, datagram, salt) == Handle(p, e, map[], datagram, salt)
  {
    V3EndToEnd.RepliesExactlyWhen(p, e, values, datagram, salt);
    V3EndToEnd.RepliesExactlyWhen(p, e, map[], datagram, salt);
  }

  lemma ServedAnswers(p: Primitives, e: Engine, values: Values, datagram: seq<byte>, salt: seq<byte>)
    requires |salt| == 8 && !V3Job(p, e, datagram).dropped
    ensures
      var job := V3Job(p, e, datagram);
      Handle(p, e, values, datagram, salt) == Sent(p, e, datagram, Some(Respond(values, job.request, job.isNext)), salt)
  {
    var (m, u) := V3EndToEnd.Request(p.codec, datagram).value;
    AcceptanceMeansMac(p.hmac, datagram, u.authParams, e.users[LookupName(u.userName)].authKey);
  }

  // ----- The task in a run -----

  /** A request task never changes its job, and is answered unless dropped. */
  predicate Carries(task: Task, job: Job) {
    match task
    case GetStart(j) => j == job
    case GetCheck(j) => j == job
    case GetWantValues(j) => j == job && !job.dropped
    case GetRead(j, _, _) => j == job && !job.dropped
    case GetReply(j, _, _) => j == job && !job.dropped
    case GetDone(j, _, reply) => j == job && (reply.Some? <==> !job.dropped)
    case _ => false
  }

  lemma StepCarries(task: Task, sh: Shared, job: Job)
    requires IsGet(task) && Carries(task, job)
    ensures Carries(GetMoves(task, sh), job)
  {
  }

  lemma {:induction false} JobIsCarried(l: Layout, boot: Values, run: seq<Sys>, moves: seq<Move>,
                                        t: nat, i: nat, j: nat, job: Job)
    requires IsRun(l, boot, run, moves) && i <= j < |run| && t < |run[i].tasks|
    requires run[i].tasks[t] == GetStart(job)
    ensures t < |run[j].tasks| && IsGet(run[j].tasks[t]) && Carries(run[j].tasks[t], job)
    decreases j
  {
    if i < j {
      JobIsCarried(l, boot, run, moves, t, i, j - 1, job);
      assert MoveOk(l, run, moves, j - 1);
      if moves[j - 1].task == t {
        StepCarries(run[j - 1].tasks[t], run[j - 1].shared, job);
      }
    }
  }

  /** In every run, what a finished v3 task sends is the outcome of its datagram on
      the map as it was after the commits the task read; when it read, that map
      existed between the datagram's arrival and its answer. */
  lemma V3OutcomeInRuns(l: Layout, boot: Values, run: seq<Sys>, moves: seq<Move>, t: nat, i: nat, j: nat,
                        p: Primitives, e: Engine, datagram: seq<byte>, salt: seq<byte>)
    requires IsRun(l, boot, run, moves) && i <= j < |run| && t < |run[i].tasks| && |salt| == 8
    requires run[i].tasks[t] == GetStart(V3Job(p, e, datagram))
    requires t < |run[j].tasks| && run[j].tasks[t].GetDone?
    ensures
      var reply, stamp := run[j].tasks[t].reply, run[j].tasks[t].stamp;
      && (reply.Some? <==> !V3Job(p, e, datagram).dropped)
      && (reply.None? ==> forall values :: Handle(p, e, values, datagram, salt) == Sent(p, e, datagram, reply, salt))
      && (reply.Some? ==>
            && |run[i].shared.log| <= stamp <= |run[j].shared.log|
            && Handle(p, e, Replay(l, boot, run[j].shared.log[..stamp]).values, datagram, salt)
                 == Sent(p, e, datagram, reply, salt))
  {
    var job := V3Job(p, e, datagram);
    JobIsCarried(l, boot, run, moves, t, i, j, job);
    if job.dropped {
      forall values
        ensures Handle(p, e, values, datagram, salt) == Handle(p, e, map[], datagram, salt)
      {
        DroppedIgnoresMap(p, e, values, datagram, salt);
      }
    } else {
      ReadsAreRecent(l, boot, run, moves, t, i, j);
      ReadsAreAtomic(l, boot, run, moves, j, t);
      ServedAnswers(p, e, Replay(l, boot, run[j].shared.log[..run[j].tasks[t].stamp]).values, datagram, salt);
    }
  }

  /** End to end in every run: a sealed Get or GetNext that has been answered sent
      bytes that open to the response computed from one map committed between its
      arrival and its answer. */
  lemma EndToEndInRuns(l: Layout, boot: Values, run: seq<Sys>, moves: seq<Move>, t: nat, i: nat, j: nat,
                       p: Primitives, e: Engine, userName: seq<byte>, env: V3EndToEnd.Envelope, scoped: ScopedPdu,
                       salt: seq<byte>, stamp: nat)
    requires IsRun(l, boot, run, moves) && i <= j < |run| && t < |run[i].tasks| && |salt| == 8
    requires e.engineId != [] && ValidUtf8(userName) && userName in e.users && Answerable(scoped.data)
    requires V3EndToEnd.Travels(p, e.engineId, userName, e.users[userName], env, scoped)
    requires run[i].tasks[t]
          == GetStart(V3Job(p, e, V3EndToEnd.Seal(p, e.engineId, userName, e.users[userName], env, scoped)))
    requires t < |run[j].tasks| && run[j].tasks[t].GetDone? && stamp == run[j].tasks[t].stamp <= |run[j].shared.log|
    requires V3EndToEnd.Travels(p, e.engineId, userName, e.users[userName], V3EndToEnd.ReplyEnvelopeOf(e, env, salt),
               V3EndToEnd.Expected(e, Replay(l, boot, run[j].shared.log[..stamp]).values, scoped))
    requires !Mimics(V3EndToEnd.SealedMessage(p, e.users[userName], env, scoped),
                     V3EndToEnd.SealedUsm(e.engineId, userName, V3EndToEnd.ReplyEnvelopeOf(e, env, salt)))
    ensures run[j].tasks[t].reply.Some? && |run[i].shared.log| <= stamp
    ensures
      var datagram := V3EndToEnd.Seal(p, e.engineId, userName, e.users[userName], env, scoped);
      && !V3Job(p, e, datagram).dropped
      && var outcome := Sent(p, e, datagram, run[j].tasks[t].reply, salt);
         && outcome.Reply?
         && V3EndToEnd.Open(p, e.users[userName], outcome.bytes)
              == Some(V3EndToEnd.Expected(e, Replay(l, boot, run[j].shared.log[..stamp]).values, scoped))
  {
    var user := e.users[userName];
    var datagram := V3EndToEnd.Seal(p, e.engineId, userName, user, env, scoped);
    var values := Replay(l, boot, run[j].shared.log[..stamp]).values;
    V3EndToEnd.SealedIsServed(p, e, userName, env, scoped);
    V3OutcomeInRuns(l, boot, run, moves, t, i, j, p, e, datagram, salt);
    V3EndToEnd.EndToEnd(p, e, values, userName, env, scoped, salt);
  }
}
