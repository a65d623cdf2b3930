/** What every run of the agent guarantees to its clients. */
module AgentHistory {
  import opened Numbers
  import opened Oids
  import opened Control
  import opened Snmp
  import opened PduView
  import opened Commits
  import opened AgentTasks
  import opened AgentRuns

  // ----- Reads are atomic -----

  /** Every answered request was read entirely from the map between two commits. */
  lemma ReadsAreAtomic(l: Layout, boot: Values, run: seq<Sys>, moves: seq<Move>, i: nat, t: nat)
    requires IsRun(l, boot, run, moves) && i < |run| && t < |run[i].tasks|
    requires run[i].tasks[t].GetDone? && run[i].tasks[t].reply.Some?
    ensures
      var done := run[i].tasks[t];
      && done.stamp <= |run[i].shared.log|
      && done.reply.value == Respond(Replay(l, boot, run[i].shared.log[..done.stamp]).values,
                                     done.job.request, done.job.isNext)
  {
    Reachable(l, boot, run, moves, i);
    var at := ReplayFrom(l, boot);
    assert LocalOk(l, at, run[i].tasks[t], run[i].shared);
  }

  lemma {:induction false} LogOnlyGrows(l: Layout, boot: Values, run: seq<Sys>, moves: seq<Move>, i: nat, j: nat)
    requires IsRun(l, boot, run, moves) && i <= j < |run|
    ensures run[i].shared.log <= run[j].shared.log && |run[i].tasks| == |run[j].tasks|
    decreases j
  {
    if i < j {
      LogOnlyGrows(l, boot, run, moves, i, j - 1);
      assert MoveOk(l, run, moves, j - 1);
    }
  }

  predicate NotYetRead(task: Task) {
    task.GetStart? || task.GetCheck? || task.GetWantValues?
  }

  predicate Stamped(task: Task, atLeast: nat) {
    match task
    case GetRead(_, stamp, _) => atLeast <= stamp
    case GetReply(_, stamp, _) => atLeast <= stamp
    case GetDone(_, stamp, _) => atLeast <= stamp
    case _ => false
  }

  lemma {:induction false} ReadsAfterRequest(l: Layout, boot: Values, run: seq<Sys>, moves: seq<Move>, t: nat,
                                             i: nat, j: nat)
    requires IsRun(l, boot, run, moves) && i <= j < |run| && t < |run[i].tasks|
    requires NotYetRead(run[i].tasks[t])
    ensures t < |run[j].tasks|
    ensures NotYetRead(run[j].tasks[t]) || Stamped(run[j].tasks[t], |run[i].shared.log|)
    decreases j
  {
    if i < j {
      ReadsAfterRequest(l, boot, run, moves, t, i, j - 1);
      LogOnlyGrows(l, boot, run, moves, i, j - 1);
      assert MoveOk(l, run, moves, j - 1);
    }
  }

  /** Reads respect real time: the map answered from is one that existed between
      the request's arrival and its answer. */
  lemma ReadsAreRecent(l: Layout, boot: Values, run: seq<Sys>, moves: seq<Move>, t: nat, i: nat, j: nat)
    requires IsRun(l, boot, run, moves) && i <= j < |run| && t < |run[i].tasks|
    requires NotYetRead(run[i].tasks[t])
    ensures t < |run[j].tasks|
    ensures run[j].tasks[t].GetDone? && run[j].tasks[t].reply.Some? ==>
              |run[i].shared.log| <= run[j].tasks[t].stamp <= |run[j].shared.log|
  {
    ReadsAfterRequest(l, boot, run, moves, t, i, j);
    if run[j].tasks[t].GetDone? && run[j].tasks[t].reply.Some? {
      ReadsAreAtomic(l, boot, run, moves, j, t);
    }
  }

  // ----- Batches -----

  /** The batch was committed after the first `sent` commits. */
  ghost predicate CommittedSince(log: seq<Commit>, sent: nat, batch: seq<Write>) {
    exists n :: sent <= n < |log| && log[n] == PutCommit(batch)
  }

  lemma StaysCommitted(log: seq<Commit>, longer: seq<Commit>, sent: nat, batch: seq<Write>)
    requires CommittedSince(log, sent, batch) && log <= longer
    ensures CommittedSince(longer, sent, batch)
  {
    var n :| sent <= n < |log| && log[n] == PutCommit(batch);
    assert longer[n] == log[n];
  }

  /** Where a PUT of `body` can be: before any lock, on its way with the parsed
      batch, or decided. */
  ghost predicate PutInFlight(task: Task, body: map<string, i64>, order: seq<string>, sent: nat, log: seq<Commit>)
    requires IsOrder(body.Keys, order)
  {
    if !WellFormed(body) then task == PutParse(body, order) || task == PutDone(false)
    else
      match task
      case PutParse(b, o) => b == body && o == order
      case PutWantDriven(batch) => batch == Parsed(body, order)
      case PutWantValues(batch) => batch == Parsed(body, order)
      case PutWriting(batch, _) => batch == Parsed(body, order)
      case PutUnlock => CommittedSince(log, sent, Parsed(body, order))
      case PutDone(accepted) => accepted && CommittedSince(log, sent, Parsed(body, order))
      case _ => false
  }

  lemma PutStep(task: Task, sh: Shared, body: map<string, i64>, order: seq<string>, sent: nat)
    requires IsPut(task) && IsOrder(body.Keys, order) && sent <= |sh.log|
    requires PutInFlight(task, body, order, sent, sh.log)
    ensures PutInFlight(PutMoves(task, sh).0, body, order, sent, PutMoves(task, sh).1.log)
  {
    if task.PutWriting? && task.n >= |task.batch| {
      assert (sh.log + [PutCommit(task.batch)])[|sh.log|] == PutCommit(task.batch);
    }
  }

  lemma {:induction false} PutTracked(l: Layout, boot: Values, run: seq<Sys>, moves: seq<Move>, t: nat, i: nat, j: nat,
                                      body: map<string, i64>, order: seq<string>)
    requires IsRun(l, boot, run, moves) && i <= j < |run| && t < |run[i].tasks|
    requires run[i].tasks[t] == PutParse(body, order) && IsOrder(body.Keys, order)
    ensures t < |run[j].tasks| && IsPut(run[j].tasks[t])
    ensures PutInFlight(run[j].tasks[t], body, order, |run[i].shared.log|, run[j].shared.log)
    decreases j
  {
    if i < j {
      PutTracked(l, boot, run, moves, t, i, j - 1, body, order);
      LogOnlyGrows(l, boot, run, moves, j - 1, j);
      LogOnlyGrows(l, boot, run, moves, i, j - 1);
      assert MoveOk(l, run, moves, j - 1);
      var before := run[j - 1];
      if moves[j - 1].task == t {
        PutStep(before.tasks[t], before.shared, body, order, |run[i].shared.log|);
      } else if before.tasks[t].PutUnlock? || before.tasks[t] == PutDone(true) {
        StaysCommitted(before.shared.log, run[j].shared.log, |run[i].shared.log|, Parsed(body, order));
      }
    }
  }

  /** A batch is all or nothing: it is accepted exactly when every OID parses, an
      accepted batch was committed whole between the PUT's arrival and its answer,
      and a malformed one never takes a lock, so it changes nothing. */
  lemma BatchAllOrNothing(l: Layout, boot: Values, run: seq<Sys>, moves: seq<Move>, t: nat, i: nat, j: nat)
    requires IsRun(l, boot, run, moves) && i <= j < |run| && t < |run[i].tasks|
    requires run[i].tasks[t].PutParse? && IsOrder(run[i].tasks[t].body.Keys, run[i].tasks[t].order)
    ensures t < |run[j].tasks|
    ensures
      var body, order := run[i].tasks[t].body, run[i].tasks[t].order;
      && (run[j].tasks[t].PutDone? ==> run[j].tasks[t].accepted == WellFormed(body))
      && (run[j].tasks[t].PutDone? ==> run[j].tasks[t].accepted == AllNumerals(body))
      && (run[j].tasks[t] == PutDone(true) ==>
            WellFormed(body) && CommittedSince(run[j].shared.log, |run[i].shared.log|, Parsed(body, order)))
      && (!WellFormed(body) ==> forall k :: !Holds(run[j].tasks[t], k))
  {
    PutTracked(l, boot, run, moves, t, i, j, run[i].tasks[t].body, run[i].tasks[t].order);
    WellFormedExactly(run[i].tasks[t].body);
  }

  /** A PUT whose body holds a key with any character that is no digit, dot or plus
      sign is refused in every run: it is never accepted and never holds a lock, so
      it changes nothing. */
  lemma StrayCharactersAreRefused(l: Layout, boot: Values, run: seq<Sys>, moves: seq<Move>, t: nat, i: nat, j: nat,
                                  dotted: string, c: char)
    requires IsRun(l, boot, run, moves) && i <= j < |run| && t < |run[i].tasks|
    requires run[i].tasks[t].PutParse? && IsOrder(run[i].tasks[t].body.Keys, run[i].tasks[t].order)
    requires dotted in run[i].tasks[t].body && c in dotted
    requires !('0' <= c <= '9') && c != '.' && c != '+'
    ensures t < |run[j].tasks| && run[j].tasks[t] != PutDone(true)
    ensures forall k :: !Holds(run[j].tasks[t], k)
  {
    StrayCharacterIsRefused(dotted, c);
    BatchAllOrNothing(l, boot, run, moves, t, i, j);
  }

  /** A request that had not been read when a PUT was accepted is answered from a
      map that includes that PUT's batch. */
  lemma ReadsSeeAcceptedPuts(l: Layout, boot: Values, run: seq<Sys>, moves: seq<Move>,
                             t: nat, i: nat, j: nat, u: nat, h: nat)
    requires IsRun(l, boot, run, moves) && i <= j <= h < |run| && t < |run[i].tasks|
    requires run[i].tasks[t].PutParse? && IsOrder(run[i].tasks[t].body.Keys, run[i].tasks[t].order)
    requires t < |run[j].tasks| && run[j].tasks[t] == PutDone(true)
    requires u < |run[j].tasks| && NotYetRead(run[j].tasks[u])
    requires u < |run[h].tasks| && run[h].tasks[u].GetDone? && run[h].tasks[u].reply.Some?
    ensures WellFormed(run[i].tasks[t].body)
    ensures
      var batch := Parsed(run[i].tasks[t].body, run[i].tasks[t].order);
      var read := run[h].tasks[u].stamp;
      && read <= |run[h].shared.log|
      && CommittedSince(run[h].shared.log[..read], |run[i].shared.log|, batch)
      && run[h].tasks[u].reply.value == Respond(Replay(l, boot, run[h].shared.log[..read]).values,
                                                run[h].tasks[u].job.request, run[h].tasks[u].job.isNext)
  {
    BatchAllOrNothing(l, boot, run, moves, t, i, j);
    LogOnlyGrows(l, boot, run, moves, j, h);
    ReadsAreRecent(l, boot, run, moves, u, j, h);
    ReadsAreAtomic(l, boot, run, moves, h, u);
    StaysCommitted(run[j].shared.log, run[h].shared.log[..run[h].tasks[u].stamp], |run[i].shared.log|,
                   Parsed(run[i].tasks[t].body, run[i].tasks[t].order));
  }

  // ----- What answers say -----

  /** An answered Get of a driven OID outside the PDU2-MIB view carries the last
      value written to it, exactly if and only if that fits 32 bits. */
  lemma LastWriteIsServed(l: Layout, boot: Values, run: seq<Sys>, moves: seq<Move>, i: nat, t: nat, b: nat, v: i64)
    requires HasSources(l, boot) && IsRun(l, boot, run, moves) && i < |run| && t < |run[i].tasks|
    requires run[i].tasks[t].GetDone? && run[i].tasks[t].reply.Some? && !run[i].tasks[t].job.isNext
    requires b < |run[i].tasks[t].job.request.bindings| && run[i].tasks[t].stamp <= |run[i].shared.log|
    requires run[i].tasks[t].job.request.bindings[b].name !in MirrorKeys(l)
    requires LastWrite(run[i].shared.log[..run[i].tasks[t].stamp],
                       run[i].tasks[t].job.request.bindings[b].name) == Some(v)
    ensures b < |run[i].tasks[t].reply.value.bindings|
    ensures
      var answer := run[i].tasks[t].reply.value.bindings[b];
      && answer.name == run[i].tasks[t].job.request.bindings[b].name && answer.value.IntegerValue?
      && (answer.value.v == v <==> -I32_LIMIT <= v < I32_LIMIT)
  {
    var done := run[i].tasks[t];
    ReadsAreAtomic(l, boot, run, moves, i, t);
    DrivenHoldsLastWrite(l, boot, run[i].shared.log[..done.stamp], done.job.request.bindings[b].name);
    SmallValuesServedExactly(v);
  }

  /** Every answered request, Get or GetNext, got the response spelt out by
      `Responds` for one committed map. */
  lemma RequestsAreServed(l: Layout, boot: Values, run: seq<Sys>, moves: seq<Move>, i: nat, t: nat)
    requires IsRun(l, boot, run, moves) && i < |run| && t < |run[i].tasks|
    requires run[i].tasks[t].GetDone? && run[i].tasks[t].reply.Some?
    ensures run[i].tasks[t].stamp <= |run[i].shared.log|
    ensures Responds(Replay(l, boot, run[i].shared.log[..run[i].tasks[t].stamp]).values,
                     run[i].tasks[t].job.request, run[i].tasks[t].job.isNext, run[i].tasks[t].reply.value)
  {
    var done := run[i].tasks[t];
    ReadsAreAtomic(l, boot, run, moves, i, t);
    RespondIs(Replay(l, boot, run[i].shared.log[..done.stamp]).values, done.job.request, done.job.isNext);
  }

  /** Every answered GetNext names, for each binding, the least OID above it in one
      committed map, with the value stored there, or the end of that map. */
  lemma GetNextIsServed(l: Layout, boot: Values, run: seq<Sys>, moves: seq<Move>, i: nat, t: nat, b: nat)
    requires IsRun(l, boot, run, moves) && i < |run| && t < |run[i].tasks|
    requires run[i].tasks[t].GetDone? && run[i].tasks[t].reply.Some? && run[i].tasks[t].job.isNext
    requires b < |run[i].tasks[t].job.request.bindings|
    ensures run[i].tasks[t].stamp <= |run[i].shared.log| && b < |run[i].tasks[t].reply.value.bindings|
    ensures NextIs(Replay(l, boot, run[i].shared.log[..run[i].tasks[t].stamp]).values,
                   run[i].tasks[t].job.request.bindings[b].name, run[i].tasks[t].reply.value.bindings[b])
  {
    RequestsAreServed(l, boot, run, moves, i, t);
  }

  /** Every answered Get echoes each name, with the value stored in one committed
      map or NoSuchInstance; EndOfMibView never answers a Get. */
  lemma GetIsServed(l: Layout, boot: Values, run: seq<Sys>, moves: seq<Move>, i: nat, t: nat, b: nat)
    requires IsRun(l, boot, run, moves) && i < |run| && t < |run[i].tasks|
    requires run[i].tasks[t].GetDone? && run[i].tasks[t].reply.Some? && !run[i].tasks[t].job.isNext
    requires b < |run[i].tasks[t].job.request.bindings|
    ensures run[i].tasks[t].stamp <= |run[i].shared.log| && b < |run[i].tasks[t].reply.value.bindings|
    ensures GetIs(Replay(l, boot, run[i].shared.log[..run[i].tasks[t].stamp]).values,
                  run[i].tasks[t].job.request.bindings[b].name, run[i].tasks[t].reply.value.bindings[b])
    ensures run[i].tasks[t].reply.value.bindings[b].value != EndOfMibView
  {
    RequestsAreServed(l, boot, run, moves, i, t);
  }

  // ----- The shared map between sections -----

  /** Whenever `values` is unlocked it holds exactly the committed map: no part
      of a batch, tick or store is ever visible. */
  lemma UnlockedMapIsCommitted(l: Layout, boot: Values, run: seq<Sys>, moves: seq<Move>, i: nat)
    requires IsRun(l, boot, run, moves) && i < |run| && Free(run[i], ValuesLock)
    ensures run[i].shared.values == Replay(l, boot, run[i].shared.log).values
    ensures AllGenuine(l, run[i].shared.log)
  {
    Reachable(l, boot, run, moves, i);
    assert Settled(l, ReplayFrom(l, boot), run[i].shared, ValuesLock);
  }

  /** Over every interleaving, a driven OID outside the PDU2-MIB view holds the
      last value a batch or a store gave it. */
  lemma DrivenValuesSurvive(l: Layout, boot: Values, run: seq<Sys>, moves: seq<Move>, i: nat, k: Oid)
    requires HasSources(l, boot)
    requires IsRun(l, boot, run, moves) && i < |run| && Free(run[i], ValuesLock) && Free(run[i], DrivenLock)
    ensures k in run[i].shared.driven <==> LastWrite(run[i].shared.log, k).Some?
    ensures k in run[i].shared.driven && k !in MirrorKeys(l) ==>
              k in run[i].shared.values && run[i].shared.values[k] == LastWrite(run[i].shared.log, k).value
  {
    UnlockedMapIsCommitted(l, boot, run, moves, i);
    Reachable(l, boot, run, moves, i);
    assert Settled(l, ReplayFrom(l, boot), run[i].shared, DrivenLock);
    DrivenHoldsLastWrite(l, boot, run[i].shared.log, k);
  }

  /** Inside the view, over every interleaving, a driven OID still holds its last
      write if and only if no tick was committed since, or the last one mirrored
      that very value. */
  lemma DrivenTargetsHold(l: Layout, boot: Values, run: seq<Sys>, moves: seq<Move>, i: nat, r: nat)
    requires HasSources(l, boot) && r < 7
    requires IsRun(l, boot, run, moves) && i < |run| && Free(run[i], ValuesLock) && Free(run[i], DrivenLock)
    requires LastWrite(run[i].shared.log, l.target[r]).Some?
    ensures l.target[r] in run[i].shared.driven && l.target[r] in run[i].shared.values
    ensures
      var log := run[i].shared.log;
      var t, v := TickSince(log, l.target[r]), LastWrite(log, l.target[r]).value;
      run[i].shared.values[l.target[r]] == v <==> t.None? || MirroredAt(l, boot, log[..t.value], r) == v
  {
    UnlockedMapIsCommitted(l, boot, run, moves, i);
    Reachable(l, boot, run, moves, i);
    assert Settled(l, ReplayFrom(l, boot), run[i].shared, DrivenLock);
    DrivenTargetHolds(l, boot, run[i].shared.log, r);
  }

  /** From boot, in every run without PUTs, the two PDU views agree whenever
      `values` is unlocked; with PUTs, a tick restores agreement until the next. */
  lemma ViewsAgree(l: Layout, switch: Values, run: seq<Sys>, moves: seq<Move>, i: nat)
    requires IsRun(l, InitialValues(l, switch), run, moves) && i < |run| && Free(run[i], ValuesLock)
    ensures NoPut(run[i].shared.log) ==> Agree(l, run[i].shared.values)
    ensures forall tick | 0 <= tick < |run[i].shared.log| ::
              run[i].shared.log[tick].DriftCommit? && NoPut(run[i].shared.log[tick + 1..]) ==>
                Agree(l, run[i].shared.values)
  {
    var boot, log := InitialValues(l, switch), run[i].shared.log;
    UnlockedMapIsCommitted(l, boot, run, moves, i);
    if NoPut(log) {
      AgreementWithoutPuts(l, switch, log);
    }
    BootAgrees(l, switch);
    forall tick | 0 <= tick < |log| && log[tick].DriftCommit? && NoPut(log[tick + 1..])
      ensures Agree(l, run[i].shared.values)
    {
      AgreementAfterTick(l, boot, log, tick);
    }
  }

  /** While the L1 current is undriven it follows the sawtooth, and the map
      never gains an empty OID. */
  lemma UndrivenCurrentDrifts(l: Layout, switch: Values, run: seq<Sys>, moves: seq<Move>, i: nat)
    requires IsRun(l, InitialValues(l, switch), run, moves) && i < |run|
    requires Free(run[i], ValuesLock) && Free(run[i], DrivenLock)
    ensures l.source[1] !in run[i].shared.driven ==>
              l.source[1] in run[i].shared.values
              && run[i].shared.values[l.source[1]] == 1500 + Ticks(run[i].shared.log) % 21 * 5
    ensures [] !in switch ==> [] !in run[i].shared.values
  {
    var boot, log := InitialValues(l, switch), run[i].shared.log;
    UnlockedMapIsCommitted(l, boot, run, moves, i);
    Reachable(l, boot, run, moves, i);
    assert Settled(l, ReplayFrom(l, boot), run[i].shared, DrivenLock);
    if l.source[1] !in run[i].shared.driven {
      DriftClosedForm(l, switch, log);
    }
    if [] !in switch {
      NoEmptyKey(l, switch, log);
    }
  }

  // ----- Walking the live map -----

  /** `ids` are a manager's GetNext requests: each names one OID, the previous
      answer's, and had not been read when the previous one was answered; the first
      had not been read in state `began`. */
  ghost predicate IsWalk(run: seq<Sys>, began: nat, start: Oid, ids: seq<nat>, sent: seq<nat>, answers: seq<VarBind>) {
    && |ids| == |sent| == |answers| > 0 && began < |run|
    && ids[0] < |run[began].tasks| && NotYetRead(run[began].tasks[ids[0]])
    && (forall i | 0 <= i < |ids| :: Answers(run[|run| - 1], ids[i], Asked(start, answers, i), answers[i]))
    && (forall i | 0 <= i < |ids| - 1 :: SentAfter(run, ids[i], ids[i + 1], sent[i]))
  }

  /** Task `t` has answered a one-binding GetNext for `name`. */
  ghost predicate Answers(s: Sys, t: nat, name: Oid, answer: VarBind) {
    && t < |s.tasks| && s.tasks[t].GetDone? && s.tasks[t].reply.Some? && s.tasks[t].job.isNext
    && |s.tasks[t].job.request.bindings| == 1 && s.tasks[t].job.request.bindings[0].name == name
    && s.tasks[t].reply.value.bindings == [answer]
  }

  /** At some state of the run, request `t` was answered and `u` not yet read. */
  ghost predicate SentAfter(run: seq<Sys>, t: nat, u: nat, when: nat) {
    && when < |run| && t < |run[when].tasks| && u < |run[when].tasks|
    && run[when].tasks[t].GetDone? && run[when].tasks[t].reply.Some?
    && NotYetRead(run[when].tasks[u])
  }

  lemma {:induction false} DoneStays(l: Layout, boot: Values, run: seq<Sys>, moves: seq<Move>, t: nat, i: nat, j: nat)
    requires IsRun(l, boot, run, moves) && i <= j < |run| && t < |run[i].tasks| && run[i].tasks[t].GetDone?
    ensures t < |run[j].tasks| && run[j].tasks[t] == run[i].tasks[t]
    decreases j
  {
    if i < j {
      DoneStays(l, boot, run, moves, t, i, j - 1);
      assert MoveOk(l, run, moves, j - 1);
    }
  }

  /** The commit count each request of a walk was answered at. */
  ghost function Stamps(s: Sys, ids: seq<nat>): (stamps: seq<nat>)
    requires forall i | 0 <= i < |ids| :: ids[i] < |s.tasks| && s.tasks[ids[i]].GetDone?
    ensures |stamps| == |ids|
    ensures forall i | 0 <= i < |ids| :: stamps[i] == s.tasks[ids[i]].stamp
  {
    seq<nat>(|ids|, i requires 0 <= i < |ids| => s.tasks[ids[i]].stamp)
  }

  lemma StampsInOrder(l: Layout, boot: Values, run: seq<Sys>, moves: seq<Move>, t: nat, u: nat, when: nat)
    requires IsRun(l, boot, run, moves) && SentAfter(run, t, u, when)
    requires u < |run[|run| - 1].tasks| && run[|run| - 1].tasks[u].GetDone? && run[|run| - 1].tasks[u].reply.Some?
    ensures t < |run[|run| - 1].tasks| && run[|run| - 1].tasks[t].GetDone?
    ensures run[|run| - 1].tasks[t].stamp <= run[|run| - 1].tasks[u].stamp
  {
    DoneStays(l, boot, run, moves, t, when, |run| - 1);
    ReadsAreAtomic(l, boot, run, moves, when, t);
    ReadsAreRecent(l, boot, run, moves, u, when, |run| - 1);
  }

  /** The committed maps a walk was answered from. */
  ghost function WalkMaps(l: Layout, boot: Values, log: seq<Commit>, stamps: seq<nat>): (maps: seq<Values>)
    requires forall i | 0 <= i < |stamps| :: stamps[i] <= |log|
    ensures |maps| == |stamps|
    ensures forall i | 0 <= i < |maps| :: maps[i] == Replay(l, boot, log[..stamps[i]]).values
  {
    seq(|stamps|, i requires 0 <= i < |stamps| => Replay(l, boot, log[..stamps[i]]).values)
  }

  lemma {:induction false} StampsSorted(stamps: seq<nat>, i: nat, j: nat)
    requires forall k | 0 <= k < |stamps| - 1 :: stamps[k] <= stamps[k + 1]
    requires i <= j < |stamps|
    ensures stamps[i] <= stamps[j]
    decreases j
  {
    if i < j {
      StampsSorted(stamps, i, j - 1);
      assert stamps[j - 1] <= stamps[j - 1 + 1];
    }
  }

  lemma WalkReads(l: Layout, boot: Values, run: seq<Sys>, moves: seq<Move>, t: nat, name: Oid, answer: VarBind)
    requires IsRun(l, boot, run, moves) && Answers(run[|run| - 1], t, name, answer)
    ensures run[|run| - 1].tasks[t].stamp <= |run[|run| - 1].shared.log|
    ensures
      var end := run[|run| - 1];
      answer == Answer(Replay(l, boot, end.shared.log[..end.tasks[t].stamp]).values, name, true)
  {
    ReadsAreAtomic(l, boot, run, moves, |run| - 1, t);
    assert run[|run| - 1].tasks[t].reply.value.bindings[0] == answer;
  }

  /** Every request of the walk was answered, in stamp order. */
  lemma WalkStamps(l: Layout, boot: Values, run: seq<Sys>, moves: seq<Move>, began: nat,
                   start: Oid, ids: seq<nat>, sent: seq<nat>, answers: seq<VarBind>)
    requires IsRun(l, boot, run, moves) && IsWalk(run, began, start, ids, sent, answers)
    ensures
      var end := run[|run| - 1];
      && (forall i | 0 <= i < |ids| :: ids[i] < |end.tasks| && end.tasks[ids[i]].GetDone?)
      && (forall i | 0 <= i < |ids| :: Stamps(end, ids)[i] <= |end.shared.log|)
      && (forall i | 0 <= i < |ids| - 1 :: Stamps(end, ids)[i] <= Stamps(end, ids)[i + 1])
  {
    var end := run[|run| - 1];
    forall i | 0 <= i < |ids|
      ensures ids[i] < |end.tasks| && end.tasks[ids[i]].GetDone? && end.tasks[ids[i]].stamp <= |end.shared.log|
    {
      assert Answers(end, ids[i], Asked(start, answers, i), answers[i]);
      WalkReads(l, boot, run, moves, ids[i], Asked(start, answers, i), answers[i]);
    }
    forall i | 0 <= i < |ids| - 1
      ensures end.tasks[ids[i]].stamp <= end.tasks[ids[i + 1]].stamp
    {
      assert SentAfter(run, ids[i], ids[i + 1], sent[i]);
      assert Answers(end, ids[i + 1], Asked(start, answers, i + 1), answers[i + 1]);
      StampsInOrder(l, boot, run, moves, ids[i], ids[i + 1], sent[i]);
    }
  }

  lemma OrderedMapsGrow(l: Layout, boot: Values, log: seq<Commit>, stamps: seq<nat>)
    requires forall k | 0 <= k < |stamps| :: stamps[k] <= |log|
    requires forall k | 0 <= k < |stamps| - 1 :: stamps[k] <= stamps[k + 1]
    ensures Growing(KeySets(WalkMaps(l, boot, log, stamps)))
  {
    forall i, j | 0 <= i <= j < |stamps|
      ensures Replay(l, boot, log[..stamps[i]]).values.Keys <= Replay(l, boot, log[..stamps[j]]).values.Keys
    {
      StampsSorted(stamps, i, j);
      ReplayGrows(l, boot, log, stamps[i], stamps[j]);
    }
  }

  /** The maps a walk is answered from: committed ones, in order, none older than
      the state in which the walk began. */
  lemma WalkMapsAnswer(l: Layout, boot: Values, run: seq<Sys>, moves: seq<Move>, began: nat,
                       start: Oid, ids: seq<nat>, sent: seq<nat>, answers: seq<VarBind>) returns (maps: seq<Values>)
    requires IsRun(l, boot, run, moves) && IsWalk(run, began, start, ids, sent, answers)
    ensures |maps| == |answers| && Growing(KeySets(maps)) && LiveAnswers(maps, start, answers)
    ensures Replay(l, boot, run[began].shared.log).values.Keys <= maps[0].Keys
    ensures
      var end := run[|run| - 1];
      && (forall i | 0 <= i < |ids| :: ids[i] < |end.tasks| && end.tasks[ids[i]].GetDone?)
      && (forall i | 0 <= i < |ids| :: Stamps(end, ids)[i] <= |end.shared.log|)
      && maps == WalkMaps(l, boot, end.shared.log, Stamps(end, ids))
  {
    var end := run[|run| - 1];
    WalkStamps(l, boot, run, moves, began, start, ids, sent, answers);
    var stamps := Stamps(end, ids);
    maps := WalkMaps(l, boot, end.shared.log, stamps);
    OrderedMapsGrow(l, boot, end.shared.log, stamps);
    forall i | 0 <= i < |answers|
      ensures AnsweredBy(maps[i], start, answers, i)
    {
      assert Answers(end, ids[i], Asked(start, answers, i), answers[i]);
      WalkReads(l, boot, run, moves, ids[i], Asked(start, answers, i), answers[i]);
    }
    assert Answers(end, ids[0], Asked(start, answers, 0), answers[0]);
    LogOnlyGrows(l, boot, run, moves, began, |run| - 1);
    ReadsAreRecent(l, boot, run, moves, ids[0], began, |run| - 1);
    var first := |run[began].shared.log|;
    assert end.shared.log[..first] == run[began].shared.log;
    ReplayGrows(l, boot, end.shared.log, first, stamps[0]);
  }

  /** A GetNext walk, finished or not, strictly increases as long as it has not
      reached EndOfMibView, whatever runs between its requests. */
  lemma WalkIncreases(l: Layout, boot: Values, run: seq<Sys>, moves: seq<Move>, began: nat,
                      start: Oid, ids: seq<nat>, sent: seq<nat>, answers: seq<VarBind>)
    requires IsRun(l, boot, run, moves) && IsWalk(run, began, start, ids, sent, answers)
    requires forall i | 0 <= i < |answers| :: answers[i].value != EndOfMibView
    ensures Sorted([start] + Names(answers))
  {
    var maps := WalkMapsAnswer(l, boot, run, moves, began, start, ids, sent, answers);
    AnswersIncrease(maps, start, answers);
  }

  /** A finished walk: its answers strictly increase, and EndOfMibView arrives only
      after every OID that was committed when the first request was still unread,
      or was inserted ahead of the walk, has been visited. */
  lemma WalkUnderInterleaving(l: Layout, boot: Values, run: seq<Sys>, moves: seq<Move>, began: nat,
                              start: Oid, ids: seq<nat>, sent: seq<nat>, answers: seq<VarBind>)
    requires IsRun(l, boot, run, moves) && IsWalk(run, began, start, ids, sent, answers) && RunsToTheEnd(answers)
    ensures Sorted([start] + Visited(answers))
    ensures Above(Replay(l, boot, run[began].shared.log).values.Keys, start) <= Elements(Visited(answers))
    ensures
      var end := run[|run| - 1];
      && (forall i | 0 <= i < |ids| :: ids[i] < |end.tasks| && end.tasks[ids[i]].GetDone?)
      && (forall i | 0 <= i < |ids| :: Stamps(end, ids)[i] <= |end.shared.log|)
      && var maps := WalkMaps(l, boot, end.shared.log, Stamps(end, ids));
         && Above(maps[0].Keys, start) <= Elements(Visited(answers))
         && (forall i, k | 0 <= i < |answers| && k in maps[i] && Less(Asked(start, answers, i), k) ::
               k in Visited(answers)[i..])
  {
    var maps := WalkMapsAnswer(l, boot, run, moves, began, start, ids, sent, answers);
    ProtocolWalk(maps, start, answers);
  }
}
