/** The SNMP agent's concurrent tasks as steps over three mutexes
    (mock-snmp-agent/src/main.rs, control.rs, pdu_load.rs, v3.rs). One step is
    one lock operation or one access to shared data. */
module AgentTasks {
  import opened Numbers
  import opened Oids
  import opened Control
  import opened Snmp
  import opened PduView
  import opened Commits

  datatype Lock = AgentLock | DrivenLock | ValuesLock

  /** The documented order: AgentState, then driven, then values. */
  function Rank(k: Lock): (r: nat) {
    match k
    case AgentLock => 0
    case DrivenLock => 1
    case ValuesLock => 2
  }

  /** A decoded request. v3 requests pass through the AgentState lock; `dropped`
      ones are refused or answered there without reading the map. */
  datatype Job = Job(request: Pdu, isNext: bool, overV3: bool, dropped: bool)

  /** Program points, with the locals alive there. */
  datatype Task =
    // PUT /oids
    | PutParse(body: map<string, i64>, order: seq<string>)
    | PutWantDriven(batch: seq<Write>)
    | PutWantValues(batch: seq<Write>)
    | PutWriting(batch: seq<Write>, n: nat)
    | PutUnlock
    | PutDone(accepted: bool)
    // the drift simulator, forever
    | DriftSleep
    | DriftWantValues
    | DriftTick
    | DriftMirror
    | DriftUnlock
    // the PDU load follower, forever
    | FollowPoll
    | FollowWantSnapshot(powerW: real)
    | FollowRead(powerW: real)
    | FollowWantDriven(next: Values)
    | FollowMark(next: Values)
    | FollowWantValues(next: Values)
    | FollowStore(next: Values, todo: set<Oid>)
    | FollowUnlock
    // v2c and v3 requests
    | GetStart(job: Job)
    | GetCheck(job: Job)
    | GetWantValues(job: Job)
    | GetRead(job: Job, stamp: nat, answers: seq<VarBind>)
    | GetReply(job: Job, stamp: nat, response: Pdu)
    | GetDone(job: Job, stamp: nat, reply: Option<Pdu>)

  predicate Holds(task: Task, k: Lock) {
    match task
    case PutWantValues(_) => k == DrivenLock
    case PutWriting(_, _) => k == DrivenLock || k == ValuesLock
    case PutUnlock => k == DrivenLock
    case DriftWantValues => k == DrivenLock
    case DriftTick => k == DrivenLock || k == ValuesLock
    case DriftMirror => k == DrivenLock || k == ValuesLock
    case DriftUnlock => k == DrivenLock
    case FollowRead(_) => k == ValuesLock
    case FollowMark(_) => k == DrivenLock
    case FollowWantValues(_) => k == DrivenLock
    case FollowStore(_, _) => k == DrivenLock || k == ValuesLock
    case FollowUnlock => k == DrivenLock
    case GetCheck(_) => k == AgentLock
    case GetWantValues(_) => k == AgentLock
    case GetRead(job, _, _) => k == ValuesLock || (job.overV3 && k == AgentLock)
    case GetReply(_, _, _) => k == AgentLock
    case _ => false
  }

  /** The lock the task is waiting for. */
  function Wants(task: Task): (r: Option<Lock>) {
    match task
    case PutWantDriven(_) => Some(DrivenLock)
    case PutWantValues(_) => Some(ValuesLock)
    case DriftSleep => Some(DrivenLock)
    case DriftWantValues => Some(ValuesLock)
    case FollowWantSnapshot(_) => Some(ValuesLock)
    case FollowWantDriven(_) => Some(DrivenLock)
    case FollowWantValues(_) => Some(ValuesLock)
    case GetStart(job) => if job.overV3 then Some(AgentLock) else if job.dropped then None else Some(ValuesLock)
    case GetWantValues(_) => Some(ValuesLock)
    case _ => None
  }

  predicate Finished(task: Task) {
    task.PutDone? || task.GetDone?
  }

  /** Every acquisition is above everything held. */
  lemma LockOrderRespected(task: Task, k: Lock)
    requires Holds(task, k)
    ensures Wants(task).Some? ==> Rank(k) < Rank(Wants(task).value)
    ensures !Finished(task)
  {
  }

  /** The shared data, and the history of completed writing sections. */
  datatype Shared = Shared(values: Values, driven: set<Oid>, log: seq<Commit>)

  /** The committed state after each prefix of commits. Carried as a value so that
      the step proofs use only how one commit extends it. */
  type History = seq<Commit> -> Snapshot

  ghost predicate Replays(l: Layout, at: History) {
    forall log, c :: at(log + [c]) == Committed(l, at(log), c)
  }

  /** What the outside decides: a polled power, a hash map's iteration order. */
  datatype Choice = Choice(powerW: real, key: Oid)

  predicate IsPut(task: Task) {
    || task.PutParse? || task.PutWantDriven? || task.PutWantValues? || task.PutWriting? || task.PutUnlock?
    || task.PutDone?
  }

  predicate IsDrift(task: Task) {
    task.DriftSleep? || task.DriftWantValues? || task.DriftTick? || task.DriftMirror? || task.DriftUnlock?
  }

  predicate IsFollow(task: Task) {
    || task.FollowPoll? || task.FollowWantSnapshot? || task.FollowRead? || task.FollowWantDriven?
    || task.FollowMark? || task.FollowWantValues? || task.FollowStore? || task.FollowUnlock?
  }

  predicate IsGet(task: Task) {
    task.GetStart? || task.GetCheck? || task.GetWantValues? || task.GetRead? || task.GetReply? || task.GetDone?
  }

  ghost function PutMoves(task: Task, sh: Shared): (r: (Task, Shared))
    requires IsPut(task)
  {
    match task
    case PutParse(body, order) =>
      if WellFormed(body) && IsOrder(body.Keys, order) then (PutWantDriven(Parsed(body, order)), sh)
      else (PutDone(false), sh)
    case PutWantDriven(batch) => (PutWantValues(batch), sh)
    case PutWantValues(batch) => (PutWriting(batch, 0), sh)
    case PutWriting(batch, n) =>
      if n < |batch| then
        (PutWriting(batch, n + 1),
         sh.(values := sh.values[batch[n].oid := batch[n].value], driven := sh.driven + {batch[n].oid}))
      else (PutUnlock, sh.(log := sh.log + [PutCommit(batch)]))
    case PutUnlock => (PutDone(true), sh)
    case PutDone(_) => (task, sh)
  }

  function DriftMoves(l: Layout, task: Task, sh: Shared): (r: (Task, Shared))
    requires IsDrift(task)
  {
    match task
    case DriftSleep => (DriftWantValues, sh)
    case DriftWantValues => (DriftTick, sh)
    case DriftTick => (DriftMirror, sh.(values := Tick(l, sh.values, sh.driven)))
    case DriftMirror => (DriftUnlock, sh.(values := sh.values + Mirror(l, sh.values), log := sh.log + [DriftCommit]))
    case DriftUnlock => (DriftSleep, sh)
  }

  function FollowMoves(l: Layout, task: Task, sh: Shared, c: Choice): (r: (Task, Shared))
    requires IsFollow(task)
  {
    match task
    case FollowPoll => (FollowWantSnapshot(c.powerW), sh)
    case FollowWantSnapshot(powerW) => (FollowRead(powerW), sh)
    case FollowRead(powerW) => (FollowWantDriven(ReadingsOf(l, powerW, sh.values)), sh)
    case FollowWantDriven(next) => (FollowMark(next), sh)
    case FollowMark(next) => (FollowWantValues(next), sh.(driven := sh.driven + next.Keys))
    case FollowWantValues(next) => (FollowStore(next, next.Keys), sh)
    case FollowStore(next, todo) =>
      if c.key in todo && c.key in next then
        (FollowStore(next, todo - {c.key}), sh.(values := sh.values[c.key := next[c.key]]))
      else if todo == {} then (FollowUnlock, sh.(log := sh.log + [StoreCommit(next)]))
      else (task, sh)
    case FollowUnlock => (FollowPoll, sh)
  }

  ghost function GetMoves(task: Task, sh: Shared): (task': Task)
    requires IsGet(task)
  {
    match task
    case GetStart(job) =>
      if job.overV3 then GetCheck(job)
      else if job.dropped then GetDone(job, |sh.log|, None)
      else GetRead(job, |sh.log|, [])
    case GetCheck(job) => if job.dropped then GetDone(job, |sh.log|, None) else GetWantValues(job)
    case GetWantValues(job) => GetRead(job, |sh.log|, [])
    case GetRead(job, stamp, answers) =>
      var bindings := job.request.bindings;
      if |answers| < |bindings| then
        GetRead(job, stamp, answers + [Answer(sh.values, bindings[|answers|].name, job.isNext)])
      else
        var response := Pdu(job.request.requestId, 0, 0, answers);
        if job.overV3 then GetReply(job, stamp, response) else GetDone(job, stamp, Some(response))
    case GetReply(job, stamp, response) => GetDone(job, stamp, Some(response))
    case GetDone(_, _, _) => task
  }

  /** One step of one task; waiting steps are taken when the lock is free. */
  ghost function Step(l: Layout, task: Task, sh: Shared, c: Choice): (r: (Task, Shared)) {
    if IsPut(task) then PutMoves(task, sh)
    else if IsDrift(task) then DriftMoves(l, task, sh)
    else if IsFollow(task) then FollowMoves(l, task, sh, c)
    else (GetMoves(task, sh), sh)
  }

  // ----- What each program point guarantees -----

  /** The map while `task` is inside its section, given the committed state. */
  function PartialValues(l: Layout, task: Task, r: Snapshot): (result: Values) {
    match task
    case PutWriting(batch, n) => if n <= |batch| then Apply(r.values, batch[..n]) else r.values
    case DriftMirror => Tick(l, r.values, r.driven)
    case FollowStore(next, todo) => r.values + (next - todo)
    case _ => r.values
  }

  function PartialDriven(task: Task, r: Snapshot): (result: set<Oid>) {
    match task
    case PutWriting(batch, n) => if n <= |batch| then r.driven + Targets(batch[..n]) else r.driven
    case FollowWantValues(next) => r.driven + next.Keys
    case FollowStore(next, _) => r.driven + next.Keys
    case _ => r.driven
  }

  /** A response read entirely from the map as it was after `stamp` commits. */
  ghost predicate ReadAt(l: Layout, at: History, log: seq<Commit>, job: Job, stamp: nat, response: Pdu) {
    stamp <= |log| && response == Respond(at(log[..stamp]).values, job.request, job.isNext)
  }

  ghost predicate LocalsOk(l: Layout, at: History, task: Task, log: seq<Commit>) {
    match task
    case PutParse(body, order) => IsOrder(body.Keys, order)
    case PutWantDriven(batch) => ParsedBatch(batch)
    case PutWantValues(batch) => ParsedBatch(batch)
    case PutWriting(batch, n) => ParsedBatch(batch) && n <= |batch|
    case FollowWantDriven(next) => IsReadings(l, next)
    case FollowMark(next) => IsReadings(l, next)
    case FollowWantValues(next) => IsReadings(l, next)
    case FollowStore(next, todo) => IsReadings(l, next) && todo <= next.Keys
    case GetRead(job, stamp, answers) =>
      && stamp == |log| && |answers| <= |job.request.bindings|
      && forall i | 0 <= i < |answers| ::
           answers[i] == Answer(at(log).values, job.request.bindings[i].name, job.isNext)
    case GetReply(job, stamp, response) => ReadAt(l, at, log, job, stamp, response)
    case GetDone(job, stamp, reply) => reply.Some? ==> ReadAt(l, at, log, job, stamp, reply.value)
    case _ => true
  }

  /** What a task has locked is the committed data plus its own partial writes. */
  ghost predicate DataOk(l: Layout, at: History, task: Task, sh: Shared) {
    && (Holds(task, ValuesLock) ==> sh.values == PartialValues(l, task, at(sh.log)))
    && (Holds(task, DrivenLock) ==> sh.driven == PartialDriven(task, at(sh.log)))
  }

  ghost predicate LocalOk(l: Layout, at: History, task: Task, sh: Shared) {
    LocalsOk(l, at, task, sh.log) && DataOk(l, at, task, sh)
  }

  /** The data a free lock guards is exactly the committed data. */
  ghost predicate Settled(l: Layout, at: History, sh: Shared, k: Lock) {
    match k
    case AgentLock => true
    case DrivenLock => sh.driven == at(sh.log).driven
    case ValuesLock => sh.values == at(sh.log).values
  }

  /** The log stays or gains one genuine commit. */
  ghost predicate Logged(l: Layout, sh: Shared, sh': Shared) {
    sh'.log == sh.log || (exists c :: sh'.log == sh.log + [c] && Genuine(l, c))
  }

  /** What a released lock guards is committed. */
  ghost predicate Released(l: Layout, at: History, task: Task, task': Task, sh': Shared) {
    forall k | Holds(task, k) && !Holds(task', k) :: Settled(l, at, sh', k)
  }

  /** Only the lock waited for is acquired. */
  predicate Acquired(task: Task, task': Task) {
    forall k | Holds(task', k) :: Holds(task, k) || Wants(task) == Some(k)
  }

  /** Data is touched only under its lock, the log only under both. */
  predicate Framed(task: Task, sh: Shared, sh': Shared) {
    && (!Holds(task, ValuesLock) ==> sh'.values == sh.values && sh'.log == sh.log)
    && (!Holds(task, DrivenLock) ==> sh'.driven == sh.driven && sh'.log == sh.log)
  }

  /** What one step of one task guarantees, whatever the others do. */
  ghost predicate StepOk(l: Layout, at: History, task: Task, sh: Shared, task': Task, sh': Shared) {
    && LocalOk(l, at, task', sh')
    && Released(l, at, task, task', sh')
    && Acquired(task, task')
    && Framed(task, sh, sh')
    && Logged(l, sh, sh')
  }

  /** A lock a task waits for, once free, guards committed data. */
  ghost predicate Offered(l: Layout, at: History, task: Task, sh: Shared) {
    Wants(task).Some? ==> Settled(l, at, sh, Wants(task).value)
  }

  // ----- Every step: locks, frame, log -----

  lemma PutKeepsLocks(task: Task, sh: Shared)
    requires IsPut(task)
    ensures Acquired(task, PutMoves(task, sh).0) && Framed(task, sh, PutMoves(task, sh).1)
  {
  }

  lemma DriftKeepsLocks(l: Layout, task: Task, sh: Shared)
    requires IsDrift(task)
    ensures Acquired(task, DriftMoves(l, task, sh).0) && Framed(task, sh, DriftMoves(l, task, sh).1)
  {
  }

  lemma FollowKeepsLocks(l: Layout, task: Task, sh: Shared, c: Choice)
    requires IsFollow(task)
    ensures Acquired(task, FollowMoves(l, task, sh, c).0) && Framed(task, sh, FollowMoves(l, task, sh, c).1)
  {
  }

  lemma GetKeepsLocks(task: Task, sh: Shared)
    requires IsGet(task)
    ensures Acquired(task, GetMoves(task, sh))
  {
  }

  lemma StepKeepsLocks(l: Layout, task: Task, sh: Shared, c: Choice)
    ensures Acquired(task, Step(l, task, sh, c).0) && Framed(task, sh, Step(l, task, sh, c).1)
  {
    if IsPut(task) {
      PutKeepsLocks(task, sh);
    } else if IsDrift(task) {
      DriftKeepsLocks(l, task, sh);
    } else if IsFollow(task) {
      FollowKeepsLocks(l, task, sh, c);
    } else {
      GetKeepsLocks(task, sh);
    }
  }

  lemma StepLogs(l: Layout, at: History, task: Task, sh: Shared, c: Choice)
    requires LocalsOk(l, at, task, sh.log)
    ensures Logged(l, sh, Step(l, task, sh, c).1)
  {
    if task.PutWriting? {
      assert Genuine(l, PutCommit(task.batch));
    } else if task.DriftMirror? {
      assert Genuine(l, DriftCommit);
    } else if task.FollowStore? {
      assert Genuine(l, StoreCommit(task.next));
    }
  }

  // ----- Every step: data -----

  /** The data part of a step: partial writes so far, and commits on release. */
  ghost predicate DataStepOk(l: Layout, at: History, task: Task, task': Task, sh': Shared) {
    DataOk(l, at, task', sh') && Released(l, at, task, task', sh')
  }

  /** Program points at which whatever the task has locked is committed. */
  predicate Clean(task: Task) {
    !task.PutWriting? && !task.DriftMirror? && !task.FollowStore? && !task.FollowWantValues?
  }

  ghost predicate HoldsSettled(l: Layout, at: History, task: Task, sh: Shared) {
    forall k | Holds(task, k) :: Settled(l, at, sh, k)
  }

  lemma CleanIsSettled(l: Layout, at: History, task: Task, sh: Shared)
    requires Clean(task)
    ensures DataOk(l, at, task, sh) <==> HoldsSettled(l, at, task, sh)
  {
    assert PartialValues(l, task, at(sh.log)) == at(sh.log).values;
    assert PartialDriven(task, at(sh.log)) == at(sh.log).driven;
    if HoldsSettled(l, at, task, sh) {
      assert Holds(task, ValuesLock) ==> Settled(l, at, sh, ValuesLock);
      assert Holds(task, DrivenLock) ==> Settled(l, at, sh, DrivenLock);
    }
  }

  /** Between clean program points only locks and locals change. */
  lemma CleanStepOk(l: Layout, at: History, task: Task, task': Task, sh: Shared)
    requires DataOk(l, at, task, sh) && Offered(l, at, task, sh)
    requires Clean(task) && Clean(task') && Acquired(task, task')
    ensures DataStepOk(l, at, task, task', sh)
  {
    CleanIsSettled(l, at, task, sh);
    assert HoldsSettled(l, at, task', sh);
    CleanIsSettled(l, at, task', sh);
  }

  lemma PutWritesOk(l: Layout, at: History, batch: seq<Write>, n: nat, sh: Shared, sh': Shared)
    requires n < |batch| && DataOk(l, at, PutWriting(batch, n), sh)
    requires sh'.log == sh.log
    requires sh'.values == sh.values[batch[n].oid := batch[n].value] && sh'.driven == sh.driven + {batch[n].oid}
    ensures DataStepOk(l, at, PutWriting(batch, n), PutWriting(batch, n + 1), sh')
  {
    BatchOneMore(at(sh.log), batch, n);
  }

  lemma BatchOneMore(r: Snapshot, batch: seq<Write>, n: nat)
    requires n < |batch|
    ensures Apply(r.values, batch[..n + 1]) == Apply(r.values, batch[..n])[batch[n].oid := batch[n].value]
    ensures r.driven + Targets(batch[..n + 1]) == r.driven + Targets(batch[..n]) + {batch[n].oid}
  {
    assert batch[..n + 1][..n] == batch[..n];
  }

  lemma PutStartsOk(l: Layout, at: History, batch: seq<Write>, sh: Shared)
    requires DataOk(l, at, PutWantValues(batch), sh) && Settled(l, at, sh, ValuesLock)
    ensures DataStepOk(l, at, PutWantValues(batch), PutWriting(batch, 0), sh)
  {
    assert batch[..0] == [] && Targets([]) == {};
  }

  lemma PutCommitsOk(l: Layout, at: History, batch: seq<Write>, sh: Shared, sh': Shared)
    requires Replays(l, at) && DataOk(l, at, PutWriting(batch, |batch|), sh)
    requires sh' == sh.(log := sh.log + [PutCommit(batch)])
    ensures DataStepOk(l, at, PutWriting(batch, |batch|), PutUnlock, sh')
  {
    assert batch[..|batch|] == batch;
    assert at(sh.log + [PutCommit(batch)]) == Committed(l, at(sh.log), PutCommit(batch));
  }

  lemma PutDataOk(l: Layout, at: History, task: Task, sh: Shared)
    requires Replays(l, at) && IsPut(task) && (task.PutWriting? ==> task.n <= |task.batch|)
    requires DataOk(l, at, task, sh) && Offered(l, at, task, sh) && Acquired(task, PutMoves(task, sh).0)
    ensures DataStepOk(l, at, task, PutMoves(task, sh).0, PutMoves(task, sh).1)
  {
    var (task', sh') := PutMoves(task, sh);
    match task
    case PutWantValues(batch) => PutStartsOk(l, at, batch, sh);
    case PutWriting(batch, n) =>
      if n < |batch| {
        PutWritesOk(l, at, batch, n, sh, sh');
      } else {
        PutCommitsOk(l, at, batch, sh, sh');
      }
    case _ => CleanStepOk(l, at, task, task', sh);
  }

  lemma DriftTicksOk(l: Layout, at: History, sh: Shared, sh': Shared)
    requires DataOk(l, at, DriftTick, sh) && sh' == sh.(values := Tick(l, sh.values, sh.driven))
    ensures DataStepOk(l, at, DriftTick, DriftMirror, sh')
  {
  }

  lemma DriftCommitsOk(l: Layout, at: History, sh: Shared, sh': Shared)
    requires Replays(l, at) && DataOk(l, at, DriftMirror, sh)
    requires sh' == sh.(values := sh.values + Mirror(l, sh.values), log := sh.log + [DriftCommit])
    ensures DataStepOk(l, at, DriftMirror, DriftUnlock, sh')
  {
    assert at(sh.log + [DriftCommit]) == Committed(l, at(sh.log), DriftCommit);
  }

  lemma DriftDataOk(l: Layout, at: History, task: Task, sh: Shared)
    requires Replays(l, at) && IsDrift(task)
    requires DataOk(l, at, task, sh) && Offered(l, at, task, sh) && Acquired(task, DriftMoves(l, task, sh).0)
    ensures DataStepOk(l, at, task, DriftMoves(l, task, sh).0, DriftMoves(l, task, sh).1)
  {
    var (task', sh') := DriftMoves(l, task, sh);
    match task
    case DriftTick => DriftTicksOk(l, at, sh, sh');
    case DriftMirror => DriftCommitsOk(l, at, sh, sh');
    case _ => CleanStepOk(l, at, task, task', sh);
  }

  lemma FollowMarksOk(l: Layout, at: History, next: Values, sh: Shared, sh': Shared)
    requires DataOk(l, at, FollowMark(next), sh) && sh' == sh.(driven := sh.driven + next.Keys)
    ensures DataStepOk(l, at, FollowMark(next), FollowWantValues(next), sh')
  {
  }

  lemma FollowStartsOk(l: Layout, at: History, next: Values, sh: Shared)
    requires DataOk(l, at, FollowWantValues(next), sh) && Settled(l, at, sh, ValuesLock)
    ensures DataStepOk(l, at, FollowWantValues(next), FollowStore(next, next.Keys), sh)
  {
    assert sh.values + (next - next.Keys) == sh.values;
  }

  lemma FollowStoresOk(l: Layout, at: History, next: Values, todo: set<Oid>, k: Oid, sh: Shared, sh': Shared)
    requires DataOk(l, at, FollowStore(next, todo), sh) && k in todo && k in next
    requires sh' == sh.(values := sh.values[k := next[k]])
    ensures DataStepOk(l, at, FollowStore(next, todo), FollowStore(next, todo - {k}), sh')
  {
    StoreOneMore(at(sh.log).values, next, todo, k);
  }

  lemma StoreOneMore(values: Values, next: Values, todo: set<Oid>, k: Oid)
    requires k in todo && k in next
    ensures values + (next - (todo - {k})) == (values + (next - todo))[k := next[k]]
  {
  }

  lemma FollowCommitsOk(l: Layout, at: History, next: Values, sh: Shared, sh': Shared)
    requires Replays(l, at) && DataOk(l, at, FollowStore(next, {}), sh)
    requires sh' == sh.(log := sh.log + [StoreCommit(next)])
    ensures DataStepOk(l, at, FollowStore(next, {}), FollowUnlock, sh')
  {
    assert next - {} == next;
    assert at(sh.log + [StoreCommit(next)]) == Committed(l, at(sh.log), StoreCommit(next));
  }

  lemma FollowDataOk(l: Layout, at: History, task: Task, sh: Shared, c: Choice)
    requires Replays(l, at) && IsFollow(task)
    requires DataOk(l, at, task, sh) && Offered(l, at, task, sh) && Acquired(task, FollowMoves(l, task, sh, c).0)
    ensures DataStepOk(l, at, task, FollowMoves(l, task, sh, c).0, FollowMoves(l, task, sh, c).1)
  {
    var (task', sh') := FollowMoves(l, task, sh, c);
    match task
    case FollowMark(next) => FollowMarksOk(l, at, next, sh, sh');
    case FollowWantValues(next) => FollowStartsOk(l, at, next, sh);
    case FollowStore(next, todo) =>
      if c.key in todo && c.key in next {
        FollowStoresOk(l, at, next, todo, c.key, sh, sh');
      } else if todo == {} {
        FollowCommitsOk(l, at, next, sh, sh');
      }
    case _ => CleanStepOk(l, at, task, task', sh);
  }

  lemma StepDataOk(l: Layout, at: History, task: Task, sh: Shared, c: Choice)
    requires Replays(l, at) && WellShaped(task) && DataOk(l, at, task, sh) && Offered(l, at, task, sh)
    ensures DataStepOk(l, at, task, Step(l, task, sh, c).0, Step(l, task, sh, c).1)
  {
    StepKeepsLocks(l, task, sh, c);
    if IsPut(task) {
      PutDataOk(l, at, task, sh);
    } else if IsDrift(task) {
      DriftDataOk(l, at, task, sh);
    } else if IsFollow(task) {
      FollowDataOk(l, at, task, sh, c);
    } else {
      CleanStepOk(l, at, task, GetMoves(task, sh), sh);
    }
  }

  // ----- Every step: locals -----

  lemma ReadingsAreReadings(l: Layout, powerW: real, values: Values)
    ensures IsReadings(l, ReadingsOf(l, powerW, values))
  {
  }

  lemma PutLocalsOk(l: Layout, at: History, task: Task, sh: Shared)
    requires IsPut(task) && LocalsOk(l, at, task, sh.log)
    ensures LocalsOk(l, at, PutMoves(task, sh).0, PutMoves(task, sh).1.log)
  {
  }

  lemma DriftLocalsOk(l: Layout, at: History, task: Task, sh: Shared)
    requires IsDrift(task)
    ensures LocalsOk(l, at, DriftMoves(l, task, sh).0, DriftMoves(l, task, sh).1.log)
  {
  }

  lemma FollowLocalsOk(l: Layout, at: History, task: Task, sh: Shared, c: Choice)
    requires IsFollow(task) && LocalsOk(l, at, task, sh.log)
    ensures LocalsOk(l, at, FollowMoves(l, task, sh, c).0, FollowMoves(l, task, sh, c).1.log)
  {
    if task.FollowRead? {
      ReadingsAreReadings(l, task.powerW, sh.values);
    }
  }

  lemma AnswersComplete(values: Values, job: Job, answers: seq<VarBind>)
    requires |answers| == |job.request.bindings|
    requires forall i | 0 <= i < |answers| :: answers[i] == Answer(values, job.request.bindings[i].name, job.isNext)
    ensures Pdu(job.request.requestId, 0, 0, answers) == Respond(values, job.request, job.isNext)
  {
    assert answers == Respond(values, job.request, job.isNext).bindings;
  }

  /** The answers so far, then the response, come from the committed map. */
  lemma GetLocalsOk(l: Layout, at: History, task: Task, sh: Shared)
    requires IsGet(task) && LocalOk(l, at, task, sh)
    ensures LocalsOk(l, at, GetMoves(task, sh), sh.log)
  {
    if task.GetRead? && |task.answers| == |task.job.request.bindings| {
      assert sh.log[..|sh.log|] == sh.log;
      AnswersComplete(at(sh.log).values, task.job, task.answers);
    }
  }

  lemma StepLocalsOk(l: Layout, at: History, task: Task, sh: Shared, c: Choice)
    requires LocalOk(l, at, task, sh)
    ensures LocalsOk(l, at, Step(l, task, sh, c).0, Step(l, task, sh, c).1.log)
  {
    if IsPut(task) {
      PutLocalsOk(l, at, task, sh);
    } else if IsDrift(task) {
      DriftLocalsOk(l, at, task, sh);
    } else if IsFollow(task) {
      FollowLocalsOk(l, at, task, sh, c);
    } else {
      GetLocalsOk(l, at, task, sh);
    }
  }

  lemma StepIsOk(l: Layout, at: History, task: Task, sh: Shared, task': Task, sh': Shared)
    requires LocalsOk(l, at, task', sh'.log) && DataStepOk(l, at, task, task', sh')
    requires Acquired(task, task') && Framed(task, sh, sh') && Logged(l, sh, sh')
    ensures StepOk(l, at, task, sh, task', sh')
  {
  }

  lemma TaskStepOk(l: Layout, at: History, task: Task, sh: Shared, c: Choice)
    requires Replays(l, at) && LocalOk(l, at, task, sh) && Offered(l, at, task, sh)
    ensures StepOk(l, at, task, sh, Step(l, task, sh, c).0, Step(l, task, sh, c).1)
  {
    StepKeepsLocks(l, task, sh, c);
    StepLogs(l, at, task, sh, c);
    LocalsWellShaped(l, at, task, sh.log);
    StepDataOk(l, at, task, sh, c);
    StepLocalsOk(l, at, task, sh, c);
    var (task', sh') := Step(l, task, sh, c);
    StepIsOk(l, at, task, sh, task', sh');
  }

  /** A task that does not hold `values` keeps its guarantees while others commit. */
  lemma UndisturbedByCommit(l: Layout, at: History, task: Task, log: seq<Commit>, c: Commit)
    requires LocalsOk(l, at, task, log) && !Holds(task, ValuesLock)
    ensures LocalsOk(l, at, task, log + [c])
  {
    match task
    case GetReply(job, stamp, response) => assert (log + [c])[..stamp] == log[..stamp];
    case GetDone(job, stamp, reply) =>
      if reply.Some? {
        assert (log + [c])[..stamp] == log[..stamp];
      }
    case _ =>
  }

  /** Steps left until the task holds nothing. */
  function Work(task: Task): (r: nat) {
    match task
    case PutWantValues(batch) => |batch| + 3
    case PutWriting(batch, n) => if n <= |batch| then |batch| - n + 2 else 1
    case PutUnlock => 1
    case DriftWantValues => 4
    case DriftTick => 3
    case DriftMirror => 2
    case DriftUnlock => 1
    case FollowRead(_) => 1
    case FollowMark(next) => |next.Keys| + 4
    case FollowWantValues(next) => |next.Keys| + 3
    case FollowStore(_, todo) => |todo| + 2
    case FollowUnlock => 1
    case GetCheck(job) => |job.request.bindings| + 4
    case GetWantValues(job) => |job.request.bindings| + 3
    case GetRead(job, _, answers) =>
      if |answers| <= |job.request.bindings| then |job.request.bindings| - |answers| + 2 else 1
    case GetReply(_, _, _) => 1
    case _ => 0
  }

  /** Progress counters are in range, so each holder's step leaves less work. */
  predicate WellShaped(task: Task) {
    match task
    case PutWriting(batch, n) => n <= |batch|
    case FollowStore(next, todo) => todo <= next.Keys
    case GetRead(job, _, answers) => |answers| <= |job.request.bindings|
    case _ => true
  }

  lemma LocalsWellShaped(l: Layout, at: History, task: Task, log: seq<Commit>)
    requires LocalsOk(l, at, task, log)
    ensures WellShaped(task)
  {
  }

  lemma StoreWorks(l: Layout, task: Task, sh: Shared, c: Choice)
    requires task.FollowStore? && WellShaped(task) && (task.todo != {} ==> c.key in task.todo)
    ensures Work(FollowMoves(l, task, sh, c).0) < Work(task)
  {
    if task.todo != {} {
      assert |task.todo - {c.key}| == |task.todo| - 1;
    }
  }

  lemma PutWorks(task: Task, sh: Shared)
    requires WellShaped(task) && (task.PutWantValues? || task.PutWriting? || task.PutUnlock?)
    ensures Work(PutMoves(task, sh).0) < Work(task)
  {
  }

  lemma GetWorks(task: Task, sh: Shared)
    requires WellShaped(task) && (task.GetCheck? || task.GetWantValues? || task.GetRead? || task.GetReply?)
    ensures Work(GetMoves(task, sh)) < Work(task)
  {
  }

  lemma DriftWorks(l: Layout, task: Task, sh: Shared)
    requires task.DriftWantValues? || task.DriftTick? || task.DriftMirror? || task.DriftUnlock?
    ensures Work(DriftMoves(l, task, sh).0) < Work(task)
  {
  }

  lemma FollowWorks(next: Values)
    ensures Work(FollowStore(next, next.Keys)) < Work(FollowWantValues(next)) < Work(FollowMark(next))
  {
  }

  lemma HolderWorks(l: Layout, task: Task, sh: Shared, c: Choice, k: Lock)
    requires WellShaped(task) && Holds(task, k)
    requires task.FollowStore? && task.todo != {} ==> c.key in task.todo
    ensures Work(Step(l, task, sh, c).0) < Work(task)
  {
    if task.FollowStore? {
      StoreWorks(l, task, sh, c);
    } else if IsPut(task) {
      PutWorks(task, sh);
    } else if IsGet(task) {
      GetWorks(task, sh);
    } else if IsDrift(task) {
      DriftWorks(l, task, sh);
    } else if task.FollowMark? || task.FollowWantValues? {
      FollowWorks(task.next);
    }
  }

  // ----- Requests end -----

  predicate IsRequest(task: Task) {
    IsPut(task) || IsGet(task)
  }

  /** Steps left until a PUT or a Get is done. */
  function Left(task: Task): (n: nat) {
    match task
    case PutParse(_, order) => |order| + 6
    case PutWantDriven(batch) => |batch| + 5
    case PutWantValues(batch) => |batch| + 4
    case PutWriting(batch, n) => if n <= |batch| then |batch| - n + 2 else 2
    case PutUnlock => 1
    case GetStart(job) => |job.request.bindings| + 5
    case GetCheck(job) => |job.request.bindings| + 4
    case GetWantValues(job) => |job.request.bindings| + 3
    case GetRead(job, _, answers) =>
      if |answers| <= |job.request.bindings| then |job.request.bindings| - |answers| + 2 else 2
    case GetReply(_, _, _) => 1
    case _ => 0
  }

  lemma PutProgresses(task: Task, sh: Shared)
    requires IsPut(task) && !Finished(task)
    ensures IsPut(PutMoves(task, sh).0) && Left(PutMoves(task, sh).0) < Left(task)
  {
  }

  lemma GetProgresses(task: Task, sh: Shared)
    requires IsGet(task) && !Finished(task)
    ensures IsGet(GetMoves(task, sh)) && Left(GetMoves(task, sh)) < Left(task)
  {
  }

  /** A request's own step brings it closer to its end. */
  lemma RequestProgresses(l: Layout, task: Task, sh: Shared, c: Choice)
    requires IsRequest(task) && !Finished(task)
    ensures IsRequest(Step(l, task, sh, c).0) && Left(Step(l, task, sh, c).0) < Left(task)
  {
    if IsPut(task) {
      PutProgresses(task, sh);
    } else {
      GetProgresses(task, sh);
    }
  }
}
