/** Every interleaving of any number of agent tasks: mutual exclusion, deadlock
    freedom, atomicity of batches, and what a run's history guarantees. */
module AgentRuns {
  import opened Numbers
  import opened Control
  import opened PduView
  import opened Commits
  import opened AgentTasks

  datatype Sys = Sys(tasks: seq<Task>, shared: Shared)

  predicate Free(s: Sys, k: Lock) {
    forall t | 0 <= t < |s.tasks| :: !Holds(s.tasks[t], k)
  }

  /** Task `t` can move: it is not waiting for a held lock. */
  predicate Enabled(s: Sys, t: nat, c: Choice) {
    && t < |s.tasks|
    && !Finished(s.tasks[t])
    && (Wants(s.tasks[t]).Some? ==> Free(s, Wants(s.tasks[t]).value))
    && (s.tasks[t].FollowStore? && s.tasks[t].todo != {} ==> c.key in s.tasks[t].todo)
  }

  ghost function Next(l: Layout, s: Sys, t: nat, c: Choice): (r: Sys)
    requires t < |s.tasks|
  {
    var (task', shared') := Step(l, s.tasks[t], s.shared, c);
    Sys(s.tasks[t := task'], shared')
  }

  /** Tasks that have not begun; a PUT iterates its body in some order. */
  ghost predicate Fresh(task: Task) {
    || (task.PutParse? && IsOrder(task.body.Keys, task.order))
    || task.DriftSleep? || task.FollowPoll? || task.GetStart?
  }

  ghost predicate Init(s: Sys, boot: Values) {
    && s.shared == Shared(boot, {}, [])
    && forall t | 0 <= t < |s.tasks| :: Fresh(s.tasks[t])
  }

  ghost predicate Exclusive(s: Sys) {
    forall t, u, k | 0 <= t < |s.tasks| && 0 <= u < |s.tasks| && t != u ::
      !(Holds(s.tasks[t], k) && Holds(s.tasks[u], k))
  }

  ghost predicate Inv(l: Layout, at: History, s: Sys) {
    && Exclusive(s)
    && (forall t | 0 <= t < |s.tasks| :: LocalOk(l, at, s.tasks[t], s.shared))
    && (forall k | Free(s, k) :: Settled(l, at, s.shared, k))
    && AllGenuine(l, s.shared.log)
  }

  lemma InitInv(l: Layout, at: History, s: Sys, boot: Values)
    requires at([]) == Snapshot(boot, {}) && Init(s, boot)
    ensures Inv(l, at, s)
  {
  }

  /** Acquiring only free locks keeps holders apart. */
  lemma StepKeepsExclusion(s: Sys, t: nat, task': Task, shared': Shared)
    requires t < |s.tasks| && Exclusive(s)
    requires Wants(s.tasks[t]).Some? ==> Free(s, Wants(s.tasks[t]).value)
    requires forall k | Holds(task', k) :: Holds(s.tasks[t], k) || Wants(s.tasks[t]) == Some(k)
    ensures Exclusive(Sys(s.tasks[t := task'], shared'))
  {
  }

  /** A step of `t` leaves every other task's guarantees intact. */
  lemma OthersKeepOk(l: Layout, at: History, s: Sys, t: nat, u: nat, task': Task, shared': Shared)
    requires t < |s.tasks| && u < |s.tasks| && t != u && Inv(l, at, s)
    requires StepOk(l, at, s.tasks[t], s.shared, task', shared')
    ensures LocalOk(l, at, s.tasks[u], shared')
  {
    assert LocalOk(l, at, s.tasks[u], s.shared);
    if shared'.log != s.shared.log {
      assert Holds(s.tasks[t], ValuesLock) && Holds(s.tasks[t], DrivenLock);
      assert !Holds(s.tasks[u], ValuesLock) && !Holds(s.tasks[u], DrivenLock);
      var c :| shared'.log == s.shared.log + [c] && Genuine(l, c);
      UndisturbedByCommit(l, at, s.tasks[u], s.shared.log, c);
    } else {
      assert !(Holds(s.tasks[t], ValuesLock) && Holds(s.tasks[u], ValuesLock));
      assert !(Holds(s.tasks[t], DrivenLock) && Holds(s.tasks[u], DrivenLock));
    }
  }

  lemma FreeStaysSettled(l: Layout, at: History, s: Sys, t: nat, task': Task, shared': Shared, k: Lock)
    requires t < |s.tasks| && Inv(l, at, s)
    requires StepOk(l, at, s.tasks[t], s.shared, task', shared')
    requires Free(Sys(s.tasks[t := task'], shared'), k)
    ensures Settled(l, at, shared', k)
  {
    assert s.tasks[t := task'][t] == task';
    if !Holds(s.tasks[t], k) {
      forall u | 0 <= u < |s.tasks|
        ensures !Holds(s.tasks[u], k)
      {
        assert u != t ==> s.tasks[t := task'][u] == s.tasks[u];
      }
      assert Free(s, k) && Settled(l, at, s.shared, k);
    }
  }

  lemma InvStep(l: Layout, at: History, s: Sys, t: nat, c: Choice)
    requires Replays(l, at) && Inv(l, at, s) && Enabled(s, t, c)
    ensures Inv(l, at, Next(l, s, t, c))
  {
    var task := s.tasks[t];
    var (task', shared') := Step(l, task, s.shared, c);
    var s' := Next(l, s, t, c);
    assert Wants(task).Some? ==> Settled(l, at, s.shared, Wants(task).value);
    TaskStepOk(l, at, task, s.shared, c);
    StepKeepsExclusion(s, t, task', shared');
    forall u | 0 <= u < |s'.tasks|
      ensures LocalOk(l, at, s'.tasks[u], shared')
    {
      if u != t {
        OthersKeepOk(l, at, s, t, u, task', shared');
      }
    }
    forall k | Free(s', k)
      ensures Settled(l, at, shared', k)
    {
      FreeStaysSettled(l, at, s, t, task', shared', k);
    }
  }

  // ----- Runs -----

  datatype Move = Move(task: nat, choice: Choice)

  /** `run[i]` is the state after the first `i` moves. */
  ghost predicate IsRun(l: Layout, boot: Values, run: seq<Sys>, moves: seq<Move>) {
    && |run| == |moves| + 1
    && Init(run[0], boot)
    && forall i | 0 <= i < |moves| :: MoveOk(l, run, moves, i)
  }

  ghost predicate MoveOk(l: Layout, run: seq<Sys>, moves: seq<Move>, i: nat)
    requires i < |moves| && |run| == |moves| + 1
  {
    && Enabled(run[i], moves[i].task, moves[i].choice)
    && run[i + 1] == Next(l, run[i], moves[i].task, moves[i].choice)
  }

  lemma {:induction false} RunInv(l: Layout, boot: Values, at: History, run: seq<Sys>, moves: seq<Move>, i: nat)
    requires Replays(l, at) && at([]) == Snapshot(boot, {})
    requires IsRun(l, boot, run, moves) && i < |run|
    ensures Inv(l, at, run[i])
  {
    if i == 0 {
      InitInv(l, at, run[0], boot);
    } else {
      RunInv(l, boot, at, run, moves, i - 1);
      assert MoveOk(l, run, moves, i - 1);
      InvStep(l, at, run[i - 1], moves[i - 1].task, moves[i - 1].choice);
    }
  }

  ghost function ReplayFrom(l: Layout, boot: Values): (at: History)
    ensures Replays(l, at) && at([]) == Snapshot(boot, {})
    ensures forall log :: at(log) == Replay(l, boot, log)
  {
    var at := (log: seq<Commit>) => Replay(l, boot, log);
    assert Replays(l, at) by {
      forall log, c
        ensures at(log + [c]) == Committed(l, at(log), c)
      {
        ReplayOneMore(l, boot, log, c);
      }
    }
    at
  }

  /** Every reachable state satisfies the invariant over the replayed history. */
  lemma Reachable(l: Layout, boot: Values, run: seq<Sys>, moves: seq<Move>, i: nat)
    requires IsRun(l, boot, run, moves) && i < |run|
    ensures Inv(l, ReplayFrom(l, boot), run[i])
  {
    RunInv(l, boot, ReplayFrom(l, boot), run, moves, i);
  }

  // ----- Deadlock freedom -----

  /** Some choice lets an unfinished task whose lock is free move. */
  lemma Movable(s: Sys, t: nat) returns (c: Choice)
    requires t < |s.tasks| && !Finished(s.tasks[t])
    requires Wants(s.tasks[t]).Some? ==> Free(s, Wants(s.tasks[t]).value)
    ensures Enabled(s, t, c)
  {
    var task := s.tasks[t];
    if task.FollowStore? && task.todo != {} {
      var k :| k in task.todo;
      c := Choice(0.0, k);
    } else {
      c := Choice(0.0, []);
    }
  }

  /** A holder of a lock above which nothing is held can move. */
  lemma TopHolderMoves(s: Sys, t: nat, k: Lock) returns (c: Choice)
    requires t < |s.tasks| && Holds(s.tasks[t], k)
    requires forall j: Lock | Rank(k) < Rank(j) :: Free(s, j)
    ensures Enabled(s, t, c)
  {
    LockOrderRespected(s.tasks[t], k);
    c := Movable(s, t);
  }

  /** Whatever is held, some holder can move. */
  lemma SomeHolderMoves(s: Sys, k: Lock) returns (t: nat, c: Choice)
    requires !Free(s, k)
    ensures Enabled(s, t, c) && exists j :: Holds(s.tasks[t], j)
    decreases 2 - Rank(k)
  {
    if j: Lock :| Rank(k) < Rank(j) && !Free(s, j) {
      t, c := SomeHolderMoves(s, j);
    } else {
      t :| 0 <= t < |s.tasks| && Holds(s.tasks[t], k);
      c := TopHolderMoves(s, t, k);
    }
  }

  /** Any number of tasks, anywhere in their programs: while one is unfinished,
      one can move. */
  lemma DeadlockFree(s: Sys)
    requires exists t :: 0 <= t < |s.tasks| && !Finished(s.tasks[t])
    ensures exists t: nat, c :: Enabled(s, t, c)
  {
    if k: Lock :| !Free(s, k) {
      var t, c := SomeHolderMoves(s, k);
    } else {
      var t :| 0 <= t < |s.tasks| && !Finished(s.tasks[t]);
      var c := Movable(s, t);
    }
  }

  /** Two tasks never hold the same lock in any reachable state. */
  lemma MutualExclusion(l: Layout, boot: Values, run: seq<Sys>, moves: seq<Move>, i: nat, t: nat, u: nat, k: Lock)
    requires IsRun(l, boot, run, moves) && i < |run|
    requires t < |run[i].tasks| && u < |run[i].tasks| && Holds(run[i].tasks[t], k) && Holds(run[i].tasks[u], k)
    ensures t == u
  {
    Reachable(l, boot, run, moves, i);
  }

  // ----- Every lock can always be released -----

  function TotalWork(tasks: seq<Task>): (r: nat) {
    if tasks == [] then 0 else TotalWork(tasks[..|tasks| - 1]) + Work(tasks[|tasks| - 1])
  }

  lemma {:induction false} LessWork(tasks: seq<Task>, t: nat, task': Task)
    requires t < |tasks|
    ensures TotalWork(tasks[t := task']) == TotalWork(tasks) - Work(tasks[t]) + Work(task')
  {
    var n := |tasks| - 1;
    if t == n {
      assert tasks[t := task'][..n] == tasks[..n];
    } else {
      LessWork(tasks[..n], t, task');
      assert tasks[t := task'][..n] == tasks[..n][t := task'];
    }
  }

  lemma HolderAdvances(l: Layout, at: History, s: Sys, t: nat, c: Choice)
    requires Inv(l, at, s) && Enabled(s, t, c) && exists k :: Holds(s.tasks[t], k)
    ensures TotalWork(Next(l, s, t, c).tasks) < TotalWork(s.tasks)
  {
    assert LocalOk(l, at, s.tasks[t], s.shared);
    LocalsWellShaped(l, at, s.tasks[t], s.shared.log);
    var k :| Holds(s.tasks[t], k);
    HolderWorks(l, s.tasks[t], s.shared, c, k);
    LessWork(s.tasks, t, Step(l, s.tasks[t], s.shared, c).0);
  }

  lemma Prepend(l: Layout, s: Sys, t: nat, c: Choice, rest: seq<Sys>, more: seq<Move>)
    requires Enabled(s, t, c) && |rest| == |more| + 1 && rest[0] == Next(l, s, t, c)
    requires forall i | 0 <= i < |more| :: MoveOk(l, rest, more, i)
    ensures forall i | 0 <= i < |more| + 1 :: MoveOk(l, [s] + rest, [Move(t, c)] + more, i)
  {
    forall i | 0 <= i < |more| + 1
      ensures MoveOk(l, [s] + rest, [Move(t, c)] + more, i)
    {
      if i > 0 {
        assert MoveOk(l, rest, more, i - 1);
      }
    }
  }

  predicate IsHolder(s: Sys, t: nat) {
    t < |s.tasks| && exists k :: Holds(s.tasks[t], k)
  }

  lemma PrependHolders(s: Sys, t: nat, c: Choice, rest: seq<Sys>, more: seq<Move>)
    requires IsHolder(s, t) && |rest| == |more| + 1
    requires forall i | 0 <= i < |more| :: IsHolder(rest[i], more[i].task)
    ensures forall i | 0 <= i < |more| + 1 :: IsHolder(([s] + rest)[i], ([Move(t, c)] + more)[i].task)
  {
  }

  /** From any reachable state, moving only tasks that hold a lock frees every
      lock: nobody waits on a section that cannot end. */
  lemma {:induction false} SectionsCanEnd(l: Layout, at: History, s: Sys) returns (run: seq<Sys>, moves: seq<Move>)
    requires Replays(l, at) && Inv(l, at, s)
    ensures |run| == |moves| + 1 && run[0] == s
    ensures forall i | 0 <= i < |moves| :: MoveOk(l, run, moves, i)
    ensures forall i | 0 <= i < |moves| :: IsHolder(run[i], moves[i].task)
    ensures forall k :: Free(run[|moves|], k)
    decreases TotalWork(s.tasks)
  {
    if k: Lock :| !Free(s, k) {
      var t, c := SomeHolderMoves(s, k);
      InvStep(l, at, s, t, c);
      HolderAdvances(l, at, s, t, c);
      var rest, more := SectionsCanEnd(l, at, Next(l, s, t, c));
      Prepend(l, s, t, c, rest, more);
      PrependHolders(s, t, c, rest, more);
      run, moves := [s] + rest, [Move(t, c)] + more;
    } else {
      run, moves := [s], [];
    }
  }

  // ----- Every request can finish -----

  /** The work of the others, and the steps left to task `t`. */
  function Remaining(tasks: seq<Task>, t: nat): (n: nat)
    requires t < |tasks|
  {
    Left(tasks[t]) + TotalWork(tasks[t := FollowPoll])
  }

  lemma OwnMoveRemains(l: Layout, s: Sys, t: nat, c: Choice)
    requires t < |s.tasks| && IsRequest(s.tasks[t]) && !Finished(s.tasks[t])
    ensures IsRequest(Next(l, s, t, c).tasks[t])
    ensures Remaining(Next(l, s, t, c).tasks, t) < Remaining(s.tasks, t)
  {
    var task' := Step(l, s.tasks[t], s.shared, c).0;
    RequestProgresses(l, s.tasks[t], s.shared, c);
    assert s.tasks[t := task'][t := FollowPoll] == s.tasks[t := FollowPoll];
  }

  lemma OthersMoveRemains(l: Layout, at: History, s: Sys, t: nat, u: nat, c: Choice)
    requires Inv(l, at, s) && Enabled(s, u, c) && IsHolder(s, u) && t < |s.tasks| && t != u
    ensures Next(l, s, u, c).tasks[t] == s.tasks[t]
    ensures Remaining(Next(l, s, u, c).tasks, t) < Remaining(s.tasks, t)
  {
    var task' := Step(l, s.tasks[u], s.shared, c).0;
    assert LocalOk(l, at, s.tasks[u], s.shared);
    LocalsWellShaped(l, at, s.tasks[u], s.shared.log);
    var k :| Holds(s.tasks[u], k);
    HolderWorks(l, s.tasks[u], s.shared, c, k);
    LessWork(s.tasks[t := FollowPoll], u, task');
    assert s.tasks[u := task'][t := FollowPoll] == s.tasks[t := FollowPoll][u := task'];
  }

  /** From any reachable state every unfinished PUT or Get can be brought to its
      end, whatever the other tasks hold. */
  lemma {:induction false} RequestCanFinish(l: Layout, at: History, s: Sys, t: nat)
    returns (run: seq<Sys>, moves: seq<Move>)
    requires Replays(l, at) && Inv(l, at, s) && t < |s.tasks| && IsRequest(s.tasks[t])
    ensures |run| == |moves| + 1 && run[0] == s
    ensures forall i | 0 <= i < |moves| :: MoveOk(l, run, moves, i)
    ensures t < |run[|moves|].tasks| && Finished(run[|moves|].tasks[t])
    decreases Remaining(s.tasks, t)
  {
    if Finished(s.tasks[t]) {
      run, moves := [s], [];
      return;
    }
    var u, c;
    if k: Lock :| !Free(s, k) {
      u, c := SomeHolderMoves(s, k);
    } else {
      c := Movable(s, t);
      u := t;
    }
    InvStep(l, at, s, u, c);
    if u == t {
      OwnMoveRemains(l, s, t, c);
    } else {
      OthersMoveRemains(l, at, s, t, u, c);
    }
    var rest, more := RequestCanFinish(l, at, Next(l, s, u, c), t);
    Prepend(l, s, u, c, rest, more);
    run, moves := [s] + rest, [Move(u, c)] + more;
  }
}
