/** The contest master node of prologin/masternode/master.py: the registry
    of workers keyed by (hostname, port), the handling of compilation and
    match results, the retry-or-fail policy for stuck tasks and the
    dispatch of new tasks to the least used worker. The database is the
    `db` log of the writes the master makes; the reachability probe and the
    clocks are parameters. */
module Master {
  import opened Common
  import opened MasterTask
  import opened MasterWorker

  type Key = (string, int)

  datatype PlayerScore = PlayerScore(playerId: int, score: int, timeout: bool)

  /** The writes the master makes to the contest database, in order. */
  datatype DbCall =
    | SetChampionStatus(champId: int, status: string)
    | SetMatchStatus(mid: int, status: string)
    | SetPlayerScores(scores: seq<PlayerScore>)

  /** The status write of a task's `execute` ("pending"), `redispatch`
      ("new") or `fail` ("failed") step. */
  function StatusCall(kind: TaskKind, status: string): DbCall
  {
    match kind
    case Compilation(_, champId) => SetChampionStatus(champId, status)
    case Match(mid) => SetMatchStatus(mid, status)
  }

  function StatusCalls(tasks: seq<Task>, status: string): (r: seq<DbCall>)
    ensures |r| == |tasks|
    ensures forall i :: 0 <= i < |tasks| ==> r[i] == StatusCall(tasks[i].kind, status)
  {
    if tasks == [] then [] else [StatusCall(tasks[0].kind, status)] + StatusCalls(tasks[1..], status)
  }

  lemma StatusCallsAppend(tasks: seq<Task>, t: Task, status: string)
    ensures StatusCalls(tasks + [t], status) == StatusCalls(tasks, status) + [StatusCall(t.kind, status)]
  {
  }

  /** The status write of an execution of a task of kind `kind`: a
      compilation is set pending, and a match only once its run_match
      call has succeeded. */
  function ExecuteCalls(kind: TaskKind, rpcError: Option<string>): (r: seq<DbCall>)
    ensures r == [] || r == [StatusCall(kind, "pending")]
    ensures r != [] <==> kind.Compilation? || rpcError.None?
  {
    if ExecutionError(kind, rpcError).None? then [StatusCall(kind, "pending")] else []
  }

  /** The status writes of the executions of `tasks`, in order;
      `rpcErrors[i]` is what the run_match call of `tasks[i]` raises, if it
      is a match. */
  function LaunchCalls(tasks: seq<Task>, rpcErrors: seq<Option<string>>): (r: seq<DbCall>)
    requires |rpcErrors| == |tasks|
    ensures |r| <= |tasks|
  {
    if tasks == [] then []
    else
      var n := |tasks| - 1;
      LaunchCalls(tasks[..n], rpcErrors[..n]) + ExecuteCalls(tasks[n].kind, rpcErrors[n])
  }

  lemma LaunchCallsSnoc(tasks: seq<Task>, rpcErrors: seq<Option<string>>, n: int)
    requires |rpcErrors| == |tasks| && 0 <= n < |tasks|
    ensures LaunchCalls(tasks[..n + 1], rpcErrors[..n + 1])
         == LaunchCalls(tasks[..n], rpcErrors[..n]) + ExecuteCalls(tasks[n].kind, rpcErrors[n])
  {
    assert tasks[..n + 1][..n] == tasks[..n] && rpcErrors[..n + 1][..n] == rpcErrors[..n];
  }

  lemma AppendAssoc<T>(a: seq<T>, b: seq<T>, c: seq<T>)
    ensures (a + b) + c == a + (b + c)
  {
  }

  /** The status of a finished compilation. */
  function CompilationStatus(success: bool, internalError: bool): string
  {
    if success then "ready" else if internalError then "failed" else "error"
  }

  /** One row of a match result, by field name. */
  type Row = map<string, int>

  predicate WellFormedRow(row: Row)
  {
    "player" in row && "score" in row && "nb_timeout" in row
  }

  /** The player scores of a match result; None when some row lacks a
      field (the KeyError of the source). */
  function PlayerScores(rows: seq<Row>): (r: Option<seq<PlayerScore>>)
    ensures r.None? <==> exists i :: 0 <= i < |rows| && !WellFormedRow(rows[i])
    ensures r.Some? ==> |r.value| == |rows|
    ensures r.Some? ==> forall i :: 0 <= i < |rows| ==>
      r.value[i].playerId == rows[i]["player"] && r.value[i].score == rows[i]["score"]
      && (r.value[i].timeout <==> rows[i]["nb_timeout"] != 0)
  {
    if rows == [] then Some([])
    else if !WellFormedRow(rows[0]) then None
    else match PlayerScores(rows[1..])
      case None => None
      case Some(rest) =>
        Some([PlayerScore(rows[0]["player"], rows[0]["score"], rows[0]["nb_timeout"] != 0)] + rest)
  }

  /** The database writes for a finished match whose task was found, or
      None when the result reports success but has no match_result at all
      (the error handler itself then fails on the missing key). */
  function MatchDoneCalls(mid: int, success: bool, matchResult: Option<seq<Row>>): (r: Option<seq<DbCall>>)
    ensures r.None? <==> success && matchResult.None?
    ensures r.Some? ==> |r.value| >= 1 && r.value[|r.value| - 1].SetMatchStatus? && r.value[|r.value| - 1].mid == mid
    ensures r.Some? ==> (r.value[|r.value| - 1].status == "done" <==>
                         success && PlayerScores(matchResult.value).Some?)
    ensures r.Some? && r.value[|r.value| - 1].status != "done" ==> r.value[|r.value| - 1].status == "failed" && |r.value| == 1
    ensures r.Some? && r.value[|r.value| - 1].status == "done" ==>
      r.value == [SetPlayerScores(PlayerScores(matchResult.value).value), SetMatchStatus(mid, "done")]
  {
    if !success then Some([SetMatchStatus(mid, "failed")])
    else if matchResult.None? then None
    else match PlayerScores(matchResult.value)
      case None => Some([SetMatchStatus(mid, "failed")])
      case Some(scores) => Some([SetPlayerScores(scores), SetMatchStatus(mid, "done")])
  }

  /** The tasks not in `gone`, in their order. */
  function Drop(tasks: seq<Task>, gone: set<Task>): (r: seq<Task>)
    ensures forall i :: 0 <= i < |r| ==> r[i] in tasks && r[i] !in gone
    ensures forall i :: 0 <= i < |tasks| && tasks[i] !in gone ==> tasks[i] in r
  {
    if tasks == [] then []
    else if tasks[|tasks| - 1] in gone then Drop(tasks[..|tasks| - 1], gone)
    else Drop(tasks[..|tasks| - 1], gone) + [tasks[|tasks| - 1]]
  }

  lemma {:induction false} DropNothing(tasks: seq<Task>)
    ensures Drop(tasks, {}) == tasks
  {
    if tasks != [] {
      var init, last := tasks[..|tasks| - 1], tasks[|tasks| - 1];
      calc {
        Drop(tasks, {});
        { assert last !in {}; }
        Drop(init, {}) + [last];
        { DropNothing(init); }
        init + [last];
        { assert init + [last] == tasks; }
        tasks;
      }
    }
  }

  lemma {:induction false} DropMore(tasks: seq<Task>, gone: set<Task>, t: Task)
    ensures Drop(Drop(tasks, gone), {t}) == Drop(tasks, gone + {t})
  {
    if tasks != [] {
      DropMore(tasks[..|tasks| - 1], gone, t);
      var init := Drop(tasks[..|tasks| - 1], gone);
      var last := tasks[|tasks| - 1];
      if last !in gone {
        assert (init + [last])[..|init|] == init;
      }
    }
  }

  lemma DropStep(tasks: seq<Task>, gone: set<Task>, rest: set<Task>, t: Task)
    requires t in rest && t in gone
    ensures Drop(Drop(tasks, gone - rest), {t}) == Drop(tasks, gone - (rest - {t}))
  {
    DropMore(tasks, gone - rest, t);
    assert (gone - rest) + {t} == gone - (rest - {t});
  }

  predicate NoDup(tasks: seq<Task>)
  {
    forall i, j :: 0 <= i < j < |tasks| ==> tasks[i] != tasks[j]
  }

  lemma {:induction false} DropNoDup(tasks: seq<Task>, gone: set<Task>)
    requires NoDup(tasks)
    ensures NoDup(Drop(tasks, gone))
  {
    if tasks != [] {
      var init := tasks[..|tasks| - 1];
      DropNoDup(init, gone);
      assert forall i :: 0 <= i < |init| ==> init[i] != tasks[|tasks| - 1];
    }
  }

  lemma {:induction false} WithoutNoDup(tasks: seq<Task>, compilation: bool, id: int)
    requires NoDup(tasks)
    ensures NoDup(Without(tasks, compilation, id))
  {
    if tasks != [] {
      var init := tasks[..|tasks| - 1];
      WithoutNoDup(init, compilation, id);
      assert forall i :: 0 <= i < |init| ==> init[i] != tasks[|tasks| - 1];
    }
  }

  /** Every worker is registered under its own (hostname, port), so
      distinct keys hold distinct workers. */
  predicate Keyed(workers: map<Key, Worker>)
  {
    forall k :: k in workers ==> (workers[k].hostname, workers[k].port) == k
  }

  lemma NoDupAppend(tasks: seq<Task>, t: Task)
    requires NoDup(tasks) && t !in tasks
    ensures NoDup(tasks + [t])
  {
  }

  /** The part of a task that an execution changes. */
  datatype TaskState = TaskState(startTime: Option<real>, executions: nat, error: Option<string>)

  ghost function Snap(t: Task): TaskState
    reads t
  {
    TaskState(t.startTime, t.executions, t.error)
  }

  /** The state of a task after one more execution started at `now`,
      which left the error `error`. */
  function Launched(s: TaskState, now: real, error: Option<string>): TaskState
  {
    TaskState(Some(now), s.executions + 1, error)
  }

  /** A stuck task: timed out or failed. */
  predicate Stuck(s: TaskState, timeout: Option<real>, now: real)
  {
    TimedOut(timeout, s.startTime, now) || s.error.Some?
  }

  /** A stuck task that has used up its `maxTries` executions is failed. */
  predicate Fails(s: TaskState, timeout: Option<real>, now: real, maxTries: int)
  {
    Stuck(s, timeout, now) && s.executions >= maxTries
  }

  /** A stuck task with tries left is executed again. */
  predicate Retried(s: TaskState, timeout: Option<real>, now: real, maxTries: int)
  {
    Stuck(s, timeout, now) && s.executions < maxTries
  }

  /** The state of a task after the retry policy: a stuck task with tries
      left is executed again, leaving the error `error` of that execution;
      every other task is left as it was. */
  function Resubmitted(s: TaskState, timeout: Option<real>, now: real, maxTries: int, error: Option<string>): (r: TaskState)
    ensures r != s <==> Stuck(s, timeout, now) && s.executions < maxTries
    ensures r.executions <= s.executions + 1
    ensures s.executions <= maxTries ==> r.executions <= maxTries
  {
    if Retried(s, timeout, now, maxTries) then Launched(s, now, error) else s
  }

  /** The status writes of the retry policy on one task: those of its
      execution when it is executed again, else none. */
  function RetryCalls(s: TaskState, kind: TaskKind, timeout: Option<real>, now: real, maxTries: int,
                      rpcError: Option<string>): seq<DbCall>
  {
    if Retried(s, timeout, now, maxTries) then ExecuteCalls(kind, rpcError) else []
  }

  /** The status writes of the retry policy on `tasks`, whose states were
      `states`, in order. */
  function RetriesCalls(tasks: seq<Task>, states: seq<TaskState>, now: real, maxTries: int,
                        rpcErrors: seq<Option<string>>): seq<DbCall>
    requires |states| == |tasks| && |rpcErrors| == |tasks|
  {
    if tasks == [] then []
    else
      var n := |tasks| - 1;
      RetriesCalls(tasks[..n], states[..n], now, maxTries, rpcErrors[..n])
      + RetryCalls(states[n], tasks[n].kind, tasks[n].timeout, now, maxTries, rpcErrors[n])
  }

  lemma RetriesCallsSnoc(tasks: seq<Task>, states: seq<TaskState>, n: int, now: real, maxTries: int,
                         rpcErrors: seq<Option<string>>)
    requires |states| == |tasks| && |rpcErrors| == |tasks| && 0 <= n < |tasks|
    ensures RetriesCalls(tasks[..n + 1], states[..n + 1], now, maxTries, rpcErrors[..n + 1])
         == RetriesCalls(tasks[..n], states[..n], now, maxTries, rpcErrors[..n])
            + RetryCalls(states[n], tasks[n].kind, tasks[n].timeout, now, maxTries, rpcErrors[n])
  {
    assert tasks[..n + 1][..n] == tasks[..n] && states[..n + 1][..n] == states[..n];
    assert rpcErrors[..n + 1][..n] == rpcErrors[..n];
  }

  /** A re-executed compilation is set pending, and a re-executed match
      too unless its run_match call raised; a task that is not re-executed
      writes nothing. */
  lemma RetryCallsPending(s: TaskState, kind: TaskKind, timeout: Option<real>, now: real, maxTries: int,
                          rpcError: Option<string>)
    ensures RetryCalls(s, kind, timeout, now, maxTries, rpcError) == [] ||
            RetryCalls(s, kind, timeout, now, maxTries, rpcError) == [StatusCall(kind, "pending")]
    ensures RetryCalls(s, kind, timeout, now, maxTries, rpcError) != [] <==>
      Stuck(s, timeout, now) && s.executions < maxTries && (kind.Compilation? || rpcError.None?)
  {
  }

  ghost function Snaps(tasks: seq<Task>): (r: seq<TaskState>)
    reads set t | t in tasks
    ensures |r| == |tasks| && forall i :: 0 <= i < |tasks| ==> r[i] == Snap(tasks[i])
  {
    if tasks == [] then [] else Snaps(tasks[..|tasks| - 1]) + [Snap(tasks[|tasks| - 1])]
  }

  /** The body of the loop of `resubmit_timeout_tasks` for one task:
      re-execute it with the `execute` of its class, or report that it is
      to be failed. `calls` are the status writes of that execution, and
      `rpcError` is what a match's run_match call raises. */
  method Resubmit(t: Task, now: real, maxTries: int, rpcError: Option<string>) returns (fail: bool, calls: seq<DbCall>)
    modifies t
    ensures fail <==> Fails(old(Snap(t)), t.timeout, now, maxTries)
    ensures Snap(t) == Resubmitted(old(Snap(t)), t.timeout, now, maxTries, ExecutionError(t.kind, rpcError))
    ensures calls == RetryCalls(old(Snap(t)), t.kind, t.timeout, now, maxTries, rpcError)
  {
    fail := false;
    calls := [];
    if t.HasTimeout(now) || t.HasError() {
      if t.executions < maxTries {
        var pending := t.Run(now, rpcError);
        if pending {
          calls := [StatusCall(t.kind, "pending")];
        }
      } else {
        fail := true;
      }
    }
  }

  /** Facts that hold once the retry policy was applied to the first `i`
      tasks of `all`, whose states were `states`; `toFail` are the tasks
      to fail so far. */
  ghost predicate ResubmittedUpTo(all: seq<Task>, states: seq<TaskState>, rpcErrors: seq<Option<string>>, i: nat,
                                  toFail: set<Task>, now: real, maxTries: int)
    reads set t | t in all
  {
    i <= |all| == |states| == |rpcErrors|
    && (forall t :: t in toFail ==> t in all[..i])
    && (forall j :: i <= j < |all| ==> Snap(all[j]) == states[j])
    && (forall j :: 0 <= j < i ==>
          Snap(all[j]) == Resubmitted(states[j], all[j].timeout, now, maxTries, ExecutionError(all[j].kind, rpcErrors[j])))
    && (forall j :: 0 <= j < i ==> (all[j] in toFail <==> Fails(states[j], all[j].timeout, now, maxTries)))
  }

  /** One iteration of the first loop of `resubmit_timeout_tasks`, on
      `all[i]`: `Resubmit`, with the tasks to fail and the loop's facts
      carried over. */
  method ResubmitStep(all: seq<Task>, ghost states: seq<TaskState>, rpcErrors: seq<Option<string>>, i: nat,
                      toFail: set<Task>, now: real, maxTries: int)
    returns (toFail': set<Task>, calls: seq<DbCall>)
    requires NoDup(all) && i < |all| && ResubmittedUpTo(all, states, rpcErrors, i, toFail, now, maxTries)
    modifies all[i]
    ensures ResubmittedUpTo(all, states, rpcErrors, i + 1, toFail', now, maxTries)
    ensures calls == RetryCalls(states[i], all[i].kind, all[i].timeout, now, maxTries, rpcErrors[i])
  {
    var t := all[i];
    assert forall j :: 0 <= j < |all| && j != i ==> all[j] != t;
    var fail;
    fail, calls := Resubmit(t, now, maxTries, rpcErrors[i]);
    toFail' := if fail then toFail + {t} else toFail;
    assert all[..i + 1] == all[..i] + [t];
  }

  /** The first loop of `resubmit_timeout_tasks`: the retry policy applied
      to each task of `all`, whose states on entry are `states`; the result
      is the set of tasks to fail and the status writes of the executions
      started, in order. */
  method ResubmitEach(all: seq<Task>, now: real, maxTries: int, rpcErrors: seq<Option<string>>)
    returns (toFail: set<Task>, calls: seq<DbCall>, ghost states: seq<TaskState>)
    requires NoDup(all) && |rpcErrors| == |all|
    modifies all
    ensures |states| == |all| && forall j :: 0 <= j < |all| ==> states[j] == old(Snap(all[j]))
    ensures forall t :: t in toFail ==> t in all
    ensures forall j :: 0 <= j < |all| ==>
      Snap(all[j]) == Resubmitted(states[j], all[j].timeout, now, maxTries, ExecutionError(all[j].kind, rpcErrors[j]))
    ensures forall j :: 0 <= j < |all| ==> (all[j] in toFail <==> Fails(states[j], all[j].timeout, now, maxTries))
    ensures calls == RetriesCalls(all, states, now, maxTries, rpcErrors)
  {
    states := Snaps(all);
    toFail := {};
    calls := [];
    var i := 0;
    while i < |all|
      invariant ResubmittedUpTo(all, states, rpcErrors, i, toFail, now, maxTries)
      invariant calls == RetriesCalls(all[..i], states[..i], now, maxTries, rpcErrors[..i])
    {
      var more;
      toFail, more := ResubmitStep(all, states, rpcErrors, i, toFail, now, maxTries);
      RetriesCallsSnoc(all, states, i, now, maxTries, rpcErrors);
      calls := calls + more;
      i := i + 1;
    }
    assert all[..i] == all && states[..i] == states && rpcErrors[..i] == rpcErrors;
  }

  /** The second loop of `resubmit_timeout_tasks`: each task of `toFail`
      leaves the worker and its status becomes "failed"; `calls` are the
      status writes in the order they are made. */
  method FailTasks(w: Worker, toFail: set<Task>) returns (calls: seq<DbCall>, ghost failed: seq<Task>)
    modifies w`tasks
    ensures NoDup(failed) && forall t :: t in failed <==> t in toFail
    ensures w.tasks == Drop(old(w.tasks), toFail)
    ensures calls == StatusCalls(failed, "failed")
  {
    var all := w.tasks;
    var rest := toFail;
    calls := [];
    failed := [];
    DropNothing(all);
    assert toFail - rest == {};
    while rest != {}
      invariant rest <= toFail
      invariant forall t :: t in failed <==> t in toFail && t !in rest
      invariant NoDup(failed)
      invariant w.tasks == Drop(all, toFail - rest)
      invariant calls == StatusCalls(failed, "failed")
    {
      var t :| t in rest;
      DropStep(all, toFail, rest, t);
      w.tasks := Drop(w.tasks, {t});
      StatusCallsAppend(failed, t, "failed");
      calls := calls + [StatusCall(t.kind, "failed")];
      NoDupAppend(failed, t);
      failed := failed + [t];
      rest := rest - {t};
    }
    assert toFail - rest == toFail;
  }

  /** The work of `resubmit_timeout_tasks` on one worker: the status
      calls it issues (the "pending" writes of the executions it starts,
      then the "failed" writes), the task list on entry, the states of its
      tasks on entry and the failed tasks. */
  method ResubmitWorker(w: Worker, now: real, maxTries: int, rpcErrors: seq<Option<string>>)
    returns (calls: seq<DbCall>, ghost before: seq<Task>, ghost states: seq<TaskState>, ghost failed: seq<Task>)
    requires NoDup(w.tasks) && |rpcErrors| == |w.tasks|
    modifies w`tasks, w.tasks
    ensures before == old(w.tasks) && NoDup(w.tasks)
    ensures |states| == |before| && forall i :: 0 <= i < |before| ==> states[i] == old(Snap(before[i]))
    ensures forall i :: 0 <= i < |before| ==>
      Snap(before[i]) == Resubmitted(states[i], before[i].timeout, now, maxTries,
                                     ExecutionError(before[i].kind, rpcErrors[i]))
    ensures forall i :: 0 <= i < |before| ==>
      (before[i] in failed <==> Fails(states[i], before[i].timeout, now, maxTries))
    ensures NoDup(failed) && forall t :: t in failed ==> t in before
    ensures w.tasks == Drop(before, set t | t in failed)
    ensures calls == RetriesCalls(before, states, now, maxTries, rpcErrors) + StatusCalls(failed, "failed")
  {
    before := w.tasks;
    var toFail, pending;
    toFail, pending, states := ResubmitEach(w.tasks, now, maxTries, rpcErrors);
    var failCalls;
    failCalls, failed := FailTasks(w, toFail);
    calls := pending + failCalls;
    assert (set t | t in failed) == toFail;
    DropNoDup(before, toFail);
  }

  ghost predicate WorkerValid(w: Worker)
    reads w
  {
    NoDup(w.tasks)
  }

  class MasterNode {
    var workers: map<Key, Worker>
    var db: seq<DbCall>

    /** Every worker is registered under its own key and runs each task at
        most once. */
    ghost predicate Valid()
      reads this, workers.Values
    {
      Keyed(workers) && forall k :: k in workers ==> WorkerValid(workers[k])
    }

    constructor ()
      ensures workers == map[] && db == [] && Valid()
    {
      workers := map[];
      db := [];
    }

    /** `update_worker`: an unknown worker is registered if it answers the
        reachability probe (`reachable`); a known one takes the new slot
        counts and its heartbeat time. */
    method UpdateWorker(hostname: string, port: int, slots: int, maxSlots: int, now: real, reachable: bool)
      requires Valid()
      modifies this`workers, if (hostname, port) in workers then {workers[(hostname, port)]} else {}
      ensures Valid()
      ensures (hostname, port) !in old(workers) && !reachable ==> workers == old(workers)
      ensures (hostname, port) !in old(workers) && reachable ==>
        (hostname, port) in workers && workers == old(workers)[(hostname, port) := workers[(hostname, port)]]
        && fresh(workers[(hostname, port)]) && workers[(hostname, port)].tasks == []
      ensures (hostname, port) in old(workers) ==>
        workers == old(workers) && workers[(hostname, port)].tasks == old(workers[(hostname, port)].tasks)
      ensures (hostname, port) in workers ==>
        workers[(hostname, port)].slots == slots && workers[(hostname, port)].maxSlots == maxSlots
        && workers[(hostname, port)].lastHeartbeat == now
    {
      var key := (hostname, port);
      if key !in workers {
        var w := new Worker(hostname, port, slots, maxSlots, now);
        if reachable {
          workers := workers[key := w];
        }
      } else {
        workers[key].Update(slots, maxSlots, now);
      }
    }

    /** `redispatch_worker`: every task of the worker goes back to "new"
        and the worker is forgotten. */
    method RedispatchWorker(key: Key)
      requires Valid() && key in workers
      modifies this`workers, this`db
      ensures Valid()
      ensures workers == old(workers) - {key}
      ensures db == old(db) + StatusCalls(old(workers[key].tasks), "new")
    {
      db := db + StatusCalls(workers[key].tasks, "new");
      workers := workers - {key};
    }

    /** `heartbeat`: a worker announcing its first heartbeat while still
        registered has restarted, so its tasks are redispatched first. The
        usage `slots / max_slots` is computed before anything else, so a
        zero `max_slots` raises ZeroDivisionError (`ok` false) and nothing
        changes. */
    method Heartbeat(hostname: string, port: int, slots: int, maxSlots: int, first: bool, now: real, reachable: bool)
      returns (ok: bool)
      requires Valid()
      modifies this`workers, this`db, if (hostname, port) in workers then {workers[(hostname, port)]} else {}
      ensures Valid()
      ensures ok <==> maxSlots != 0
      ensures !ok ==> workers == old(workers) && db == old(db)
      ensures !ok && (hostname, port) in workers ==> unchanged(workers[(hostname, port)])
      ensures ok && first && (hostname, port) in old(workers) ==>
        db == old(db) + StatusCalls(old(workers[(hostname, port)].tasks), "new")
        && ((hostname, port) in workers <==> reachable)
      ensures ok && first && (hostname, port) in old(workers) && reachable ==>
        workers[(hostname, port)] != old(workers[(hostname, port)]) && workers[(hostname, port)].tasks == []
      ensures !(first && (hostname, port) in old(workers)) ==> db == old(db)
      ensures ok && !first && (hostname, port) in old(workers) ==>
        workers == old(workers) && workers[(hostname, port)].tasks == old(workers[(hostname, port)].tasks)
      ensures ok && (hostname, port) in workers ==>
        workers[(hostname, port)].slots == slots && workers[(hostname, port)].maxSlots == maxSlots
        && workers[(hostname, port)].lastHeartbeat == now
    {
      if maxSlots == 0 {
        return false;
      }
      var key := (hostname, port);
      if first && key in workers {
        RedispatchWorker(key);
      }
      UpdateWorker(hostname, port, slots, maxSlots, now, reachable);
      ok := true;
    }

    /** `compilation_done`: a result from an unknown worker, or for a task
        the worker no longer runs, is discarded; otherwise the task is
        removed and the champion status recorded. */
    method CompilationDone(hostname: string, port: int, champId: int, success: bool, internalError: bool)
      returns (status: Option<string>)
      requires Valid()
      modifies this`db, if (hostname, port) in workers then {workers[(hostname, port)]} else {}
      ensures Valid()
      ensures status.None? <==>
        (hostname, port) !in workers || old(workers[(hostname, port)].FindTask(true, champId)).None?
      ensures status.None? ==> db == old(db)
      ensures (hostname, port) in workers ==>
        workers[(hostname, port)].slots == old(workers[(hostname, port)].slots)
      ensures status.None? && (hostname, port) in workers ==>
        workers[(hostname, port)].tasks == old(workers[(hostname, port)].tasks)
      ensures status.Some? ==>
        status.value == CompilationStatus(success, internalError)
        && workers[(hostname, port)].tasks == Without(old(workers[(hostname, port)].tasks), true, champId)
        && db == old(db) + [SetChampionStatus(champId, status.value)]
    {
      var key := (hostname, port);
      if key !in workers {
        return None;
      }
      var w := workers[key];
      if w.FindTask(true, champId).None? {
        return None;
      }
      w.RemoveTask(true, champId);
      WithoutNoDup(old(w.tasks), true, champId);
      status := Some(CompilationStatus(success, internalError));
      db := db + [SetChampionStatus(champId, status.value)];
    }

    /** `match_done`: discarded like a compilation result; otherwise the
        task is removed and MatchDoneCalls says what is written. `raised`
        is the case where nothing is written because the result lacks its
        match_result entirely. */
    method MatchDone(hostname: string, port: int, mid: int, success: bool, matchResult: Option<seq<Row>>)
      returns (discarded: bool, raised: bool)
      requires Valid()
      modifies this`db, if (hostname, port) in workers then {workers[(hostname, port)]} else {}
      ensures Valid()
      ensures discarded <==>
        (hostname, port) !in workers || old(workers[(hostname, port)].FindTask(false, mid)).None?
      ensures (hostname, port) in workers ==>
        workers[(hostname, port)].slots == old(workers[(hostname, port)].slots)
      ensures discarded ==> !raised && db == old(db)
      ensures discarded && (hostname, port) in workers ==>
        workers[(hostname, port)].tasks == old(workers[(hostname, port)].tasks)
      ensures !discarded ==>
        workers[(hostname, port)].tasks == Without(old(workers[(hostname, port)].tasks), false, mid)
        && (raised <==> MatchDoneCalls(mid, success, matchResult).None?)
        && (raised ==> db == old(db))
        && (!raised ==> db == old(db) + MatchDoneCalls(mid, success, matchResult).value)
    {
      var key := (hostname, port);
      if key !in workers {
        return true, false;
      }
      var w := workers[key];
      if w.FindTask(false, mid).None? {
        return true, false;
      }
      w.RemoveTask(false, mid);
      WithoutNoDup(old(w.tasks), false, mid);
      discarded := false;
      var calls := MatchDoneCalls(mid, success, matchResult);
      if calls.None? {
        return false, true;
      }
      raised := false;
      db := db + calls.value;
    }

    /** `resubmit_timeout_tasks`: each stuck task of the worker is run again
        while it has had fewer than `maxTries` executions, and is otherwise
        removed from the worker and failed. `before` is the task list on
        entry, `states` the states of its tasks on entry and `failed` the
        failed tasks in the order their status was written. */
    method ResubmitTimeoutTasks(key: Key, now: real, maxTries: int, rpcErrors: seq<Option<string>>)
      returns (ghost before: seq<Task>, ghost states: seq<TaskState>, ghost failed: seq<Task>)
      requires Valid() && key in workers && |rpcErrors| == |workers[key].tasks|
      modifies workers[key], workers[key].tasks, this`db
      ensures Valid() && workers == old(workers)
      ensures before == old(workers[key].tasks)
      ensures workers[key].slots == old(workers[key].slots) && workers[key].maxSlots == old(workers[key].maxSlots)
      ensures workers[key].lastHeartbeat == old(workers[key].lastHeartbeat)
      ensures |states| == |before| && forall i :: 0 <= i < |before| ==> states[i] == old(Snap(before[i]))
      ensures forall i :: 0 <= i < |before| ==>
        Snap(before[i]) == Resubmitted(states[i], before[i].timeout, now, maxTries,
                                       ExecutionError(before[i].kind, rpcErrors[i]))
      ensures forall i :: 0 <= i < |before| ==>
        (before[i] in failed <==> Fails(states[i], before[i].timeout, now, maxTries))
      ensures NoDup(failed) && forall t :: t in failed ==> t in before
      ensures workers[key].tasks == Drop(before, set t | t in failed)
      ensures db == old(db) + (RetriesCalls(before, states, now, maxTries, rpcErrors) + StatusCalls(failed, "failed"))
    {
      var w := workers[key];
      var calls;
      calls, before, states, failed := ResubmitWorker(w, now, maxTries, rpcErrors);
      db := db + calls;
      forall k | k in workers && k != key
        ensures WorkerValid(workers[k])
      {
        assert workers[k] != w;
      }
    }

    /** `find_worker_for`: a worker with room for the task and the least
        usage among those with room, or None when none has room. Sorting by
        usage computes `slots / max_slots` for every worker with room, so a
        zero `max_slots` among them raises ZeroDivisionError (`ok` false). */
    method FindWorkerFor(t: Task) returns (r: Option<Key>, ok: bool)
      ensures !ok <==> exists k :: k in workers && workers[k].CanAddTask(t) && workers[k].maxSlots == 0
      ensures ok ==> (r.None? <==> forall k :: k in workers ==> !workers[k].CanAddTask(t))
      ensures ok && r.Some? ==> r.value in workers && workers[r.value].CanAddTask(t)
      ensures ok && r.Some? ==> forall k :: k in workers && workers[k].CanAddTask(t) ==>
        workers[r.value].Usage() <= workers[k].Usage()
    {
      r := None;
      var todo := workers.Keys;
      while todo != {}
        invariant todo <= workers.Keys
        invariant forall k :: k in workers.Keys - todo && workers[k].CanAddTask(t) ==> workers[k].maxSlots != 0
        invariant r.None? <==> forall k :: k in workers.Keys - todo ==> !workers[k].CanAddTask(t)
        invariant r.Some? ==> r.value in workers.Keys - todo && workers[r.value].CanAddTask(t)
        invariant r.Some? ==> forall k :: k in workers.Keys - todo && workers[k].CanAddTask(t) ==>
          workers[r.value].Usage() <= workers[k].Usage()
      {
        var k :| k in todo;
        if workers[k].CanAddTask(t) {
          if workers[k].maxSlots == 0 {
            return None, false;
          }
          if r.None? || workers[k].Usage() < workers[r.value].Usage() {
            r := Some(k);
          }
        }
        todo := todo - {k};
      }
      ok := true;
    }

    /** One step of dispatch_tasks: `add_task` on the chosen worker, whose
        execution of the task writes its "pending" status. */
    method Place(key: Key, t: Task, now: real, rpcError: Option<string>)
      requires Valid() && key in workers && t !in workers[key].tasks && workers[key].CanAddTask(t)
      modifies workers[key], t, this`db
      ensures Valid() && workers == old(workers)
      ensures workers[key].tasks == old(workers[key].tasks) + [t]
      ensures workers[key].slots == old(workers[key].slots) - t.SlotsTaken()
      ensures workers[key].maxSlots == old(workers[key].maxSlots)
      ensures t.executions == old(t.executions) + 1 && t.startTime == Some(now)
      ensures t.error == ExecutionError(t.kind, rpcError)
      ensures db == old(db) + ExecuteCalls(t.kind, rpcError)
    {
      var w := workers[key];
      NoDupAppend(w.tasks, t);
      var pending := w.AddTask(t, now, rpcError);
      if pending {
        db := db + [StatusCall(t.kind, "pending")];
      }
      forall k | k in workers && k != key
        ensures WorkerValid(workers[k])
      {
        assert workers[k] != w;
      }
    }

    /** One iteration of the loop of dispatch_tasks: find_worker_for picks
        a worker and the task is placed on it. `r` is None when no worker
        has room, and `ok` is false on find_worker_for's ZeroDivisionError;
        in both cases nothing changes. */
    method DispatchOne(t: Task, now: real, rpcError: Option<string>) returns (r: Option<Key>, ok: bool)
      requires Valid() && forall k :: k in workers ==> t !in workers[k].tasks
      modifies workers.Values, t, this`db
      ensures Valid() && workers == old(workers)
      ensures r.Some? ==> ok && r.value in workers
      ensures !ok ==> exists k :: k in workers && workers[k].CanAddTask(t) && workers[k].maxSlots == 0
      ensures ok && r.None? ==> forall k :: k in workers ==> !workers[k].CanAddTask(t)
      ensures forall k :: k in workers ==>
        workers[k].tasks == old(workers[k].tasks) + (if r == Some(k) then [t] else [])
      ensures r.None? ==> unchanged(workers.Values, t)
      ensures r.Some? ==> Snap(t) == Launched(old(Snap(t)), now, ExecutionError(t.kind, rpcError))
      ensures db == old(db) + (if r.Some? then ExecuteCalls(t.kind, rpcError) else [])
    {
      r, ok := FindWorkerFor(t);
      if !ok || r.None? {
        r := None;
        return;
      }
      Place(r.value, t, now, rpcError);
    }

    /** Facts that hold after the first `n` tasks of `tasks` were
        dispatched, `placed[i]` being the worker of `tasks[i]` and `olds`
        the states of the tasks before. */
    ghost predicate DispatchedUpTo(tasks: seq<Task>, rpcErrors: seq<Option<string>>, n: nat, placed: seq<Key>,
                                   olds: seq<TaskState>, now: real)
      reads this, workers.Values, set t | t in tasks
    {
      n <= |tasks| == |rpcErrors| == |olds| && |placed| == n && Valid()
      && (forall i :: 0 <= i < n ==> placed[i] in workers && tasks[i] in workers[placed[i]].tasks)
      && (forall k, i :: k in workers && n <= i < |tasks| ==> tasks[i] !in workers[k].tasks)
      && (forall i :: 0 <= i < n ==>
            Snap(tasks[i]) == Launched(olds[i], now, ExecutionError(tasks[i].kind, rpcErrors[i])))
      && (forall i :: n <= i < |tasks| ==> Snap(tasks[i]) == olds[i])
    }

    /** One iteration of the loop of dispatch_tasks, on `tasks[n]`. */
    method DispatchStep(tasks: seq<Task>, rpcErrors: seq<Option<string>>, n: nat, now: real,
                        ghost placed: seq<Key>, ghost olds: seq<TaskState>)
      returns (r: Option<Key>, ok: bool)
      requires NoDup(tasks) && n < |tasks| && DispatchedUpTo(tasks, rpcErrors, n, placed, olds, now)
      modifies workers.Values, tasks[n], this`db
      ensures workers == old(workers)
      ensures !ok ==> r.None? && exists k :: k in workers && workers[k].CanAddTask(tasks[n]) && workers[k].maxSlots == 0
      ensures ok && r.None? ==> forall k :: k in workers ==> !workers[k].CanAddTask(tasks[n])
      ensures r.None? ==> unchanged(workers.Values, tasks[n]) && db == old(db)
      ensures r.None? ==> DispatchedUpTo(tasks, rpcErrors, n, placed, olds, now)
      ensures r.Some? ==> ok && DispatchedUpTo(tasks, rpcErrors, n + 1, placed + [r.value], olds, now)
      ensures r.Some? ==> db == old(db) + ExecuteCalls(tasks[n].kind, rpcErrors[n])
    {
      var t := tasks[n];
      assert forall i :: 0 <= i < |tasks| && i != n ==> tasks[i] != t;
      r, ok := DispatchOne(t, now, rpcErrors[n]);
    }

    /** `dispatch_tasks`: each task in turn goes to the worker find_worker_for
        picks, until one finds no worker. `placed` is the worker each
        dispatched task went to and `states` the states of the tasks on
        entry. A ZeroDivisionError of find_worker_for ends the dispatch
        with `ok` false. */
    method DispatchTasks(tasks: seq<Task>, now: real, rpcErrors: seq<Option<string>>)
      returns (dispatched: nat, ok: bool, ghost placed: seq<Key>, ghost states: seq<TaskState>)
      requires Valid() && NoDup(tasks) && |rpcErrors| == |tasks|
      requires forall k, i :: k in workers && 0 <= i < |tasks| ==> tasks[i] !in workers[k].tasks
      modifies workers.Values, tasks, this`db
      ensures Valid() && workers == old(workers)
      ensures dispatched <= |tasks| && |placed| == dispatched
      ensures !ok ==> dispatched < |tasks|
      ensures !ok ==> exists k :: k in workers && workers[k].CanAddTask(tasks[dispatched]) && workers[k].maxSlots == 0
      ensures ok && dispatched < |tasks| ==> forall k :: k in workers ==> !workers[k].CanAddTask(tasks[dispatched])
      ensures forall i :: 0 <= i < dispatched ==> placed[i] in workers && tasks[i] in workers[placed[i]].tasks
      ensures |states| == |tasks| && forall i :: 0 <= i < |tasks| ==> states[i] == old(Snap(tasks[i]))
      ensures forall i :: 0 <= i < dispatched ==>
        Snap(tasks[i]) == Launched(states[i], now, ExecutionError(tasks[i].kind, rpcErrors[i]))
      ensures db == old(db) + LaunchCalls(tasks[..dispatched], rpcErrors[..dispatched])
    {
      states := Snaps(tasks);
      dispatched := 0;
      ok := true;
      placed := [];
      while dispatched < |tasks|
        invariant workers == old(workers)
        invariant DispatchedUpTo(tasks, rpcErrors, dispatched, placed, states, now)
        invariant db == old(db) + LaunchCalls(tasks[..dispatched], rpcErrors[..dispatched])
      {
        ghost var launched := LaunchCalls(tasks[..dispatched], rpcErrors[..dispatched]);
        var r;
        r, ok := DispatchStep(tasks, rpcErrors, dispatched, now, placed, states);
        if !ok {
          return;
        }
        if r.None? {
          break;
        }
        LaunchCallsSnoc(tasks, rpcErrors, dispatched);
        AppendAssoc(old(db), launched, ExecuteCalls(tasks[dispatched].kind, rpcErrors[dispatched]));
        placed := placed + [r.value];
        dispatched := dispatched + 1;
      }
    }
  }
}
