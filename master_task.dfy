/** The tasks the contest master node hands to workers, after
    prologin/masternode/task.py: a compilation of a champion or a match, its
    execution count, start time and last error, and the on-disk layout of
    match directories. The monotonic clock is the `now` parameter. */
module MasterTask {
  import opened Common

  datatype TaskKind =
    | Compilation(user: string, champId: int)
    | Match(mid: int)

  /** `get_champion_path`: the path components of a champion directory. */
  function ChampionPath(directory: string, game: string, user: string, cid: int): seq<string>
  {
    [directory, game, "champions", user, IntToString(cid)]
  }

  /** A champion's directory lies under `champions`, in the directory
      named after its user, and its last component reads back as its id. */
  lemma ChampionPathParts(directory: string, game: string, user: string, cid: int)
    ensures var p := ChampionPath(directory, game, user, cid);
      |p| == 5 && p[2] == "champions" && p[3] == user && ParseInt(p[4]) == Some(cid)
  {
    ParseIntToString(cid);
  }

  /** `get_match_path`: the thousands of the match id, then the id modulo
      1000, each zero-padded to three digits. */
  function MatchPath(directory: string, game: string, mid: nat): (p: seq<string>)
    ensures |p| == 5 && p[..3] == [directory, game, "matches"]
    ensures |p[3]| >= 3 && AllDigits(p[3]) && DigitsValue(p[3]) == mid / 1000
    ensures |p[4]| == 3 && AllDigits(p[4]) && DigitsValue(p[4]) == mid % 1000
  {
    [directory, game, "matches", Pad3(mid / 1000), Pad3(mid % 1000)]
  }

  /** Distinct matches get distinct directories. */
  lemma MatchPathInjective(directory: string, game: string, m1: nat, m2: nat)
    requires MatchPath(directory, game, m1) == MatchPath(directory, game, m2)
    ensures m1 == m2
  {
    var p1 := MatchPath(directory, game, m1);
    var p2 := MatchPath(directory, game, m2);
    assert p1[3] == p2[3] && p1[4] == p2[4];
    assert m1 == m1 / 1000 * 1000 + m1 % 1000;
    assert m2 == m2 / 1000 * 1000 + m2 % 1000;
  }

  /** The error an execution leaves on a task of kind `kind`: a match
      whose run_match call raised `rpcError` records it; a compilation, or
      a match whose call succeeded, has none. */
  function ExecutionError(kind: TaskKind, rpcError: Option<string>): Option<string>
  {
    if kind.Match? && rpcError.Some? then Some("Could not dispatch match: " + rpcError.value) else None
  }

  /** A task with limit `timeout`, started at `startTime`, has run out of
      time at `now`; without a limit or a start it never does. */
  predicate TimedOut(timeout: Option<real>, startTime: Option<real>, now: real)
  {
    timeout.Some? && startTime.Some? && now > startTime.value + timeout.value
  }

  /** A compilation or a match handed to a worker. */
  class Task {
    const kind: TaskKind
    const timeout: Option<real>
    var startTime: Option<real>
    var executions: nat
    var error: Option<string>

    constructor (kind: TaskKind, timeout: Option<real>)
      ensures this.kind == kind && this.timeout == timeout
      ensures startTime == None && executions == 0 && error == None
    {
      this.kind := kind;
      this.timeout := timeout;
      startTime := None;
      executions := 0;
      error := None;
    }

    /** `slots_taken`: a compilation takes one slot, a match five. */
    function SlotsTaken(): nat
    {
      if kind.Compilation? then 1 else 5
    }

    /** `Task.execute`: one more execution, started now, with no error. */
    method Execute(now: real)
      modifies this
      ensures startTime == Some(now) && executions == old(executions) + 1 && error == None
    {
      startTime := Some(now);
      executions := executions + 1;
      error := None;
    }

    /** `has_timeout`: a started task with a timeout whose time is up. */
    predicate HasTimeout(now: real)
      reads this
    {
      TimedOut(timeout, startTime, now)
    }

    /** `has_error`. */
    predicate HasError()
      reads this
    {
      error.Some?
    }

    /** `MatchTask.execute`: the common execution step, then the run_match
        call; `rpcError` is the failure it raised, if any. The match is set
        pending (the result) only once the call has succeeded. */
    method ExecuteMatch(now: real, rpcError: Option<string>) returns (markedPending: bool)
      requires kind.Match?
      modifies this
      ensures startTime == Some(now) && executions == old(executions) + 1
      ensures markedPending <==> rpcError.None?
      ensures markedPending ==> !HasError()
      ensures !markedPending ==> error == Some("Could not dispatch match: " + rpcError.value)
    {
      Execute(now);
      if rpcError.Some? {
        error := Some("Could not dispatch match: " + rpcError.value);
        return false;
      }
      markedPending := true;
    }

    /** The `execute` of the task's own class, up to its status write:
        `CompilationTask.execute` runs the common step and sets the
        champion pending; `MatchTask.execute` is ExecuteMatch. The result
        says whether the task was set pending; `rpcError` is what run_match
        raised, which a compilation does not call. */
    method Run(now: real, rpcError: Option<string>) returns (markedPending: bool)
      modifies this
      ensures startTime == Some(now) && executions == old(executions) + 1
      ensures error == ExecutionError(kind, rpcError)
      ensures markedPending <==> kind.Compilation? || rpcError.None?
      ensures markedPending <==> !HasError()
    {
      if kind.Compilation? {
        Execute(now);
        return true;
      }
      markedPending := ExecuteMatch(now, rpcError);
    }
  }
}
