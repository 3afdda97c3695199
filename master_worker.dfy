/** The master node's view of one worker, after
    python-lib/prologin/masternode/worker.py: its free slots, its running
    tasks and the time of its last heartbeat. The wall clock is the `now`
    parameter. */
module MasterWorker {
  import opened Common
  import opened MasterTask

  /** Whether a task is the compilation (`compilation`) or the match with
      identifier `id`. */
  predicate IsTaskFor(kind: TaskKind, compilation: bool, id: int)
  {
    if compilation then kind.Compilation? && kind.champId == id
    else kind.Match? && kind.mid == id
  }

  /** The tasks that are not for (`compilation`, `id`), in their order. */
  function Without(tasks: seq<Task>, compilation: bool, id: int): (r: seq<Task>)
    ensures |r| <= |tasks|
    ensures forall i :: 0 <= i < |r| ==> r[i] in tasks && !IsTaskFor(r[i].kind, compilation, id)
    ensures forall i :: 0 <= i < |tasks| && !IsTaskFor(tasks[i].kind, compilation, id) ==> tasks[i] in r
  {
    if tasks == [] then []
    else if IsTaskFor(tasks[|tasks| - 1].kind, compilation, id) then Without(tasks[..|tasks| - 1], compilation, id)
    else Without(tasks[..|tasks| - 1], compilation, id) + [tasks[|tasks| - 1]]
  }

  /** Removing distributes over concatenation, so the kept tasks keep their
      relative order. */
  lemma {:induction false} WithoutAppend(a: seq<Task>, b: seq<Task>, compilation: bool, id: int)
    ensures Without(a + b, compilation, id) == Without(a, compilation, id) + Without(b, compilation, id)
    decreases |b|
  {
    if b == [] {
      assert a + b == a;
    } else {
      var b' := b[..|b| - 1];
      assert (a + b)[..|a + b| - 1] == a + b';
      assert (a + b)[|a + b| - 1] == b[|b| - 1];
      WithoutAppend(a, b', compilation, id);
    }
  }

  /** When no task is for (`compilation`, `id`), nothing is removed. */
  lemma {:induction false} WithoutNothing(tasks: seq<Task>, compilation: bool, id: int)
    requires forall t :: t in tasks ==> !IsTaskFor(t.kind, compilation, id)
    ensures Without(tasks, compilation, id) == tasks
  {
    if tasks != [] {
      var init := tasks[..|tasks| - 1];
      assert forall t :: t in init ==> t in tasks;
      WithoutNothing(init, compilation, id);
      assert init + [tasks[|tasks| - 1]] == tasks;
    }
  }

  class Worker {
    const hostname: string
    const port: int
    var slots: int
    var maxSlots: int
    var tasks: seq<Task>
    var lastHeartbeat: real

    constructor (hostname: string, port: int, slots: int, maxSlots: int, now: real)
      ensures this.hostname == hostname && this.port == port
      ensures this.slots == slots && this.maxSlots == maxSlots
      ensures tasks == [] && lastHeartbeat == now
    {
      this.hostname := hostname;
      this.port := port;
      this.slots := slots;
      this.maxSlots := maxSlots;
      tasks := [];
      lastHeartbeat := now;
    }

    /** `usage`: the fraction of slots in use. */
    function Usage(): (u: real)
      requires maxSlots != 0
      reads this
      ensures u * maxSlots as real == (maxSlots - slots) as real
    {
      1.0 - slots as real / maxSlots as real
    }

    /** `update`: the slot counts reported by a heartbeat. */
    method Update(slots: int, maxSlots: int, now: real)
      modifies this`slots, this`maxSlots, this`lastHeartbeat
      ensures this.slots == slots && this.maxSlots == maxSlots && lastHeartbeat == now
    {
      this.slots := slots;
      this.maxSlots := maxSlots;
      KeepAlive(now);
    }

    /** `keep_alive`. */
    method KeepAlive(now: real)
      modifies this`lastHeartbeat
      ensures lastHeartbeat == now
    {
      lastHeartbeat := now;
    }

    /** `is_alive`: heard from less than `timeout` seconds ago. */
    predicate IsAlive(now: real, timeout: real)
      reads this
    {
      now - lastHeartbeat < timeout
    }

    /** `can_add_task`: enough free slots for the task. */
    predicate CanAddTask(t: Task)
    reads this
    {
      slots >= t.SlotsTaken()
    }

    /** `add_task`: the task takes its slots and joins the list, and the
        `execute` of its class runs; `rpcError` is what a match's run_match
        call raises. The result says whether the task was set pending. */
    method AddTask(t: Task, now: real, rpcError: Option<string>) returns (markedPending: bool)
      modifies this`slots, this`tasks, t
      ensures slots == old(slots) - t.SlotsTaken() && tasks == old(tasks) + [t]
      ensures t.startTime == Some(now) && t.executions == old(t.executions) + 1
      ensures t.error == ExecutionError(t.kind, rpcError)
      ensures markedPending <==> t.kind.Compilation? || rpcError.None?
    {
      slots := slots - t.SlotsTaken();
      tasks := tasks + [t];
      markedPending := t.Run(now, rpcError);
    }

    /** `remove_compilation_task` and `remove_match_task`: rebuild the task
        list without the tasks for that champion or match. */
    method RemoveTask(compilation: bool, id: int)
      modifies this`tasks
      ensures tasks == Without(old(tasks), compilation, id)
    {
      var all := tasks;
      var kept: seq<Task> := [];
      var i := 0;
      while i < |all|
        invariant 0 <= i <= |all|
        invariant kept == Without(all[..i], compilation, id)
      {
        var t := all[i];
        assert all[..i + 1][..i] == all[..i];
        if IsTaskFor(t.kind, compilation, id) {
          i := i + 1;
          continue;
        }
        kept := kept + [t];
        i := i + 1;
      }
      assert all[..i] == all;
      tasks := kept;
    }

    /** The first task for (`compilation`, `id`), if any. */
    function FindTask(compilation: bool, id: int): (r: Option<Task>)
      reads this
      ensures r.None? <==> forall i :: 0 <= i < |tasks| ==> !IsTaskFor(tasks[i].kind, compilation, id)
      ensures r.Some? ==> r.value in tasks && IsTaskFor(r.value.kind, compilation, id)
      ensures r.Some? ==> exists i :: FirstAt(tasks, i, compilation, id) && tasks[i] == r.value
    {
      FirstFor(tasks, compilation, id)
    }
  }

  /** Position `i` holds the first task for (`compilation`, `id`). */
  predicate FirstAt(tasks: seq<Task>, i: int, compilation: bool, id: int)
  {
    0 <= i < |tasks| && IsTaskFor(tasks[i].kind, compilation, id)
    && forall j :: 0 <= j < i ==> !IsTaskFor(tasks[j].kind, compilation, id)
  }

  function FirstFor(tasks: seq<Task>, compilation: bool, id: int): (r: Option<Task>)
    ensures r.None? <==> forall i :: 0 <= i < |tasks| ==> !IsTaskFor(tasks[i].kind, compilation, id)
    ensures r.Some? ==> r.value in tasks && IsTaskFor(r.value.kind, compilation, id)
    ensures r.Some? ==> exists i :: FirstAt(tasks, i, compilation, id) && tasks[i] == r.value
  {
    if tasks == [] then None
    else if IsTaskFor(tasks[0].kind, compilation, id) then Some(tasks[0])
    else
      var r := FirstFor(tasks[1..], compilation, id);
      if r.Some? then
        var i :| FirstAt(tasks[1..], i, compilation, id) && tasks[1..][i] == r.value;
        assert FirstAt(tasks, i + 1, compilation, id);
        r
      else r
  }

  /** A task added and then removed by its identifier leaves the list as it
      was, provided no other task had that identifier. */
  lemma AddThenRemove(tasks: seq<Task>, t: Task, compilation: bool, id: int)
    requires IsTaskFor(t.kind, compilation, id)
    requires forall u :: u in tasks ==> !IsTaskFor(u.kind, compilation, id)
    ensures Without(tasks + [t], compilation, id) == tasks
  {
    WithoutAppend(tasks, [t], compilation, id);
    WithoutNothing(tasks, compilation, id);
    assert [t][..0] == [];
  }
}
