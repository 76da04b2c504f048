/**
 The in-memory step of the tracker's read-modify-write cycle: adding a task
 and marking a task completed, each a pure transformation of the list that
 was read from the store. `StoredAfterComplete` and `Replay` describe what
 the store holds afterwards, since a failed completion writes nothing.
 */
module TaskStore {
  import opened Options
  import opened Tasks

  /** Appends a new, not yet completed task whose id is the current task
      count plus `IdBase`. */
  function Add(tasks: seq<Task>, name: string, createdAt: Timestamp): (r: seq<Task>)
    ensures |r| == |tasks| + 1
    ensures r[..|tasks|] == tasks
    ensures r[|tasks|].id == |tasks| + IdBase
    ensures r[|tasks|].title == name
    ensures r[|tasks|].createdAt == createdAt
    ensures !r[|tasks|].status
  {
    tasks + [Task(|tasks| + IdBase, name, createdAt, false)]
  }

  /** Adding keeps every id at the position it was computed from. */
  lemma AddPreservesPositionalIds(tasks: seq<Task>, name: string, createdAt: Timestamp)
    requires PositionalIds(tasks)
    ensures PositionalIds(Add(tasks, name, createdAt))
  {
  }

  /** `k` is the first position holding a task with the given id. */
  predicate IsFirstMatch(tasks: seq<Task>, id: int, k: int) {
    && 0 <= k < |tasks|
    && tasks[k].id == id
    && forall j :: 0 <= j < k ==> tasks[j].id != id
  }

  /** Some task carries the given id. */
  predicate HasId(tasks: seq<Task>, id: int) {
    exists j :: 0 <= j < |tasks| && tasks[j].id == id
  }

  lemma FirstMatchIsUnique(tasks: seq<Task>, id: int, k: int, m: int)
    requires IsFirstMatch(tasks, id, k) && IsFirstMatch(tasks, id, m)
    ensures k == m
  {
  }

  /** The position a front-to-back scan stops at. */
  function FirstMatch(tasks: seq<Task>, id: int): (r: Option<nat>)
    ensures r.Some? ==> IsFirstMatch(tasks, id, r.value)
    ensures r.None? <==> !HasId(tasks, id)
  {
    if tasks == [] then None
    else if tasks[0].id == id then Some(0)
    else match FirstMatch(tasks[1..], id)
      case None => None
      case Some(k) => Some(k + 1)
  }

  /** The outcome of marking a task completed: the updated list, or the id no
      task carries. */
  datatype CompleteResult = Ok(tasks: seq<Task>) | NotFound(id: int)

  /** Marks the first task with the given id as completed. */
  function Complete(tasks: seq<Task>, id: int): (r: CompleteResult)
    ensures r.NotFound? <==> !HasId(tasks, id)
    ensures r.NotFound? ==> r.id == id
    ensures r.Ok? ==> |r.tasks| == |tasks|
    ensures r.Ok? ==> forall j :: 0 <= j < |tasks| ==>
      r.tasks[j] == if IsFirstMatch(tasks, id, j) then tasks[j].(status := true) else tasks[j]
  {
    match FirstMatch(tasks, id)
    case None => NotFound(id)
    case Some(k) =>
      var r := tasks[k := tasks[k].(status := true)];
      assert forall j :: 0 <= j < |tasks| && IsFirstMatch(tasks, id, j) ==> j == k by {
        forall j | 0 <= j < |tasks| && IsFirstMatch(tasks, id, j)
          ensures j == k
        {
          FirstMatchIsUnique(tasks, id, j, k);
        }
      }
      Ok(r)
  }

  /** The scan as the program runs it: a front-to-back loop that updates the
      first matching task and stops. */
  method CompleteTask(tasks: seq<Task>, id: int) returns (r: CompleteResult)
    ensures r == Complete(tasks, id)
  {
    var i := 0;
    while i < |tasks|
      invariant 0 <= i <= |tasks|
      invariant forall j :: 0 <= j < i ==> tasks[j].id != id
    {
      if tasks[i].id == id {
        assert IsFirstMatch(tasks, id, i);
        FirstMatchIsUnique(tasks, id, i, FirstMatch(tasks, id).value);
        return Ok(tasks[i := tasks[i].(status := true)]);
      }
      i := i + 1;
    }
    return NotFound(id);
  }

  /** Completion changes only the status of one task: ids, titles and
      creation times stay in place, so positional ids survive it. */
  lemma CompletePreservesPositionalIds(tasks: seq<Task>, id: int)
    requires PositionalIds(tasks)
    ensures Complete(tasks, id).Ok? ==> PositionalIds(Complete(tasks, id).tasks)
  {
  }

  /** When ids are distinct, exactly the task carrying `id` is completed. */
  lemma CompleteWithDistinctIds(tasks: seq<Task>, id: int)
    requires DistinctIds(tasks)
    ensures Complete(tasks, id).Ok? ==> forall j :: 0 <= j < |tasks| ==>
      Complete(tasks, id).tasks[j].status == (tasks[j].status || tasks[j].id == id)
  {
  }

  /** Completing twice with the same id gives the same outcome as once. */
  lemma CompleteIdempotent(tasks: seq<Task>, id: int)
    ensures Complete(tasks, id).Ok? ==>
      Complete(Complete(tasks, id).tasks, id) == Complete(tasks, id)
  {
  }

  /** What the store holds after a completion: the updated list when the id
      is found; otherwise the list as it was, because nothing is written. */
  function StoredAfterComplete(stored: seq<Task>, id: int): (r: seq<Task>)
    ensures !HasId(stored, id) ==> r == stored
    ensures |r| == |stored|
    ensures forall j :: 0 <= j < |stored| ==>
      r[j].id == stored[j].id && r[j].title == stored[j].title && r[j].createdAt == stored[j].createdAt
    ensures forall j :: 0 <= j < |stored| ==> (r[j].status <==> stored[j].status || IsFirstMatch(stored, id, j))
  {
    match Complete(stored, id)
    case Ok(updated) => updated
    case NotFound(_) => stored
  }

  /** A second completion with the same id leaves the store as the first left it. */
  lemma StoredAfterCompleteIdempotent(stored: seq<Task>, id: int)
    ensures StoredAfterComplete(StoredAfterComplete(stored, id), id) == StoredAfterComplete(stored, id)
  {
  }

  /** One invocation of the program that changes the store. */
  datatype Command = AddCommand(name: string, createdAt: Timestamp) | CompleteCommand(id: int)

  /** The store after one command: an add appends one task and a completion
      keeps the length; neither changes the id, title or creation time of a
      task already stored. */
  function Step(stored: seq<Task>, cmd: Command): (r: seq<Task>)
    ensures |r| == |stored| + (if cmd.AddCommand? then 1 else 0)
    ensures forall j :: 0 <= j < |stored| ==>
      r[j].id == stored[j].id && r[j].title == stored[j].title && r[j].createdAt == stored[j].createdAt
    ensures cmd.AddCommand? ==> r[|stored|].id == |stored| + IdBase && !r[|stored|].status
    ensures cmd.CompleteCommand? && !HasId(stored, cmd.id) ==> r == stored
  {
    match cmd
    case AddCommand(name, createdAt) => Add(stored, name, createdAt)
    case CompleteCommand(id) => StoredAfterComplete(stored, id)
  }

  /** The number of add commands in a history. */
  function AddCount(cmds: seq<Command>): nat {
    if cmds == [] then 0
    else AddCount(cmds[..|cmds| - 1]) + (if cmds[|cmds| - 1].AddCommand? then 1 else 0)
  }

  /** The store after running the commands in order, starting from an empty
      list. No command removes a task, so it holds one task per add. */
  function Replay(cmds: seq<Command>): (r: seq<Task>)
    ensures |r| == AddCount(cmds)
  {
    if cmds == [] then []
    else Step(Replay(cmds[..|cmds| - 1]), cmds[|cmds| - 1])
  }

  /** A store built only by the program's own commands from an empty list has
      positional, hence distinct, ids. */
  lemma {:induction false} ReplayHasDistinctIds(cmds: seq<Command>)
    ensures PositionalIds(Replay(cmds))
    ensures DistinctIds(Replay(cmds))
  {
    if cmds != [] {
      ReplayHasDistinctIds(cmds[..|cmds| - 1]);
      var before := Replay(cmds[..|cmds| - 1]);
      match cmds[|cmds| - 1]
      case AddCommand(name, createdAt) =>
        AddPreservesPositionalIds(before, name, createdAt);
      case CompleteCommand(id) =>
    }
    PositionalIdsAreDistinct(Replay(cmds));
  }

  /** Adding keeps the ids distinct exactly when they were distinct and the
      new id, the count plus `IdBase`, is not already in use. */
  lemma AddKeepsDistinctIds(tasks: seq<Task>, name: string, createdAt: Timestamp)
    ensures DistinctIds(Add(tasks, name, createdAt)) <==>
      DistinctIds(tasks) && !HasId(tasks, |tasks| + IdBase)
  {
  }

  /** The id scheme counts tasks rather than remembering used ids: a list
      whose ids were not assigned by this scheme can receive a repeated id. */
  lemma AddCanRepeatForeignId(createdAt: Timestamp)
    ensures var before := [Task(IdBase + 1, "edited", createdAt, false)];
      !DistinctIds(Add(before, "new", createdAt))
  {
    var after := Add([Task(IdBase + 1, "edited", createdAt, false)], "new", createdAt);
    assert after[0].id == after[1].id;
  }
}
