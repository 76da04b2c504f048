/**
 The task record of the tracker and the invariants of its id scheme.

 A new task's id is the number of tasks already stored plus a fixed base, so a
 list grown only by adding tasks has the id `IdBase + i` at position `i`, and
 its ids are therefore pairwise distinct.
 */
module Tasks {

  /** The creation time of a task. The model treats it as an opaque value the
      caller supplies (it is an ISO-8601 text in the stored file). */
  datatype Timestamp = Timestamp(iso8601: string)

  /** One to-do item; `status` is true once the task has been completed. */
  datatype Task = Task(id: int, title: string, createdAt: Timestamp, status: bool)

  /** The offset added to the task count to form a new task's id. */
  const IdBase: int := 5381

  /** Every task sits at the position its id was computed from. */
  predicate PositionalIds(tasks: seq<Task>) {
    forall i :: 0 <= i < |tasks| ==> tasks[i].id == IdBase + i
  }

  /** No two tasks share an id. */
  predicate DistinctIds(tasks: seq<Task>) {
    forall i, j :: 0 <= i < j < |tasks| ==> tasks[i].id != tasks[j].id
  }

  /** Positional ids are distinct ids. */
  lemma PositionalIdsAreDistinct(tasks: seq<Task>)
    requires PositionalIds(tasks)
    ensures DistinctIds(tasks)
    ensures forall i :: 0 <= i < |tasks| ==> IdBase <= tasks[i].id < IdBase + |tasks|
  {
  }
}
