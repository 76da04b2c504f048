# Task tracker core in Dafny

A model of the in-memory step of a command-line task tracker. The program keeps
its tasks as a JSON array in `tasks.json`. Each command reads the whole list.
`add`, and a `complete` that finds its id, change the list in memory and write
all of it back. `list`, and a `complete` that finds no task, write nothing:

- `add` appends a new task. Its id is the current task count plus 5381, it is
  not completed, and it carries the creation time.
- `complete <id>` marks the first task with that id as completed. If no task
  has that id, it reports an error and writes nothing.
- `list` prints "No tasks found." for an empty list. Otherwise it prints a
  `Tasks:` header and one `<id>. <title> [Completed|Not completed]` line per task.

The model treats the loaded list as a `seq<Task>` that has already been decoded.
Each command becomes a pure function over that sequence.

| module | file | contents |
|---|---|---|
| `Options` | options.dfy | `Option`, for lookups and parses that can fail |
| `Tasks` | tasks.dfy | the `Task` record, the id base 5381, and the positional-id and distinct-id invariants |
| `Decimal` | decimal.dfy | integers printed the way Go's `%d` prints them, plus a parser that inverts the printing |
| `TaskStore` | store.dfy | `Add` and `Complete`; the loop form `CompleteTask`; what the store holds after each command; replaying a command history |
| `Listing` | listing.dfy | the printed lines of `list`, plus a reader that recovers id, title and status from them |

Creation times are an opaque `Timestamp` that the caller passes in. The error
of `complete` is the `NotFound(id)` case of `CompleteResult`.

The id scheme counts tasks; it does not remember which ids are in use.
`ReplayHasDistinctIds` proves that a store built only by the program's own
commands, starting from an empty list, has ids `5381, 5382, …` in order, so
its ids are distinct. `AddCanRepeatForeignId` shows that this fails for a list
whose ids were written by something else.

## Model

| member | source | states |
|---|---|---|
| Tasks.PositionalIdsAreDistinct | main.go:67 | if every task's id is 5381 plus its position, then no two tasks share an id, and every id lies in [5381, 5381 + count) |
| TaskStore.Add | main.go:66-73 | the result is one task longer. Every old task stays unchanged at its old position. The new last task has id = old count + 5381, the given title, the given creation time, and is not completed |
| TaskStore.AddPreservesPositionalIds | main.go:67-73 | if every id equals 5381 plus its position before an add, the same holds after it |
| TaskStore.FirstMatch | main.go:107-108 | the scan stops at the first position whose id matches, with no match before it. It finds nothing exactly when no task has the id |
| TaskStore.Complete | main.go:101-116 | NotFound(id) is returned exactly when no task has the id. Otherwise the list keeps its length. Only the first task with the id becomes completed; every other task, including later tasks with the same id, is unchanged |
| TaskStore.CompleteTask | main.go:107-115 | the front-to-back loop that returns at the first match gives the same outcome as `Complete` |
| TaskStore.CompletePreservesPositionalIds | main.go:109 | completion does not change ids, so ids that equal 5381 plus their position still do afterwards |
| TaskStore.CompleteWithDistinctIds | main.go:107-111 | when ids are distinct, a task is completed afterwards exactly when it was completed before or it has the given id |
| TaskStore.CompleteIdempotent | main.go:108-109 | completing the same id a second time gives the same outcome as completing it once |
| TaskStore.StoredAfterComplete | main.go:107-115 | if no task has the id, the stored list is unchanged because nothing is written. Either way, length, ids, titles and creation times are kept. A task's status is true afterwards exactly when it was true before or it is the first match |
| TaskStore.StoredAfterCompleteIdempotent | main.go:108-111 | applying `complete` twice with the same id leaves the store the same as applying it once |
| TaskStore.ReplayHasDistinctIds | main.go:60-75 | any store built from an empty list by add and complete commands has positional ids, and so distinct ids |
| TaskStore.AddKeepsDistinctIds | main.go:66-73 | for every list, the ids after an add are distinct exactly when they were distinct before and no task already carries the new id, count + 5381 |
| TaskStore.Step | main.go:60-116 | one add or complete invocation as seen by the store. An add makes the list one longer and appends an uncompleted task with id count + 5381. A complete keeps the length and leaves the list unchanged when the id is absent. Neither changes the id, title or creation time of a task already stored |
| TaskStore.Replay | main.go:60-116 | the store after a history of invocations, starting from an empty list, holds exactly one task per add, since no command removes a task |
| TaskStore.AddCanRepeatForeignId | main.go:67 | a one-task list holding id 5382 gets a second task with id 5382 from an add |
| Decimal.IntToString | main.go:95 | `%d` text: a leading '-' exactly for negative values and digits everywhere else. There are no leading zeros: "0" is the only text that starts with '0', and a '-' is never followed by '0' |
| Decimal.ParseIntOfIntToString | main.go:95 | reading the printed id back gives the id |
| Decimal.IntToStringInjective | main.go:95 | two ids print the same exactly when they are equal |
| Listing.StatusLabel | main.go:90-93 | the label is one of two texts, and it is "Completed" exactly when the task's status is true |
| Listing.TaskLine | main.go:95 | a task line is the decimal id, then ". ", then the title verbatim, then " [Completed]" or " [Not completed]" according to the status; the length fixes where each part sits |
| Listing.TaskLines | main.go:89-96 | there is one line per task, in stored order, and line i is the line for task i |
| Listing.Render | main.go:83-96 | the output is exactly ["No tasks found."] if and only if the list is empty. A non-empty list prints count + 1 lines: "Tasks:", then task i's line at position i + 1 |
| Listing.TaskLineShape | main.go:90-95 | a task line starts with the printed id. It ends with " [Completed]" exactly when the task is completed, and with " [Not completed]" exactly when it is not |
| Listing.ParseLineOfTaskLine | main.go:95 | reading a task line back gives that task's id, title and completion state, whatever the title contains |
| Listing.ParseListingOfRender | main.go:83-96 | reading the whole listing back gives every task's id, title and completion state in stored order, and an empty list for the "No tasks found." output |

## Left out

- File handling is left out. This covers opening, creating, reading and writing `tasks.json` (main.go:19-58), including the non-atomic overwrite. The model starts from the list that was read and returns the list that would be written. So read, write and encoding errors of `AddTasks`, `ListTasks` and `CompleteTask` do not appear in the model.
- JSON encoding and decoding, and the field-name tags, are left out (main.go:13-16, 31, 47). They belong to the standard library.
- `time.Now()` is left out (main.go:69). The creation time is a parameter.
- The command-line dispatch in `main` is left out (main.go:118-170). This covers flag parsing, `strconv.Atoi` on the id argument, the empty-name check, the messages, and `os.Exit`. `AddTasks` itself accepts an empty name, so `Add` has no precondition on it.
- The "Task %d marked as completed." message (main.go:110) is left out. It is console output that is not part of the listing.
- Races between two invocations on the same file are left out. The program has no concurrency logic.
- TaskStore.Add does not model Go's 64-bit `int`. Ids and counts are unbounded integers. `len(tasks) + 5381` could overflow only once the list held more than 2^63 - 5382 tasks.
- Listing.Render models each printed line as a string without its trailing newline. A title that contains a newline therefore stays inside one element, even though on the terminal it would split the line.
