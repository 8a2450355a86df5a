# Task tracker core in Dafny

This project models the core of a small personal task tracker. The tracker keeps tasks in a table in memory, keyed by task identifier. It writes the whole table to a JSON file after every change.

The model covers three parts:

- **Enumerations** (`enums.dfy`, module `Enums`). `Priority` (high, medium, low) and `Status` (pending, completed) are closed string enumerations. Parsing is a lookup by value: it is case-sensitive and succeeds only for a listed value. Rendering gives back that value.
- **Task record** (`task.dfy`, module `Tasks`). A `Task` has seven fields.
  - `NewTask` is the constructor with its defaults. An absent or empty identifier becomes a fresh one. An absent or empty due date becomes tomorrow. The creation date is always today.
  - `ToRecord` converts a task to a flat record of seven string fields. `FromRecord` converts a record back. A missing field or a value outside an enumeration is an `Error`. Fields are read in the source's argument order, so the first bad field is the one reported.
  - The clock and the identifier source are parameters. `Clock(today, tomorrow)` holds the two formatted dates the constructor reads. `freshId` is the identifier the constructor would generate.
- **Task table** (`task_manager.dfy`, module `TaskStore`). Class `TaskManager` holds the table as `tasks: map<string, Record>`. A separate `order: seq<string>` holds the identifiers in insertion order, which is the iteration order of the dictionary it models.
  - Adding to a new identifier appends it to the order. Overwriting an existing identifier keeps its position. Deleting removes it.
  - `UpdateTask` loops over `(field, value)` pairs. It overwrites only fields the record already has and validates nothing. `ApplyChanges` specifies what the loop computes.
  - The field names are keyword arguments. A name equal to one of the method's own parameters (`self`, `task_id`) makes the call fail before the body runs, so nothing changes. The model reports this as a third outcome, `ParameterClash`.
  - The table invariant `Valid()` says every identifier occurs once in the order, and every record's `task_id` field equals its key. Every operation preserves it.
  - Writing the file is recorded as a ghost snapshot (`savedTasks`, `savedOrder`) and a write counter `saves`. A mutation that finds its task writes once. A "not found" or refused call writes nothing.

`wrappers.dfy` holds the `Option` and `Result` datatypes.

Where the intended behaviour and the code differ, the model follows the code:

- The constructor takes enumeration members, so it cannot fail. An invalid priority or status fails where a string is looked up in the enumeration. Within the modelled core, that happens in deserialisation (`FromRecord`).
- Serialise, deserialise, serialise is not the identity for every task. Deserialisation does not pass the stored creation date to the constructor, so the creation date is reset to today. The code also treats an empty string as falsy, so an empty identifier is replaced by a fresh one and an empty due date by tomorrow. A task with a non-empty identifier and due date that was created today has a stable record (`SerializeIsStable`). When the fresh id and tomorrow are non-empty, only such tasks do (`StableOnlyIfWellFormed`).
- Delete and update report "not found" as a printed message, not an error value. `DeleteTask` returns `found: bool`. `UpdateTask` returns an `UpdateOutcome`: `Updated`, `NotFound` or `ParameterClash`.

## Model

| member | source | states |
|---|---|---|
| Enums.RenderPriority | main.py:8-11 | rendering a priority yields one of "high", "medium", "low" |
| Enums.ParsePriority | main.py:8-11 | parsing a priority succeeds exactly for "high", "medium" and "low" |
| Enums.RenderStatus | main.py:13-15 | rendering a status yields "pending" or "completed" |
| Enums.ParseStatus | main.py:13-15 | parsing a status succeeds exactly for "pending" and "completed" |
| Enums.PriorityRoundTrip | main.py:8-11 | rendering then parsing a priority returns the same member |
| Enums.ParsedPriorityRenders | main.py:8-11 | a string that parses as a priority is that priority's value |
| Enums.StatusRoundTrip | main.py:13-15 | rendering then parsing a status returns the same member |
| Enums.ParsedStatusRenders | main.py:13-15 | a string that parses as a status is that status's value |
| Enums.RenderPriorityInjective | main.py:8-11 | two priorities have the same value iff they are the same member |
| Enums.RenderStatusInjective | main.py:13-15 | two statuses have the same value iff they are the same member |
| Enums.UnknownPriorityRejected | main.py:48-49 | "urgent" and "HIGH" are not priorities and "done" is not a status |
| Tasks.NewTask | main.py:18-29 | the given title, description, priority and status are kept; the creation date is today; a given non-empty id and due date are kept; an absent or empty one becomes the fresh id or tomorrow |
| Tasks.NewTaskDefaults | main.py:18-29 | with every optional argument left out, the task has the fresh id, status pending, priority medium, created today and due tomorrow |
| Tasks.NewTaskWellFormed | main.py:23-29 | when the id source and the clock give non-empty text, a constructed task has a non-empty id and due date |
| Tasks.ToRecord | main.py:31-40 | the record has exactly the seven keys; its status and priority fields parse back to the task's status and priority |
| Tasks.Get | main.py:47 | an optional lookup: present iff the key is in the record, and then the stored value |
| Tasks.FromRecord | main.py:43-51 | deserialisation succeeds iff title, description and task_id are present and priority and status are present and valid; a success is created today; an invalid-enumeration error names the offending field's value; a missing-field error names a key not in the record |
| Tasks.FromToRecord | main.py:31-51 | deserialising a task's record is the same as constructing the task again from its own fields, with the creation date left out |
| Tasks.RoundTripResetsCreatedAt | main.py:28-51 | for a task with non-empty id and due date, the round trip keeps every field and sets the creation date to today |
| Tasks.RoundTripReplacesEmptyFields | main.py:23-51 | the round trip always succeeds; an empty id comes back as the fresh id and an empty due date as tomorrow |
| Tasks.SerializeIsStable | main.py:31-51 | serialise, deserialise, serialise gives the first record back for a well-formed task created today |
| Tasks.StableOnlyIfWellFormed | main.py:23-51 | when the fresh id and tomorrow are non-empty, a task whose record survives serialise, deserialise, serialise has a non-empty id and due date and was created today |
| Tasks.ToFromRecord | main.py:31-51 | a record with exactly the seven keys, valid enumerations, non-empty id and due date and today's creation date survives deserialise then serialise |
| Tasks.MissingDueDateDefaults | main.py:47 | a loadable record without a due date deserialises to a task due tomorrow |
| Tasks.UrgentPriorityRejected | main.py:48 | with title and description present, priority "urgent" fails with an invalid-enumeration error for Priority |
| TaskStore.ApplyChangesKeys | main.py:84-86 | an update never adds or removes a field of the record |
| TaskStore.ApplyChangesAt | main.py:84-86 | each existing field ends with the value of the last pair naming it, or keeps its own value |
| TaskStore.UnknownFieldsIgnored | main.py:85 | pairs that name fields the record lacks leave the record unchanged |
| TaskStore.UnnamedFieldKept | main.py:84-86 | a field that no pair names keeps its value |
| TaskStore.RenameKeepsIdentity | main.py:84-86 | updating a task's title changes only the title; id and creation date stay |
| TaskStore.UnvalidatedStatusBreaksLoading | main.py:84-86 | writing a non-enumeration status is accepted, and the record then fails to deserialise with an invalid-enumeration error |
| TaskStore.Without | main.py:76 | deleting an identifier from the order removes exactly it, keeps the others distinct and shortens the order by one when it was present |
| TaskStore.WithoutKeepsOrder | main.py:76 | deleting an identifier that occurs once takes it out of the order and keeps the others in their order |
| TaskStore.EnumerationSize | main.py:98 | an order without duplicates that lists exactly the table's keys is as long as the table |
| TaskStore.AddExtendsPrefix | main.py:70 | adding the next of a list of distinct identifiers extends the prefix of that list the table holds |
| TaskStore.TaskManager.constructor | main.py:56-63 | with no tasks file, the table and its order start empty and nothing has been written |
| TaskStore.TaskManager.Save | main.py:65-67 | the file afterwards holds the current table, and one more write has happened |
| TaskStore.TaskManager.AddTask | main.py:69-71 | the task's record is stored under its id and replaces any earlier one; a new id is appended to the order and an existing one keeps its place; the file is written |
| TaskStore.TaskManager.DeleteTask | main.py:74-80 | found iff the id was present; the entry is removed and all others are unchanged; when not found nothing changes and nothing is written |
| TaskStore.TaskManager.UpdateTask | main.py:82-90 | refused iff a pair is named "self" or "task_id"; otherwise not found iff the id is absent; when updated, only that record changes, by the pairs in order, and the file is written even if no field matched; when refused or not found nothing changes and nothing is written; the order is unchanged and every record keeps its own id |
| TaskStore.TaskManager.ListTasks | main.py:92-99 | "no tasks" iff the table is empty; otherwise every record once, in insertion order |
| TaskStore.AddDeleteScenario | main.py:112-125 | adding one high-priority task and listing gives its record: pending, created today, due tomorrow; deleting it then listing gives nothing |
| TaskStore.AddAllThenList | main.py:69-99 | adding tasks with distinct ids to an empty table and listing gives one record per task, in the order they were added |

## Left out

- Loading an existing tasks file (main.py:59-63) is left out because it is file I/O and JSON parsing. Only the "no file" case is modelled, by the constructor. A corrupt file's error is not modelled.
- The JSON encoding of the saved file (main.py:65-67) is left out. The model records what was written as a ghost snapshot of the table and its order.
- Printing, the table layout and the menu loop (main.py:72, 78, 80, 88, 90, 94-99, 102-132) are console presentation and are left out. The scenario methods follow the menu's add and delete paths. The menu's `.lower()` on the typed priority is not modelled.
- `uuid.uuid4()` and `datetime.now()` are parameters (`freshId`, `clock`). The model does not check that `clock.tomorrow` is the day after `clock.today`. The two clock reads in the constructor are modelled as one reading, so a run across midnight is not captured.
- Python's exception classes are modelled as one `Error` datatype. `KeyError` on a required field becomes `MissingField`. `ValueError` from an enumeration lookup becomes `InvalidEnumValue`.
- Records are `string` to `string` maps. Non-string JSON values are not modelled.
- Records are values. The source never shares a record dictionary between two owners, because `to_dict` builds a fresh one, so in-place mutation of a nested dictionary is equivalent.
- `TaskStore.TaskManager.UpdateTask` takes its keyword arguments as a sequence of pairs. Keyword arguments cannot repeat a name, but the sequence can; when a name repeats, the last pair wins. Python's `TypeError` for a clashing name is modelled as the `ParameterClash` outcome.
