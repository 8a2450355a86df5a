/**
 * The in-memory task table: task identifier to serialised record, iterated
 * in insertion order like the dictionary it models. Adding, updating and
 * deleting change the table in place; after each change that happens the
 * whole table is written out, which the model records as a ghost snapshot.
 */
module TaskStore {
  import opened Wrappers
  import opened Enums
  import opened Tasks

  /** One `(field, value)` pair of an update: it overwrites the field only if the record has it. */
  function ApplyChange(r: Record, change: (string, string)): Record
  {
    if change.0 in r then r[change.0 := change.1] else r
  }

  /** The pairs of an update applied to a record, first to last. */
  function ApplyChanges(r: Record, changes: seq<(string, string)>): Record
    decreases |changes|
  {
    if changes == [] then r
    else ApplyChange(ApplyChanges(r, changes[..|changes| - 1]), changes[|changes| - 1])
  }

  /** The value the last pair naming `key` gives it, or `otherwise` when no pair names it. */
  function LastValue(changes: seq<(string, string)>, key: string, otherwise: string): string
    decreases |changes|
  {
    if changes == [] then otherwise
    else if changes[|changes| - 1].0 == key then changes[|changes| - 1].1
    else LastValue(changes[..|changes| - 1], key, otherwise)
  }

  /** An update never adds or removes a field. */
  lemma {:induction false} ApplyChangesKeys(r: Record, changes: seq<(string, string)>)
    ensures ApplyChanges(r, changes).Keys == r.Keys
    decreases |changes|
  {
    if changes != [] {
      ApplyChangesKeys(r, changes[..|changes| - 1]);
    }
  }

  /** Each existing field ends with the value of the last pair that names it, or keeps its own. */
  lemma {:induction false} ApplyChangesAt(r: Record, changes: seq<(string, string)>, key: string)
    requires key in r
    ensures key in ApplyChanges(r, changes)
    ensures ApplyChanges(r, changes)[key] == LastValue(changes, key, r[key])
    decreases |changes|
  {
    ApplyChangesKeys(r, changes);
    if changes != [] {
      ApplyChangesAt(r, changes[..|changes| - 1], key);
    }
  }

  /** Pairs naming a field the record lacks change nothing. */
  lemma {:induction false} UnknownFieldsIgnored(r: Record, changes: seq<(string, string)>)
    requires forall i | 0 <= i < |changes| :: changes[i].0 !in r
    ensures ApplyChanges(r, changes) == r
    decreases |changes|
  {
    if changes != [] {
      UnknownFieldsIgnored(r, changes[..|changes| - 1]);
    }
  }

  /** A field that no pair names keeps its value. */
  lemma {:induction false} UnnamedFieldKept(r: Record, changes: seq<(string, string)>, key: string)
    requires key in r
    requires forall i | 0 <= i < |changes| :: changes[i].0 != key
    ensures key in ApplyChanges(r, changes) && ApplyChanges(r, changes)[key] == r[key]
    decreases |changes|
  {
    ApplyChangesKeys(r, changes);
    if changes != [] {
      UnnamedFieldKept(r, changes[..|changes| - 1], key);
    }
  }

  /** Renaming a task's record changes its title only; identifier and creation date stay. */
  lemma RenameKeepsIdentity(t: Task, newTitle: string)
    ensures ApplyChanges(ToRecord(t), [("title", newTitle)]) == ToRecord(t.(title := newTitle))
  {
  }

  /**
   * Updates are not validated: a status overwritten with a string outside
   * the enumeration is stored, and the record then no longer deserialises.
   */
  lemma UnvalidatedStatusBreaksLoading(t: Task, value: string, clock: Clock, freshId: string)
    requires value !in {"pending", "completed"}
    ensures FromRecord(ApplyChanges(ToRecord(t), [("status", value)]), clock, freshId)
         == Err(InvalidEnumValue("Status", value))
  {
  }

  /**
   * The update's field names arrive as keyword arguments, so a name that is
   * also one of its own parameters is refused when the call is made, before
   * the body runs.
   */
  predicate ClashesWithParameters(changes: seq<(string, string)>)
  {
    exists i | 0 <= i < |changes| :: changes[i].0 in {"self", "task_id"}
  }

  /** What an update reports: done, no such task, or the call refused for a clashing field name. */
  datatype UpdateOutcome = Updated | NotFound | ParameterClash

  /** No identifier occurs twice. */
  predicate NoDup(s: seq<string>)
  {
    forall i, j | 0 <= i < j < |s| :: s[i] != s[j]
  }

  /** The sequence with `x` taken out, the others in their order. */
  function Without(s: seq<string>, x: string): (r: seq<string>)
    ensures forall y :: y in r <==> y in s && y != x
    ensures NoDup(s) ==> NoDup(r)
    ensures x !in s ==> r == s
    ensures NoDup(s) && x in s ==> |r| == |s| - 1
  {
    if s == [] then []
    else if s[0] == x then Without(s[1..], x)
    else
      var rest := Without(s[1..], x);
      assert NoDup(s) ==> NoDup(s[1..]) && s[0] !in s[1..];
      [s[0]] + rest
  }

  /** Taking out an identifier that occurs once closes the gap: the others keep their order. */
  lemma {:induction false} WithoutKeepsOrder(s: seq<string>, x: string, i: nat)
    requires NoDup(s) && i < |s| && s[i] == x
    ensures Without(s, x) == s[..i] + s[i + 1..]
  {
    if i == 0 {
      assert x !in s[1..];
    } else {
      assert NoDup(s[1..]) && s[0] != x;
      WithoutKeepsOrder(s[1..], x, i - 1);
      assert s[1..][..i - 1] == s[1..i];
      assert s[..i] == [s[0]] + s[1..i];
    }
  }

  /** A duplicate-free sequence has as many elements as the set of keys it enumerates. */
  lemma {:induction false} EnumerationSize(s: seq<string>, keys: set<string>)
    requires NoDup(s)
    requires forall k :: k in s <==> k in keys
    ensures |s| == |keys|
  {
    if s != [] {
      var rest := s[1..];
      assert forall k :: k in rest <==> k in keys - {s[0]} by {
        forall k ensures k in rest <==> k in keys - {s[0]} {
          if k in rest {
            var j :| 0 <= j < |rest| && rest[j] == k;
            assert s[j + 1] == k;
          }
          if k in keys - {s[0]} {
            assert k in s;
            var j :| 0 <= j < |s| && s[j] == k;
            assert rest[j - 1] == k;
          }
        }
      }
      EnumerationSize(rest, keys - {s[0]});
    }
  }

  class TaskManager {
    /** Task identifier to serialised record. */
    var tasks: map<string, Record>
    /** The identifiers in insertion order: the dictionary's iteration order. */
    var order: seq<string>
    /** The table as last written to the tasks file. */
    ghost var savedTasks: map<string, Record>
    ghost var savedOrder: seq<string>
    /** How many times the file has been written. */
    ghost var saves: nat

    /**
     * Every identifier of the table occurs exactly once in the iteration
     * order, and every record carries its own identifier under "task_id".
     */
    ghost predicate Valid()
      reads this
    {
      && NoDup(order)
      && (forall k :: k in order <==> k in tasks)
      && forall k | k in tasks :: "task_id" in tasks[k] && tasks[k]["task_id"] == k
    }

    /**
     * The file holds the current table. A missing file loads as the empty
     * table, so before any write the empty table counts as persisted.
     */
    ghost predicate Persisted()
      reads this
    {
      savedTasks == tasks && savedOrder == order
    }

    /** Loading when no tasks file exists: an empty table. */
    constructor ()
      ensures Valid() && Persisted()
      ensures tasks == map[] && order == [] && saves == 0
    {
      tasks := map[];
      order := [];
      savedTasks := map[];
      savedOrder := [];
      saves := 0;
    }

    /** Write the whole table to the file. */
    method Save()
      modifies this`savedTasks, this`savedOrder, this`saves
      ensures Persisted() && saves == old(saves) + 1
    {
      savedTasks := tasks;
      savedOrder := order;
      saves := saves + 1;
    }

    /**
     * Store the task's record under its identifier, silently replacing a
     * record with the same identifier (which keeps its place in the order),
     * then save.
     */
    method AddTask(t: Task)
      requires Valid()
      modifies this
      ensures Valid() && Persisted() && saves == old(saves) + 1
      ensures tasks == old(tasks)[t.taskId := ToRecord(t)]
      ensures order == if t.taskId in old(tasks) then old(order) else old(order) + [t.taskId]
    {
      if t.taskId !in tasks {
        order := order + [t.taskId];
      }
      assert ToRecord(t)["task_id"] == t.taskId;
      tasks := tasks[t.taskId := ToRecord(t)];
      Save();
    }

    /**
     * Remove the record with the given identifier and save; when there is
     * none, report it as not found and neither change nor write anything.
     */
    method DeleteTask(taskId: string) returns (found: bool)
      requires Valid()
      modifies this
      ensures Valid()
      ensures found <==> taskId in old(tasks)
      ensures tasks == old(tasks) - {taskId}
      ensures order == Without(old(order), taskId)
      ensures found ==> Persisted() && saves == old(saves) + 1
      ensures !found ==> unchanged(this)
    {
      if taskId in tasks {
        tasks := tasks - {taskId};
        order := Without(order, taskId);
        Save();
        found := true;
      } else {
        found := false;
      }
    }

    /**
     * Apply the `(field, value)` pairs in order to the record with the given
     * identifier, overwriting only fields it already has and validating
     * nothing, then save (even when no pair named a field). A pair named
     * like a parameter refuses the call; otherwise, when there is no such
     * record, report it as not found. In both cases nothing changes and
     * nothing is written.
     */
    method UpdateTask(taskId: string, changes: seq<(string, string)>) returns (outcome: UpdateOutcome)
      requires Valid()
      modifies this
      ensures Valid() && order == old(order)
      ensures outcome == ParameterClash <==> ClashesWithParameters(changes)
      ensures outcome == NotFound <==> !ClashesWithParameters(changes) && taskId !in old(tasks)
      ensures outcome == Updated ==>
        tasks == old(tasks)[taskId := ApplyChanges(old(tasks)[taskId], changes)]
      ensures outcome == Updated ==> Persisted() && saves == old(saves) + 1
      ensures outcome != Updated ==> unchanged(this)
    {
      if exists i | 0 <= i < |changes| :: changes[i].0 in {"self", "task_id"} {
        return ParameterClash;
      }
      if taskId !in tasks {
        return NotFound;
      }
      var i := 0;
      while i < |changes|
        invariant 0 <= i <= |changes|
        invariant tasks == old(tasks)[taskId := ApplyChanges(old(tasks)[taskId], changes[..i])]
        invariant order == old(order) && saves == old(saves)
      {
        var (key, value) := changes[i];
        if key in tasks[taskId] {
          tasks := tasks[taskId := tasks[taskId][key := value]];
        }
        assert changes[..i + 1][..i] == changes[..i];
        i := i + 1;
      }
      assert changes[..i] == changes;
      UnnamedFieldKept(old(tasks)[taskId], changes, "task_id");
      Save();
      outcome := Updated;
    }

    /**
     * The records in insertion order, each once. `noTasks` is the separate
     * "no tasks" report, given exactly when the table is empty.
     */
    method ListTasks() returns (noTasks: bool, rows: seq<Record>)
      requires Valid()
      ensures noTasks <==> tasks == map[]
      ensures |rows| == |tasks| == |order|
      ensures forall i | 0 <= i < |rows| :: order[i] in tasks && rows[i] == tasks[order[i]]
    {
      EnumerationSize(order, tasks.Keys);
      if tasks == map[] {
        return true, [];
      }
      noTasks := false;
      rows := [];
      for i := 0 to |order|
        invariant |rows| == i
        invariant forall j | 0 <= j < i :: order[j] in tasks && rows[j] == tasks[order[j]]
      {
        rows := rows + [tasks[order[i]]];
      }
    }
  }

  /**
   * Adding one task with the defaults the menu uses, listing, deleting it
   * and listing again: one pending record due tomorrow, then none.
   */
  method AddDeleteScenario(title: string, description: string, clock: Clock, freshId: string)
    returns (afterAdd: seq<Record>, afterDelete: seq<Record>, deleted: bool)
    ensures afterDelete == [] && deleted
    ensures afterAdd == [ToRecord(Task(freshId, title, description, Pending, High, clock.today, clock.tomorrow))]
    ensures afterAdd[0]["status"] == "pending" && afterAdd[0]["priority"] == "high"
    ensures afterAdd[0]["due_date"] == clock.tomorrow && afterAdd[0]["created_at"] == clock.today
  {
    var manager := new TaskManager();
    var t := NewTask(title, description, None, High, Pending, None, clock, freshId);
    manager.AddTask(t);
    var noTasks;
    noTasks, afterAdd := manager.ListTasks();
    deleted := manager.DeleteTask(t.taskId);
    noTasks, afterDelete := manager.ListTasks();
  }

  /** The table holds exactly the first `n` of `ids` in order, each mapped to its record. */
  ghost predicate HoldsPrefix(order: seq<string>, tasks: map<string, Record>,
                              ids: seq<string>, records: seq<Record>, n: nat)
  {
    && n <= |ids| && n <= |records| && |order| == n
    && forall j | 0 <= j < n :: order[j] == ids[j] && ids[j] in tasks && tasks[ids[j]] == records[j]
  }

  /** Adding the next identifier with its record extends the prefix the table holds. */
  lemma AddExtendsPrefix(order: seq<string>, tasks: map<string, Record>,
                         ids: seq<string>, records: seq<Record>, n: nat,
                         order': seq<string>, tasks': map<string, Record>)
    requires n < |ids| && n < |records|
    requires forall i, j | 0 <= i < j < |ids| :: ids[i] != ids[j]
    requires HoldsPrefix(order, tasks, ids, records, n)
    requires forall k :: k in order <==> k in tasks
    requires tasks' == tasks[ids[n] := records[n]]
    requires order' == if ids[n] in tasks then order else order + [ids[n]]
    ensures HoldsPrefix(order', tasks', ids, records, n + 1)
  {
    assert ids[n] !in order;
  }

  /**
   * Adding tasks with distinct identifiers to an empty table and listing:
   * one record per task, in the order they were added.
   */
  method AddAllThenList(ts: seq<Task>) returns (rows: seq<Record>)
    requires forall i, j | 0 <= i < j < |ts| :: ts[i].taskId != ts[j].taskId
    ensures |rows| == |ts|
    ensures forall i | 0 <= i < |ts| :: rows[i] == ToRecord(ts[i])
  {
    ghost var ids := seq(|ts|, k requires 0 <= k < |ts| => ts[k].taskId);
    ghost var records := seq(|ts|, k requires 0 <= k < |ts| => ToRecord(ts[k]));
    var manager := new TaskManager();
    for i := 0 to |ts|
      invariant manager.Valid()
      invariant HoldsPrefix(manager.order, manager.tasks, ids, records, i)
    {
      ghost var order, tasks := manager.order, manager.tasks;
      manager.AddTask(ts[i]);
      AddExtendsPrefix(order, tasks, ids, records, i, manager.order, manager.tasks);
    }
    var noTasks;
    noTasks, rows := manager.ListTasks();
  }
}
