/**
 * One task and its flat serialised form. A task is built with defaults
 * for its identifier, its due date and its creation date; it converts to
 * a record of seven string fields and back. The wall clock and the random
 * identifier source are parameters: `clock` holds the two formatted dates
 * the constructor reads, `freshId` the identifier it would generate.
 */
module Tasks {
  import opened Wrappers
  import opened Enums

  /** The two "%Y-%m-%d" readings of the clock: the current date and the date one day later. */
  datatype Clock = Clock(today: string, tomorrow: string)

  datatype Task = Task(
    taskId: string,
    title: string,
    description: string,
    status: Status,
    priority: Priority,
    createdAt: string,
    dueDate: string)

  /** The serialised form of a task: field name to text. */
  type Record = map<string, string>

  /** The seven field names every serialised task carries. */
  const RecordKeys: set<string> :=
    {"task_id", "title", "description", "status", "priority", "due_date", "created_at"}

  datatype Error =
    | MissingField(key: string)
    | InvalidEnumValue(enumName: string, value: string)

  /** Python truthiness of an optional string: absent and empty are both false. */
  predicate Given(o: Option<string>)
  {
    o.Some? && o.value != ""
  }

  /**
   * Construction: a missing or empty identifier is replaced by the fresh
   * one, a missing or empty due date by tomorrow, and the creation date is
   * today.
   */
  function NewTask(title: string, description: string, dueDate: Option<string>,
                   priority: Priority, status: Status, taskId: Option<string>,
                   clock: Clock, freshId: string): (t: Task)
    ensures t.title == title && t.description == description
    ensures t.priority == priority && t.status == status
    ensures t.createdAt == clock.today
    ensures Given(taskId) ==> t.taskId == taskId.value
    ensures !Given(taskId) ==> t.taskId == freshId
    ensures Given(dueDate) ==> t.dueDate == dueDate.value
    ensures !Given(dueDate) ==> t.dueDate == clock.tomorrow
  {
    Task(
      if Given(taskId) then taskId.value else freshId,
      title,
      description,
      status,
      priority,
      clock.today,
      if Given(dueDate) then dueDate.value else clock.tomorrow)
  }

  /** With every optional argument left out: fresh id, pending, medium, due tomorrow. */
  lemma NewTaskDefaults(title: string, description: string, clock: Clock, freshId: string)
    ensures NewTask(title, description, None, Medium, Pending, None, clock, freshId)
         == Task(freshId, title, description, Pending, Medium, clock.today, clock.tomorrow)
  {
  }

  /** Neither the identifier nor the due date of a task is empty. */
  predicate WellFormed(t: Task)
  {
    t.taskId != "" && t.dueDate != ""
  }

  /** A constructed task is well formed when the id source and the clock give non-empty text. */
  lemma NewTaskWellFormed(title: string, description: string, dueDate: Option<string>,
                          priority: Priority, status: Status, taskId: Option<string>,
                          clock: Clock, freshId: string)
    requires freshId != "" && clock.tomorrow != ""
    ensures WellFormed(NewTask(title, description, dueDate, priority, status, taskId, clock, freshId))
  {
  }

  /** Serialisation: the seven fields, the enumerations as their string values. */
  function ToRecord(t: Task): (r: Record)
    ensures r.Keys == RecordKeys
    ensures ParseStatus(r["status"]) == Some(t.status)
    ensures ParsePriority(r["priority"]) == Some(t.priority)
  {
    StatusRoundTrip(t.status);
    PriorityRoundTrip(t.priority);
    map[
      "task_id" := t.taskId,
      "title" := t.title,
      "description" := t.description,
      "status" := RenderStatus(t.status),
      "priority" := RenderPriority(t.priority),
      "due_date" := t.dueDate,
      "created_at" := t.createdAt]
  }

  /** The optional lookup `data.get(key)`. */
  function Get(data: Record, key: string): (r: Option<string>)
    ensures r.Some? <==> key in data
    ensures r.Some? ==> r.value == data[key]
  {
    if key in data then Some(data[key]) else None
  }

  /**
   * What deserialisation needs of a record: title, description, task_id,
   * and a priority and a status that are enumeration values. The due date
   * is optional and the creation date is not read.
   */
  predicate Loadable(data: Record)
  {
    && "title" in data && "description" in data && "task_id" in data
    && "priority" in data && data["priority"] in {"high", "medium", "low"}
    && "status" in data && data["status"] in {"pending", "completed"}
  }

  /**
   * Deserialisation. Fields are read in argument order, so the first
   * missing or invalid one is the error reported. The stored creation date
   * is ignored: the task is rebuilt by the constructor, which stamps today.
   */
  function FromRecord(data: Record, clock: Clock, freshId: string): (r: Result<Task, Error>)
    ensures r.Ok? <==> Loadable(data)
    ensures r.Ok? ==> r.value.createdAt == clock.today
    ensures r.Err? && r.error.InvalidEnumValue? ==>
      ("priority" in data && r.error.enumName == "Priority" && r.error.value == data["priority"]
        && data["priority"] !in {"high", "medium", "low"}) ||
      ("status" in data && r.error.enumName == "Status" && r.error.value == data["status"]
        && data["status"] !in {"pending", "completed"})
    ensures r.Err? && r.error.MissingField? ==> r.error.key !in data
  {
    if "title" !in data then Err(MissingField("title"))
    else if "description" !in data then Err(MissingField("description"))
    else if "priority" !in data then Err(MissingField("priority"))
    else if ParsePriority(data["priority"]).None? then Err(InvalidEnumValue("Priority", data["priority"]))
    else if "status" !in data then Err(MissingField("status"))
    else if ParseStatus(data["status"]).None? then Err(InvalidEnumValue("Status", data["status"]))
    else if "task_id" !in data then Err(MissingField("task_id"))
    else
      Ok(NewTask(data["title"], data["description"], Get(data, "due_date"),
                 ParsePriority(data["priority"]).value, ParseStatus(data["status"]).value,
                 Some(data["task_id"]), clock, freshId))
  }

  /**
   * Serialising then deserialising a task is the same as constructing it
   * again from its own fields: every field but the creation date is passed
   * back to the constructor.
   */
  lemma FromToRecord(t: Task, clock: Clock, freshId: string)
    ensures FromRecord(ToRecord(t), clock, freshId)
         == Ok(NewTask(t.title, t.description, Some(t.dueDate), t.priority, t.status,
                       Some(t.taskId), clock, freshId))
  {
  }

  /** The round trip keeps every field of a well-formed task and resets its creation date to today. */
  lemma RoundTripResetsCreatedAt(t: Task, clock: Clock, freshId: string)
    requires WellFormed(t)
    ensures FromRecord(ToRecord(t), clock, freshId) == Ok(t.(createdAt := clock.today))
  {
    FromToRecord(t, clock, freshId);
  }

  /** An empty identifier or due date is falsy, so the round trip replaces it by a default. */
  lemma RoundTripReplacesEmptyFields(t: Task, clock: Clock, freshId: string)
    ensures FromRecord(ToRecord(t), clock, freshId).Ok?
    ensures t.taskId == "" ==> FromRecord(ToRecord(t), clock, freshId).value.taskId == freshId
    ensures t.dueDate == "" ==> FromRecord(ToRecord(t), clock, freshId).value.dueDate == clock.tomorrow
  {
    FromToRecord(t, clock, freshId);
  }

  /**
   * Serialise, deserialise, serialise again: the record is unchanged when
   * the task is well formed and was created today.
   */
  lemma SerializeIsStable(t: Task, clock: Clock, freshId: string)
    requires WellFormed(t) && t.createdAt == clock.today
    ensures FromRecord(ToRecord(t), clock, freshId).Ok?
    ensures ToRecord(FromRecord(ToRecord(t), clock, freshId).value) == ToRecord(t)
  {
    RoundTripResetsCreatedAt(t, clock, freshId);
    assert t.(createdAt := clock.today) == t;
  }

  /**
   * Conversely, when the id source and the clock give non-empty text, a
   * task whose record is stable is well formed and was created today.
   */
  lemma StableOnlyIfWellFormed(t: Task, clock: Clock, freshId: string)
    requires freshId != "" && clock.tomorrow != ""
    requires FromRecord(ToRecord(t), clock, freshId).Ok?
    requires ToRecord(FromRecord(ToRecord(t), clock, freshId).value) == ToRecord(t)
    ensures WellFormed(t) && t.createdAt == clock.today
  {
  }

  /**
   * The other direction: a record with exactly the seven fields, a non-empty
   * identifier and due date and today's creation date survives
   * deserialising and serialising again.
   */
  lemma ToFromRecord(data: Record, clock: Clock, freshId: string)
    requires data.Keys == RecordKeys && Loadable(data)
    requires data["task_id"] != "" && data["due_date"] != ""
    requires data["created_at"] == clock.today
    ensures FromRecord(data, clock, freshId).Ok?
    ensures ToRecord(FromRecord(data, clock, freshId).value) == data
  {
    var t := FromRecord(data, clock, freshId).value;
    ParsedPriorityRenders(data["priority"]);
    ParsedStatusRenders(data["status"]);
    var r := ToRecord(t);
    assert forall k | k in RecordKeys :: r[k] == data[k];
  }

  /** A record without a due date gets tomorrow as its due date. */
  lemma MissingDueDateDefaults(data: Record, clock: Clock, freshId: string)
    requires Loadable(data) && "due_date" !in data
    ensures FromRecord(data, clock, freshId).Ok?
    ensures FromRecord(data, clock, freshId).value.dueDate == clock.tomorrow
  {
  }

  /** A priority string outside the enumeration is reported as an invalid enumeration value. */
  lemma UrgentPriorityRejected(data: Record, clock: Clock, freshId: string)
    requires "title" in data && "description" in data
    requires "priority" in data && data["priority"] == "urgent"
    ensures FromRecord(data, clock, freshId) == Err(InvalidEnumValue("Priority", "urgent"))
  {
  }
}
