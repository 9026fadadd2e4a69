/**
 * The task handlers: owner-scoped listing with optional filters and a
 * compound sort, creation with defaults, partial update and deletion, over
 * an in-memory task collection.
 */
module TaskController {
  import opened Base
  import opened TaskModel

  /** The filter object `getTasks` assembles from the query string. */
  datatype TaskQuery = TaskQuery(user: UserId, completed: Option<bool>, subject: Option<SubjectId>)

  predicate Matches(q: TaskQuery, t: Task) {
    && t.user == q.user
    && (q.completed.None? || t.completed == q.completed.value)
    && (q.subject.None? || t.subject == q.subject.value)
  }

  /** The sort `{ dueDate: 1, createdAt: -1 }`: due date ascending, newest first among equal due dates. */
  function DueDateKey(t: Task): Key {
    (t.dueDate, -t.createdAt)
  }

  /** The lookup `{ _id: id, user: caller }`. */
  function OwnedTask(caller: UserId, id: TaskId): Task -> bool {
    (t: Task) => t.id == id && t.user == caller
  }

  /** The body of a create request; `None` is a field left undefined (for `dueDate`, also an unparsable date). */
  datatype NewTask = NewTask(
    title: Option<string>,
    subject: Option<SubjectId>,
    durationMinutes: Option<int>,
    dueDate: Option<int>,
    preferredTime: Option<string>)

  /** The body of an update request; `Given(None)` for `dueDate` is a value that is not a date. */
  datatype TaskPatch = TaskPatch(
    title: Field<string>,
    subject: Field<SubjectId>,
    durationMinutes: Field<int>,
    dueDate: Field<Option<int>>,
    preferredTime: Field<string>,
    completed: Field<bool>)

  /** The preferred time `createTask` stores: the supplied one unless it is missing or empty. */
  function RequestedTime(body: NewTask): string {
    if body.preferredTime.None? || body.preferredTime.value == "" then DefaultPreferredTime
    else body.preferredTime.value
  }

  /** The store invariant: ids are unique and below `nextId`, and every task passed schema validation. */
  ghost predicate StoreInvariant(tasks: seq<Task>, nextId: TaskId) {
    && (forall i, j :: 0 <= i < j < |tasks| ==> tasks[i].id != tasks[j].id)
    && (forall i :: 0 <= i < |tasks| ==> tasks[i].id < nextId && ValidTask(tasks[i]))
  }

  lemma InvariantAppend(tasks: seq<Task>, nextId: TaskId, t: Task)
    requires StoreInvariant(tasks, nextId)
    requires t.id == nextId && ValidTask(t)
    ensures StoreInvariant(tasks + [t], nextId + 1)
  {
  }

  lemma InvariantReplace(tasks: seq<Task>, nextId: TaskId, i: nat, t: Task)
    requires StoreInvariant(tasks, nextId)
    requires i < |tasks| && t.id == tasks[i].id && ValidTask(t)
    ensures StoreInvariant(tasks[i := t], nextId)
  {
  }

  lemma InvariantRemove(tasks: seq<Task>, nextId: TaskId, i: nat)
    requires StoreInvariant(tasks, nextId)
    requires i < |tasks|
    ensures StoreInvariant(tasks[..i] + tasks[i + 1..], nextId)
  {
    var r := tasks[..i] + tasks[i + 1..];
    assert forall k :: 0 <= k < |r| ==> r[k] == tasks[if k < i then k else k + 1];
  }

  /** Removing the task at `i` removes exactly the tasks with its id, since ids are unique. */
  lemma RemovedTask(tasks: seq<Task>, nextId: TaskId, i: nat)
    requires StoreInvariant(tasks, nextId)
    requires i < |tasks|
    ensures forall t :: t in tasks[..i] + tasks[i + 1..] <==> t in tasks && t.id != tasks[i].id
  {
    var r := tasks[..i] + tasks[i + 1..];
    assert forall k :: 0 <= k < |r| ==> r[k] == tasks[if k < i then k else k + 1];
    forall t | t in tasks && t.id != tasks[i].id ensures t in r {
      var k :| 0 <= k < |tasks| && tasks[k] == t;
      assert r[if k < i then k else k - 1] == t;
    }
  }

  /**
   * The field-by-field assignments of `updateTask`: each field the body
   * supplies is overwritten (the title through its setter), the others are
   * kept. A supplied due date that is not a date leaves a cast failure that
   * makes the later save fail.
   */
  method AssignSupplied(before: Task, patch: TaskPatch) returns (task: Task, castFailed: bool)
    ensures castFailed <==> patch.dueDate.Given? && patch.dueDate.value.None?
    ensures task.id == before.id && task.user == before.user && task.createdAt == before.createdAt
    ensures task.title == (if patch.title.Given? then Trim(patch.title.value) else before.title)
    ensures task.subject == (if patch.subject.Given? then patch.subject.value else before.subject)
    ensures task.durationMinutes == (if patch.durationMinutes.Given? then patch.durationMinutes.value else before.durationMinutes)
    ensures task.dueDate == (if patch.dueDate.Given? && patch.dueDate.value.Some? then patch.dueDate.value.value else before.dueDate)
    ensures task.preferredTime == (if patch.preferredTime.Given? then patch.preferredTime.value else before.preferredTime)
    ensures task.completed == (if patch.completed.Given? then patch.completed.value else before.completed)
  {
    task := before;
    castFailed := false;
    if patch.title.Given? { task := task.(title := Trim(patch.title.value)); }
    if patch.subject.Given? { task := task.(subject := patch.subject.value); }
    if patch.durationMinutes.Given? { task := task.(durationMinutes := patch.durationMinutes.value); }
    if patch.dueDate.Given? {
      match patch.dueDate.value
      case None => castFailed := true;
      case Some(ms) => task := task.(dueDate := ms);
    }
    if patch.preferredTime.Given? { task := task.(preferredTime := patch.preferredTime.value); }
    if patch.completed.Given? { task := task.(completed := patch.completed.value); }
  }

  class TaskStore {
    /** The task collection, in insertion order. */
    var tasks: seq<Task>
    /** The next unused document id. */
    var nextId: TaskId

    ghost predicate Valid()
      reads this
    {
      StoreInvariant(tasks, nextId)
    }

    constructor ()
      ensures Valid() && tasks == [] && nextId == 0
    {
      tasks := [];
      nextId := 0;
    }

    /**
     * GET /api/tasks. Exactly the caller's tasks, narrowed to the requested
     * completion state when `completed` is given (completed iff it is the
     * string "true") and to one subject when a non-empty `subject` is given,
     * ordered by due date and then newest first.
     */
    method GetTasks(caller: UserId, completed: Option<string>, subject: Option<string>) returns (r: seq<Task>)
      ensures forall t :: t in r ==> t.user == caller
      ensures forall t :: multiset(r)[t] == (if && t.user == caller
                                                && (completed.None? || t.completed == (completed.value == "true"))
                                                && (subject.None? || subject.value == "" || t.subject == subject.value)
                                             then multiset(tasks)[t] else 0)
      ensures SortedBy(r, DueDateKey)
    {
      var query := TaskQuery(caller, None, None);
      if completed.Some? {
        query := query.(completed := Some(completed.value == "true"));
      }
      if subject.Some? && subject.value != "" {
        query := query.(subject := Some(subject.value));
      }
      var found := Filter(tasks, t => Matches(query, t));
      r := SortBy(found, DueDateKey);
      forall t | t in r ensures t.user == caller {
        assert t in multiset(r);
        assert t in found;
      }
    }

    /**
     * POST /api/tasks. The new task belongs to the caller, is not
     * completed, and has preferred time "09:00" unless one was supplied;
     * a body the schema refuses yields an error and stores nothing.
     */
    method CreateTask(caller: UserId, body: NewTask, now: int) returns (res: Result<Task, Error>)
      requires Valid()
      modifies this
      ensures Valid()
      ensures res.Ok? <==>
        && body.title.Some? && Trim(body.title.value) != ""
        && body.subject.Some? && body.dueDate.Some?
        && (body.durationMinutes.None? || body.durationMinutes.value >= MinDurationMinutes)
        && IsValidTime(RequestedTime(body))
      ensures res.Err? ==> res.error == ServerError && tasks == old(tasks) && nextId == old(nextId)
      ensures res.Ok? ==> tasks == old(tasks) + [res.value] && nextId == old(nextId) + 1
      ensures res.Ok? ==> res.value.id == old(nextId) && res.value.createdAt == now
      ensures res.Ok? ==> res.value.user == caller && !res.value.completed
      ensures res.Ok? ==> res.value.preferredTime == RequestedTime(body)
      ensures res.Ok? ==> res.value.title == Trim(body.title.value)
      ensures res.Ok? ==> res.value.subject == body.subject.value && res.value.dueDate == body.dueDate.value
      ensures res.Ok? ==> res.value.durationMinutes == (if body.durationMinutes.None? then DefaultDurationMinutes
                                                        else body.durationMinutes.value)
    {
      var draft := TaskDraft(
        body.title, body.subject, body.durationMinutes, body.dueDate,
        Some(RequestedTime(body)), None, Some(caller));
      var created := Instantiate(draft, nextId, now);
      if created.Err? {
        return Err(ServerError);
      }
      InvariantAppend(tasks, nextId, created.value);
      tasks := tasks + [created.value];
      nextId := nextId + 1;
      res := Ok(created.value);
    }

    /**
     * PUT /api/tasks/:id. Overwrites exactly the fields the body supplies
     * (the title through its setter); the id, owner and creation time stay.
     * A task that is missing or someone else's is not found; an update the
     * schema refuses on save is an error; either way nothing changes.
     */
    method UpdateTask(caller: UserId, id: TaskId, patch: TaskPatch) returns (res: Result<Task, Error>)
      requires Valid()
      modifies this
      ensures Valid() && nextId == old(nextId)
      ensures res == Err(NotFound) <==> IndexWhere(old(tasks), OwnedTask(caller, id)).None?
      ensures res.Ok? <==>
        && IndexWhere(old(tasks), OwnedTask(caller, id)).Some?
        && !(patch.dueDate.Given? && patch.dueDate.value.None?)
        && (patch.title.Given? ==> Trim(patch.title.value) != "")
        && (patch.durationMinutes.Given? ==> patch.durationMinutes.value >= MinDurationMinutes)
        && (patch.preferredTime.Given? ==> IsValidTime(patch.preferredTime.value))
      ensures res.Err? && res.error != NotFound ==> res.error == ServerError
      ensures res.Err? ==> tasks == old(tasks)
      ensures res.Ok? ==>
        var i := IndexWhere(old(tasks), OwnedTask(caller, id)).value;
        var before := old(tasks)[i];
        && tasks == old(tasks)[i := res.value]
        && res.value.id == id && res.value.user == caller && res.value.createdAt == before.createdAt
        && res.value.title == (if patch.title.Given? then Trim(patch.title.value) else before.title)
        && res.value.subject == (if patch.subject.Given? then patch.subject.value else before.subject)
        && res.value.durationMinutes == (if patch.durationMinutes.Given? then patch.durationMinutes.value else before.durationMinutes)
        && res.value.dueDate == (if patch.dueDate.Given? && patch.dueDate.value.Some? then patch.dueDate.value.value else before.dueDate)
        && res.value.preferredTime == (if patch.preferredTime.Given? then patch.preferredTime.value else before.preferredTime)
        && res.value.completed == (if patch.completed.Given? then patch.completed.value else before.completed)
      ensures res.Ok? ==> ValidTask(res.value) && (patch.dueDate.Given? ==> patch.dueDate.value.Some?)
    {
      var found := IndexWhere(tasks, OwnedTask(caller, id));
      if found.None? {
        return Err(NotFound);
      }
      var i := found.value;
      assert ValidTask(tasks[i]);
      var task, castFailed := AssignSupplied(tasks[i], patch);
      if castFailed || !ValidTask(task) {
        return Err(ServerError);
      }
      InvariantReplace(tasks, nextId, i, task);
      tasks := tasks[i := task];
      res := Ok(task);
    }

    /**
     * DELETE /api/tasks/:id. Removes the caller's task with that id and
     * nothing else; a task that is missing or someone else's is not found
     * and nothing changes.
     */
    method DeleteTask(caller: UserId, id: TaskId) returns (res: Result<(), Error>)
      requires Valid()
      modifies this
      ensures Valid() && nextId == old(nextId)
      ensures res.Err? <==> IndexWhere(old(tasks), OwnedTask(caller, id)).None?
      ensures res.Err? ==> res.error == NotFound && tasks == old(tasks)
      ensures res.Ok? ==>
        var i := IndexWhere(old(tasks), OwnedTask(caller, id)).value;
        tasks == old(tasks)[..i] + old(tasks)[i + 1..]
      ensures res.Ok? ==> |tasks| == |old(tasks)| - 1
      ensures res.Ok? ==> forall t :: t in tasks <==> t in old(tasks) && t.id != id
    {
      var found := IndexWhere(tasks, OwnedTask(caller, id));
      if found.None? {
        return Err(NotFound);
      }
      var i := found.value;
      ghost var before := tasks;
      InvariantRemove(tasks, nextId, i);
      RemovedTask(tasks, nextId, i);
      tasks := tasks[..i] + tasks[i + 1..];
      res := Ok(());
    }
  }
}
