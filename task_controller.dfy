/**
 * The task controller: a table of tasks, each owned by one user, and the four
 * handlers behind `/tasks` (create, list with filters, update, delete). Every
 * handler acts on behalf of a caller, the `userId` of the claims the
 * authentication gate accepted, and only ever sees, changes or removes the
 * caller's own tasks.
 */
module TaskController {
  import opened Wrappers
  import opened Text

  /** Store-assigned task identifiers, compared only for equality. */
  type TaskId = nat
  /** User identifiers as they appear in a token's `userId` claim. */
  type UserId = string

  datatype Task = Task(
    id: TaskId,
    title: string,
    description: Option<string>,
    deadline: Option<int>,
    priority: string,
    owner: UserId)

  /** The four fields read from a request body by create and by update; `None` is absent. */
  datatype TaskFields = TaskFields(
    title: Option<string>,
    description: Option<string>,
    deadline: Option<int>,
    priority: Option<string>)

  /** The query string of `GET /tasks`; `None` is absent. */
  datatype ListParams = ListParams(
    priority: Option<string>,
    dueBefore: Option<int>,
    search: Option<string>)

  /** The filter document the list handler hands to the database. */
  datatype Query = Query(
    userId: UserId,
    priority: Option<string>,
    deadlineAtMost: Option<int>,
    search: Option<string>)

  /** JSON response bodies. */
  datatype Body =
    | Message(message: string)
    | TaskAndMessage(task: Task, message: string)
    | TaskList(tasks: seq<Task>)
    | Error(error: string)

  datatype Response = Response(status: nat, body: Body)

  const TitleAndPriorityRequired := "Title and priority are required."
  const TaskCreated := "Task created successfully."
  const TaskUpdated := "Task updated successfully."
  const TaskDeleted := "Task deleted successfully."
  const NotFoundOrUnauthorized := "Task not found or unauthorized."

  /** The tasks returned by a response body, if any. */
  function ResponseTasks(r: Response): seq<Task> {
    match r.body
    case TaskAndMessage(t, _) => [t]
    case TaskList(ts) => ts
    case _ => []
  }

  // ---------------------------------------------------------------------------
  // The table and its per-owner views

  /** No two tasks share an identifier. */
  predicate UniqueIds(ts: seq<Task>) {
    forall i, j :: 0 <= i < j < |ts| ==> ts[i].id != ts[j].id
  }

  /** Every identifier is below `n`, so `n` is fresh. */
  predicate IdsBelow(ts: seq<Task>, n: nat) {
    forall i :: 0 <= i < |ts| ==> ts[i].id < n
  }

  /** The tasks owned by `u`, in table order: all that user `u` can ever observe. */
  function OwnedBy(ts: seq<Task>, u: UserId): (r: seq<Task>)
    ensures forall t :: t in r <==> t in ts && t.owner == u
    decreases |ts|
  {
    if |ts| == 0 then []
    else if ts[0].owner == u then [ts[0]] + OwnedBy(ts[1..], u)
    else OwnedBy(ts[1..], u)
  }

  lemma {:induction false} OwnedByConcat(a: seq<Task>, b: seq<Task>, u: UserId)
    ensures OwnedBy(a + b, u) == OwnedBy(a, u) + OwnedBy(b, u)
    decreases |a|
  {
    if |a| > 0 {
      assert (a + b)[0] == a[0] && (a + b)[1..] == a[1..] + b;
      OwnedByConcat(a[1..], b, u);
      if a[0].owner == u {
        assert [a[0]] + (OwnedBy(a[1..], u) + OwnedBy(b, u)) == ([a[0]] + OwnedBy(a[1..], u)) + OwnedBy(b, u);
      }
    } else {
      assert a + b == b;
    }
  }

  /** Replacing, at one index, a task that `u` does not own by another one `u` does not own leaves `u`'s view alone. */
  lemma {:induction false} OwnedByForeignReplace(ts: seq<Task>, i: nat, t: Task, u: UserId)
    requires i < |ts|
    requires ts[i].owner != u && t.owner != u
    ensures OwnedBy(ts[i := t], u) == OwnedBy(ts, u)
  {
    var ts' := ts[i := t];
    assert ts == ts[..i] + [ts[i]] + ts[i + 1..];
    assert ts' == ts[..i] + [t] + ts[i + 1..];
    OwnedByConcat(ts[..i] + [ts[i]], ts[i + 1..], u);
    OwnedByConcat(ts[..i], [ts[i]], u);
    OwnedByConcat(ts[..i] + [t], ts[i + 1..], u);
    OwnedByConcat(ts[..i], [t], u);
  }

  // ---------------------------------------------------------------------------
  // Create

  /** Create refuses a body whose title or priority is absent or empty. */
  predicate CreateRejected(f: TaskFields) {
    !Truthy(f.title) || !Truthy(f.priority)
  }

  /** The record create saves: the supplied fields, owned by the caller. */
  function NewTask(id: TaskId, caller: UserId, f: TaskFields): (t: Task)
    requires !CreateRejected(f)
  {
    Task(id, f.title.value, f.description, f.deadline, f.priority.value, caller)
  }

  function AfterCreate(ts: seq<Task>, id: TaskId, caller: UserId, f: TaskFields): seq<Task> {
    if CreateRejected(f) then ts else ts + [NewTask(id, caller, f)]
  }

  function CreateResponse(id: TaskId, caller: UserId, f: TaskFields): Response {
    if CreateRejected(f) then Response(400, Message(TitleAndPriorityRequired))
    else Response(201, TaskAndMessage(NewTask(id, caller, f), TaskCreated))
  }

  /** A successful create adds exactly one task, owned by the caller, carrying the supplied fields and returned in the response. */
  lemma CreateAddsOneOwnedTask(ts: seq<Task>, id: TaskId, caller: UserId, f: TaskFields)
    requires !CreateRejected(f)
    ensures var r := CreateResponse(id, caller, f);
      && r.status == 201 && r.body.TaskAndMessage? && r.body.message == TaskCreated
      && var t := r.body.task;
      && AfterCreate(ts, id, caller, f) == ts + [t]
      && t.id == id && t.owner == caller
      && Some(t.title) == f.title && t.description == f.description
      && t.deadline == f.deadline && Some(t.priority) == f.priority
      && OwnedBy(AfterCreate(ts, id, caller, f), caller) == OwnedBy(ts, caller) + [t]
  {
    OwnedByConcat(ts, [NewTask(id, caller, f)], caller);
  }

  /** Create by one user leaves every other user's view of the table as it was. */
  lemma {:induction false} CreateIsolation(ts: seq<Task>, id: TaskId, caller: UserId, f: TaskFields, other: UserId)
    requires other != caller
    ensures OwnedBy(AfterCreate(ts, id, caller, f), other) == OwnedBy(ts, other)
  {
    if !CreateRejected(f) {
      OwnedByConcat(ts, [NewTask(id, caller, f)], other);
    }
  }

  /** A create with a fresh identifier keeps identifiers unique and below the next one. */
  lemma CreateKeepsIdsFresh(ts: seq<Task>, n: nat, caller: UserId, f: TaskFields)
    requires UniqueIds(ts) && IdsBelow(ts, n)
    ensures UniqueIds(AfterCreate(ts, n, caller, f)) && IdsBelow(AfterCreate(ts, n, caller, f), n + 1)
  {
  }

  // ---------------------------------------------------------------------------
  // List: the filter and the order

  /** A task is due on or before `date`; a task without a deadline is not. */
  predicate DueBy(t: Task, date: int) {
    t.deadline.Some? && t.deadline.value <= date
  }

  /** The title, or the description, contains `text` case-insensitively. */
  predicate Mentions(t: Task, text: string) {
    ContainsIgnoringCase(t.title, text)
      || (t.description.Some? && ContainsIgnoringCase(t.description.value, text))
  }

  /** The database's reading of the filter document: every field present in it must hold. */
  predicate Matches(t: Task, q: Query) {
    && t.owner == q.userId
    && (q.priority.Some? ==> t.priority == q.priority.value)
    && (q.deadlineAtMost.Some? ==> DueBy(t, q.deadlineAtMost.value))
    && (q.search.Some? ==> Mentions(t, q.search.value))
  }

  /** What a list request asks for: the caller's tasks meeting each filter the query string sets. */
  predicate Wanted(t: Task, caller: UserId, p: ListParams) {
    && t.owner == caller
    && (Truthy(p.priority) ==> t.priority == p.priority.value)
    && (p.dueBefore.Some? ==> DueBy(t, p.dueBefore.value))
    && (Truthy(p.search) ==> Mentions(t, p.search.value))
  }

  /** The tasks matching `q`, in table order. */
  function Select(ts: seq<Task>, q: Query): (r: seq<Task>)
    ensures |r| <= |ts|
    ensures forall t :: t in r ==> t in ts && Matches(t, q)
    decreases |ts|
  {
    if |ts| == 0 then []
    else if Matches(ts[0], q) then [ts[0]] + Select(ts[1..], q)
    else Select(ts[1..], q)
  }

  /** Selection keeps every matching task as often as the table holds it, and nothing else. */
  lemma {:induction false} SelectCount(ts: seq<Task>, q: Query, t: Task)
    ensures multiset(Select(ts, q))[t] == if Matches(t, q) then multiset(ts)[t] else 0
    decreases |ts|
  {
    if |ts| > 0 {
      SelectCount(ts[1..], q, t);
      assert ts == [ts[0]] + ts[1..];
    }
  }

  /** With no filter set, selection is exactly the owner's own view. */
  lemma {:induction false} SelectOwnerOnly(ts: seq<Task>, u: UserId)
    ensures Select(ts, Query(u, None, None, None)) == OwnedBy(ts, u)
    decreases |ts|
  {
    if |ts| > 0 {
      SelectOwnerOnly(ts[1..], u);
    }
  }

  /** Ascending deadline order; a task without a deadline sorts before every task with one. */
  predicate DeadlineLe(a: Task, b: Task) {
    match (a.deadline, b.deadline)
    case (None, _) => true
    case (Some(_), None) => false
    case (Some(x), Some(y)) => x <= y
  }

  lemma DeadlineLeTotalPreorder(a: Task, b: Task, c: Task)
    ensures DeadlineLe(a, a)
    ensures DeadlineLe(a, b) || DeadlineLe(b, a)
    ensures DeadlineLe(a, b) && DeadlineLe(b, c) ==> DeadlineLe(a, c)
  {
  }

  predicate SortedByDeadline(ts: seq<Task>) {
    forall i, j :: 0 <= i < j < |ts| ==> DeadlineLe(ts[i], ts[j])
  }

  /** Inserts `t` before the first task it does not come after. */
  function InsertByDeadline(t: Task, ts: seq<Task>): (r: seq<Task>)
    ensures multiset(r) == multiset(ts) + multiset{t}
    decreases |ts|
  {
    if |ts| == 0 then [t]
    else if DeadlineLe(t, ts[0]) then [t] + ts
    else
      assert ts == [ts[0]] + ts[1..];
      [ts[0]] + InsertByDeadline(t, ts[1..])
  }

  /** Inserting into a deadline-sorted sequence keeps it sorted. */
  lemma {:induction false} InsertKeepsSorted(t: Task, ts: seq<Task>)
    requires SortedByDeadline(ts)
    ensures SortedByDeadline(InsertByDeadline(t, ts))
    decreases |ts|
  {
    if |ts| > 0 && !DeadlineLe(t, ts[0]) {
      var rest := InsertByDeadline(t, ts[1..]);
      InsertKeepsSorted(t, ts[1..]);
      forall j | 0 <= j < |rest|
        ensures DeadlineLe(ts[0], rest[j])
      {
        assert rest[j] in multiset(rest);
        if rest[j] != t {
          assert rest[j] in multiset(ts[1..]);
          var k :| 0 <= k < |ts[1..]| && ts[1..][k] == rest[j];
          assert ts[k + 1] == rest[j];
        }
      }
      var r := [ts[0]] + rest;
      assert forall j :: 0 < j < |r| ==> r[j] == rest[j - 1];
    }
  }

  /** The sort of the list handler: a permutation in ascending deadline order. */
  function SortByDeadline(ts: seq<Task>): (r: seq<Task>)
    ensures multiset(r) == multiset(ts)
    ensures SortedByDeadline(r)
    decreases |ts|
  {
    if |ts| == 0 then []
    else
      assert ts == [ts[0]] + ts[1..];
      InsertKeepsSorted(ts[0], SortByDeadline(ts[1..]));
      InsertByDeadline(ts[0], SortByDeadline(ts[1..]))
  }

  /**
   * `r` is a correct answer to a list request over table `ts`: each task the
   * request wants appears exactly as often as in the table, no other task
   * appears, and the tasks come in ascending deadline order. The order of
   * tasks with equal deadlines is left open, as it is by the database.
   */
  ghost predicate IsListing(r: seq<Task>, ts: seq<Task>, caller: UserId, p: ListParams) {
    && (forall t :: multiset(r)[t] == if Wanted(t, caller, p) then multiset(ts)[t] else 0)
    && SortedByDeadline(r)
  }

  /** A listing is sound and complete, and never holds another user's task. */
  lemma ListingExact(r: seq<Task>, ts: seq<Task>, caller: UserId, p: ListParams)
    requires IsListing(r, ts, caller, p)
    ensures forall t :: t in r <==> t in ts && Wanted(t, caller, p)
    ensures forall t :: t in r ==> t.owner == caller
  {

  }

  /** With no filter set, a listing is a reordering of exactly the caller's tasks; an empty one is a valid answer for a caller owning none. */
  lemma ListingUnfiltered(r: seq<Task>, ts: seq<Task>, caller: UserId)
    requires IsListing(r, ts, caller, ListParams(None, None, None))
    ensures multiset(r) == multiset(OwnedBy(ts, caller))
  {
    SelectOwnerOnly(ts, caller);
    forall t
      ensures multiset(r)[t] == multiset(OwnedBy(ts, caller))[t]
    {
      SelectCount(ts, Query(caller, None, None, None), t);
    }
  }

  // ---------------------------------------------------------------------------
  // Update and delete: lookup by (id, owner)

  /** The position of the task with identifier `id` owned by `owner`, if there is one. */
  function IndexOf(ts: seq<Task>, id: TaskId, owner: UserId): (r: Option<nat>)
    ensures r.Some? ==> r.value < |ts| && ts[r.value].id == id && ts[r.value].owner == owner
    ensures r.None? ==> forall i :: 0 <= i < |ts| ==> !(ts[i].id == id && ts[i].owner == owner)
    decreases |ts|
  {
    if |ts| == 0 then None
    else if ts[0].id == id && ts[0].owner == owner then Some(0)
    else match IndexOf(ts[1..], id, owner)
      case None => None
      case Some(k) => Some(k + 1)
  }

  /** With unique identifiers, the lookup finds the one task carrying both `id` and `owner`. */
  lemma IndexOfUnique(ts: seq<Task>, id: TaskId, owner: UserId, j: nat)
    requires UniqueIds(ts)
    requires j < |ts| && ts[j].id == id && ts[j].owner == owner
    ensures IndexOf(ts, id, owner) == Some(j)
  {
  }

  /** Replaces the fields the update body supplies; identifier and owner stay. */
  function ApplyFields(t: Task, f: TaskFields): (u: Task)
    ensures u.id == t.id && u.owner == t.owner
  {
    t.(title := f.title.GetOr(t.title),
       description := if f.description.Some? then f.description else t.description,
       deadline := if f.deadline.Some? then f.deadline else t.deadline,
       priority := f.priority.GetOr(t.priority))
  }

  /** Applying the same update twice is the same as applying it once; an empty update changes nothing. */
  lemma ApplyFieldsIdempotent(t: Task, f: TaskFields)
    ensures ApplyFields(ApplyFields(t, f), f) == ApplyFields(t, f)
    ensures ApplyFields(t, TaskFields(None, None, None, None)) == t
  {
  }

  function AfterUpdate(ts: seq<Task>, caller: UserId, id: TaskId, f: TaskFields): seq<Task> {
    match IndexOf(ts, id, caller)
    case None => ts
    case Some(i) => ts[i := ApplyFields(ts[i], f)]
  }

  function UpdateResponse(ts: seq<Task>, caller: UserId, id: TaskId, f: TaskFields): Response {
    match IndexOf(ts, id, caller)
    case None => Response(404, Message(NotFoundOrUnauthorized))
    case Some(i) => Response(200, TaskAndMessage(ApplyFields(ts[i], f), TaskUpdated))
  }

  /**
   * Update touches only the task with that identifier owned by the caller:
   * every other position is unchanged, and the one that changes gets the
   * supplied fields, keeps its identifier and owner, and is what the response returns.
   */
  lemma UpdateChangesOnlyTarget(ts: seq<Task>, caller: UserId, id: TaskId, f: TaskFields)
    requires UniqueIds(ts)
    ensures var ts' := AfterUpdate(ts, caller, id, f);
      && |ts'| == |ts|
      && (forall j :: 0 <= j < |ts| && !(ts[j].id == id && ts[j].owner == caller) ==> ts'[j] == ts[j])
      && (forall j :: 0 <= j < |ts| && ts[j].id == id && ts[j].owner == caller ==>
            && ts'[j] == ApplyFields(ts[j], f)
            && UpdateResponse(ts, caller, id, f) == Response(200, TaskAndMessage(ts'[j], TaskUpdated)))
  {
  }

  /** The updated record carries exactly the supplied fields and the old values of the rest. */
  lemma UpdatedRecordFields(ts: seq<Task>, caller: UserId, id: TaskId, f: TaskFields)
    requires UpdateResponse(ts, caller, id, f).status == 200
    ensures var u := UpdateResponse(ts, caller, id, f).body.task;
      && u in AfterUpdate(ts, caller, id, f)
      && u.id == id && u.owner == caller
      && (f.title.Some? ==> u.title == f.title.value)
      && (f.description.Some? ==> u.description == f.description)
      && (f.deadline.Some? ==> u.deadline == f.deadline)
      && (f.priority.Some? ==> u.priority == f.priority.value)
      && var o := ts[IndexOf(ts, id, caller).value];
      && (f.title.None? ==> u.title == o.title)
      && (f.description.None? ==> u.description == o.description)
      && (f.deadline.None? ==> u.deadline == o.deadline)
      && (f.priority.None? ==> u.priority == o.priority)
  {
    var i := IndexOf(ts, id, caller).value;
    assert AfterUpdate(ts, caller, id, f)[i] == UpdateResponse(ts, caller, id, f).body.task;
  }

  /**
   * When no task has this identifier and the caller as owner, in particular when
   * the only such task belongs to someone else, update answers 404 and changes nothing.
   */
  lemma UpdateNotFound(ts: seq<Task>, caller: UserId, id: TaskId, f: TaskFields)
    requires forall j :: 0 <= j < |ts| && ts[j].id == id ==> ts[j].owner != caller
    ensures AfterUpdate(ts, caller, id, f) == ts
    ensures UpdateResponse(ts, caller, id, f) == Response(404, Message(NotFoundOrUnauthorized))
    ensures UpdateResponse(ts, caller, id, f) == UpdateResponse([], caller, id, f)
  {
  }

  /** Update by one user leaves every other user's view of the table as it was. */
  lemma UpdateIsolation(ts: seq<Task>, caller: UserId, id: TaskId, f: TaskFields, other: UserId)
    requires other != caller
    ensures OwnedBy(AfterUpdate(ts, caller, id, f), other) == OwnedBy(ts, other)
  {
    match IndexOf(ts, id, caller)
    case None =>
    case Some(i) => OwnedByForeignReplace(ts, i, ApplyFields(ts[i], f), other);
  }

  lemma UpdateKeepsIdsFresh(ts: seq<Task>, n: nat, caller: UserId, id: TaskId, f: TaskFields)
    requires UniqueIds(ts) && IdsBelow(ts, n)
    ensures UniqueIds(AfterUpdate(ts, caller, id, f)) && IdsBelow(AfterUpdate(ts, caller, id, f), n)
  {
  }

  function AfterDelete(ts: seq<Task>, caller: UserId, id: TaskId): seq<Task> {
    match IndexOf(ts, id, caller)
    case None => ts
    case Some(i) => ts[..i] + ts[i + 1..]
  }

  function DeleteResponse(ts: seq<Task>, caller: UserId, id: TaskId): Response {
    match IndexOf(ts, id, caller)
    case None => Response(404, Message(NotFoundOrUnauthorized))
    case Some(_) => Response(200, Message(TaskDeleted))
  }

  /**
   * Delete removes exactly the task with that identifier owned by the caller,
   * if there is one, and keeps every other task; afterwards no task with that
   * identifier is left for anyone.
   */
  lemma DeleteRemovesOnlyTarget(ts: seq<Task>, caller: UserId, id: TaskId)
    requires UniqueIds(ts)
    ensures var ts' := AfterDelete(ts, caller, id);
      && (forall t :: t in ts' <==> t in ts && !(t.id == id && t.owner == caller))
      && (DeleteResponse(ts, caller, id).status == 200 ==>
            && |ts'| == |ts| - 1
            && forall owner :: IndexOf(ts', id, owner).None?)
      && (DeleteResponse(ts, caller, id).status != 200 ==> ts' == ts)
  {
    if IndexOf(ts, id, caller).Some? {
      RemoveAt(ts, IndexOf(ts, id, caller).value);
    }
  }

  /** Removing the task at `i` from a table with unique identifiers drops exactly that identifier. */
  lemma RemoveAt(ts: seq<Task>, i: nat)
    requires UniqueIds(ts) && i < |ts|
    ensures var ts' := ts[..i] + ts[i + 1..];
      && |ts'| == |ts| - 1
      && (forall k :: 0 <= k < |ts'| ==> ts'[k] == if k < i then ts[k] else ts[k + 1])
      && (forall k :: 0 <= k < |ts'| ==> ts'[k].id != ts[i].id)
      && (forall t :: t in ts' <==> t in ts && t.id != ts[i].id)
  {

  }

  /**
   * When no task has this identifier and the caller as owner, delete answers
   * 404 and removes nothing: another user's task gets the answer a missing one does.
   */
  lemma DeleteNotFound(ts: seq<Task>, caller: UserId, id: TaskId)
    requires forall j :: 0 <= j < |ts| && ts[j].id == id ==> ts[j].owner != caller
    ensures AfterDelete(ts, caller, id) == ts
    ensures DeleteResponse(ts, caller, id) == Response(404, Message(NotFoundOrUnauthorized))
    ensures DeleteResponse(ts, caller, id) == DeleteResponse([], caller, id)
  {
  }

  /** Delete by one user leaves every other user's view of the table as it was. */
  lemma DeleteIsolation(ts: seq<Task>, caller: UserId, id: TaskId, other: UserId)
    requires other != caller
    ensures OwnedBy(AfterDelete(ts, caller, id), other) == OwnedBy(ts, other)
  {
    match IndexOf(ts, id, caller)
    case None =>
    case Some(i) =>
      assert ts == ts[..i] + [ts[i]] + ts[i + 1..];
      OwnedByConcat(ts[..i] + [ts[i]], ts[i + 1..], other);
      OwnedByConcat(ts[..i], [ts[i]], other);
      OwnedByConcat(ts[..i], ts[i + 1..], other);
  }

  lemma DeleteKeepsIdsFresh(ts: seq<Task>, n: nat, caller: UserId, id: TaskId)
    requires UniqueIds(ts) && IdsBelow(ts, n)
    ensures UniqueIds(AfterDelete(ts, caller, id)) && IdsBelow(AfterDelete(ts, caller, id), n)
  {

  }

  // ---------------------------------------------------------------------------
  // The task collection, updated in place by the handlers

  class TaskStore {
    /** The stored tasks, in insertion order. */
    var tasks: seq<Task>
    /** The identifier the next created task receives. */
    var nextId: TaskId

    ghost predicate Valid()
      reads this
    {
      UniqueIds(tasks) && IdsBelow(tasks, nextId)
    }

    constructor ()
      ensures Valid() && tasks == [] && nextId == 0
    {
      tasks := [];
      nextId := 0;
    }

    /** `createTask`: validates title and priority, then saves a new task owned by the caller. */
    method CreateTask(caller: UserId, body: TaskFields) returns (resp: Response)
      requires Valid()
      modifies this
      ensures Valid()
      ensures tasks == AfterCreate(old(tasks), old(nextId), caller, body)
      ensures resp == CreateResponse(old(nextId), caller, body)
      ensures nextId == if CreateRejected(body) then old(nextId) else old(nextId) + 1
    {
      CreateKeepsIdsFresh(tasks, nextId, caller, body);
      resp := CreateResponse(nextId, caller, body);
      if !CreateRejected(body) {
        tasks := tasks + [NewTask(nextId, caller, body)];
        nextId := nextId + 1;
      }
    }

    /** `getTasks`: builds the filter document field by field, then finds and sorts. */
    method GetTasks(caller: UserId, params: ListParams) returns (resp: Response)
      ensures resp.status == 200 && resp.body.TaskList?
      ensures IsListing(resp.body.tasks, tasks, caller, params)
    {
      var query := Query(caller, None, None, None);
      if Truthy(params.priority) {
        query := query.(priority := params.priority);
      }
      if params.dueBefore.Some? {
        query := query.(deadlineAtMost := params.dueBefore);
      }
      if Truthy(params.search) {
        query := query.(search := params.search);
      }
      assert forall t :: Matches(t, query) <==> Wanted(t, caller, params);
      var found := Select(tasks, query);
      forall t
        ensures multiset(found)[t] == if Wanted(t, caller, params) then multiset(tasks)[t] else 0
      {
        SelectCount(tasks, query, t);
      }
      resp := Response(200, TaskList(SortByDeadline(found)));
    }

    /** `updateTask`: finds the task by identifier and owner and replaces the supplied fields. */
    method UpdateTask(caller: UserId, id: TaskId, body: TaskFields) returns (resp: Response)
      requires Valid()
      modifies this
      ensures Valid() && nextId == old(nextId)
      ensures tasks == AfterUpdate(old(tasks), caller, id, body)
      ensures resp == UpdateResponse(old(tasks), caller, id, body)
    {
      UpdateKeepsIdsFresh(tasks, nextId, caller, id, body);
      resp := UpdateResponse(tasks, caller, id, body);
      var found := IndexOf(tasks, id, caller);
      if found.Some? {
        var i := found.value;
        tasks := tasks[i := ApplyFields(tasks[i], body)];
      }
    }

    /** `deleteTask`: finds the task by identifier and owner and removes it. */
    method DeleteTask(caller: UserId, id: TaskId) returns (resp: Response)
      requires Valid()
      modifies this
      ensures Valid() && nextId == old(nextId)
      ensures tasks == AfterDelete(old(tasks), caller, id)
      ensures resp == DeleteResponse(old(tasks), caller, id)
    {
      DeleteKeepsIdsFresh(tasks, nextId, caller, id);
      resp := DeleteResponse(tasks, caller, id);
      var found := IndexOf(tasks, id, caller);
      if found.Some? {
        var i := found.value;
        tasks := tasks[..i] + tasks[i + 1..];
      }
    }
  }
}
