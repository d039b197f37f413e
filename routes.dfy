/**
 * The router's one rule that matters for authorisation: every `/tasks` route
 * runs the authentication gate first, and the task handler runs only with the
 * `userId` of the claims the gate accepted. The `/auth` routes are not guarded
 * and their handlers are not part of this model.
 */
module Routes {
  import opened Wrappers
  import opened TaskController
  import opened AuthGate

  /** The four guarded routes: `POST /tasks`, `GET /tasks`, `PUT /tasks/:id`, `DELETE /tasks/:id`. */
  datatype TaskRequest =
    | CreateRequest(body: TaskFields)
    | ListRequest(params: ListParams)
    | UpdateRequest(id: TaskId, body: TaskFields)
    | DeleteRequest(id: TaskId)

  /** The user a guarded request acts for: the `userId` of the claims the gate accepted, if it did. */
  function GateUser(header: Option<string>, verify: Verifier): (u: Option<UserId>)
    ensures u.Some? <==> Authenticate(header, verify).Accept?
    ensures u.Some? ==> u.value != "" && Authenticate(header, verify).user.userId == u
  {
    var d := Authenticate(header, verify);
    if d.Accept? then Some(d.user.userId.value) else None
  }

  /** The response the gate sends when it refuses. */
  function GateResponse(d: Decision): (resp: Response)
    requires !d.Accept?
    ensures resp.status == (if d.TokenRequired? then 401 else 403)
    ensures resp.body == Error(if d.TokenRequired? then TokenRequiredError else InvalidTokenError)
  {
    var r := ClientRejection(d).value;
    Response(r.status, Error(r.error))
  }

  /**
   * A guarded route: the gate, then the handler for the accepted caller.
   * A refused request changes nothing; an accepted one does what the handler
   * specifies for that caller; either way no other user's tasks are changed,
   * removed or returned.
   */
  method HandleTaskRoute(store: TaskStore, header: Option<string>, verify: Verifier, req: TaskRequest)
    returns (resp: Response)
    requires store.Valid()
    modifies store
    ensures store.Valid()
    ensures GateUser(header, verify).None? ==>
      && resp == GateResponse(Authenticate(header, verify))
      && store.tasks == old(store.tasks) && store.nextId == old(store.nextId)
    ensures GateUser(header, verify).Some? ==>
      var caller := GateUser(header, verify).value;
      match req
      case CreateRequest(f) =>
        && store.tasks == AfterCreate(old(store.tasks), old(store.nextId), caller, f)
        && resp == CreateResponse(old(store.nextId), caller, f)
      case ListRequest(p) =>
        && store.tasks == old(store.tasks) && store.nextId == old(store.nextId)
        && resp.status == 200 && resp.body.TaskList?
        && IsListing(resp.body.tasks, old(store.tasks), caller, p)
      case UpdateRequest(id, f) =>
        && store.tasks == AfterUpdate(old(store.tasks), caller, id, f)
        && resp == UpdateResponse(old(store.tasks), caller, id, f)
      case DeleteRequest(id) =>
        && store.tasks == AfterDelete(old(store.tasks), caller, id)
        && resp == DeleteResponse(old(store.tasks), caller, id)
    ensures forall u :: GateUser(header, verify) != Some(u) ==> OwnedBy(store.tasks, u) == OwnedBy(old(store.tasks), u)
    ensures forall t :: t in ResponseTasks(resp) ==> GateUser(header, verify) == Some(t.owner)
  {
    var decision := Authenticate(header, verify);
    if !decision.Accept? {
      return GateResponse(decision);
    }
    var caller := decision.user.userId.value;
    ghost var before := store.tasks;
    match req
    case CreateRequest(f) =>
      resp := store.CreateTask(caller, f);
      forall u | u != caller
        ensures OwnedBy(store.tasks, u) == OwnedBy(before, u)
      {
        CreateIsolation(before, old(store.nextId), caller, f, u);
      }
    case ListRequest(p) =>
      resp := store.GetTasks(caller, p);
      ListingExact(resp.body.tasks, before, caller, p);
    case UpdateRequest(id, f) =>
      resp := store.UpdateTask(caller, id, f);
      forall u | u != caller
        ensures OwnedBy(store.tasks, u) == OwnedBy(before, u)
      {
        UpdateIsolation(before, caller, id, f, u);
      }
      if resp.status == 200 {
        UpdatedRecordFields(before, caller, id, f);
      }
    case DeleteRequest(id) =>
      resp := store.DeleteTask(caller, id);
      forall u | u != caller
        ensures OwnedBy(store.tasks, u) == OwnedBy(before, u)
      {
        DeleteIsolation(before, caller, id, u);
      }
  }
}
