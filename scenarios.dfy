/**
 * The repository's task tests, restated over the model: the create and
 * update tests, the two-task table of the list tests, and guarded requests
 * that end in the 404, 200, 401 and 403 answers of the controller and the gate.
 */
module Scenarios {
  import opened Wrappers
  import opened Text
  import opened TaskController
  import opened AuthGate
  import opened Routes

  const Owner: UserId := "user-1"

  /** The body of the successful create test, with the deadline as yyyymmdd. */
  const FullFields := TaskFields(Some("Test Task"), Some("This is a test task"), Some(20241231), Some("High"))

  /** A create with every field answers 201 with a task owned by the caller that carries them all. */
  lemma CreateWithAllFields(ts: seq<Task>, id: TaskId)
    ensures var t := Task(id, "Test Task", Some("This is a test task"), Some(20241231), "High", Owner);
      && CreateResponse(id, Owner, FullFields) == Response(201, TaskAndMessage(t, TaskCreated))
      && AfterCreate(ts, id, Owner, FullFields) == ts + [t]
  {
  }

  /** A create with only a description answers 400 and saves nothing. */
  lemma CreateWithoutRequiredFields(ts: seq<Task>, id: TaskId)
    ensures var f := TaskFields(None, Some("Missing title and priority"), None, None);
      && CreateResponse(id, Owner, f) == Response(400, Message(TitleAndPriorityRequired))
      && AfterCreate(ts, id, Owner, f) == ts
  {
  }

  /** The task the update tests start from. */
  const Original := Task(0, "Original Task", Some("Original description"), Some(20241231), "Low", Owner)

  /** Updating title, description and priority answers 200 with those values and the old deadline. */
  lemma UpdateOriginalTask()
    ensures var f := TaskFields(Some("Updated Task"), Some("Updated description"), None, Some("High"));
      var u := Task(0, "Updated Task", Some("Updated description"), Some(20241231), "High", Owner);
      && UpdateResponse([Original], Owner, 0, f) == Response(200, TaskAndMessage(u, TaskUpdated))
      && AfterUpdate([Original], Owner, 0, f) == [u]
  {
  }

  /** "Task 1", due 2024-12-31, High; "Task 2", due 2024-11-30, Medium; dates as yyyymmdd. */
  const Task1 := Task(0, "Task 1", Some("First task"), Some(20241231), "High", Owner)
  const Task2 := Task(1, "Task 2", Some("Second task"), Some(20241130), "Medium", Owner)

  /** A listing of a table holding `wanted` and `unwanted` once each, wanting only `wanted`, is `[wanted]`. */
  lemma OnlyOneListed(r: seq<Task>, ts: seq<Task>, caller: UserId, p: ListParams, wanted: Task, unwanted: Task)
    requires multiset(ts) == multiset{wanted, unwanted} && wanted != unwanted
    requires IsListing(r, ts, caller, p)
    requires Wanted(wanted, caller, p) && !Wanted(unwanted, caller, p)
    ensures r == [wanted]
  {
    forall t
      ensures multiset(r)[t] == multiset{wanted}[t]
    {
      assert multiset(r)[t] == if Wanted(t, caller, p) then multiset(ts)[t] else 0;
    }
    assert multiset(r) == multiset{wanted};
    assert |r| == 1;
    assert r[0] in multiset(r);
  }

  /** `GET /tasks?priority=High` lists Task 1 alone. */
  lemma FilterByPriority(r: seq<Task>)
    requires IsListing(r, [Task1, Task2], Owner, ListParams(Some("High"), None, None))
    ensures r == [Task1]
  {
    OnlyOneListed(r, [Task1, Task2], Owner, ListParams(Some("High"), None, None), Task1, Task2);
  }

  /** `GET /tasks?dueBefore=2024-12-01` lists Task 2 alone. */
  lemma FilterByDueDate(r: seq<Task>)
    requires IsListing(r, [Task1, Task2], Owner, ListParams(None, Some(20241201), None))
    ensures r == [Task2]
  {
    OnlyOneListed(r, [Task1, Task2], Owner, ListParams(None, Some(20241201), None), Task2, Task1);
  }

  /** Task 2's description mentions "Second". */
  lemma SecondMentioned()
    ensures Mentions(Task2, "Second")
  {
    assert Lower("Second task")[..6] == Lower("Second");
  }

  /** A text without the letter "c" does not contain "Second", in any case. */
  lemma SecondNotIn(s: string)
    requires 'c' !in s && 'C' !in s
    ensures !ContainsIgnoringCase(s, "Second")
  {
    assert Lower("Second")[2] == 'c';
    assert 'c' !in Lower(s);
    if ContainsIgnoringCase(s, "Second") {
      ContainsKeepsChars(Lower(s), Lower("Second"), 'c');
    }
  }

  /** Neither the title nor the description of Task 1 has the letter "c". */
  lemma FirstLacksC()
    ensures 'c' !in Task1.title && 'C' !in Task1.title
    ensures 'c' !in Task1.description.value && 'C' !in Task1.description.value
  {
  }

  /** Task 1 mentions "Second" neither in its title nor in its description. */
  lemma FirstNotMentioned()
    ensures !Mentions(Task1, "Second")
  {
    FirstLacksC();
    SecondNotIn(Task1.title);
    SecondNotIn(Task1.description.value);
  }

  /** A search that Task 2 meets and Task 1 does not lists Task 2 alone. */
  lemma SearchListsSecond(r: seq<Task>, text: string)
    requires text != "" && Mentions(Task2, text) && !Mentions(Task1, text)
    requires IsListing(r, [Task1, Task2], Owner, ListParams(None, None, Some(text)))
    ensures r == [Task2]
  {
    OnlyOneListed(r, [Task1, Task2], Owner, ListParams(None, None, Some(text)), Task2, Task1);
  }

  /** `GET /tasks?search=Second` lists Task 2 alone: only its description mentions "second", in any case. */
  lemma SearchTitleOrDescription(r: seq<Task>)
    requires IsListing(r, [Task1, Task2], Owner, ListParams(None, None, Some("Second")))
    ensures r == [Task2]
  {
    SecondMentioned();
    FirstNotMentioned();
    SearchListsSecond(r, "Second");
  }

  /** `GET /tasks` with no filter lists both tasks, the earlier deadline first. */
  lemma ListAllSorted(r: seq<Task>)
    requires IsListing(r, [Task1, Task2], Owner, ListParams(None, None, None))
    ensures r == [Task2, Task1]
  {
    var ts := [Task1, Task2];
    forall t
      ensures multiset(r)[t] == multiset(ts)[t]
    {
      assert multiset(r)[t] == if Wanted(t, Owner, ListParams(None, None, None)) then multiset(ts)[t] else 0;
    }
    assert multiset(r) == multiset(ts);
    assert |r| == 2;
    assert r[0] in multiset(r) && r[1] in multiset(r);
    assert DeadlineLe(r[0], r[1]);
  }

  /** A `scheme token` header whose token verifies to claims naming `u` acts for `u`. */
  lemma AcceptedAs(scheme: string, token: string, verify: Verifier, u: UserId)
    requires ' ' !in scheme && ' ' !in token && u != ""
    requires verify(token) == Some(Claims(Some(u)))
    ensures GateUser(Some(scheme + " " + token), verify) == Some(u)
  {
    SchemeTokenHeader(scheme, token, verify);
  }

  /** A `scheme token` header whose token does not verify is refused with 403. */
  lemma RefusedToken(scheme: string, token: string, verify: Verifier)
    requires ' ' !in scheme && ' ' !in token
    requires verify(token) == None
    ensures GateUser(Some(scheme + " " + token), verify) == None
    ensures GateResponse(Authenticate(Some(scheme + " " + token), verify)) == Response(403, Error(InvalidTokenError))
  {
    SchemeTokenHeader(scheme, token, verify);
  }

  /** A guarded create the gate accepts for `caller`. */
  method CreateAs(store: TaskStore, header: Option<string>, verify: Verifier, caller: UserId, f: TaskFields)
    returns (resp: Response)
    requires store.Valid() && GateUser(header, verify) == Some(caller)
    modifies store
    ensures store.Valid() && store.tasks == AfterCreate(old(store.tasks), old(store.nextId), caller, f)
    ensures resp == CreateResponse(old(store.nextId), caller, f)
  {
    resp := HandleTaskRoute(store, header, verify, CreateRequest(f));
  }

  /** A guarded update the gate accepts for `caller`. */
  method UpdateAs(store: TaskStore, header: Option<string>, verify: Verifier, caller: UserId, id: TaskId, f: TaskFields)
    returns (resp: Response)
    requires store.Valid() && GateUser(header, verify) == Some(caller)
    modifies store
    ensures store.Valid() && store.tasks == AfterUpdate(old(store.tasks), caller, id, f)
    ensures resp == UpdateResponse(old(store.tasks), caller, id, f)
  {
    resp := HandleTaskRoute(store, header, verify, UpdateRequest(id, f));
  }

  /** A guarded delete the gate accepts for `caller`. */
  method DeleteAs(store: TaskStore, header: Option<string>, verify: Verifier, caller: UserId, id: TaskId)
    returns (resp: Response)
    requires store.Valid() && GateUser(header, verify) == Some(caller)
    modifies store
    ensures store.Valid() && store.tasks == AfterDelete(old(store.tasks), caller, id)
    ensures resp == DeleteResponse(old(store.tasks), caller, id)
  {
    resp := HandleTaskRoute(store, header, verify, DeleteRequest(id));
  }

  /** A guarded request the gate refuses: the gate's answer, and the table as it was. */
  method Refuse(store: TaskStore, header: Option<string>, verify: Verifier, req: TaskRequest) returns (resp: Response)
    requires store.Valid() && GateUser(header, verify).None?
    modifies store
    ensures resp == GateResponse(Authenticate(header, verify))
    ensures store.Valid() && store.tasks == old(store.tasks)
  {
    resp := HandleTaskRoute(store, header, verify, req);
  }

  /** The task the guarded scenarios create for alice. */
  const AliceTask := Task(0, "Test Task", None, None, "High", "alice")

  /** The body of alice's create request. */
  const AliceFields := TaskFields(Some("Test Task"), None, None, Some("High"))

  /** Alice's create on an empty table saves `AliceTask`. */
  lemma AliceCreates()
    ensures AfterCreate([], 0, "alice", AliceFields) == [AliceTask]
  {
  }

  /** Bob can neither update nor delete alice's task: both answer 404 and keep the table. */
  lemma BobLockedOut(change: TaskFields)
    ensures AfterUpdate([AliceTask], "bob", 0, change) == [AliceTask]
    ensures UpdateResponse([AliceTask], "bob", 0, change) == Response(404, Message(NotFoundOrUnauthorized))
    ensures AfterDelete([AliceTask], "bob", 0) == [AliceTask]
    ensures DeleteResponse([AliceTask], "bob", 0) == Response(404, Message(NotFoundOrUnauthorized))
  {
    UpdateNotFound([AliceTask], "bob", 0, change);
    DeleteNotFound([AliceTask], "bob", 0);
  }

  /** Alice's own delete removes her task. */
  lemma AliceDeletes()
    ensures AfterDelete([AliceTask], "alice", 0) == []
    ensures DeleteResponse([AliceTask], "alice", 0) == Response(200, Message(TaskDeleted))
  {
  }

  /** A fresh store after alice's create through the gate. */
  method StoreWithAliceTask(verify: Verifier) returns (store: TaskStore)
    requires verify("tokA") == Some(Claims(Some("alice")))
    ensures fresh(store) && store.Valid() && store.tasks == [AliceTask]
  {
    AcceptedAs("Bearer", "tokA", verify, "alice");
    AliceCreates();
    store := new TaskStore();
    var created := CreateAs(store, Some("Bearer" + " " + "tokA"), verify, "alice", AliceFields);
  }

  /**
   * One user's task survives another user's update and delete, which get the
   * 404 a missing task gets; its owner can still delete it.
   */
  method CrossUserScenario(verify: Verifier)
    returns (bobUpdate: Response, bobDelete: Response, kept: seq<Task>, ownDelete: Response, left: seq<Task>)
    requires verify("tokA") == Some(Claims(Some("alice")))
    requires verify("tokB") == Some(Claims(Some("bob")))
    ensures bobUpdate == Response(404, Message(NotFoundOrUnauthorized))
    ensures bobDelete == Response(404, Message(NotFoundOrUnauthorized))
    ensures kept == [AliceTask]
    ensures ownDelete == Response(200, Message(TaskDeleted))
    ensures left == []
  {
    var store := StoreWithAliceTask(verify);
    var alice, bob := "Bearer" + " " + "tokA", "Bearer" + " " + "tokB";
    AcceptedAs("Bearer", "tokA", verify, "alice");
    AcceptedAs("Bearer", "tokB", verify, "bob");
    var change := TaskFields(Some("Mine now"), None, None, None);
    BobLockedOut(change);
    AliceDeletes();
    bobUpdate := UpdateAs(store, Some(bob), verify, "bob", 0, change);
    bobDelete := DeleteAs(store, Some(bob), verify, "bob", 0);
    kept := store.tasks;
    ownDelete := DeleteAs(store, Some(alice), verify, "alice", 0);
    left := store.tasks;
  }

  /** Requests the gate refuses get 403 or 401 and leave the table as it was. */
  method RefusedRequestsScenario(verify: Verifier)
    returns (refused: Response, anonymous: Response, schemeOnly: Response, kept: seq<Task>)
    requires verify("tokA") == Some(Claims(Some("alice")))
    requires verify("forged") == None
    ensures refused == Response(403, Error(InvalidTokenError))
    ensures anonymous == Response(401, Error(TokenRequiredError))
    ensures schemeOnly == Response(403, Error(InvalidTokenError))
    ensures kept == [AliceTask]
  {
    var store := StoreWithAliceTask(verify);
    RefusedToken("Bearer", "forged", verify);
    HeaderWithoutSpaceRejected("Bearer", verify);
    MissingHeaderRejected(None, verify);
    refused := Refuse(store, Some("Bearer" + " " + "forged"), verify, DeleteRequest(0));
    anonymous := Refuse(store, None, verify, DeleteRequest(0));
    schemeOnly := Refuse(store, Some("Bearer"), verify, DeleteRequest(0));
    kept := store.tasks;
  }
}
