# TaskMaster task API: ownership-scoped task store and authentication gate

This project models the two pieces of the TaskMaster backend whose behaviour is
more than glue, and proves properties of them in Dafny.

1. **The task controller** (`controller/taskController.js`). It keeps a table
   of tasks. Each task has an identifier, title, description, deadline,
   priority and owning user. Four handlers act on the table on behalf of the
   authenticated caller:
   - create: checks that title and priority are present, then saves a task
     owned by the caller;
   - list: filters by priority (exact), by deadline (on or before a date) and
     by a case-insensitive search of title or description, then sorts by
     ascending deadline;
   - update and delete: find the task by identifier *and* owner.

   In the model the table is the class `TaskController.TaskStore`, whose
   methods change its `tasks` sequence in place. Each method's contract ties
   the new table and the response to pure functions of the old table
   (`AfterCreate`, `AfterUpdate`, `AfterDelete` and the matching `…Response`),
   or, for list, to the `IsListing` predicate. The lemmas about those
   functions carry the properties. The central one is isolation: an operation
   on behalf of user B leaves `OwnedBy(tasks, A)`, user A's whole view of the
   table, exactly as it was.
2. **The authentication gate** (`Middleware/Authenticate.js`). It maps the
   `Authorization` header to one of three outcomes: 401 "Access denied. Token
   is required.", 403 "Invalid token.", or acceptance with the decoded claims.
   jsonwebtoken's verification is a parameter `verify: string -> Option<Claims>`.
   The token is `header.split(" ")[1]`, modelled with a JavaScript `split` in
   module `Text`.

Module `Routes` composes the two as `routes/index.js` wires them. The gate runs
before each of the four `/tasks` handlers. A handler runs only with the
`userId` of claims the gate accepted.

Module `Scenarios` restates the repository's create, update and list tests
over the model, with dates written as `yyyymmdd` integers. Two client methods
run the guarded routes:
- `CrossUserScenario`, for any verifier that maps one token to alice and
  another to bob. A second user's update and delete of alice's task get the
  same 404 a missing task gets, and alice's own delete still succeeds.
- `RefusedRequestsScenario`, for any verifier that maps one token to alice and
  refuses the token "forged". A forged, absent or token-less header is refused
  and changes nothing.

Modelling choices:
- Task identifiers are natural numbers. The store gives them out from a
  counter, which stands for database-assigned ObjectIds. User identifiers are
  strings. Dates are integers.
- An absent request field is `None`. JavaScript truthiness (`!title`,
  `if (priority)`, `!decoded.userId`, `!token`) is `Truthy`: the value is
  present and is not the empty string.
- An update body sets exactly the fields it supplies. A supplied empty string
  is stored: it is not `undefined`, and the update runs no validators.
- A task without a deadline never satisfies `dueBefore`. It sorts before every
  task that has a deadline, as a missing value does in the database's
  ascending order. The order among equal deadlines is left open.

## Model

| member | source | states |
|---|---|---|
| `Text.Truthy` | controller/taskController.js:8 | Definition: JavaScript truthiness of an optional string, as in `!title`, `!priority`, `if (priority)`, `if (search)` (lines 38, 40) and `!token`, `!decoded.userId` (Middleware/Authenticate.js:8, 14): present and not empty. |
| `TaskController.CreateRejected` | controller/taskController.js:8 | Definition: create refuses a body whose title or priority is not truthy. |
| `TaskController.NewTask` | controller/taskController.js:14-20 | Definition: the saved record has the supplied title, description, deadline and priority, and the caller as owner. |
| `TaskController.AfterCreate` | controller/taskController.js:8-21 | Definition: a refused create keeps the table; otherwise the new record is appended. |
| `TaskController.CreateResponse` | controller/taskController.js:8-25 | Definition: 400 "Title and priority are required." for a refused body, else 201 with the new record and "Task created successfully.". |
| `TaskController.Wanted` | controller/taskController.js:34-45 | Definition: what a list request asks for: the caller's tasks, filtered by each query parameter that is truthy. |
| `TaskController.IsListing` | controller/taskController.js:34-48 | Definition: a correct answer to a list request holds each wanted task as often as the table does, nothing else, and is sorted by deadline. |
| `TaskController.DeadlineLe` | controller/taskController.js:47 | Definition: ascending deadline order, in which a task without a deadline comes before every task with one. The placement of missing deadlines is an assumption about the database. |
| `TaskController.SortedByDeadline` | controller/taskController.js:47 | Definition: every earlier task is `DeadlineLe` every later one. |
| `TaskController.AfterUpdate` | controller/taskController.js:59-63 | Definition: the (id, caller) task, if any, is replaced by `ApplyFields` of itself; otherwise the table is kept. |
| `TaskController.UpdateResponse` | controller/taskController.js:59-73 | Definition: 200 with the updated record and "Task updated successfully.", or 404 "Task not found or unauthorized." when no (id, caller) task exists. |
| `TaskController.AfterDelete` | controller/taskController.js:83-86 | Definition: the (id, caller) task, if any, is removed; otherwise the table is kept. |
| `TaskController.DeleteResponse` | controller/taskController.js:83-94 | Definition: 200 "Task deleted successfully.", or 404 "Task not found or unauthorized." when no (id, caller) task exists. |
| `Text.ContainsIgnoringCase` | controller/taskController.js:42-43 | Definition: the `$regex` search with option "i", as a literal substring test after ASCII lower-casing of both sides. |
| `TaskController.TaskStore.CreateTask` | controller/taskController.js:3-25 | Missing or empty title or priority gives 400 "Title and priority are required." and leaves the table and the id counter alone. Otherwise exactly one task is appended: it is owned by the caller, carries the supplied fields and a fresh id, and is returned with 201 "Task created successfully.". The new table and the response are `AfterCreate` and `CreateResponse` of the old table and counter. Table invariant (unique ids) kept. |
| `TaskController.TaskStore.GetTasks` | controller/taskController.js:31-48 | Builds the filter document field by field. Always answers 200 with a list. Each wanted task (caller-owned, meeting every filter that is set) appears as often as in the table and no other task appears. The list is in non-decreasing deadline order. |
| `TaskController.TaskStore.UpdateTask` | controller/taskController.js:54-73 | Looks the task up by (id, caller). The new table and the response are `AfterUpdate` and `UpdateResponse` of the old table. The id counter is unchanged and the invariant kept. |
| `TaskController.TaskStore.DeleteTask` | controller/taskController.js:79-94 | Looks the task up by (id, caller). The new table and the response are `AfterDelete` and `DeleteResponse` of the old table. The invariant is kept. |
| `TaskController.CreateAddsOneOwnedTask` | controller/taskController.js:5-25 | A valid create answers 201 with the new task. The new table is the old one plus that task. The task's owner is the caller and its title, description, deadline and priority are as supplied. The caller's view gains exactly that task at the end. |
| `TaskController.CreateIsolation` | controller/taskController.js:6-21 | A create by one user leaves every other user's view of the table unchanged. |
| `TaskController.CreateKeepsIdsFresh` | controller/taskController.js:14-21 | Creating with the next counter value keeps ids unique and below the incremented counter. |
| `TaskController.OwnedBy` | controller/taskController.js:36 | A user's view holds exactly the table's tasks owned by that user. |
| `TaskController.OwnedByConcat` | controller/taskController.js:36 | A user's view of two tables joined is the join of the two views. |
| `TaskController.OwnedByForeignReplace` | controller/taskController.js:59-63 | Replacing, at one position, a task the user does not own by another the user does not own leaves that user's view unchanged. |
| `TaskController.DueBy` | controller/taskController.js:39 | Definition: a task is due by a date when it has a deadline on or before it. `{ $lte: date }` never matches a missing deadline. |
| `TaskController.Mentions` | controller/taskController.js:40-45 | Definition: the title or the description contains the search text, ignoring case. |
| `TaskController.Matches` | controller/taskController.js:36-45 | Definition: a task meets every condition of the filter document: owner, then priority, deadline and search when present. |
| `TaskController.Select` | controller/taskController.js:47 | `Task.find`: every selected task is in the table and meets the filter document, and there are no more of them than tasks in the table. |
| `TaskController.SelectCount` | controller/taskController.js:36-47 | Running the filter document keeps each matching task with its full multiplicity and drops every other task. |
| `TaskController.SelectOwnerOnly` | controller/taskController.js:36 | With no optional filter set, the query selects exactly the owner's view. |
| `TaskController.DeadlineLeTotalPreorder` | controller/taskController.js:47 | Ascending deadline order is reflexive, total and transitive. |
| `TaskController.InsertByDeadline` | controller/taskController.js:47 | Inserting a task adds exactly that task. |
| `TaskController.InsertKeepsSorted` | controller/taskController.js:47 | Inserting into a deadline-sorted sequence keeps it sorted. |
| `TaskController.SortByDeadline` | controller/taskController.js:47 | The result is a permutation of the input in non-decreasing deadline order. |
| `TaskController.ListingExact` | controller/taskController.js:36-48 | A listing is sound and complete: a task is in it iff it is in the table and the request wants it. It holds no task owned by anyone but the caller. |
| `TaskController.ListingUnfiltered` | controller/taskController.js:36-48 | With no filters, a listing is a reordering of exactly the caller's tasks. It is empty when the caller owns none. |
| `TaskController.IndexOf` | controller/taskController.js:59-60 | The lookup returns a position holding a task with that id and that owner, or reports that no such position exists. |
| `TaskController.IndexOfUnique` | controller/taskController.js:59-60 | With unique ids, the lookup finds the one task carrying both id and owner. |
| `TaskController.ApplyFields` | controller/taskController.js:61 | Applying an update body never changes a task's id or owner. |
| `TaskController.ApplyFieldsIdempotent` | controller/taskController.js:61 | Applying the same update twice equals applying it once. An update supplying nothing changes nothing. |
| `TaskController.UpdateChangesOnlyTarget` | controller/taskController.js:59-73 | Every position of the table except the matching (id, caller) task is unchanged. The matching task gets the supplied fields, and the 200 "Task updated successfully." response returns it in its new form. |
| `TaskController.UpdatedRecordFields` | controller/taskController.js:59-73 | On a 200 answer, the returned task is in the new table. It has the requested id and the caller as owner, and each supplied field holds the supplied value. |
| `TaskController.UpdateNotFound` | controller/taskController.js:65-69 | If no task carries both id and caller, including when the id belongs to another user's task, update leaves the table unchanged. It answers 404 "Task not found or unauthorized.", exactly as it would on an empty table. |
| `TaskController.UpdateIsolation` | controller/taskController.js:59-63 | An update by one user leaves every other user's view unchanged. |
| `TaskController.UpdateKeepsIdsFresh` | controller/taskController.js:59-63 | An update keeps ids unique and below the counter. |
| `TaskController.DeleteRemovesOnlyTarget` | controller/taskController.js:83-94 | A task survives delete iff it is not the (id, caller) task. On a 200 "Task deleted successfully." answer, exactly one task is gone and no task with that id remains for any owner. Otherwise the table is unchanged. |
| `TaskController.RemoveAt` | controller/taskController.js:83-86 | Removing one position shifts the rest down. With unique ids it drops exactly that id. |
| `TaskController.DeleteNotFound` | controller/taskController.js:88-92 | If no task carries both id and caller, delete removes nothing. It answers 404 "Task not found or unauthorized.", identical to the answer on an empty table. |
| `TaskController.DeleteIsolation` | controller/taskController.js:83-86 | A delete by one user leaves every other user's view unchanged. |
| `TaskController.DeleteKeepsIdsFresh` | controller/taskController.js:83-86 | A delete keeps ids unique and below the counter. |
| `AuthGate.Authenticate` | Middleware/Authenticate.js:5-22 | The gate accepts only when the header is present and the accepted claims carry a truthy `userId`. |
| `AuthGate.TokenAfterFirstSpace` | Middleware/Authenticate.js:13 | For a header `scheme rest` whose scheme word has no space, the token is the first space-free piece of `rest`. |
| `AuthGate.TokenIffSpace` | Middleware/Authenticate.js:13 | The header yields a token iff it contains a space. |
| `AuthGate.MissingHeaderRejected` | Middleware/Authenticate.js:6-10 | An absent or empty header gets 401 "Access denied. Token is required.", whatever the verifier. |
| `AuthGate.HeaderWithoutSpaceRejected` | Middleware/Authenticate.js:12-21 | A non-empty header without a space has no token and gets 403 "Invalid token.". |
| `AuthGate.SchemeTokenHeader` | Middleware/Authenticate.js:12-21 | For a header `scheme token`, the gate accepts iff `token` verifies to claims with a truthy `userId`. It then attaches exactly those claims. Otherwise it answers 403 "Invalid token.". |
| `AuthGate.SchemeIgnored` | Middleware/Authenticate.js:13 | Any two scheme words give the same decision for the same rest of the header. |
| `AuthGate.AcceptExactly` | Middleware/Authenticate.js:8-18 | Acceptance with claims `c` holds iff three things hold: the header is present, its token verifies to `c`, and `c.userId` is truthy. |
| `AuthGate.RejectionHidesCause` | Middleware/Authenticate.js:19-21 | Every refusal of a present header, whatever its cause, sends the same 403 "Invalid token." body. |
| `AuthGate.TokenOf` | Middleware/Authenticate.js:13 | `split(" ")[1]`: a token exists only for a header with a space, and it contains no space. |
| `AuthGate.ClientRejection` | Middleware/Authenticate.js:8-21 | No rejection exactly on an `Accept` decision. `TokenRequired` gets 401 "Access denied. Token is required."; every `InvalidToken` decision, whatever its cause, gets 403 "Invalid token.". |
| `Routes.GateUser` | routes/index.js:17-20 | A guarded request acts for a user iff the gate accepted. That user is the non-empty `userId` of the accepted claims. |
| `Routes.GateResponse` | Middleware/Authenticate.js:8-21 | A `TokenRequired` decision answers 401 with the `error` "Access denied. Token is required."; an `InvalidToken` decision answers 403 with "Invalid token.". |
| `Routes.HandleTaskRoute` | routes/index.js:17-20 | A request the gate refuses gets the gate's response and changes nothing. An accepted one does what the handler specifies for the accepted `userId`. In every case no other user's view changes, and every task in the response is owned by the accepted user. |
| `Text.Split` | Middleware/Authenticate.js:13 | `split` always gives at least one piece. |
| `Text.JoinSplit` | Middleware/Authenticate.js:13 | Joining the pieces of a split with the separator gives the string back. |
| `Text.SplitPiecesAvoidSep` | Middleware/Authenticate.js:13 | No piece contains the separator. |
| `Text.SplitWord` | Middleware/Authenticate.js:13 | A word without the separator splits into itself alone. |
| `Text.SplitAround` | Middleware/Authenticate.js:13 | Splitting `a + sep + b` gives the pieces of `a` followed by the pieces of `b`. |
| `Text.SplitManyIffSep` | Middleware/Authenticate.js:13 | A split has two or more pieces iff the separator occurs. |
| `Text.Lower` | controller/taskController.js:42-43 | Lower-casing keeps the length and lower-cases each character. |
| `Text.LowerForgetsCase` | controller/taskController.js:42-43 | Lower-casing an upper-cased or lower-cased string equals lower-casing the original. |
| `Text.ContainsIffOccurs` | controller/taskController.js:42-43 | Substring search succeeds iff the pattern occurs at some position. |
| `Text.ContainsIgnoringCaseIff` | controller/taskController.js:42-43 | The case-insensitive search succeeds iff some slice of the text equals the pattern up to case. |
| `Text.SearchIgnoresCase` | controller/taskController.js:42-43 | Upper-casing the pattern or the text does not change the search result. |
| `Text.LowerSlice` | controller/taskController.js:42-43 | Lower-casing commutes with slicing. |
| `Text.ContainsKeepsChars` | controller/taskController.js:42-43 | A text that contains a pattern contains each of the pattern's characters. |
| `Scenarios.CreateWithAllFields` | tests/task.test.js:35-55 | The create test's body answers 201 "Task created successfully." with a task that carries all four supplied values and the caller as owner, and the table gains exactly that task. |
| `Scenarios.CreateWithoutRequiredFields` | tests/task.test.js:57-67 | A body with only a description answers 400 "Title and priority are required." and the table is unchanged. |
| `Scenarios.UpdateOriginalTask` | tests/task.test.js:131-161 | Updating "Original Task" with a new title, description and priority answers 200 "Task updated successfully." with those values; the deadline keeps its old value. |
| `Scenarios.ListAllSorted` | tests/task.test.js:71-97 | With no filter, any answer for the two-task table is both tasks, the earlier deadline ("Task 2") first. |
| `Scenarios.FilterByPriority` | tests/task.test.js:99-107 | `priority=High` lists exactly "Task 1". |
| `Scenarios.FilterByDueDate` | tests/task.test.js:109-117 | `dueBefore=2024-12-01` lists exactly "Task 2". |
| `Scenarios.SearchTitleOrDescription` | tests/task.test.js:119-127 | `search=Second` lists exactly "Task 2", found through its description "Second task". |
| `Scenarios.CrossUserScenario` | controller/taskController.js:54-97 | After alice creates a task through the gate, bob's update and delete of it both answer 404 "Task not found or unauthorized." and leave the table as `[AliceTask]`. Alice's own delete then answers 200 and empties the table. |
| `Scenarios.RefusedRequestsScenario` | Middleware/Authenticate.js:8-21 | With alice's task saved, a delete with a forged token gets 403, one without a header gets 401, and one whose header is only the scheme word gets 403. The table still holds alice's task. |

## Left out

- The 500 "Server error." paths of all four handlers (controller/taskController.js:26-28, 49-51, 74-76, 95-97): these are database failures. The database here cannot fail, and the leaked `error` object is not modelled.
- Malformed identifiers: ids are opaque numbers, so an id that matches no task gives 404. The ObjectId cast error, which the code would report as 500, is not modelled.
- `search` is a regular expression with option "i" in the source. Here it is a literal substring, and case folding covers the ASCII letters only.
- `new Date(dueBefore)` parsing: `dueBefore` arrives as an integer date, and an invalid date string is not modelled.
- `Text.Lower`: does not model Unicode lower-casing, because only ASCII letters are folded.
- The placement of deadline-less tasks in `$lte` and in the sort is an assumption about the database, stated above, and not derived from code.
- Mongoose details of update: a `null` sent for a field and schema validators are not modelled, since the model only distinguishes supplied from absent. That an unsupplied field is left alone assumes Mongoose 6 or later, which drops `undefined` keys from the update document; Mongoose 5 wrote them as `null`.
- Token verification (signature, expiry in one hour, the secret from the environment) belongs to jsonwebtoken and is the `verify` parameter. The model lets `verify` decide even for an empty token string.
- The decoded payload's other claims (`iat`, `exp`): the backend reads only `userId`, so `Claims` carries only that claim.
- Registration and login: `controller/authController.js` is not part of this model, and neither is bcrypt hashing.
- Bootstrap and configuration (`index.js`, `config/db.js`, `tests/testUtils.js`), the rest of the Express wiring, logging (`console.error`) and asynchrony: these are I/O. Requests are handled one at a time.
