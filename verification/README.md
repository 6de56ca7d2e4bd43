# Task manager core: services, store and ownership rules

This project models the core of a small task-manager web service in Dafny. Users register with an
e-mail and a password. They create tasks that carry an author, an optional executor, a
required status and a set of labels. Statuses and labels are managed by their own services.

The model covers:

- **The store.** Four id-keyed tables (users, task statuses, labels, tasks), the role table they
  read, and the single id sequence that the entities the services create draw their generated ids from
  (`Persistence.Db` as a value, `Persistence.Store` as the object the repositories write).
  A lookup by an absent id fails with `NoSuchElement`, as `findById(id).get()` does. The unique
  e-mail column refuses a conflicting write.
- **The four services.**
  - `UserService`: registration with the `ROLE_USER` role and an encoded password, lookups,
    update and delete.
  - `TaskService`: a task is assembled from a request by resolving its references, and the store
    is written only after all of them resolve; an update replaces status, labels and executor and
    keeps the author.
  - `TaskStatusService` and `LabelService`: create, rename, delete.
- **The two controllers' ownership rules.** `TaskController` lets only a task's author delete it;
  every other task endpoint is open to any authenticated caller. `UserController` lets only the
  account's owner update or delete it.

Each service is modelled twice:

- **A pure step function** (`CreateTaskStep`, `UpdateUserStep`, ...) maps a store value to the
  result and the store left behind. The properties are lemmas about these functions.
- **A method over `Store` and the entity objects** follows the source statement by statement. Its
  `ensures` ties the result and the new store state to the step function.

`Task.RowAt` and `User.RowAt` give the row an entity object is written as.

The caller's identity is an explicit `principal` string. The password encoder is a function
parameter `encode` about which nothing is assumed.

## Model

| member | source | states |
|---|---|---|
| Model.User.constructor | src/main/java/hexlet/code/model/User.java:65-66 | a new user object has every field null except `active`, which starts true |
| Model.User.WithId | src/main/java/hexlet/code/model/User.java:75-77 | `User(id)` sets only the id (and `active` keeps its initial true) |
| Model.Task.constructor | src/main/java/hexlet/code/model/Task.java:29-31 | a new task object has every field null |
| Model.Task.Named | src/main/java/hexlet/code/model/Task.java:61-64 | `Task(name, description)` sets those two fields and leaves id, author, executor, status and labels null |
| Model.User.Loaded | src/main/java/hexlet/code/model/User.java:39-73 | the object loaded for a stored row carries that row's id and is written back as exactly that row |
| Model.Task.Loaded | src/main/java/hexlet/code/model/Task.java:33-55 | the object loaded for a stored row has both @NotNull associations set, carries the row's id and is written back as exactly that row |
| Model.UserRow.SatisfiesConstraints | src/main/java/hexlet/code/model/User.java:43-59 | the user constraints hold exactly when e-mail, names and password are non-blank and the password has 3 to 100 characters; they imply non-empty e-mail and names |
| Model.TaskRow.SatisfiesConstraints | src/main/java/hexlet/code/model/Task.java:51-53 | the task constraint holds exactly when the name is non-blank, and then the name is non-empty |
| Dtos.TaskDto.Valid | src/main/java/hexlet/code/dtos/TaskDto.java:17-26 | a request body passes validation exactly when its name is non-blank and its status id is non-null; a valid name is non-empty |
| Persistence.Store.constructor | src/main/java/hexlet/code/services/UserServiceImpl.java:58-61 | a fresh store holds the given role table, no user, status, label or task, and starts the id sequence at 1 |
| Persistence.FindById | src/main/java/hexlet/code/services/TaskService.java:37-39 | `findById(id).get()` succeeds exactly when the id is stored, with that row; otherwise NoSuchElement |
| Persistence.KeysWith | src/main/java/hexlet/code/services/UserServiceImpl.java:67-69 | the keys a derived `findBy<Column>` query matches are exactly the stored keys whose row holds the searched value |
| Persistence.FindByEmailQuery | src/main/java/hexlet/code/services/UserServiceImpl.java:67-69 | `findByEmail` is empty exactly when no user has the e-mail, fails with IncorrectResultSize exactly when several do, and otherwise gives a stored user with that e-mail |
| Persistence.FindRoleByNameQuery | src/main/java/hexlet/code/services/UserServiceImpl.java:58-61 | `findByName` on roles is empty exactly when no role has the name, fails with IncorrectResultSize exactly when several do, and otherwise gives a stored role with that name |
| Persistence.SingleResult | src/main/java/hexlet/code/services/UserServiceImpl.java:67-69 | a single-result derived query gives no value when nothing matches, the row when exactly one matches, and IncorrectResultSize when several match |
| Persistence.UniqueEmailMatchesAtMostOne | src/main/java/hexlet/code/model/User.java:43-46 | with the e-mail column unique, at most one user has a given e-mail |
| Persistence.Store.SaveTask | src/main/java/hexlet/code/services/TaskService.java:41-50 | saving a new task inserts it under the next generated id, saving a loaded one overwrites its row; the object learns its id, none of its other fields changes, and no other table changes |
| Persistence.Store.SaveUser | src/main/java/hexlet/code/model/User.java:43-46 | a save that would give two users the same e-mail is refused with DataIntegrityViolation and changes nothing; otherwise the row is written as for tasks and unique e-mails are kept; only the object's id can change |
| Persistence.Store.SaveNewStatus | src/main/java/hexlet/code/services/TaskStatusService.java:24-27 | a new status is written under the next generated id and only the status table grows |
| Persistence.Store.SaveStatus | src/main/java/hexlet/code/services/TaskStatusService.java:29-33 | a loaded status overwrites its own row; the id sequence and other tables are unchanged |
| Persistence.Store.SaveNewLabel | src/main/java/hexlet/code/services/LabelService.java:21-25 | a new label is written under the next generated id and only the label table grows |
| Persistence.Store.SaveLabel | src/main/java/hexlet/code/services/LabelService.java:31-35 | a loaded label overwrites its own row; the id sequence and other tables are unchanged |
| Persistence.Store.DeleteUserById | src/main/java/hexlet/code/services/UserServiceImpl.java:80-82 | removes the key from the user table and nothing else; an id with no row fails with EmptyResultDataAccess and changes nothing |
| Persistence.Store.DeleteStatusById | src/main/java/hexlet/code/services/TaskStatusService.java:35-37 | removes the key from the status table and nothing else; an id with no row fails with EmptyResultDataAccess and changes nothing |
| Persistence.Store.DeleteLabelById | src/main/java/hexlet/code/services/LabelService.java:37-39 | removes the key from the label table and nothing else; an id with no row fails with EmptyResultDataAccess and changes nothing |
| Persistence.Store.DeleteTaskById | src/main/java/hexlet/code/services/TaskService.java:52-54 | removes the key from the task table and nothing else; an id with no row fails with EmptyResultDataAccess and changes nothing |
| UserService.FindAll | src/main/java/hexlet/code/services/UserServiceImpl.java:33-37 | the result holds exactly the stored users |
| UserService.FindAllCount | src/main/java/hexlet/code/services/UserServiceImpl.java:33-37 | the result has as many users as the table, so none is lost or merged |
| UserService.FindUserById | src/main/java/hexlet/code/services/UserServiceImpl.java:63-65 | succeeds exactly when the id is stored, with that row; otherwise NoSuchElement |
| UserService.FindUserByEmail | src/main/java/hexlet/code/services/UserServiceImpl.java:67-69 | succeeds exactly when some user has the e-mail, returning that user; otherwise NoSuchElement |
| UserService.LoadUserByUsername | src/main/java/hexlet/code/services/UserServiceImpl.java:84-89 | same user as the e-mail lookup; an unknown e-mail fails with UsernameNotFound("Not found: " + email) |
| UserService.GetUserRole | src/main/java/hexlet/code/services/UserServiceImpl.java:58-61 | returns a stored role named ROLE_USER; fails with NoSuchElement exactly when no role has that name, succeeds when exactly one has it, and fails with IncorrectResultSize when several have it |
| UserService.WithUserRole | src/main/java/hexlet/code/services/UserServiceImpl.java:49-56 | the role list is the old list (empty when null) with exactly one role appended at the end |
| UserService.CreateUserStep | src/main/java/hexlet/code/services/UserServiceImpl.java:39-47 | registration succeeds exactly when the role lookup does (exactly one role is named ROLE_USER) and the e-mail is free; the new row has the request's e-mail and names, `encode(password)`, `active` and the one role, under a fresh id; a failure writes nothing; the store stays valid |
| UserService.UpdateUserStep | src/main/java/hexlet/code/services/UserServiceImpl.java:71-78 | fails with NoSuchElement on an absent id; otherwise overwrites e-mail, names and re-encoded password, keeps id, `active` and roles, and fails only on an e-mail another user holds |
| UserService.DeleteUserStep | src/main/java/hexlet/code/services/UserServiceImpl.java:80-82 | succeeds exactly when the id is stored, removing that key whether or not tasks name the user and leaving every other row and table as it was; an absent id fails with EmptyResultDataAccess and writes nothing |
| UserService.DuplicateRegistrationFails | src/main/java/hexlet/code/model/User.java:43-46 | a second registration with an e-mail just registered fails with DataIntegrityViolation and writes nothing |
| UserService.RegistrationAddsOneUser | src/main/java/hexlet/code/services/UserServiceImpl.java:39-47 | a successful registration adds exactly one user |
| UserService.RegisteredUserMeetsConstraints | src/main/java/hexlet/code/model/User.java:43-59 | a registered user meets the entity's non-blank, length and password-size constraints when the request's fields and the encoded password do |
| UserService.UpdatedEmailIsFindable | src/test/java/hexlet/code/controller/UserControllerIT.java:133-140 | after a user changes e-mail, the lookup by the new e-mail finds that same id and no user has the old e-mail |
| UserService.DeleteRemovesOneUser | src/main/java/hexlet/code/services/UserServiceImpl.java:80-82 | after deletion the id is not found and the table has one user fewer |
| UserService.InitRolesCanDuplicate | src/main/java/hexlet/code/model/User.java:68-73 | roles are an ordered list, so appending ROLE_USER to a list that already holds it gives a duplicate |
| UserService.InitRoles | src/main/java/hexlet/code/services/UserServiceImpl.java:49-56 | appends the ROLE_USER role to the user's roles (starting from an empty list when null) or fails with the lookup's error, leaving the other fields alone |
| UserService.CreateUser | src/main/java/hexlet/code/services/UserServiceImpl.java:39-47 | building the user through its setters and saving it gives the result and store of `CreateUserStep` |
| UserService.UpdateUser | src/main/java/hexlet/code/services/UserServiceImpl.java:71-78 | loading, setting the fields and saving gives the result and store of `UpdateUserStep` |
| UserService.DeleteUser | src/main/java/hexlet/code/services/UserServiceImpl.java:80-82 | gives the result and store of `DeleteUserStep` |
| TaskService.GetAuthor | src/main/java/hexlet/code/services/TaskService.java:88-94 | the author is the user whose e-mail is the caller's name; NoSuchElement when there is none |
| TaskService.GetExecutor | src/main/java/hexlet/code/services/TaskService.java:79-86 | no executor for a null id; otherwise the user with that id, or NoSuchElement |
| TaskService.GetStatus | src/main/java/hexlet/code/services/TaskService.java:103-108 | succeeds exactly when the id is non-null and stored, with that status; InvalidDataAccessApiUsage for a null id, NoSuchElement for an absent one |
| TaskService.GetLabels | src/main/java/hexlet/code/services/TaskService.java:96-101 | NullPointer for a null id set; succeeds exactly when every id is stored; then one label per id, carrying exactly the given ids |
| TaskService.ResolvedLabels | src/main/java/hexlet/code/services/TaskService.java:98-99 | looking up a set of stored label ids gives as many labels as ids, with exactly those ids |
| TaskService.AssembledTask | src/main/java/hexlet/code/services/TaskService.java:56-68 | the task is built exactly when the caller is a known user, the executor (if any), the status and every label resolve; it then has the next id, the caller as author, and the request's executor, status, labels, name and description |
| TaskService.UpdatedTask | src/main/java/hexlet/code/services/TaskService.java:70-77 | the update resolves exactly when status, labels and executor do; it then overwrites name, description, status, labels and executor and keeps id and author |
| TaskService.CreateTaskStep | src/main/java/hexlet/code/services/TaskService.java:41-44 | on success the task `AssembledTask` builds is returned and inserted under a fresh id, and the id sequence advances; on failure the error is the assembly's and the store is unchanged |
| TaskService.UpdateTaskStep | src/main/java/hexlet/code/services/TaskService.java:46-50 | NoSuchElement on an absent id; otherwise succeeds exactly when `UpdatedTask` does, returning that row and putting it in place of the old one under the same id; a failure leaves the store unchanged |
| TaskService.DeleteTaskStep | src/main/java/hexlet/code/services/TaskService.java:52-54 | succeeds exactly when the id is stored, and then removes that key and nothing else; an absent id fails with EmptyResultDataAccess and writes nothing |
| TaskService.FindTaskById | src/main/java/hexlet/code/services/TaskService.java:37-39 | succeeds exactly when the id is stored, with that row; otherwise NoSuchElement |
| TaskService.FindAll | src/main/java/hexlet/code/services/TaskService.java:33-35 | the result holds exactly the stored tasks |
| TaskService.FindAllCount | src/main/java/hexlet/code/services/TaskService.java:33-35 | the result has as many tasks as the table |
| TaskService.AuthorIgnoresRequest | src/main/java/hexlet/code/services/TaskService.java:61 | two requests from the same caller that both succeed get the same author, whatever they contain |
| TaskService.MissingLabelWritesNothing | src/main/java/hexlet/code/services/TaskService.java:41-44 | a request naming an unknown label id fails and the store is unchanged |
| TaskService.NullLabelsFail | src/main/java/hexlet/code/services/TaskService.java:97-98 | a null label-id set makes create and update fail; update fails with NullPointer once the task and status are found |
| TaskService.UpdateReplacesLabels | src/main/java/hexlet/code/services/TaskService.java:70-77 | after an update the task holds exactly the requested label ids, none of its old ones unless requested, and its original author |
| TaskService.CreateAddsOneTask | src/main/java/hexlet/code/services/TaskService.java:41-44 | a successful create adds exactly one task |
| TaskService.ValidRequestGivesValidTask | src/main/java/hexlet/code/model/Task.java:51-53 | a task created from a request with a non-blank name meets the entity's name constraint |
| TaskService.DeleteRemovesOneTask | src/main/java/hexlet/code/services/TaskService.java:52-54 | after deletion the id is not found and the table has one task fewer |
| TaskService.FromDto | src/main/java/hexlet/code/services/TaskService.java:56-68 | filling a fresh object through its setters succeeds exactly when `AssembledTask` does, with an unsaved object that has both required associations and is written as that row |
| TaskService.UpdateFromDto | src/main/java/hexlet/code/services/TaskService.java:70-77 | name and description are always overwritten; status, labels and executor are set in that order up to the first reference that fails, which leaves the later fields as they were; id and author never change |
| TaskService.CreateTask | src/main/java/hexlet/code/services/TaskService.java:41-44 | gives the result and store of `CreateTaskStep` |
| TaskService.UpdateTask | src/main/java/hexlet/code/services/TaskService.java:46-50 | gives the result and store of `UpdateTaskStep`; a half-updated object is never saved |
| TaskService.DeleteTask | src/main/java/hexlet/code/services/TaskService.java:52-54 | gives the result and store of `DeleteTaskStep` |
| TaskStatusService.FindAll | src/main/java/hexlet/code/services/TaskStatusService.java:17-19 | the result holds exactly the stored statuses |
| TaskStatusService.FindAllCount | src/main/java/hexlet/code/services/TaskStatusService.java:17-19 | the result has as many statuses as the table |
| TaskStatusService.FindStatusById | src/main/java/hexlet/code/services/TaskStatusService.java:21-23 | succeeds exactly when the id is stored, with that row; otherwise NoSuchElement |
| TaskStatusService.CreateStatusStep | src/main/java/hexlet/code/services/TaskStatusService.java:24-27 | always succeeds: the status with the request's name is returned and stored under the next generated id, which is fresh; every existing status and every other table is unchanged |
| TaskStatusService.UpdateStatusStep | src/main/java/hexlet/code/services/TaskStatusService.java:29-33 | NoSuchElement on an absent id; otherwise only the name changes and the id is kept |
| TaskStatusService.DeleteStatusStep | src/main/java/hexlet/code/services/TaskStatusService.java:35-37 | succeeds exactly when the id is stored, and then removes that key and nothing else; an absent id fails with EmptyResultDataAccess and writes nothing |
| TaskStatusService.CreateAddsOneStatus | src/main/java/hexlet/code/services/TaskStatusService.java:24-27 | a create adds exactly one status; from an empty table the count becomes 1 |
| TaskStatusService.RenameMovesName | src/test/java/hexlet/code/controller/TaskStatusControllerIT.java:148-156 | after a rename, the statuses with the old name are the previous ones minus the renamed one, and the renamed one has the new name |
| TaskStatusService.OldNameGone | src/test/java/hexlet/code/controller/TaskStatusControllerIT.java:148-156 | when the renamed status was the only one with its old name, a search by the old name finds nothing and by the new name finds something |
| TaskStatusService.DeleteRemovesOneStatus | src/main/java/hexlet/code/services/TaskStatusService.java:35-37 | after deletion the id is not found and the table has one status fewer |
| TaskStatusService.DeleteIgnoresReferences | src/main/java/hexlet/code/services/TaskStatusService.java:35-37 | a status still used by a task is deleted anyway (the delete succeeds), and the task keeps naming it |
| TaskStatusService.CreateStatus | src/main/java/hexlet/code/services/TaskStatusService.java:24-27 | gives the result and store of `CreateStatusStep` |
| TaskStatusService.UpdateStatus | src/main/java/hexlet/code/services/TaskStatusService.java:29-33 | gives the result and store of `UpdateStatusStep` |
| TaskStatusService.DeleteStatus | src/main/java/hexlet/code/services/TaskStatusService.java:35-37 | gives the result and store of `DeleteStatusStep` |
| LabelService.FindAll | src/main/java/hexlet/code/services/LabelService.java:17-19 | the result holds exactly the stored labels |
| LabelService.FindAllCount | src/main/java/hexlet/code/services/LabelService.java:17-19 | the result has as many labels as the table |
| LabelService.FindLabelById | src/main/java/hexlet/code/services/LabelService.java:27-29 | succeeds exactly when the id is stored, with that row; otherwise NoSuchElement |
| LabelService.CreateLabelStep | src/main/java/hexlet/code/services/LabelService.java:21-25 | always succeeds: the label carrying the request's name is returned and stored under the next generated id, which is fresh; every existing label and every other table is unchanged |
| LabelService.UpdateLabelStep | src/main/java/hexlet/code/services/LabelService.java:31-35 | NoSuchElement on an absent id; otherwise only the name changes and the id is kept |
| LabelService.DeleteLabelStep | src/main/java/hexlet/code/services/LabelService.java:37-39 | succeeds exactly when the id is stored, and then removes that key and nothing else; an absent id fails with EmptyResultDataAccess and writes nothing |
| LabelService.CreateAddsOneLabel | src/main/java/hexlet/code/services/LabelService.java:21-25 | a create adds exactly one label; from an empty table the count becomes 1 |
| LabelService.RenameMovesName | src/test/java/hexlet/code/controller/LabelControllerIT.java:147-155 | after a rename, the labels with the old name are the previous ones minus the renamed one, and the renamed one has the new name |
| LabelService.OldNameGone | src/test/java/hexlet/code/controller/LabelControllerIT.java:147-155 | when the renamed label was the only one with its old name, a search by the old name finds nothing and by the new name finds something |
| LabelService.DeleteRemovesOneLabel | src/main/java/hexlet/code/services/LabelService.java:37-39 | after deletion the id is not found and the table has one label fewer |
| LabelService.DeleteIgnoresReferences | src/main/java/hexlet/code/services/LabelService.java:37-39 | a label still held by a task is deleted anyway (the delete succeeds), and the task keeps that label id |
| LabelService.CreateLabel | src/main/java/hexlet/code/services/LabelService.java:21-25 | gives the result and store of `CreateLabelStep` |
| LabelService.UpdateLabel | src/main/java/hexlet/code/services/LabelService.java:31-35 | gives the result and store of `UpdateLabelStep` |
| LabelService.DeleteLabel | src/main/java/hexlet/code/services/LabelService.java:37-39 | gives the result and store of `DeleteLabelStep` |
| TaskController.OnlyAuthorById | src/main/java/hexlet/code/controllers/TaskController.java:46-48 | true exactly when the task is stored and its author's e-mail equals the caller's name; NoSuchElement on an absent task |
| TaskController.Handle | src/main/java/hexlet/code/controllers/TaskController.java:67-169 | every endpoint keeps the store valid, a failed request changes nothing, and reads never write |
| TaskController.DeleteOnlyByAuthor | src/main/java/hexlet/code/controllers/TaskController.java:163-169 | a delete succeeds exactly when the caller is the stored task's author, and then removes that task only; otherwise the store is unchanged |
| TaskController.OtherUserCannotDelete | src/main/java/hexlet/code/controllers/TaskController.java:163-164 | a caller who is not the author gets AccessDenied and the store is unchanged |
| TaskController.AbsentTaskFailsBeforeOwnership | src/main/java/hexlet/code/controllers/TaskController.java:47 | deleting an absent id fails with NoSuchElement for every caller, before anything is compared or deleted |
| TaskController.UnguardedEndpointsIgnoreCaller | src/main/java/hexlet/code/controllers/TaskController.java:116-147 | listing, reading and updating give the same outcome whoever calls, so any caller may update any task |
| TaskController.CreatedTaskHasCallerAsAuthor | src/main/java/hexlet/code/controllers/TaskController.java:91-97 | a task created through the endpoint has the caller as author |
| TaskController.MissingStatusRefused | src/main/java/hexlet/code/dtos/TaskDto.java:25-26 | a body without a status id is refused by validation before the service runs, and nothing changes |
| TaskController.AuthorEmptiesSingleTaskStore | src/test/java/hexlet/code/controller/TaskControllerIT.java:178-189 | the author deleting the only task succeeds and leaves no task |
| UserController.OnlyOwnerById | src/main/java/hexlet/code/controllers/UserController.java:45-47 | true exactly when the user is stored and their e-mail equals the caller's name; NoSuchElement exactly on an absent id |
| UserController.Handle | src/main/java/hexlet/code/controllers/UserController.java:66-166 | every endpoint keeps the store valid, a failed request changes nothing, and reads never write |
| UserController.GuardedByOwner | src/main/java/hexlet/code/controllers/UserController.java:136-166 | update and delete fail with NoSuchElement on an absent id and with AccessDenied for anyone but the owner, leaving the store unchanged |
| UserController.OwnerCanDelete | src/main/java/hexlet/code/controllers/UserController.java:160-166 | the owner's delete succeeds and removes exactly their row |
| UserController.OwnerUpdateIsServiceUpdate | src/main/java/hexlet/code/controllers/UserController.java:136-144 | the owner's update is the service's update and fails only on an e-mail another user holds |
| UserController.UnguardedEndpointsIgnoreCaller | src/main/java/hexlet/code/controllers/UserController.java:66-117 | listing, registering and reading give the same outcome whoever calls |
| UserController.OwnerEmptiesSingleUserStore | src/test/java/hexlet/code/controller/UserControllerIT.java:145-159 | the only user deleting their own account succeeds and leaves no user |

## Left out

- HTTP routing, response codes, Swagger annotations and exception-to-status mapping are not modelled. A request's outcome is the `Result` the service returns.
- Authentication and token issuing are not modelled. The caller is the already-authenticated `principal` string.
- Password hashing is not modelled. `encode` is a parameter with no properties assumed.
- Query-by-predicate filtering of tasks is not modelled. `TaskService.FindAll` returns every task, as for an empty predicate.
- Creation timestamps are not modelled.
- The store does not enforce foreign keys. Deleting a user, status or label that a task still names goes through in the model, and the task keeps the dangling id. For a task whose author row is gone, `TaskController.OnlyAuthorById` fails with EntityNotFound.
- The only store-level constraint modelled is the unique e-mail column, which keeps `Db.Valid` true.
- The Bean Validation that runs on entities when they are saved is not modelled. `UserRow.SatisfiesConstraints` and `TaskRow.SatisfiesConstraints` state those constraints, and lemmas show when created rows meet them.
- User request bodies are not validated. `UserDto.java`, and so whatever constraints it declares, is not part of this model; `Dtos.UserDto` carries only its four fields. Task bodies are validated with `TaskDto.Valid` in the task controller.
- The e-mail format check on users is not modelled. Only non-blankness and uniqueness of the e-mail are.
- `Label.java` is not part of this model. A label is given the same shape as a task status: an id and a name.
- `deleteById` on an absent id fails with EmptyResultDataAccess and writes nothing, as the data library of this generation does. `TaskController` and `UserController` load the row in their guard first, so through them a delete never reaches that case. The status and label endpoints pass the id straight to the service, so there it does.
- A null string field is modelled as the empty string. A null id or collection is modelled as `None`; a null element inside a collection is not represented.
- TaskService.GetLabels: a label-id set holding a null element is not modelled. In the source, unboxing that null for `findLabelById(long)` throws a NullPointerException, so the request fails with nothing written.
- TaskService.GetStatus: a null status id fails with `InvalidDataAccessApiUsage`, the repository proxy's translation of the IllegalArgumentException that `findById(null)` raises; the message text is not modelled.
- Model.UserRow.SatisfiesConstraints: lengths are counted in characters, while @Size counts UTF-16 code units, so the two differ for passwords and names with characters outside the Basic Multilingual Plane.
- Task statuses and labels are entity objects that the source loads and renames in place. The model treats them as values: the renamed value is what gets saved, and aliasing of the loaded object is not represented.
- Results are sets, not ordered lists. The order in which `findAll` returns rows is not modelled.
- Generated ids of users, tasks, statuses and labels come from one counter they share, as the AUTO strategy does with a single sequence. Gaps in the sequence are not modelled. Roles use identity columns instead; the model only requires each role to be stored under its own id.
- Transactions and concurrent requests are not modelled. Each request runs alone.
- The duplicate user service under `service/`, the welcome controllers and the web and error-reporting configuration are not part of this model.
- Label and status names are not required to be unique, because the entity declares no such constraint. `OldNameGone` therefore assumes that the renamed row was the only one with its old name.
