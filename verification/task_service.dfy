/**
 * The task service: assembles a task from a request by resolving its references (author from
 * the caller's identity, optional executor, required status, label ids) and writes it only
 * once every reference has resolved; updates replace status, executor and labels wholesale
 * and keep the author.
 */
module TaskService {
  import opened Common
  import opened Model
  import opened Dtos
  import opened Persistence
  import UserService

  /** The ids of a set of labels. */
  function LabelIds(ls: set<Label>): set<Id> {
    set l | l in ls :: l.id
  }

  /** The id of an optional user. */
  function IdOf(u: Option<UserRow>): Option<Id> {
    match u
    case Some(user) => Some(user.id)
    case None => None
  }

  /** `getAuthor(dto)`: the user whose e-mail is the caller's name; the request is not consulted. */
  function GetAuthor(db: Db, principal: string): (r: Result<UserRow>)
    requires db.Valid()
    ensures r.Ok? <==> exists k :: k in db.users && db.users[k].email == principal
    ensures r.Ok? ==> r.value.email == principal && r.value.id in db.users && db.users[r.value.id] == r.value
    ensures r.Err? ==> r.error == NoSuchElement
  {
    UserService.FindUserByEmail(db, principal)
  }

  /** `getExecutor(dto)`: no executor for a null id, otherwise the user under that id. */
  function GetExecutor(db: Db, dto: TaskDto): (r: Result<Option<UserRow>>)
    requires db.Valid()
    ensures dto.executorId.None? ==> r == Ok(None)
    ensures dto.executorId.Some? ==>
      if dto.executorId.value in db.users then r == Ok(Some(db.users[dto.executorId.value]))
      else r == Err(NoSuchElement)
  {
    match dto.executorId
    case None => Ok(None)
    case Some(id) =>
      var user :- UserService.FindUserById(db, id);
      Ok(Some(user))
  }

  /** `getStatus(dto)`: the status under the required id; a null id is refused by the repository. */
  function GetStatus(db: Db, dto: TaskDto): (r: Result<TaskStatus>)
    requires db.Valid()
    ensures r.Ok? <==> dto.taskStatusId.Some? && dto.taskStatusId.value in db.statuses
    ensures r.Ok? ==> r.value == db.statuses[dto.taskStatusId.value] && r.value.id == dto.taskStatusId.value
    ensures dto.taskStatusId.None? ==> r == Err(InvalidDataAccessApiUsage)
    ensures dto.taskStatusId.Some? && r.Err? ==> r == Err(NoSuchElement)
  {
    match dto.taskStatusId
    case None => Err(InvalidDataAccessApiUsage)
    case Some(id) => FindById(db.statuses, id)
  }

  /**
   * `getLabels(dto)`: every id resolved to its label. A null set throws NullPointer; one id
   * without a label makes the whole resolution fail; the result has one label per id.
   */
  function GetLabels(db: Db, dto: TaskDto): (r: Result<set<Label>>)
    requires db.Valid()
    ensures dto.labelIds.None? ==> r == Err(NullPointer)
    ensures r.Ok? <==> dto.labelIds.Some? && dto.labelIds.value <= db.labels.Keys
    ensures dto.labelIds.Some? && r.Err? ==> r == Err(NoSuchElement)
    ensures r.Ok? ==>
      && |r.value| == |dto.labelIds.value|
      && LabelIds(r.value) == dto.labelIds.value
      && forall l :: l in r.value ==> l.id in db.labels && db.labels[l.id] == l
  {
    match dto.labelIds
    case None => Err(NullPointer)
    case Some(ids) =>
      if ids <= db.labels.Keys then
        ResolvedLabels(db, ids);
        Ok(Image(db.labels, ids))
      else
        Err(NoSuchElement)
  }

  /** The labels looked up under `ids` are one per id and carry exactly those ids. */
  lemma ResolvedLabels(db: Db, ids: set<Id>)
    requires db.Valid() && ids <= db.labels.Keys
    ensures |Image(db.labels, ids)| == |ids|
    ensures LabelIds(Image(db.labels, ids)) == ids
  {
    ImageCardinality(db.labels, ids);
    var ls := Image(db.labels, ids);
    forall i | i in ids
      ensures i in LabelIds(ls)
    {
      assert db.labels[i] in ls;
    }
    forall i | i in LabelIds(ls)
      ensures i in ids
    {
      var l :| l in ls && l.id == i;
      var k :| k in ids && db.labels[k] == l;
    }
  }

  /**
   * The row `createTask` writes: `fromDto`'s fields under the next generated id. References
   * are resolved in `fromDto`'s order: author, executor, status, labels.
   */
  function AssembledTask(db: Db, dto: TaskDto, principal: string): (r: Result<TaskRow>)
    requires db.Valid()
    ensures r.Ok? <==>
      && (exists k :: k in db.users && db.users[k].email == principal)
      && (dto.executorId.Some? ==> dto.executorId.value in db.users)
      && dto.taskStatusId.Some? && dto.taskStatusId.value in db.statuses
      && dto.labelIds.Some? && dto.labelIds.value <= db.labels.Keys
    ensures r.Ok? ==>
      var t := r.value;
      && t.id == db.nextId
      && t.author in db.users && db.users[t.author].email == principal
      && t.executor == dto.executorId
      && t.taskStatus == dto.taskStatusId.value
      && t.labels == dto.labelIds.value
      && t.name == dto.name && t.description == dto.description
  {
    var author :- GetAuthor(db, principal);
    var executor :- GetExecutor(db, dto);
    var status :- GetStatus(db, dto);
    var labels :- GetLabels(db, dto);
    Ok(TaskRow(db.nextId, author.id, IdOf(executor), status.id, LabelIds(labels), dto.name, dto.description))
  }

  /**
   * The row `updateTask` writes over `row`: name, description, status, labels and executor
   * from the request, resolved in `updateFromDto`'s order (status, labels, executor); id and
   * author kept.
   */
  function UpdatedTask(db: Db, row: TaskRow, dto: TaskDto): (r: Result<TaskRow>)
    requires db.Valid()
    ensures r.Ok? <==>
      && dto.taskStatusId.Some? && dto.taskStatusId.value in db.statuses
      && dto.labelIds.Some? && dto.labelIds.value <= db.labels.Keys
      && (dto.executorId.Some? ==> dto.executorId.value in db.users)
    ensures r.Ok? ==>
      r.value == row.(name := dto.name, description := dto.description, taskStatus := dto.taskStatusId.value,
                      labels := dto.labelIds.value, executor := dto.executorId)
  {
    var status :- GetStatus(db, dto);
    var labels :- GetLabels(db, dto);
    var executor :- GetExecutor(db, dto);
    Ok(row.(name := dto.name, description := dto.description, taskStatus := status.id,
            labels := LabelIds(labels), executor := IdOf(executor)))
  }

  /** `createTask(dto)`: the assembled row is written under a fresh id, or nothing is written. */
  function CreateTaskStep(db: Db, dto: TaskDto, principal: string): (s: Step<TaskRow>)
    requires db.Valid()
    ensures s.db.Valid()
    ensures s.result.Ok? <==> AssembledTask(db, dto, principal).Ok?
    ensures s.result.Err? ==> s.result.error == AssembledTask(db, dto, principal).error && s.db == db
    ensures s.result.Ok? ==>
      && s.result.value == AssembledTask(db, dto, principal).value
      && s.result.value.id !in db.tasks
      && s.db == db.(tasks := db.tasks[s.result.value.id := s.result.value], nextId := db.nextId + 1)
  {
    match AssembledTask(db, dto, principal)
    case Err(e) => Step(Err(e), db)
    case Ok(row) => Step(Ok(row), db.(tasks := db.tasks[row.id := row], nextId := db.nextId + 1))
  }

  /** `updateTask(id, dto)`: fails on an absent id; otherwise the updated row replaces the old one. */
  function UpdateTaskStep(db: Db, id: Id, dto: TaskDto): (s: Step<TaskRow>)
    requires db.Valid()
    ensures s.db.Valid()
    ensures id !in db.tasks ==> s.result == Err(NoSuchElement)
    ensures s.result.Ok? <==> id in db.tasks && UpdatedTask(db, db.tasks[id], dto).Ok?
    ensures s.result.Err? ==> s.db == db
    ensures s.result.Ok? ==>
      && s.result.value == UpdatedTask(db, db.tasks[id], dto).value
      && s.result.value.id == id
      && s.db == db.(tasks := db.tasks[id := s.result.value])
  {
    if id !in db.tasks then Step(Err(NoSuchElement), db)
    else
      match UpdatedTask(db, db.tasks[id], dto)
      case Err(e) => Step(Err(e), db)
      case Ok(row) => Step(Ok(row), db.(tasks := db.tasks[id := row]))
  }

  /**
   * `deleteTask(id)`: removes the key and nothing else; an id with no row makes the repository
   * throw, and nothing is written.
   */
  function DeleteTaskStep(db: Db, id: Id): (s: Step<()>)
    requires db.Valid()
    ensures s.db.Valid()
    ensures s.result.Ok? <==> id in db.tasks
    ensures s.result.Err? ==> s.result.error == EmptyResultDataAccess && s.db == db
    ensures s.result.Ok? ==>
      && s.db.tasks.Keys == db.tasks.Keys - {id}
      && (forall k :: k in s.db.tasks ==> s.db.tasks[k] == db.tasks[k])
      && s.db == db.(tasks := s.db.tasks)
  {
    if id !in db.tasks then Step(Err(EmptyResultDataAccess), db)
    else Step(Ok(()), db.(tasks := db.tasks - {id}))
  }

  /** `findTaskById(id)`: the task under `id`, or NoSuchElement. */
  function FindTaskById(db: Db, id: Id): (r: Result<TaskRow>)
    requires db.Valid()
    ensures r.Ok? <==> id in db.tasks
    ensures r.Ok? ==> r.value.id == id && r.value == db.tasks[id]
    ensures r.Err? ==> r.error == NoSuchElement
  {
    FindById(db.tasks, id)
  }

  /** `findAll(predicate)` with the filter left out: every stored task. */
  function FindAll(db: Db): (r: set<TaskRow>)
    requires db.Valid()
    ensures forall k :: k in db.tasks ==> db.tasks[k] in r
    ensures forall t :: t in r ==> t.id in db.tasks && db.tasks[t.id] == t
  {
    Image(db.tasks, db.tasks.Keys)
  }

  // ---------------------------------------------------------------------------------------
  // Properties
  // ---------------------------------------------------------------------------------------

  /** The author depends on the caller only: two requests that both succeed get the same author. */
  lemma AuthorIgnoresRequest(db: Db, a: TaskDto, b: TaskDto, principal: string)
    requires db.Valid()
    requires AssembledTask(db, a, principal).Ok? && AssembledTask(db, b, principal).Ok?
    ensures AssembledTask(db, a, principal).value.author == AssembledTask(db, b, principal).value.author
  {
    var x := AssembledTask(db, a, principal).value.author;
    var y := AssembledTask(db, b, principal).value.author;
    assert db.users[x].email == db.users[y].email;
  }

  /** A task whose label ids include one without a label is not written, and the store is unchanged. */
  lemma MissingLabelWritesNothing(db: Db, dto: TaskDto, principal: string, missing: Id)
    requires db.Valid() && dto.labelIds.Some? && missing in dto.labelIds.value && missing !in db.labels
    ensures CreateTaskStep(db, dto, principal).result.Err?
    ensures CreateTaskStep(db, dto, principal).db == db
  {
  }

  /** A null label set makes both create and update fail once the earlier references resolve. */
  lemma NullLabelsFail(db: Db, dto: TaskDto, principal: string, id: Id)
    requires db.Valid() && dto.labelIds.None?
    ensures CreateTaskStep(db, dto, principal).result.Err?
    ensures UpdateTaskStep(db, id, dto).result.Err?
    ensures id in db.tasks && GetStatus(db, dto).Ok? ==> UpdateTaskStep(db, id, dto).result == Err(NullPointer)
  {
  }

  /**
   * Updating replaces the label set: whatever the task held before, afterwards it holds exactly
   * the requested ids, and its author is the one it had.
   */
  lemma UpdateReplacesLabels(db: Db, id: Id, dto: TaskDto)
    requires db.Valid()
    requires UpdateTaskStep(db, id, dto).result.Ok?
    ensures var t := UpdateTaskStep(db, id, dto).db.tasks[id];
      && t.labels == dto.labelIds.value
      && t.author == db.tasks[id].author
  {
  }

  /** A successful create adds exactly one task, as the IT's count going from 0 to 1 checks. */
  lemma CreateAddsOneTask(db: Db, dto: TaskDto, principal: string)
    requires db.Valid()
    requires CreateTaskStep(db, dto, principal).result.Ok?
    ensures |CreateTaskStep(db, dto, principal).db.tasks| == |db.tasks| + 1
  {
  }

  /** A task written by createTask satisfies the entity's constraints when the request was valid. */
  lemma ValidRequestGivesValidTask(db: Db, dto: TaskDto, principal: string)
    requires db.Valid() && dto.Valid()
    requires CreateTaskStep(db, dto, principal).result.Ok?
    ensures CreateTaskStep(db, dto, principal).result.value.SatisfiesConstraints()
  {
  }

  /** After deletion the id is no longer found and exactly one task is gone. */
  lemma DeleteRemovesOneTask(db: Db, id: Id)
    requires db.Valid() && id in db.tasks
    ensures var d := DeleteTaskStep(db, id).db;
      && FindTaskById(d, id) == Err(NoSuchElement)
      && |d.tasks| == |db.tasks| - 1
  {
    var d := DeleteTaskStep(db, id).db;
    assert d.tasks.Keys == db.tasks.Keys - {id};
  }

  /** `findAll` returns as many tasks as the store holds. */
  lemma FindAllCount(db: Db)
    requires db.Valid()
    ensures |FindAll(db)| == |db.tasks|
  {
    ImageCardinality(db.tasks, db.tasks.Keys);
  }

  // ---------------------------------------------------------------------------------------
  // The service methods, over the store
  // ---------------------------------------------------------------------------------------

  /**
   * `fromDto(dto)`: a new task object filled through its setters in the order name,
   * description, author, executor, status, labels. The first reference that does not
   * resolve throws and the half-built object is dropped.
   */
  method FromDto(store: Store, dto: TaskDto, principal: string) returns (r: Result<Task>)
    requires store.Valid()
    ensures var spec := AssembledTask(store.State(), dto, principal);
      && (r.Ok? <==> spec.Ok?)
      && (r.Err? ==> r.error == spec.error)
      && (r.Ok? ==> fresh(r.value) && r.value.id.None? && r.value.Complete()
                    && r.value.RowAt(store.nextId) == spec.value)
  {
    var db := store.State();
    var task := new Task();
    task.name := dto.name;
    task.description := dto.description;
    var author := GetAuthor(db, principal);
    if author.Err? {
      return Err(author.error);
    }
    task.author := Some(author.value.id);
    var executor := GetExecutor(db, dto);
    if executor.Err? {
      return Err(executor.error);
    }
    task.executor := IdOf(executor.value);
    var status := GetStatus(db, dto);
    if status.Err? {
      return Err(status.error);
    }
    task.taskStatus := Some(status.value.id);
    var labels := GetLabels(db, dto);
    if labels.Err? {
      return Err(labels.error);
    }
    task.labels := Some(LabelIds(labels.value));
    r := Ok(task);
  }

  /**
   * `updateFromDto(task, dto)`: overwrites the object's fields through its setters in the
   * order name, description, status, labels, executor. A reference that does not resolve
   * throws after the earlier setters have run, so the object is left half-updated (the
   * caller then does not save it). Id and author are never touched.
   */
  method UpdateFromDto(store: Store, task: Task, dto: TaskDto) returns (r: Result<()>)
    requires store.Valid()
    modifies task
    ensures task.id == old(task.id) && task.author == old(task.author)
    ensures task.name == dto.name && task.description == dto.description
    ensures var db := store.State();
      var status := GetStatus(db, dto);
      var labels := GetLabels(db, dto);
      var executor := GetExecutor(db, dto);
      if status.Err? then
        r == Err(status.error) && task.taskStatus == old(task.taskStatus)
        && task.labels == old(task.labels) && task.executor == old(task.executor)
      else if labels.Err? then
        r == Err(labels.error) && task.taskStatus == Some(status.value.id)
        && task.labels == old(task.labels) && task.executor == old(task.executor)
      else if executor.Err? then
        r == Err(executor.error) && task.taskStatus == Some(status.value.id)
        && task.labels == Some(LabelIds(labels.value)) && task.executor == old(task.executor)
      else
        r == Ok(()) && task.taskStatus == Some(status.value.id)
        && task.labels == Some(LabelIds(labels.value)) && task.executor == IdOf(executor.value)
  {
    var db := store.State();
    task.name := dto.name;
    task.description := dto.description;
    var status := GetStatus(db, dto);
    if status.Err? {
      return Err(status.error);
    }
    task.taskStatus := Some(status.value.id);
    var labels := GetLabels(db, dto);
    if labels.Err? {
      return Err(labels.error);
    }
    task.labels := Some(LabelIds(labels.value));
    var executor := GetExecutor(db, dto);
    if executor.Err? {
      return Err(executor.error);
    }
    task.executor := IdOf(executor.value);
    r := Ok(());
  }

  /** `createTask(dto)`: `save` runs only after `fromDto` has returned. */
  method CreateTask(store: Store, dto: TaskDto, principal: string) returns (r: Result<TaskRow>)
    requires store.Valid()
    modifies store
    ensures store.Valid()
    ensures Step(r, store.State()) == CreateTaskStep(old(store.State()), dto, principal)
  {
    var built := FromDto(store, dto, principal);
    if built.Err? {
      return Err(built.error);
    }
    var row := store.SaveTask(built.value);
    r := Ok(row);
  }

  /** `updateTask(id, dto)`: load, update the object in place, save. */
  method UpdateTask(store: Store, id: Id, dto: TaskDto) returns (r: Result<TaskRow>)
    requires store.Valid()
    modifies store
    ensures store.Valid()
    ensures Step(r, store.State()) == UpdateTaskStep(old(store.State()), id, dto)
  {
    var found := FindById(store.tasks, id);
    if found.Err? {
      return Err(found.error);
    }
    var task := new Task.Loaded(found.value);
    var updated := UpdateFromDto(store, task, dto);
    if updated.Err? {
      return Err(updated.error);
    }
    var row := store.SaveTask(task);
    r := Ok(row);
  }

  /** `deleteTask(id)`. */
  method DeleteTask(store: Store, id: Id) returns (r: Result<()>)
    requires store.Valid()
    modifies store
    ensures store.Valid()
    ensures Step(r, store.State()) == DeleteTaskStep(old(store.State()), id)
  {
    r := store.DeleteTaskById(id);
  }
}
