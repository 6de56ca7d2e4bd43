/**
 * The task endpoints, as far as who may call them: every endpoint passes straight to the task
 * service, and only delete is guarded, by the rule that the stored task's author has the
 * caller's e-mail. Create and update bodies are validated first.
 */
module TaskController {
  import opened Common
  import opened Model
  import opened Dtos
  import opened Persistence
  import TaskService

  /** A request to one of the task endpoints. */
  datatype Request =
    | GetAll
    | Create(dto: TaskDto)
    | GetById(id: Id)
    | Update(id: Id, dto: TaskDto)
    | Delete(id: Id)

  /** The body an endpoint answers with. */
  datatype Response = Tasks(tasks: set<TaskRow>) | OneTask(task: TaskRow) | Deleted

  /**
   * ONLY_AUTHOR_BY_ID: the stored task's author's e-mail equals the caller's name. Loading the
   * task throws on an absent id; loading the author throws when the row it names is gone.
   */
  function OnlyAuthorById(db: Db, id: Id, principal: string): (r: Result<bool>)
    requires db.Valid()
    ensures id !in db.tasks ==> r == Err(NoSuchElement)
    ensures r == Ok(true) <==>
      id in db.tasks && db.tasks[id].author in db.users && db.users[db.tasks[id].author].email == principal
    ensures id in db.tasks && db.tasks[id].author !in db.users ==> r == Err(EntityNotFound)
  {
    var task :- TaskService.FindTaskById(db, id);
    if task.author !in db.users then Err(EntityNotFound)
    else Ok(db.users[task.author].email == principal)
  }

  /** Serving one request from caller `principal`: the guard, then the service call. */
  function Handle(db: Db, req: Request, principal: string): (s: Step<Response>)
    requires db.Valid()
    ensures s.db.Valid()
    ensures s.result.Err? ==> s.db == db
    ensures req.GetAll? || req.GetById? ==> s.db == db
  {
    match req
    case GetAll =>
      Step(Ok(Tasks(TaskService.FindAll(db))), db)
    case Create(dto) =>
      if !dto.Valid() then Step(Err(MethodArgumentNotValid), db)
      else
        var step := TaskService.CreateTaskStep(db, dto, principal);
        Step(if step.result.Ok? then Ok(OneTask(step.result.value)) else Err(step.result.error), step.db)
    case GetById(id) =>
      Step(match TaskService.FindTaskById(db, id)
           case Ok(t) => Ok(OneTask(t))
           case Err(e) => Err(e), db)
    case Update(id, dto) =>
      if !dto.Valid() then Step(Err(MethodArgumentNotValid), db)
      else
        var step := TaskService.UpdateTaskStep(db, id, dto);
        Step(if step.result.Ok? then Ok(OneTask(step.result.value)) else Err(step.result.error), step.db)
    case Delete(id) =>
      match OnlyAuthorById(db, id, principal)
      case Err(e) => Step(Err(e), db)
      case Ok(allowed) =>
        if !allowed then Step(Err(AccessDenied), db)
        else
          var step := TaskService.DeleteTaskStep(db, id);
          Step(match step.result
               case Ok(_) => Ok(Deleted)
               case Err(e) => Err(e), step.db)
  }

  // ---------------------------------------------------------------------------------------
  // Properties
  // ---------------------------------------------------------------------------------------

  /**
   * A delete goes through exactly when the caller is the stored task's author, and then removes
   * that task and nothing else; every other caller is refused and the store is unchanged.
   */
  lemma DeleteOnlyByAuthor(db: Db, id: Id, principal: string)
    requires db.Valid()
    ensures var s := Handle(db, Delete(id), principal);
      && (s.result.Ok? <==>
           id in db.tasks && db.tasks[id].author in db.users && db.users[db.tasks[id].author].email == principal)
      && (s.result.Ok? ==> s.db == TaskService.DeleteTaskStep(db, id).db)
      && (s.result.Err? ==> s.db == db)
  {
  }

  /** A known author who is not the caller gets AccessDenied. */
  lemma OtherUserCannotDelete(db: Db, id: Id, principal: string)
    requires db.Valid() && id in db.tasks && db.tasks[id].author in db.users
    requires db.users[db.tasks[id].author].email != principal
    ensures Handle(db, Delete(id), principal) == Step(Err(AccessDenied), db)
  {
  }

  /** An absent id fails while the guard is evaluated, before ownership is decided, for every caller. */
  lemma AbsentTaskFailsBeforeOwnership(db: Db, id: Id, principal: string)
    requires db.Valid() && id !in db.tasks
    ensures Handle(db, Delete(id), principal) == Step(Err(NoSuchElement), db)
  {
  }

  /**
   * Only delete is guarded: listing, reading and updating answer every caller alike, so any
   * authenticated user may rewrite any task.
   */
  lemma UnguardedEndpointsIgnoreCaller(db: Db, req: Request, p: string, q: string)
    requires db.Valid() && (req.GetAll? || req.GetById? || req.Update?)
    ensures Handle(db, req, p) == Handle(db, req, q)
  {
  }

  /** A task created through the endpoint has the caller as its author, whatever the body says. */
  lemma CreatedTaskHasCallerAsAuthor(db: Db, dto: TaskDto, principal: string)
    requires db.Valid()
    requires Handle(db, Create(dto), principal).result.Ok?
    ensures var t := Handle(db, Create(dto), principal).result.value.task;
      t.author in db.users && db.users[t.author].email == principal
  {
  }

  /** A body without a status id is refused before the service is reached. */
  lemma MissingStatusRefused(db: Db, dto: TaskDto, id: Id, principal: string)
    requires db.Valid() && dto.taskStatusId.None?
    ensures Handle(db, Create(dto), principal) == Step(Err(MethodArgumentNotValid), db)
    ensures Handle(db, Update(id, dto), principal) == Step(Err(MethodArgumentNotValid), db)
  {
  }

  /** The IT scenario: the author deleting the only task leaves no task. */
  lemma AuthorEmptiesSingleTaskStore(db: Db, id: Id, principal: string)
    requires db.Valid() && db.tasks.Keys == {id}
    requires db.tasks[id].author in db.users && db.users[db.tasks[id].author].email == principal
    ensures var s := Handle(db, Delete(id), principal);
      s.result == Ok(Deleted) && |s.db.tasks| == 0
  {
    var d := TaskService.DeleteTaskStep(db, id).db;
    assert d.tasks.Keys == {};
  }
}
