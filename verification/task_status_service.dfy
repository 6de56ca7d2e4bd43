/** The task status service: create, rename and delete statuses, with no check of their own. */
module TaskStatusService {
  import opened Common
  import opened Model
  import opened Dtos
  import opened Persistence

  /** `findAll()`: every stored status. */
  function FindAll(db: Db): (r: set<TaskStatus>)
    requires db.Valid()
    ensures forall k :: k in db.statuses ==> db.statuses[k] in r
    ensures forall s :: s in r ==> s.id in db.statuses && db.statuses[s.id] == s
  {
    Image(db.statuses, db.statuses.Keys)
  }

  /** `findStatusById(id)`: the status under `id`, or NoSuchElement. */
  function FindStatusById(db: Db, id: Id): (r: Result<TaskStatus>)
    requires db.Valid()
    ensures r.Ok? <==> id in db.statuses
    ensures r.Ok? ==> r.value.id == id && r.value == db.statuses[id]
    ensures r.Err? ==> r.error == NoSuchElement
  {
    FindById(db.statuses, id)
  }

  /** `createStatus(dto)`: a new status with the request's name, under the next generated id. */
  function CreateStatusStep(db: Db, dto: TaskStatusDto): (s: Step<TaskStatus>)
    requires db.Valid()
    ensures s.db.Valid() && s.result.Ok?
    ensures s.result.value.name == dto.name && s.result.value.id !in db.statuses
    ensures s.result.value.id == db.nextId
    ensures s.db == db.(statuses := db.statuses[s.result.value.id := s.result.value], nextId := db.nextId + 1)
  {
    var status := TaskStatus(db.nextId, dto.name);
    Step(Ok(status), db.(statuses := db.statuses[status.id := status], nextId := db.nextId + 1))
  }

  /** `updateStatus(id, dto)`: an existing status gets the request's name and keeps its id. */
  function UpdateStatusStep(db: Db, id: Id, dto: TaskStatusDto): (s: Step<TaskStatus>)
    requires db.Valid()
    ensures s.db.Valid()
    ensures s.result.Ok? <==> id in db.statuses
    ensures s.result.Err? ==> s.result.error == NoSuchElement && s.db == db
    ensures s.result.Ok? ==>
      && s.result.value == TaskStatus(id, dto.name)
      && s.db == db.(statuses := db.statuses[id := s.result.value])
  {
    match FindStatusById(db, id)
    case Err(e) => Step(Err(e), db)
    case Ok(status) =>
      var renamed := status.(name := dto.name);
      Step(Ok(renamed), db.(statuses := db.statuses[id := renamed]))
  }

  /**
   * `deleteStatus(id)`: removes the key, whether or not a task still refers to it; an id with no
   * row makes the repository throw, and nothing is written.
   */
  function DeleteStatusStep(db: Db, id: Id): (s: Step<()>)
    requires db.Valid()
    ensures s.db.Valid()
    ensures s.result.Ok? <==> id in db.statuses
    ensures s.result.Err? ==> s.result.error == EmptyResultDataAccess && s.db == db
    ensures s.result.Ok? ==>
      && s.db.statuses.Keys == db.statuses.Keys - {id}
      && (forall k :: k in s.db.statuses ==> s.db.statuses[k] == db.statuses[k])
      && s.db == db.(statuses := s.db.statuses)
  {
    if id !in db.statuses then Step(Err(EmptyResultDataAccess), db)
    else Step(Ok(()), db.(statuses := db.statuses - {id}))
  }

  // ---------------------------------------------------------------------------------------
  // Properties
  // ---------------------------------------------------------------------------------------

  /** Creating a status adds exactly one: from an empty table the count goes from 0 to 1. */
  lemma CreateAddsOneStatus(db: Db, dto: TaskStatusDto)
    requires db.Valid()
    ensures |CreateStatusStep(db, dto).db.statuses| == |db.statuses| + 1
    ensures db.statuses == map[] ==> |CreateStatusStep(db, dto).db.statuses| == 1
  {
  }

  /**
   * After a rename, the statuses carrying the old name are those that did before, minus the
   * renamed one; the renamed one carries the new name.
   */
  lemma RenameMovesName(db: Db, id: Id, dto: TaskStatusDto, oldName: string)
    requires db.Valid() && id in db.statuses
    requires oldName == db.statuses[id].name && oldName != dto.name
    ensures var d := UpdateStatusStep(db, id, dto).db;
      && KeysWith(d.statuses, StatusName, oldName) == KeysWith(db.statuses, StatusName, oldName) - {id}
      && id in KeysWith(d.statuses, StatusName, dto.name)
  {
    var d := UpdateStatusStep(db, id, dto).db;
    assert d.statuses == db.statuses[id := TaskStatus(id, dto.name)];
    assert forall k :: k in KeysWith(d.statuses, StatusName, oldName) <==> k in KeysWith(db.statuses, StatusName, oldName) - {id};
  }

  /**
   * The IT scenario: when the renamed status was the only one with its old name, a search by the
   * old name finds nothing afterwards and a search by the new name finds something (the renamed
   * status among them).
   */
  lemma OldNameGone(db: Db, id: Id, dto: TaskStatusDto)
    requires db.Valid() && id in db.statuses && db.statuses[id].name != dto.name
    requires KeysWith(db.statuses, StatusName, db.statuses[id].name) == {id}
    ensures var d := UpdateStatusStep(db, id, dto).db;
      && KeysWith(d.statuses, StatusName, db.statuses[id].name) == {}
      && KeysWith(d.statuses, StatusName, dto.name) != {}
  {
    RenameMovesName(db, id, dto, db.statuses[id].name);
  }

  /** After deletion the id is no longer found and exactly one status is gone. */
  lemma DeleteRemovesOneStatus(db: Db, id: Id)
    requires db.Valid() && id in db.statuses
    ensures var d := DeleteStatusStep(db, id).db;
      && FindStatusById(d, id) == Err(NoSuchElement)
      && |d.statuses| == |db.statuses| - 1
  {
    var d := DeleteStatusStep(db, id).db;
    assert d.statuses.Keys == db.statuses.Keys - {id};
  }

  /** Deleting a status that a task still refers to goes through and leaves the task as it was. */
  lemma DeleteIgnoresReferences(db: Db, id: Id, t: Id)
    requires db.Valid() && id in db.statuses && t in db.tasks && db.tasks[t].taskStatus == id
    ensures DeleteStatusStep(db, id).result == Ok(())
    ensures var d := DeleteStatusStep(db, id).db;
      id !in d.statuses && t in d.tasks && d.tasks[t].taskStatus == id
  {
  }

  /** `findAll` returns as many statuses as the store holds. */
  lemma FindAllCount(db: Db)
    requires db.Valid()
    ensures |FindAll(db)| == |db.statuses|
  {
    ImageCardinality(db.statuses, db.statuses.Keys);
  }

  // ---------------------------------------------------------------------------------------
  // The service methods, over the store
  // ---------------------------------------------------------------------------------------

  /** `createStatus(dto)`. */
  method CreateStatus(store: Store, dto: TaskStatusDto) returns (status: TaskStatus)
    requires store.Valid()
    modifies store
    ensures store.Valid()
    ensures Step(Ok(status), store.State()) == CreateStatusStep(old(store.State()), dto)
  {
    status := store.SaveNewStatus(dto.name);
  }

  /** `updateStatus(id, dto)`: load, set the name on the loaded status, save. */
  method UpdateStatus(store: Store, id: Id, dto: TaskStatusDto) returns (r: Result<TaskStatus>)
    requires store.Valid()
    modifies store
    ensures store.Valid()
    ensures Step(r, store.State()) == UpdateStatusStep(old(store.State()), id, dto)
  {
    var found := FindStatusById(store.State(), id);
    if found.Err? {
      return Err(found.error);
    }
    var status := found.value.(name := dto.name);
    store.SaveStatus(status);
    r := Ok(status);
  }

  /** `deleteStatus(id)`. */
  method DeleteStatus(store: Store, id: Id) returns (r: Result<()>)
    requires store.Valid()
    modifies store
    ensures store.Valid()
    ensures Step(r, store.State()) == DeleteStatusStep(old(store.State()), id)
  {
    r := store.DeleteStatusById(id);
  }
}
