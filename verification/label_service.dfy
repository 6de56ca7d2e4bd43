/** The label service: create, rename and delete labels, with no check of their own. */
module LabelService {
  import opened Common
  import opened Model
  import opened Dtos
  import opened Persistence

  /** `findAll()`: every stored label. */
  function FindAll(db: Db): (r: set<Label>)
    requires db.Valid()
    ensures forall k :: k in db.labels ==> db.labels[k] in r
    ensures forall s :: s in r ==> s.id in db.labels && db.labels[s.id] == s
  {
    Image(db.labels, db.labels.Keys)
  }

  /** `findLabelById(id)`: the label under `id`, or NoSuchElement. */
  function FindLabelById(db: Db, id: Id): (r: Result<Label>)
    requires db.Valid()
    ensures r.Ok? <==> id in db.labels
    ensures r.Ok? ==> r.value.id == id && r.value == db.labels[id]
    ensures r.Err? ==> r.error == NoSuchElement
  {
    FindById(db.labels, id)
  }

  /** `createLabel(dto)`: a new label with the request's name, under the next generated id. */
  function CreateLabelStep(db: Db, dto: LabelDto): (s: Step<Label>)
    requires db.Valid()
    ensures s.db.Valid() && s.result.Ok?
    ensures s.result.value.name == dto.name && s.result.value.id !in db.labels
    ensures s.result.value.id == db.nextId
    ensures s.db == db.(labels := db.labels[s.result.value.id := s.result.value], nextId := db.nextId + 1)
  {
    var lab := Label(db.nextId, dto.name);
    Step(Ok(lab), db.(labels := db.labels[lab.id := lab], nextId := db.nextId + 1))
  }

  /** `updateLabel(id, dto)`: an existing label gets the request's name and keeps its id. */
  function UpdateLabelStep(db: Db, id: Id, dto: LabelDto): (s: Step<Label>)
    requires db.Valid()
    ensures s.db.Valid()
    ensures s.result.Ok? <==> id in db.labels
    ensures s.result.Err? ==> s.result.error == NoSuchElement && s.db == db
    ensures s.result.Ok? ==>
      && s.result.value == Label(id, dto.name)
      && s.db == db.(labels := db.labels[id := s.result.value])
  {
    match FindLabelById(db, id)
    case Err(e) => Step(Err(e), db)
    case Ok(lab) =>
      var renamed := lab.(name := dto.name);
      Step(Ok(renamed), db.(labels := db.labels[id := renamed]))
  }

  /**
   * `deleteLabel(id)`: removes the key, whether or not a task still refers to it; an id with no
   * row makes the repository throw, and nothing is written.
   */
  function DeleteLabelStep(db: Db, id: Id): (s: Step<()>)
    requires db.Valid()
    ensures s.db.Valid()
    ensures s.result.Ok? <==> id in db.labels
    ensures s.result.Err? ==> s.result.error == EmptyResultDataAccess && s.db == db
    ensures s.result.Ok? ==>
      && s.db.labels.Keys == db.labels.Keys - {id}
      && (forall k :: k in s.db.labels ==> s.db.labels[k] == db.labels[k])
      && s.db == db.(labels := s.db.labels)
  {
    if id !in db.labels then Step(Err(EmptyResultDataAccess), db)
    else Step(Ok(()), db.(labels := db.labels - {id}))
  }

  // ---------------------------------------------------------------------------------------
  // Properties
  // ---------------------------------------------------------------------------------------

  /** Creating a label adds exactly one: from an empty table the count goes from 0 to 1. */
  lemma CreateAddsOneLabel(db: Db, dto: LabelDto)
    requires db.Valid()
    ensures |CreateLabelStep(db, dto).db.labels| == |db.labels| + 1
    ensures db.labels == map[] ==> |CreateLabelStep(db, dto).db.labels| == 1
  {
  }

  /**
   * After a rename, the labels carrying the old name are those that did before, minus the
   * renamed one; the renamed one carries the new name.
   */
  lemma RenameMovesName(db: Db, id: Id, dto: LabelDto, oldName: string)
    requires db.Valid() && id in db.labels
    requires oldName == db.labels[id].name && oldName != dto.name
    ensures var d := UpdateLabelStep(db, id, dto).db;
      && KeysWith(d.labels, LabelName, oldName) == KeysWith(db.labels, LabelName, oldName) - {id}
      && id in KeysWith(d.labels, LabelName, dto.name)
  {
    var d := UpdateLabelStep(db, id, dto).db;
    assert d.labels == db.labels[id := Label(id, dto.name)];
    assert forall k :: k in KeysWith(d.labels, LabelName, oldName) <==> k in KeysWith(db.labels, LabelName, oldName) - {id};
  }

  /**
   * The IT scenario: when the renamed label was the only one with its old name, a search by the
   * old name finds nothing afterwards and a search by the new name finds something (the renamed
   * label among them).
   */
  lemma OldNameGone(db: Db, id: Id, dto: LabelDto)
    requires db.Valid() && id in db.labels && db.labels[id].name != dto.name
    requires KeysWith(db.labels, LabelName, db.labels[id].name) == {id}
    ensures var d := UpdateLabelStep(db, id, dto).db;
      && KeysWith(d.labels, LabelName, db.labels[id].name) == {}
      && KeysWith(d.labels, LabelName, dto.name) != {}
  {
    RenameMovesName(db, id, dto, db.labels[id].name);
  }

  /** After deletion the id is no longer found and exactly one label is gone. */
  lemma DeleteRemovesOneLabel(db: Db, id: Id)
    requires db.Valid() && id in db.labels
    ensures var d := DeleteLabelStep(db, id).db;
      && FindLabelById(d, id) == Err(NoSuchElement)
      && |d.labels| == |db.labels| - 1
  {
    var d := DeleteLabelStep(db, id).db;
    assert d.labels.Keys == db.labels.Keys - {id};
  }

  /** Deleting a label that a task still holds goes through and leaves the task's label ids as they were. */
  lemma DeleteIgnoresReferences(db: Db, id: Id, t: Id)
    requires db.Valid() && id in db.labels && t in db.tasks && id in db.tasks[t].labels
    ensures DeleteLabelStep(db, id).result == Ok(())
    ensures var d := DeleteLabelStep(db, id).db;
      id !in d.labels && t in d.tasks && id in d.tasks[t].labels
  {
  }

  /** `findAll` returns as many labels as the store holds. */
  lemma FindAllCount(db: Db)
    requires db.Valid()
    ensures |FindAll(db)| == |db.labels|
  {
    ImageCardinality(db.labels, db.labels.Keys);
  }

  // ---------------------------------------------------------------------------------------
  // The service methods, over the store
  // ---------------------------------------------------------------------------------------

  /** `createLabel(dto)`. */
  method CreateLabel(store: Store, dto: LabelDto) returns (lab: Label)
    requires store.Valid()
    modifies store
    ensures store.Valid()
    ensures Step(Ok(lab), store.State()) == CreateLabelStep(old(store.State()), dto)
  {
    lab := store.SaveNewLabel(dto.name);
  }

  /** `updateLabel(id, dto)`: load, set the name on the loaded label, save. */
  method UpdateLabel(store: Store, id: Id, dto: LabelDto) returns (r: Result<Label>)
    requires store.Valid()
    modifies store
    ensures store.Valid()
    ensures Step(r, store.State()) == UpdateLabelStep(old(store.State()), id, dto)
  {
    var found := FindLabelById(store.State(), id);
    if found.Err? {
      return Err(found.error);
    }
    var lab := found.value.(name := dto.name);
    store.SaveLabel(lab);
    r := Ok(lab);
  }

  /** `deleteLabel(id)`. */
  method DeleteLabel(store: Store, id: Id) returns (r: Result<()>)
    requires store.Valid()
    modifies store
    ensures store.Valid()
    ensures Step(r, store.State()) == DeleteLabelStep(old(store.State()), id)
  {
    r := store.DeleteLabelById(id);
  }
}
