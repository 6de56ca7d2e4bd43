/**
 * The relational store behind the repositories: four id-keyed tables that the services write
 * (users, task statuses, labels, tasks), the role table they only read, and the one id
 * sequence that users, tasks, statuses and labels draw their generated ids from (roles use
 * identity columns of their own).
 */
module Persistence {
  import opened Common
  import opened Model

  /** The store's contents as a value. */
  datatype Db = Db(
    users: map<Id, UserRow>,
    roles: map<Id, Role>,
    statuses: map<Id, TaskStatus>,
    labels: map<Id, Label>,
    tasks: map<Id, TaskRow>,
    nextId: Id)
  {
    /**
     * Every row sits under its own id, every generated id was drawn before `nextId`, and
     * no two users share an e-mail (the unique column of `User`).
     */
    predicate Valid() {
      && (forall k :: k in users ==> users[k].id == k && k < nextId)
      && (forall k :: k in statuses ==> statuses[k].id == k && k < nextId)
      && (forall k :: k in labels ==> labels[k].id == k && k < nextId)
      && (forall k :: k in tasks ==> tasks[k].id == k && k < nextId)
      && (forall k :: k in roles ==> roles[k].id == k)
      && UniqueEmails(users)
    }
  }

  predicate UniqueEmails(users: map<Id, UserRow>) {
    forall a, b :: a in users && b in users && users[a].email == users[b].email ==> a == b
  }

  /** Some user other than the one under key `self` already has `email`. */
  predicate EmailTaken(users: map<Id, UserRow>, email: string, self: Id) {
    exists k :: k in users && k != self && users[k].email == email
  }

  /** What a state-changing call returns, together with the store it leaves. */
  datatype Step<T> = Step(result: Result<T>, db: Db)

  /** `repository.findById(id).get()`: the row under `id`, or NoSuchElement. */
  function FindById<V>(table: map<Id, V>, id: Id): (r: Result<V>)
    ensures r.Ok? <==> id in table
    ensures r.Ok? ==> r.value == table[id]
    ensures r.Err? ==> r.error == NoSuchElement
  {
    if id in table then Ok(table[id]) else Err(NoSuchElement)
  }

  /**
   * A derived query returning `Optional`: the row under the one key in `ks`, an empty
   * result when `ks` is empty, IncorrectResultSize when the query matched several rows.
   */
  function SingleResult<V>(m: map<Id, V>, ks: set<Id>): (r: Result<Option<V>>)
    requires ks <= m.Keys
    ensures r == Ok(None) <==> ks == {}
    ensures r.Err? <==> |ks| > 1
    ensures r.Err? ==> r.error == IncorrectResultSize
    ensures forall k :: k in ks && |ks| == 1 ==> r == Ok(Some(m[k]))
  {
    if |ks| == 0 then
      assert ks == {};
      Ok(None)
    else if |ks| == 1 then Ok(Some(m[TheOnly(ks)]))
    else Err(IncorrectResultSize)
  }

  /** Keys of the rows whose column `column` holds `x`: what a derived `findBy<Column>(x)` searches. */
  function KeysWith<V>(m: map<Id, V>, column: V -> string, x: string): (r: set<Id>)
    ensures forall k :: k in r <==> k in m && column(m[k]) == x
  {
    set k | k in m && column(m[k]) == x
  }

  /** `userRepository.findByEmail(email)`. */
  function FindByEmailQuery(users: map<Id, UserRow>, email: string): (r: Result<Option<UserRow>>)
    ensures r == Ok(None) <==> forall k :: k in users ==> users[k].email != email
    ensures r.Err? <==> |KeysWith(users, EmailOf, email)| > 1
    ensures r.Err? ==> r.error == IncorrectResultSize
    ensures r.Ok? && r.value.Some? ==>
      var u := r.value.value;
      u.email == email && exists k :: k in users && users[k] == u
  {
    var ks := KeysWith(users, EmailOf, email);
    var r := SingleResult(users, ks);
    if r.Ok? && r.value.Some? then
      assert |ks| == 1;
      var k := TheOnly(ks);
      assert k in ks;
      r
    else
      Inhabited(ks);
      r
  }

  /** `roleRepository.findByName(name)`. */
  function FindRoleByNameQuery(roles: map<Id, Role>, name: string): (r: Result<Option<Role>>)
    ensures r == Ok(None) <==> forall k :: k in roles ==> roles[k].name != name
    ensures r.Err? <==> |KeysWith(roles, RoleName, name)| > 1
    ensures r.Err? ==> r.error == IncorrectResultSize
    ensures r.Ok? && r.value.Some? ==>
      var role := r.value.value;
      role.name == name && exists k :: k in roles && roles[k] == role
  {
    var ks := KeysWith(roles, RoleName, name);
    var r := SingleResult(roles, ks);
    if r.Ok? && r.value.Some? then
      assert |ks| == 1;
      var k := TheOnly(ks);
      assert k in ks;
      r
    else
      Inhabited(ks);
      r
  }

  /** Under unique e-mails at most one user matches an e-mail. */
  lemma UniqueEmailMatchesAtMostOne(users: map<Id, UserRow>, email: string)
    requires UniqueEmails(users)
    ensures |KeysWith(users, EmailOf, email)| <= 1
  {
    AtMostOneIsSmall(KeysWith(users, EmailOf, email));
  }

  /** The repositories, over one store whose tables the services replace as they write. */
  class Store {
    var users: map<Id, UserRow>
    var roles: map<Id, Role>
    var statuses: map<Id, TaskStatus>
    var labels: map<Id, Label>
    var tasks: map<Id, TaskRow>
    var nextId: Id

    function State(): Db
      reads this
    {
      Db(users, roles, statuses, labels, tasks, nextId)
    }

    ghost predicate Valid()
      reads this
    {
      State().Valid()
    }

    /** An empty store seeded with the role table. */
    constructor (roles: map<Id, Role>)
      requires forall k :: k in roles ==> roles[k].id == k
      ensures Valid() && State() == Db(map[], roles, map[], map[], map[], 1)
    {
      users, statuses, labels, tasks := map[], map[], map[], map[];
      this.roles := roles;
      nextId := 1;
    }

    /**
     * `taskRepository.save(task)`: a new object gets the next generated id, one the store
     * handed back is written over its own row. The object learns its id; no other field of it
     * changes.
     */
    method SaveTask(task: Task) returns (row: TaskRow)
      requires Valid() && task.Complete()
      requires task.id.Some? ==> task.id.value in tasks
      modifies this, task`id
      ensures Valid()
      ensures old(task.id).None? ==> row.id == old(nextId) && nextId == old(nextId) + 1
      ensures old(task.id).Some? ==> row.id == old(task.id).value && nextId == old(nextId)
      ensures row == old(task.RowAt(row.id)) && task.id == Some(row.id)
      ensures tasks == old(tasks)[row.id := row]
      ensures users == old(users) && roles == old(roles) && statuses == old(statuses) && labels == old(labels)
    {
      var k: Id;
      if task.id.Some? {
        k := task.id.value;
      } else {
        k := nextId;
        nextId := nextId + 1;
      }
      row := task.RowAt(k);
      tasks := tasks[k := row];
      task.id := Some(k);
    }

    /**
     * `userRepository.save(user)`: as for tasks, except that a write giving the user an
     * e-mail another user has is refused by the unique constraint and changes nothing.
     */
    method SaveUser(user: User) returns (r: Result<UserRow>)
      requires Valid()
      requires user.id.Some? ==> user.id.value in users
      modifies this, user`id
      ensures Valid()
      ensures var k := if old(user.id).Some? then old(user.id).value else old(nextId);
        if EmailTaken(old(users), old(user.email), k) then
          r == Err(DataIntegrityViolation) && State() == old(State()) && user.id == old(user.id)
        else
          && r == Ok(old(user.RowAt(k)))
          && users == old(users)[k := r.value]
          && nextId == (if old(user.id).Some? then old(nextId) else old(nextId) + 1)
          && roles == old(roles) && statuses == old(statuses) && labels == old(labels) && tasks == old(tasks)
          && user.id == Some(k)
    {
      var k := if user.id.Some? then user.id.value else nextId;
      if EmailTaken(users, user.email, k) {
        return Err(DataIntegrityViolation);
      }
      var row := user.RowAt(k);
      users := users[k := row];
      if user.id.None? {
        nextId := nextId + 1;
      }
      user.id := Some(k);
      r := Ok(row);
    }

    /** `taskStatusRepository.save(new TaskStatus(name))`: a new row under the next id. */
    method SaveNewStatus(name: string) returns (status: TaskStatus)
      requires Valid()
      modifies this
      ensures Valid()
      ensures status == TaskStatus(old(nextId), name) && nextId == old(nextId) + 1
      ensures statuses == old(statuses)[status.id := status]
      ensures users == old(users) && roles == old(roles) && labels == old(labels) && tasks == old(tasks)
    {
      status := TaskStatus(nextId, name);
      statuses := statuses[nextId := status];
      nextId := nextId + 1;
    }

    /** `taskStatusRepository.save(status)` for a status the store handed back. */
    method SaveStatus(status: TaskStatus)
      requires Valid() && status.id in statuses
      modifies this
      ensures Valid()
      ensures statuses == old(statuses)[status.id := status] && nextId == old(nextId)
      ensures users == old(users) && roles == old(roles) && labels == old(labels) && tasks == old(tasks)
    {
      statuses := statuses[status.id := status];
    }

    /** `labelRepository.save(label)` for a label built with a null id: a new row under the next id. */
    method SaveNewLabel(name: string) returns (lab: Label)
      requires Valid()
      modifies this
      ensures Valid()
      ensures lab == Label(old(nextId), name) && nextId == old(nextId) + 1
      ensures labels == old(labels)[lab.id := lab]
      ensures users == old(users) && roles == old(roles) && statuses == old(statuses) && tasks == old(tasks)
    {
      lab := Label(nextId, name);
      labels := labels[nextId := lab];
      nextId := nextId + 1;
    }

    /** `labelRepository.save(label)` for a label the store handed back. */
    method SaveLabel(lab: Label)
      requires Valid() && lab.id in labels
      modifies this
      ensures Valid()
      ensures labels == old(labels)[lab.id := lab] && nextId == old(nextId)
      ensures users == old(users) && roles == old(roles) && statuses == old(statuses) && tasks == old(tasks)
    {
      labels := labels[lab.id := lab];
    }

    /** `userRepository.deleteById(id)`: removes the row, or throws when there is none. */
    method DeleteUserById(id: Id) returns (r: Result<()>)
      requires Valid()
      modifies this
      ensures Valid()
      ensures id in old(users) ==> r == Ok(()) && State() == old(State()).(users := old(users) - {id})
      ensures id !in old(users) ==> r == Err(EmptyResultDataAccess) && State() == old(State())
    {
      if id !in users {
        return Err(EmptyResultDataAccess);
      }
      users := users - {id};
      r := Ok(());
    }

    /** `taskStatusRepository.deleteById(id)`: removes the row, or throws when there is none. */
    method DeleteStatusById(id: Id) returns (r: Result<()>)
      requires Valid()
      modifies this
      ensures Valid()
      ensures id in old(statuses) ==> r == Ok(()) && State() == old(State()).(statuses := old(statuses) - {id})
      ensures id !in old(statuses) ==> r == Err(EmptyResultDataAccess) && State() == old(State())
    {
      if id !in statuses {
        return Err(EmptyResultDataAccess);
      }
      statuses := statuses - {id};
      r := Ok(());
    }

    /** `labelRepository.deleteById(id)`: removes the row, or throws when there is none. */
    method DeleteLabelById(id: Id) returns (r: Result<()>)
      requires Valid()
      modifies this
      ensures Valid()
      ensures id in old(labels) ==> r == Ok(()) && State() == old(State()).(labels := old(labels) - {id})
      ensures id !in old(labels) ==> r == Err(EmptyResultDataAccess) && State() == old(State())
    {
      if id !in labels {
        return Err(EmptyResultDataAccess);
      }
      labels := labels - {id};
      r := Ok(());
    }

    /** `taskRepository.deleteById(id)`: removes the row, or throws when there is none. */
    method DeleteTaskById(id: Id) returns (r: Result<()>)
      requires Valid()
      modifies this
      ensures Valid()
      ensures id in old(tasks) ==> r == Ok(()) && State() == old(State()).(tasks := old(tasks) - {id})
      ensures id !in old(tasks) ==> r == Err(EmptyResultDataAccess) && State() == old(State())
    {
      if id !in tasks {
        return Err(EmptyResultDataAccess);
      }
      tasks := tasks - {id};
      r := Ok(());
    }
  }
}
