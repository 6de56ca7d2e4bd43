/**
 * The persisted entities. Rows of the four tables (and of the role table) are values;
 * `User` and `Task` are also classes, because the services build and update them through
 * their setters before handing them to the store. A task's author, executor, status and labels
 * are held as the ids of the referenced rows; a user's roles are held as the role values themselves.
 */
module Model {
  import opened Common

  /** A role (`Role`); the join table keeps a user's roles as an ordered list. */
  datatype Role = Role(id: Id, name: string)

  /** A task status (`TaskStatus`); its creation timestamp is not modelled. */
  datatype TaskStatus = TaskStatus(id: Id, name: string)

  /** A label; same shape as a task status. */
  datatype Label = Label(id: Id, name: string)

  /** The columns the derived queries search on: a user's e-mail and the names of the other entities. */
  function EmailOf(u: UserRow): string { u.email }
  function RoleName(r: Role): string { r.name }
  function StatusName(s: TaskStatus): string { s.name }
  function LabelName(l: Label): string { l.name }

  /** A row of the users table. */
  datatype UserRow = UserRow(
    id: Id,
    email: string,
    firstName: string,
    lastName: string,
    password: string,
    active: bool,
    roles: seq<Role>)
  {
    /** The Bean Validation constraints `User` declares on its fields (the e-mail format aside). */
    predicate SatisfiesConstraints()
      ensures SatisfiesConstraints() <==>
        NotBlank(email) && NotBlank(firstName) && NotBlank(lastName) && NotBlank(password) && 3 <= |password| <= 100
      ensures SatisfiesConstraints() ==> |email| >= 1 && |firstName| >= 1 && |lastName| >= 1
    {
      && NotBlank(email)
      && NotBlank(firstName) && |firstName| >= 1
      && NotBlank(lastName) && |lastName| >= 1
      && NotBlank(password) && 3 <= |password| <= 100
    }
  }

  /**
   * A row of the tasks table. Author and status are required associations, so they are plain
   * ids; the executor is optional; the labels are a set, so one task holds a label at most once.
   */
  datatype TaskRow = TaskRow(
    id: Id,
    author: Id,
    executor: Option<Id>,
    taskStatus: Id,
    labels: set<Id>,
    name: string,
    description: string)
  {
    /** The constraints `Task` declares on its own fields; the description has none. */
    predicate SatisfiesConstraints()
      ensures SatisfiesConstraints() <==> NotBlank(name)
      ensures SatisfiesConstraints() ==> |name| >= 1
    {
      NotBlank(name) && |name| >= 1
    }
  }

  /** The `User` entity object. A null string field is modelled as the empty string. */
  class User {
    var id: Option<Id>
    var email: string
    var firstName: string
    var lastName: string
    var password: string
    var active: bool
    var roles: Option<seq<Role>>

    /** `new User()`: every field null except `active`, whose initializer makes it true. */
    constructor ()
      ensures id == None && email == "" && firstName == "" && lastName == "" && password == ""
      ensures active && roles == None
    {
      id := None;
      email, firstName, lastName, password := "", "", "", "";
      active := true;
      roles := None;
    }

    /** `new User(id)`: only the id is set (and `active`, by its initializer). */
    constructor WithId(id: Id)
      ensures this.id == Some(id) && email == "" && firstName == "" && lastName == "" && password == ""
      ensures active && roles == None
    {
      this.id := Some(id);
      email, firstName, lastName, password := "", "", "", "";
      active := true;
      roles := None;
    }

    /** The managed object the store hands back for a stored row. */
    constructor Loaded(row: UserRow)
      ensures id == Some(row.id) && RowAt(row.id) == row
    {
      id := Some(row.id);
      email, firstName, lastName, password := row.email, row.firstName, row.lastName, row.password;
      active := row.active;
      roles := Some(row.roles);
    }

    /** The row this object is written as under key `k`; a null role list is stored as no roles. */
    function RowAt(k: Id): (r: UserRow)
      reads this
      ensures r.id == k && r.email == email && r.password == password
      ensures roles.Some? ==> r.roles == roles.value
      ensures roles.None? ==> r.roles == []
    {
      UserRow(k, email, firstName, lastName, password, active, roles.GetOr([]))
    }
  }

  /** The `Task` entity object. */
  class Task {
    var id: Option<Id>
    var author: Option<Id>
    var executor: Option<Id>
    var taskStatus: Option<Id>
    var labels: Option<set<Id>>
    var name: string
    var description: string

    /** `new Task()`: every field null. */
    constructor ()
      ensures id == None && author == None && executor == None && taskStatus == None && labels == None
      ensures name == "" && description == ""
    {
      id, author, executor, taskStatus, labels := None, None, None, None, None;
      name, description := "", "";
    }

    /** `new Task(name, description)`: sets those two fields and nothing else. */
    constructor Named(name: string, description: string)
      ensures id == None && author == None && executor == None && taskStatus == None && labels == None
      ensures this.name == name && this.description == description
    {
      id, author, executor, taskStatus, labels := None, None, None, None, None;
      this.name, this.description := name, description;
    }

    /** The managed object the store hands back for a stored row. */
    constructor Loaded(row: TaskRow)
      ensures Complete() && id == Some(row.id) && RowAt(row.id) == row
    {
      id := Some(row.id);
      author, executor, taskStatus, labels := Some(row.author), row.executor, Some(row.taskStatus), Some(row.labels);
      name, description := row.name, row.description;
    }

    /** Both required associations are set, as @NotNull demands before the row is written. */
    predicate Complete()
      reads this
    {
      author.Some? && taskStatus.Some?
    }

    /** The row this object is written as under key `k`; a null label set is stored as no labels. */
    function RowAt(k: Id): (r: TaskRow)
      requires Complete()
      reads this
      ensures r.id == k && r.author == author.value && r.taskStatus == taskStatus.value
      ensures r.executor == executor && r.labels == labels.GetOr({})
    {
      TaskRow(k, author.value, executor, taskStatus.value, labels.GetOr({}), name, description)
    }
  }
}
