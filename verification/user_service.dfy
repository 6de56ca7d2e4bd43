/**
 * The user service: registration, lookups, self-update and deletion of users. The password
 * encoder is a library; it is passed in as `encode` and nothing is assumed about it.
 */
module UserService {
  import opened Common
  import opened Model
  import opened Dtos
  import opened Persistence

  /** The name of the role every registered user receives. */
  const ROLE_USER := "ROLE_USER"

  /** `findAll()`: every stored user. */
  function FindAll(db: Db): (r: set<UserRow>)
    requires db.Valid()
    ensures forall k :: k in db.users ==> db.users[k] in r
    ensures forall u :: u in r ==> u.id in db.users && db.users[u.id] == u
  {
    Image(db.users, db.users.Keys)
  }

  /** `findUserById(id)`: the user under `id`, or NoSuchElement. */
  function FindUserById(db: Db, id: Id): (r: Result<UserRow>)
    requires db.Valid()
    ensures r.Ok? <==> id in db.users
    ensures r.Ok? ==> r.value.id == id && r.value == db.users[id]
    ensures r.Err? ==> r.error == NoSuchElement
  {
    FindById(db.users, id)
  }

  /** `findUserByEmail(email)`: the one user with that e-mail, or NoSuchElement. */
  function FindUserByEmail(db: Db, email: string): (r: Result<UserRow>)
    requires db.Valid()
    ensures r.Ok? <==> exists k :: k in db.users && db.users[k].email == email
    ensures r.Ok? ==> r.value.email == email && r.value.id in db.users && db.users[r.value.id] == r.value
    ensures r.Err? ==> r.error == NoSuchElement
  {
    UniqueEmailMatchesAtMostOne(db.users, email);
    match FindByEmailQuery(db.users, email)
    case Ok(Some(u)) => Ok(u)
    case Ok(None) => Err(NoSuchElement)
    case Err(e) => Err(e)
  }

  /** `loadUserByUsername(email)`: as `FindUserByEmail`, but the failure names the e-mail. */
  function LoadUserByUsername(db: Db, email: string): (r: Result<UserRow>)
    requires db.Valid()
    ensures r.Ok? <==> exists k :: k in db.users && db.users[k].email == email
    ensures r.Ok? ==> r == FindUserByEmail(db, email)
    ensures r.Err? ==> r.error == UsernameNotFound("Not found: " + email)
  {
    UniqueEmailMatchesAtMostOne(db.users, email);
    match FindByEmailQuery(db.users, email)
    case Ok(Some(u)) => Ok(u)
    case Ok(None) => Err(UsernameNotFound("Not found: " + email))
    case Err(e) => Err(e)
  }

  /** `getUserRole()`: the role named ROLE_USER, which must exist once in the role table. */
  function GetUserRole(db: Db): (r: Result<Role>)
    requires db.Valid()
    ensures r.Ok? ==> r.value.name == ROLE_USER && r.value.id in db.roles && db.roles[r.value.id] == r.value
    ensures r == Err(NoSuchElement) <==> forall k :: k in db.roles ==> db.roles[k].name != ROLE_USER
    ensures |KeysWith(db.roles, RoleName, ROLE_USER)| == 1 ==> r.Ok?
    ensures |KeysWith(db.roles, RoleName, ROLE_USER)| > 1 ==> r == Err(IncorrectResultSize)
  {
    match FindRoleByNameQuery(db.roles, ROLE_USER)
    case Ok(Some(role)) => Ok(role)
    case Ok(None) =>
      Inhabited(KeysWith(db.roles, RoleName, ROLE_USER));
      Err(NoSuchElement)
    case Err(e) =>
      Inhabited(KeysWith(db.roles, RoleName, ROLE_USER));
      Err(e)
  }

  /** The role list `initRoles` leaves: the old list, or an empty one when it was null, plus `role`. */
  function WithUserRole(roles: Option<seq<Role>>, role: Role): (r: seq<Role>)
    ensures |r| == |roles.GetOr([])| + 1
    ensures r[..|r| - 1] == roles.GetOr([]) && r[|r| - 1] == role
  {
    roles.GetOr([]) + [role]
  }

  /**
   * `createUser(dto)`: a new user under the next id with the request's names and e-mail,
   * the encoded password, `active` set and the single role ROLE_USER. It fails when that role
   * is missing, or when the e-mail is taken; a failure writes nothing.
   */
  function CreateUserStep(db: Db, dto: UserDto, encode: string -> string): (s: Step<UserRow>)
    requires db.Valid()
    ensures s.db.Valid()
    ensures s.result.Ok? <==> GetUserRole(db).Ok? && !EmailTaken(db.users, dto.email, db.nextId)
    ensures s.result.Err? ==> s.db == db
    ensures s.result.Ok? ==>
      var u := s.result.value;
      && u.id == db.nextId && u.id !in db.users
      && u.email == dto.email && u.firstName == dto.firstName && u.lastName == dto.lastName
      && u.password == encode(dto.password) && u.active && u.roles == [GetUserRole(db).value]
      && s.db == db.(users := db.users[u.id := u], nextId := db.nextId + 1)
  {
    match GetUserRole(db)
    case Err(e) => Step(Err(e), db)
    case Ok(role) =>
      var row := UserRow(db.nextId, dto.email, dto.firstName, dto.lastName, encode(dto.password), true, WithUserRole(None, role));
      if EmailTaken(db.users, dto.email, db.nextId) then Step(Err(DataIntegrityViolation), db)
      else Step(Ok(row), db.(users := db.users[db.nextId := row], nextId := db.nextId + 1))
  }

  /**
   * `updateUser(id, dto)`: overwrites e-mail, names and (re-encoded) password of the user
   * under `id`; id, `active` and roles stay. Fails on an absent id or a taken e-mail.
   */
  function UpdateUserStep(db: Db, id: Id, dto: UserDto, encode: string -> string): (s: Step<UserRow>)
    requires db.Valid()
    ensures s.db.Valid()
    ensures s.result.Ok? <==> id in db.users && !EmailTaken(db.users, dto.email, id)
    ensures id !in db.users ==> s.result == Err(NoSuchElement)
    ensures s.result.Err? ==> s.db == db
    ensures s.result.Ok? ==>
      var u := s.result.value;
      && u.id == id && u.active == db.users[id].active && u.roles == db.users[id].roles
      && u.email == dto.email && u.firstName == dto.firstName && u.lastName == dto.lastName
      && u.password == encode(dto.password)
      && s.db == db.(users := db.users[id := u])
  {
    if id !in db.users then Step(Err(NoSuchElement), db)
    else
      var row := db.users[id].(email := dto.email, firstName := dto.firstName, lastName := dto.lastName,
                               password := encode(dto.password));
      if EmailTaken(db.users, dto.email, id) then Step(Err(DataIntegrityViolation), db)
      else Step(Ok(row), db.(users := db.users[id := row]))
  }

  /**
   * `deleteUser(id)`: removes the key, whether or not tasks still name the user; an id with no
   * row makes the repository throw, and nothing is written.
   */
  function DeleteUserStep(db: Db, id: Id): (s: Step<()>)
    requires db.Valid()
    ensures s.db.Valid()
    ensures s.result.Ok? <==> id in db.users
    ensures s.result.Err? ==> s.result.error == EmptyResultDataAccess && s.db == db
    ensures s.result.Ok? ==>
      && s.db.users.Keys == db.users.Keys - {id}
      && (forall k :: k in s.db.users ==> s.db.users[k] == db.users[k])
      && s.db == db.(users := s.db.users)
  {
    if id !in db.users then Step(Err(EmptyResultDataAccess), db)
    else Step(Ok(()), db.(users := db.users - {id}))
  }

  // ---------------------------------------------------------------------------------------
  // Properties
  // ---------------------------------------------------------------------------------------

  /** `findAll()` returns as many users as the store holds: no row is lost or merged with another. */
  lemma FindAllCount(db: Db)
    requires db.Valid()
    ensures |FindAll(db)| == |db.users|
  {
    ImageCardinality(db.users, db.users.Keys);
  }

  /** A second registration with the same e-mail fails and writes nothing. */
  lemma DuplicateRegistrationFails(db: Db, first: UserDto, second: UserDto, encode: string -> string)
    requires db.Valid() && first.email == second.email
    requires CreateUserStep(db, first, encode).result.Ok?
    ensures var after := CreateUserStep(db, first, encode).db;
      CreateUserStep(after, second, encode) == Step(Err(DataIntegrityViolation), after)
  {
    var after := CreateUserStep(db, first, encode).db;
    var u := CreateUserStep(db, first, encode).result.value;
    assert after.users[u.id].email == second.email;
    assert u.id != after.nextId;
    assert GetUserRole(after) == GetUserRole(db);
  }

  /** A successful registration adds exactly one user. */
  lemma RegistrationAddsOneUser(db: Db, dto: UserDto, encode: string -> string)
    requires db.Valid()
    requires CreateUserStep(db, dto, encode).result.Ok?
    ensures |CreateUserStep(db, dto, encode).db.users| == |db.users| + 1
  {
  }

  /**
   * The entity's constraints hold for a registered user when the request's fields meet them;
   * the password constraint applies to what `encode` returns, not to the raw password.
   */
  lemma RegisteredUserMeetsConstraints(db: Db, dto: UserDto, encode: string -> string)
    requires db.Valid()
    requires CreateUserStep(db, dto, encode).result.Ok?
    requires NotBlank(dto.email) && NotBlank(dto.firstName) && NotBlank(dto.lastName)
    requires NotBlank(encode(dto.password)) && 3 <= |encode(dto.password)| <= 100
    ensures CreateUserStep(db, dto, encode).result.value.SatisfiesConstraints()
  {
  }

  /**
   * After a user changes e-mail, the new e-mail finds that user and the old one finds nobody
   * (the unique column ensured nobody else had it).
   */
  lemma UpdatedEmailIsFindable(db: Db, id: Id, dto: UserDto, encode: string -> string)
    requires db.Valid() && id in db.users && dto.email != db.users[id].email
    requires UpdateUserStep(db, id, dto, encode).result.Ok?
    ensures var s := UpdateUserStep(db, id, dto, encode);
      && FindUserByEmail(s.db, dto.email) == s.result
      && FindUserByEmail(s.db, db.users[id].email) == Err(NoSuchElement)
  {
    var s := UpdateUserStep(db, id, dto, encode);
    assert s.db.users[id].email == dto.email;
    var found := FindUserByEmail(s.db, dto.email);
    assert found.value.id == id;
    var old_email := db.users[id].email;
    forall k | k in s.db.users
      ensures s.db.users[k].email != old_email
    {
      if k != id {
        assert db.users[k] == s.db.users[k];
      }
    }
  }

  /** After deletion the id is no longer found and exactly one user is gone. */
  lemma DeleteRemovesOneUser(db: Db, id: Id)
    requires db.Valid() && id in db.users
    ensures var d := DeleteUserStep(db, id).db;
      && FindUserById(d, id) == Err(NoSuchElement)
      && |d.users| == |db.users| - 1
  {
    var d := DeleteUserStep(db, id).db;
    assert d.users.Keys == db.users.Keys - {id};
  }

  /** Appending to an existing role list can repeat a role. */
  lemma InitRolesCanDuplicate(role: Role)
    ensures var r := WithUserRole(Some([role]), role); |r| == 2 && r[0] == r[1]
  {
  }

  // ---------------------------------------------------------------------------------------
  // The service methods, over the store
  // ---------------------------------------------------------------------------------------

  /**
   * `initRoles(user)`: appends the ROLE_USER role to the object's role list, first replacing a
   * null list by an empty one. If the role is missing the lookup throws and the list stays.
   */
  method InitRoles(store: Store, user: User) returns (r: Result<()>)
    requires store.Valid()
    modifies user
    ensures var role := GetUserRole(store.State());
      && (r.Ok? <==> role.Ok?)
      && (r.Ok? ==> user.roles == Some(WithUserRole(old(user.roles), role.value)))
      && (r.Err? ==> r.error == role.error && user.roles == old(user.roles))
    ensures user.id == old(user.id) && user.email == old(user.email) && user.password == old(user.password)
    ensures user.firstName == old(user.firstName) && user.lastName == old(user.lastName)
    ensures user.active == old(user.active)
  {
    var roles := user.roles.GetOr([]);
    var role := GetUserRole(store.State());
    if role.Err? {
      return Err(role.error);
    }
    roles := roles + [role.value];
    user.roles := Some(roles);
    r := Ok(());
  }

  /** `createUser(dto)`: builds a new user object through its setters and saves it. */
  method CreateUser(store: Store, dto: UserDto, encode: string -> string) returns (r: Result<UserRow>)
    requires store.Valid()
    modifies store
    ensures store.Valid()
    ensures Step(r, store.State()) == CreateUserStep(old(store.State()), dto, encode)
  {
    var user := new User();
    user.email := dto.email;
    user.firstName := dto.firstName;
    user.lastName := dto.lastName;
    user.password := encode(dto.password);
    var roles := InitRoles(store, user);
    if roles.Err? {
      return Err(roles.error);
    }
    r := store.SaveUser(user);
  }

  /** `updateUser(id, dto)`: loads the user, overwrites four fields through setters, saves it. */
  method UpdateUser(store: Store, id: Id, dto: UserDto, encode: string -> string) returns (r: Result<UserRow>)
    requires store.Valid()
    modifies store
    ensures store.Valid()
    ensures Step(r, store.State()) == UpdateUserStep(old(store.State()), id, dto, encode)
  {
    var found := FindById(store.users, id);
    if found.Err? {
      return Err(found.error);
    }
    var user := new User.Loaded(found.value);
    user.email := dto.email;
    user.firstName := dto.firstName;
    user.lastName := dto.lastName;
    user.password := encode(dto.password);
    r := store.SaveUser(user);
  }

  /** `deleteUser(id)`. */
  method DeleteUser(store: Store, id: Id) returns (r: Result<()>)
    requires store.Valid()
    modifies store
    ensures store.Valid()
    ensures Step(r, store.State()) == DeleteUserStep(old(store.State()), id)
  {
    r := store.DeleteUserById(id);
  }
}
