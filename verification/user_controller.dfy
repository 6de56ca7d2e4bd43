/**
 * The user endpoints, as far as who may call them: listing, reading and registering are open,
 * while update and delete are guarded by the rule that the stored user's e-mail is the
 * caller's name, so a user can change or remove only their own account.
 */
module UserController {
  import opened Common
  import opened Model
  import opened Dtos
  import opened Persistence
  import UserService

  /** A request to one of the user endpoints. */
  datatype Request =
    | GetAll
    | Create(dto: UserDto)
    | GetById(id: Id)
    | Update(id: Id, dto: UserDto)
    | Delete(id: Id)

  /** The body an endpoint answers with. */
  datatype Response = Users(users: set<UserRow>) | OneUser(user: UserRow) | Deleted

  /** ONLY_OWNER_BY_ID: the stored user's e-mail equals the caller's name; loading throws on an absent id. */
  function OnlyOwnerById(db: Db, id: Id, principal: string): (r: Result<bool>)
    requires db.Valid()
    ensures r.Err? <==> id !in db.users
    ensures r.Err? ==> r.error == NoSuchElement
    ensures r == Ok(true) <==> id in db.users && db.users[id].email == principal
  {
    var user :- UserService.FindUserById(db, id);
    Ok(user.email == principal)
  }

  /** Serving one request from caller `principal`: the guard, then the service call. */
  function Handle(db: Db, req: Request, principal: string, encode: string -> string): (s: Step<Response>)
    requires db.Valid()
    ensures s.db.Valid()
    ensures s.result.Err? ==> s.db == db
    ensures req.GetAll? || req.GetById? ==> s.db == db
  {
    match req
    case GetAll =>
      Step(Ok(Users(UserService.FindAll(db))), db)
    case Create(dto) =>
      var step := UserService.CreateUserStep(db, dto, encode);
      Step(if step.result.Ok? then Ok(OneUser(step.result.value)) else Err(step.result.error), step.db)
    case GetById(id) =>
      Step(match UserService.FindUserById(db, id)
           case Ok(u) => Ok(OneUser(u))
           case Err(e) => Err(e), db)
    case Update(id, dto) =>
      (match OnlyOwnerById(db, id, principal)
       case Err(e) => Step(Err(e), db)
       case Ok(allowed) =>
         if !allowed then Step(Err(AccessDenied), db)
         else
           var step := UserService.UpdateUserStep(db, id, dto, encode);
           Step(if step.result.Ok? then Ok(OneUser(step.result.value)) else Err(step.result.error), step.db))
    case Delete(id) =>
      match OnlyOwnerById(db, id, principal)
      case Err(e) => Step(Err(e), db)
      case Ok(allowed) =>
        if !allowed then Step(Err(AccessDenied), db)
        else
          var step := UserService.DeleteUserStep(db, id);
          Step(match step.result
               case Ok(_) => Ok(Deleted)
               case Err(e) => Err(e), step.db)
  }

  // ---------------------------------------------------------------------------------------
  // Properties
  // ---------------------------------------------------------------------------------------

  /** Only the account's owner gets past the guard of update and delete; anyone else is refused. */
  lemma GuardedByOwner(db: Db, req: Request, principal: string, encode: string -> string)
    requires db.Valid() && (req.Update? || req.Delete?)
    ensures var s := Handle(db, req, principal, encode);
      && (req.id !in db.users ==> s == Step(Err(NoSuchElement), db))
      && (req.id in db.users && db.users[req.id].email != principal ==> s == Step(Err(AccessDenied), db))
  {
  }

  /** The owner's delete always goes through and removes exactly their row. */
  lemma OwnerCanDelete(db: Db, id: Id, principal: string, encode: string -> string)
    requires db.Valid() && id in db.users && db.users[id].email == principal
    ensures var s := Handle(db, Delete(id), principal, encode);
      s.result == Ok(Deleted) && s.db == UserService.DeleteUserStep(db, id).db
  {
  }

  /** The owner's update is the service's update: it fails only on an e-mail another user holds. */
  lemma OwnerUpdateIsServiceUpdate(db: Db, id: Id, dto: UserDto, principal: string, encode: string -> string)
    requires db.Valid() && id in db.users && db.users[id].email == principal
    ensures var s := Handle(db, Update(id, dto), principal, encode);
      var step := UserService.UpdateUserStep(db, id, dto, encode);
      && s.db == step.db
      && (s.result.Ok? <==> !EmailTaken(db.users, dto.email, id))
      && (s.result.Ok? ==> s.result.value == OneUser(step.result.value))
  {
  }

  /** Listing, reading and registering answer every caller alike. */
  lemma UnguardedEndpointsIgnoreCaller(db: Db, req: Request, p: string, q: string, encode: string -> string)
    requires db.Valid() && (req.GetAll? || req.GetById? || req.Create?)
    ensures Handle(db, req, p, encode) == Handle(db, req, q, encode)
  {
  }

  /** The IT scenario: the only user deleting their own account leaves no user. */
  lemma OwnerEmptiesSingleUserStore(db: Db, id: Id, encode: string -> string)
    requires db.Valid() && db.users.Keys == {id}
    ensures var s := Handle(db, Delete(id), db.users[id].email, encode);
      s.result == Ok(Deleted) && |s.db.users| == 0
  {
    var d := UserService.DeleteUserStep(db, id).db;
    assert d.users.Keys == {};
  }
}
