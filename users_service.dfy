/**
 * UsersService: create, look up, update, delete and re-role users over the store.
 * The lookups are functions of the user table; the operations that write are methods.
 */
module Users {
  import opened Common
  import opened Js
  import opened Crypto
  import opened Store

  const UpdatedMessage := "User updated successfully"

  /** The only keys an update body may carry. */
  const AllowedFields: set<string> := {"username", "password", "email", "name"}

  /**
   * The body of a role change (a partial role creation body, distinct from the role update
   * body in Common); only its roleId is read, and it may be absent.
   */
  datatype UpdateRoleDto = UpdateRoleDto(description: Option<string>, roleId: Option<int>, status: Option<bool>)

  /** An update body: each key the client sent, with its value. */
  type UpdateUserDto = map<string, string>

  /** What updateUser answers instead of the record. */
  datatype UpdateAck = UpdateAck(id: int, message: string)

  /** findUserById: the record under the id, or NotFound when there is none. */
  function FindUserById(users: map<int, User>, id: JsNumber): (r: Result<User>)
    ensures r.Ok? <==> id.Integer? && id.value in users
    ensures r.Ok? ==> r.value == users[id.value]
    ensures r.Err? ==> r.error == if id.Integer? then NotFound(UserNotFound) else InvalidArgument
  {
    match Key(id)
    case Err(e) => Err(e)
    case Ok(k) => if k in users then Ok(users[k]) else Err(NotFound(UserNotFound))
  }

  /** findByEmail: the record holding the email, or NotFound when there is none. */
  function FindByEmail(users: map<int, User>, email: string): (r: Result<User>)
    requires UniqueEmails(users)
    ensures r.Ok? <==> exists i | i in users :: users[i].email == email
    ensures r.Ok? ==> r.value.email == email && exists i | i in users :: users[i] == r.value
    ensures r.Err? ==> r.error == NotFound(UserNotFound)
  {
    match UserByEmail(users, email)
    case Some(u) => Ok(u)
    case None => Err(NotFound(UserNotFound))
  }

  /** findAllUsers: every stored record, password hashes included. */
  function FindAllUsers(users: map<int, User>): (r: set<User>)
    ensures forall u :: u in r <==> exists i | i in users :: users[i] == u
  {
    set i | i in users :: users[i]
  }

  /** The keys of an update body outside the allowlist. */
  function InvalidKeys(dto: UpdateUserDto): set<string> {
    set k | k in dto && k !in AllowedFields
  }

  /** A field goes into the update only when the body holds a truthy value for it. */
  function TruthyField(dto: UpdateUserDto, key: string): Option<string> {
    if key in dto && Truthy(dto[key]) then Some(dto[key]) else None
  }

  /** The update data updateUser builds from a body; a new password is hashed with `salt`. */
  function UpdateData(dto: UpdateUserDto, bcrypt: Bcrypt, salt: Salt): UserPatch {
    var password := TruthyField(dto, "password");
    UserPatch(TruthyField(dto, "username"),
              if password.Some? then Some(bcrypt.hash(password.value, SaltRounds, salt)) else None,
              TruthyField(dto, "email"), TruthyField(dto, "name"), None)
  }

  /**
   * What an accepted update does to a record: username, email and name take the body's value
   * when it is a non-empty string and keep the stored one otherwise; the password becomes the
   * hash of the body's password, never the plaintext; id, status and roleId never change.
   */
  lemma UpdateDataEffect(u: User, dto: UpdateUserDto, bcrypt: Bcrypt, salt: Salt)
    ensures var v := Patched(u, UpdateData(dto, bcrypt, salt));
      && v.id == u.id && v.status == u.status && v.roleId == u.roleId
      && v.username == (if "username" in dto && dto["username"] != "" then dto["username"] else u.username)
      && v.email == (if "email" in dto && dto["email"] != "" then dto["email"] else u.email)
      && v.name == (if "name" in dto && dto["name"] != "" then dto["name"] else u.name)
      && v.password == (if "password" in dto && dto["password"] != ""
                        then bcrypt.hash(dto["password"], SaltRounds, salt) else u.password)
  {
  }

  /** A body without truthy allowed fields changes nothing. */
  lemma EmptyUpdateIsIdentity(u: User, dto: UpdateUserDto, bcrypt: Bcrypt, salt: Salt)
    requires forall k | k in dto && k in AllowedFields :: dto[k] == ""
    ensures Patched(u, UpdateData(dto, bcrypt, salt)) == u
  {
    assert forall k | k in AllowedFields :: TruthyField(dto, k) == None;
  }

  class UsersService {
    const prisma: Prisma
    const bcrypt: Bcrypt

    constructor (prisma: Prisma, bcrypt: Bcrypt)
      ensures this.prisma == prisma && this.bcrypt == bcrypt
    {
      this.prisma := prisma;
      this.bcrypt := bcrypt;
    }

    /** createUser: the record stores the hash of the password; the other fields are as given. */
    method CreateUser(dto: CreateUserDto, salt: Salt) returns (r: Result<User>)
      requires prisma.Valid()
      modifies prisma
      ensures prisma.Valid() && prisma.roles == old(prisma.roles)
      ensures r.Err? <==> exists j | j in old(prisma.users) ::
        old(prisma.users)[j].email == dto.email || old(prisma.users)[j].username == dto.username
      ensures r.Err? ==> r.error == UniqueConstraintFailed && prisma.users == old(prisma.users)
      ensures r.Ok? ==>
        && r.value.password == bcrypt.hash(dto.password, SaltRounds, salt)
        && r.value.username == dto.username && r.value.email == dto.email && r.value.name == dto.name
        && r.value.status == Or(dto.status, true) && r.value.roleId == dto.roleId
        && r.value.id !in old(prisma.users)
        && prisma.users == old(prisma.users)[r.value.id := r.value]
    {
      var hashed := dto.(password := bcrypt.hash(dto.password, SaltRounds, salt));
      r := prisma.CreateUser(hashed);
    }

    /**
     * updateUser: builds the update field by field, refuses a body with keys outside the
     * allowlist before writing anything, and answers with the id and a message.
     */
    method UpdateUser(id: JsNumber, dto: UpdateUserDto, salt: Salt) returns (r: Result<UpdateAck>)
      requires prisma.Valid()
      modifies prisma
      ensures prisma.Valid() && prisma.roles == old(prisma.roles)
      ensures InvalidKeys(dto) != {} ==> r == Err(InvalidFields(InvalidKeys(dto)))
      ensures InvalidKeys(dto) == {} && id.NonInteger? ==> r == Err(InvalidArgument)
      ensures InvalidKeys(dto) == {} && id.Integer? && id.value !in old(prisma.users) ==> r == Err(RecordNotFound)
      ensures InvalidKeys(dto) == {} && id.Integer? && id.value in old(prisma.users) ==>
        var updated := Patched(old(prisma.users)[id.value], UpdateData(dto, bcrypt, salt));
        if Clashes(old(prisma.users), id.value, updated) then r == Err(UniqueConstraintFailed)
        else r == Ok(UpdateAck(id.value, UpdatedMessage)) && prisma.users == old(prisma.users)[id.value := updated]
      ensures r.Err? ==> prisma.users == old(prisma.users)
    {
      var data := UserPatch(None, None, None, None, None);
      if "username" in dto && Truthy(dto["username"]) {
        data := data.(username := Some(dto["username"]));
      }
      if "password" in dto && Truthy(dto["password"]) {
        data := data.(password := Some(bcrypt.hash(dto["password"], SaltRounds, salt)));
      }
      if "email" in dto && Truthy(dto["email"]) {
        data := data.(email := Some(dto["email"]));
      }
      if "name" in dto && Truthy(dto["name"]) {
        data := data.(name := Some(dto["name"]));
      }
      assert data == UpdateData(dto, bcrypt, salt);

      var invalidFields := set k | k in dto && k !in AllowedFields;
      if invalidFields != {} {
        return Err(InvalidFields(invalidFields));
      }

      match Key(id)
      case Err(e) =>
        r := Err(e);
      case Ok(k) =>
        var updated := prisma.UpdateUser(k, data);
        if updated.Err? {
          return Err(updated.error);
        }
        r := Ok(UpdateAck(k, UpdatedMessage));
    }

    /** deleteUser: NotFound when absent; otherwise removes exactly that record and returns it. */
    method DeleteUser(id: JsNumber) returns (r: Result<User>)
      requires prisma.Valid()
      modifies prisma
      ensures prisma.Valid() && prisma.roles == old(prisma.roles)
      ensures r.Ok? <==> id.Integer? && id.value in old(prisma.users)
      ensures r.Ok? ==> r.value == old(prisma.users)[id.value] && prisma.users == old(prisma.users) - {id.value}
      ensures r.Err? ==> prisma.users == old(prisma.users)
      ensures r.Err? ==> r.error == if id.Integer? then NotFound(UserNotFound) else InvalidArgument
    {
      var found := FindUserById(prisma.users, id);
      if found.Err? {
        return Err(found.error);
      }
      r := prisma.DeleteUser(id.value);
    }

    /**
     * changeRoleUser: NotFound is checked before the self check; on success only the
     * target's roleId changes (and not even that when the body carries no roleId).
     */
    method ChangeRoleUser(id: JsNumber, roleId: Option<int>, requesterId: int) returns (r: Result<User>)
      requires prisma.Valid()
      modifies prisma
      ensures prisma.Valid() && prisma.roles == old(prisma.roles)
      ensures id.NonInteger? ==> r == Err(InvalidArgument)
      ensures id.Integer? && id.value !in old(prisma.users) ==> r == Err(NotFound(UserNotFound))
      ensures id.Integer? && id.value in old(prisma.users) && id.value == requesterId ==>
        r == Err(Forbidden(SelfRoleMessage))
      ensures id.Integer? && id.value in old(prisma.users) && id.value != requesterId ==>
        var before := old(prisma.users)[id.value];
        r == Ok(before.(roleId := Or(roleId, before.roleId)))
      ensures r.Ok? ==> prisma.users == old(prisma.users)[r.value.id := r.value]
      ensures r.Err? ==> prisma.users == old(prisma.users)
    {
      var found := FindUserById(prisma.users, id);
      if found.Err? {
        return Err(found.error);
      }
      if id.value == requesterId {
        return Err(Forbidden(SelfRoleMessage));
      }
      var target := found.value;
      assert !Clashes(prisma.users, id.value, Patched(target, UserPatch(None, None, None, None, roleId)));
      r := prisma.UpdateUser(id.value, UserPatch(None, None, None, None, roleId));
    }
  }
}
