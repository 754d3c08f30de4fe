/**
 * The record store the services call through Prisma, reduced to what they rely on: user and
 * role tables keyed by id, fresh ids on insert, unique email and username, the errors for an
 * absent record and for a non-integer id, and the default `status` of a new user.
 */
module Store {
  import opened Common
  import opened Js

  /** Prisma's check of an id argument: an integer passes; NaN or a fraction is rejected. */
  function Key(id: JsNumber): Result<int> {
    if id.Integer? then Ok(id.value) else Err(InvalidArgument)
  }

  predicate UniqueEmails(users: map<int, User>) {
    forall i, j | i in users && j in users && users[i].email == users[j].email :: i == j
  }

  predicate UniqueUsernames(users: map<int, User>) {
    forall i, j | i in users && j in users && users[i].username == users[j].username :: i == j
  }

  /** findUnique({ where: { email } }). */
  function UserByEmail(users: map<int, User>, email: string): (r: Option<User>)
    requires UniqueEmails(users)
    ensures r.Some? <==> exists i | i in users :: users[i].email == email
    ensures r.Some? ==> r.value.email == email && exists i | i in users :: users[i] == r.value
  {
    if exists i | i in users :: users[i].email == email then
      var i :| i in users && users[i].email == email;
      Some(users[i])
    else
      None
  }

  /** findUnique({ where: { email, username } }): a record matches only when both fields do. */
  function UserByEmailAndUsername(users: map<int, User>, email: string, username: string): (r: Option<User>)
    requires UniqueEmails(users)
    ensures r.Some? <==> exists i | i in users :: users[i].email == email && users[i].username == username
    ensures r.Some? ==> r.value.email == email && r.value.username == username
    ensures r.Some? ==> exists i | i in users :: users[i] == r.value
  {
    match UserByEmail(users, email)
    case Some(u) => if u.username == username then Some(u) else None
    case None => None
  }

  /** Some record other than `id` already holds the candidate's email or username. */
  predicate Clashes(users: map<int, User>, id: int, candidate: User) {
    exists j | j in users && j != id ::
      users[j].email == candidate.email || users[j].username == candidate.username
  }

  function Or<T>(o: Option<T>, default: T): T {
    if o.Some? then o.value else default
  }

  /** The record a user insert stores; an omitted `status` takes the schema default, true. */
  function NewUser(id: int, data: CreateUserDto): User {
    User(id, data.username, data.email, data.password, data.name, Or(data.status, true), data.roleId)
  }

  /** The fields of a user update; `None` leaves the stored value as it is. */
  datatype UserPatch = UserPatch(username: Option<string>, password: Option<string>, email: Option<string>,
                                 name: Option<string>, roleId: Option<int>)

  function Patched(u: User, p: UserPatch): User {
    User(u.id, Or(p.username, u.username), Or(p.email, u.email), Or(p.password, u.password),
         Or(p.name, u.name), u.status, Or(p.roleId, u.roleId))
  }

  function PatchedRole(r: Role, p: UpdateRoleDto): Role {
    Role(r.id, Or(p.description, r.description), Or(p.status, r.status))
  }

  class Prisma {
    var users: map<int, User>
    var roles: map<int, Role>
    var nextUserId: int
    var nextRoleId: int

    /** Every record sits under its own id, below the next id to hand out; emails and usernames are unique. */
    ghost predicate Valid()
      reads this
    {
      && (forall k | k in users :: users[k].id == k && k < nextUserId)
      && (forall k | k in roles :: roles[k].id == k && k < nextRoleId)
      && UniqueEmails(users)
      && UniqueUsernames(users)
    }

    constructor ()
      ensures Valid() && users == map[] && roles == map[]
    {
      users, roles := map[], map[];
      nextUserId, nextRoleId := 1, 1;
    }

    method CreateUser(data: CreateUserDto) returns (r: Result<User>)
      requires Valid()
      modifies this
      ensures Valid() && roles == old(roles)
      ensures var c := NewUser(old(nextUserId), data);
        if Clashes(old(users), c.id, c) then r == Err(UniqueConstraintFailed) && users == old(users)
        else r == Ok(c) && c.id !in old(users) && users == old(users)[c.id := c]
    {
      var c := NewUser(nextUserId, data);
      if Clashes(users, c.id, c) {
        return Err(UniqueConstraintFailed);
      }
      users := users[c.id := c];
      nextUserId := nextUserId + 1;
      r := Ok(c);
    }

    method UpdateUser(id: int, patch: UserPatch) returns (r: Result<User>)
      requires Valid()
      modifies this
      ensures Valid() && roles == old(roles)
      ensures id !in old(users) ==> r == Err(RecordNotFound) && users == old(users)
      ensures id in old(users) ==>
        var c := Patched(old(users)[id], patch);
        if Clashes(old(users), id, c) then r == Err(UniqueConstraintFailed) && users == old(users)
        else r == Ok(c) && users == old(users)[id := c]
    {
      if id !in users {
        return Err(RecordNotFound);
      }
      var c := Patched(users[id], patch);
      if Clashes(users, id, c) {
        return Err(UniqueConstraintFailed);
      }
      users := users[id := c];
      r := Ok(c);
    }

    method DeleteUser(id: int) returns (r: Result<User>)
      requires Valid()
      modifies this
      ensures Valid() && roles == old(roles)
      ensures id !in old(users) ==> r == Err(RecordNotFound) && users == old(users)
      ensures id in old(users) ==> r == Ok(old(users)[id]) && users == old(users) - {id}
    {
      if id !in users {
        return Err(RecordNotFound);
      }
      r := Ok(users[id]);
      users := users - {id};
    }

    method CreateRole(description: string, status: bool) returns (r: Role)
      requires Valid()
      modifies this
      ensures Valid() && users == old(users)
      ensures r == Role(old(nextRoleId), description, status)
      ensures r.id !in old(roles) && roles == old(roles)[r.id := r]
    {
      r := Role(nextRoleId, description, status);
      roles := roles[r.id := r];
      nextRoleId := nextRoleId + 1;
    }

    method UpdateRole(id: int, patch: UpdateRoleDto) returns (r: Result<Role>)
      requires Valid()
      modifies this
      ensures Valid() && users == old(users)
      ensures id !in old(roles) ==> r == Err(RecordNotFound) && roles == old(roles)
      ensures id in old(roles) ==>
        r == Ok(PatchedRole(old(roles)[id], patch)) && roles == old(roles)[id := r.value]
    {
      if id !in roles {
        return Err(RecordNotFound);
      }
      r := Ok(PatchedRole(roles[id], patch));
      roles := roles[id := r.value];
    }

    method DeleteRole(id: int) returns (r: Result<Role>)
      requires Valid()
      modifies this
      ensures Valid() && users == old(users)
      ensures id !in old(roles) ==> r == Err(RecordNotFound) && roles == old(roles)
      ensures id in old(roles) ==> r == Ok(old(roles)[id]) && roles == old(roles) - {id}
    {
      if id !in roles {
        return Err(RecordNotFound);
      }
      r := Ok(roles[id]);
      roles := roles - {id};
    }
  }
}
