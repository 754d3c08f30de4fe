/**
 * RolesService: create, list, look up, update and delete roles over the store.
 */
module Roles {
  import opened Common
  import opened Js
  import opened Store

  /** The create body; its roleId is never read. */
  datatype CreateRoleDto = CreateRoleDto(description: string, roleId: Option<int>, status: Option<bool>)

  /** A role with the users that reference it (`include: { users: true }`). */
  datatype RoleWithUsers = RoleWithUsers(role: Role, users: set<User>)

  /** `status ?? true`: an explicit false is kept, only an absent status becomes true. */
  function DefaultStatus(status: Option<bool>): (b: bool)
    ensures !b <==> status == Some(false)
  {
    match status
    case Some(s) => s
    case None => true
  }

  function UsersOfRole(users: map<int, User>, roleId: int): set<User> {
    set u | u in users.Values && u.roleId == roleId
  }

  /** findAllRoles: every role, each with exactly the users whose roleId names it. */
  function FindAllRoles(roles: map<int, Role>, users: map<int, User>): (r: map<int, RoleWithUsers>)
    ensures r.Keys == roles.Keys
    ensures forall id | id in r :: r[id].role == roles[id]
    ensures forall id, u | id in r :: u in r[id].users <==> u in users.Values && u.roleId == id
  {
    map id | id in roles :: RoleWithUsers(roles[id], UsersOfRole(users, id))
  }

  /** findRoleById: the role with its users, or NotFound when there is none. */
  function FindRoleById(roles: map<int, Role>, users: map<int, User>, id: JsNumber): (r: Result<RoleWithUsers>)
    ensures r.Ok? <==> id.Integer? && id.value in roles
    ensures r.Ok? ==> r.value.role == roles[id.value]
    ensures r.Ok? ==> forall u :: u in r.value.users <==> u in users.Values && u.roleId == id.value
    ensures r.Err? ==> r.error == if id.Integer? then NotFound(RoleNotFound) else InvalidArgument
  {
    match Key(id)
    case Err(e) => Err(e)
    case Ok(k) =>
      if k in roles then Ok(RoleWithUsers(roles[k], UsersOfRole(users, k))) else Err(NotFound(RoleNotFound))
  }

  class RolesService {
    const prisma: Prisma

    constructor (prisma: Prisma)
      ensures this.prisma == prisma
    {
      this.prisma := prisma;
    }

    /** createRole: stores the description and `status ?? true` under a fresh id; nothing else. */
    method CreateRole(dto: CreateRoleDto) returns (r: Role)
      requires prisma.Valid()
      modifies prisma
      ensures prisma.Valid() && prisma.users == old(prisma.users)
      ensures r == Role(old(prisma.nextRoleId), dto.description, DefaultStatus(dto.status))
      ensures r.id !in old(prisma.roles) && prisma.roles == old(prisma.roles)[r.id := r]
    {
      r := prisma.CreateRole(dto.description, DefaultStatus(dto.status));
    }

    /** updateRole: writes the given fields; an absent role is left to the store to refuse. */
    method UpdateRole(id: JsNumber, dto: UpdateRoleDto) returns (r: Result<Role>)
      requires prisma.Valid()
      modifies prisma
      ensures prisma.Valid() && prisma.users == old(prisma.users)
      ensures id.NonInteger? ==> r == Err(InvalidArgument)
      ensures id.Integer? && id.value !in old(prisma.roles) ==> r == Err(RecordNotFound)
      ensures id.Integer? && id.value in old(prisma.roles) ==>
        var before := old(prisma.roles)[id.value];
        r == Ok(Role(id.value, Or(dto.description, before.description), Or(dto.status, before.status)))
      ensures r.Ok? ==> prisma.roles == old(prisma.roles)[id.value := r.value]
      ensures r.Err? ==> prisma.roles == old(prisma.roles)
    {
      match Key(id)
      case Err(e) =>
        r := Err(e);
      case Ok(k) =>
        r := prisma.UpdateRole(k, dto);
    }

    /** deleteRole: NotFound when absent; otherwise removes only that role and returns it. */
    method DeleteRole(id: JsNumber) returns (r: Result<Role>)
      requires prisma.Valid()
      modifies prisma
      ensures prisma.Valid() && prisma.users == old(prisma.users)
      ensures r.Ok? <==> id.Integer? && id.value in old(prisma.roles)
      ensures r.Ok? ==> r.value == old(prisma.roles)[id.value] && prisma.roles == old(prisma.roles) - {id.value}
      ensures r.Err? ==> prisma.roles == old(prisma.roles)
      ensures r.Err? ==> r.error == if id.Integer? then NotFound(RoleNotFound) else InvalidArgument
    {
      match Key(id)
      case Err(e) =>
        r := Err(e);
      case Ok(k) =>
        if k !in prisma.roles {
          return Err(NotFound(RoleNotFound));
        }
        r := prisma.DeleteRole(k);
    }
  }
}
