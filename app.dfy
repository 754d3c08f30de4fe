/**
 * The request path end to end: the route's guards, then its handler's service call against
 * the shared store.
 */
module App {
  import opened Common
  import opened Crypto
  import opened Store
  import opened Routes
  import Users
  import Roles
  import Auth
  import AuthController

  /** What a handler answers with. */
  datatype Response =
    | UserBody(user: User)
    | UserList(users: set<User>)
    | UpdateBody(ack: Users.UpdateAck)
    | RoleBody(role: Role)
    | RoleDetail(detail: Roles.RoleWithUsers)
    | RoleList(roles: map<int, Roles.RoleWithUsers>)
    | LoginBody(login: Auth.LoginResponse)

  predicate IsQuery(call: ServiceCall) {
    call.FindAllUsers? || call.FindUserById? || call.FindAllRoles? || call.FindRoleById? || call.ValidateAndLogin?
  }

  function MapResult<T>(r: Result<T>, f: T -> Response): Result<Response> {
    match r
    case Ok(v) => Ok(f(v))
    case Err(e) => Err(e)
  }

  /** The answer of a call that only reads the store. */
  function Query(users: map<int, User>, roles: map<int, Role>, bcrypt: Bcrypt, jwt: JwtService,
                 call: ServiceCall): Result<Response>
    requires IsQuery(call) && UniqueEmails(users)
  {
    match call
    case FindAllUsers => Ok(UserList(Users.FindAllUsers(users)))
    case FindUserById(id) => MapResult(Users.FindUserById(users, id), u => UserBody(u))
    case FindAllRoles => Ok(RoleList(Roles.FindAllRoles(roles, users)))
    case FindRoleById(id) => MapResult(Roles.FindRoleById(roles, users, id), d => RoleDetail(d))
    case ValidateAndLogin(dto) => MapResult(AuthController.LoginRoute(users, bcrypt, jwt, dto), l => LoginBody(l))
  }

  class Application {
    const prisma: Prisma
    const bcrypt: Bcrypt
    const jwt: JwtService
    const usersService: Users.UsersService
    const rolesService: Roles.RolesService

    ghost predicate Valid()
      reads prisma
    {
      && usersService.prisma == prisma && usersService.bcrypt == bcrypt
      && rolesService.prisma == prisma
      && prisma.Valid()
    }

    constructor (prisma: Prisma, bcrypt: Bcrypt, jwt: JwtService)
      requires prisma.Valid()
      ensures this.prisma == prisma && this.bcrypt == bcrypt && this.jwt == jwt
      ensures Valid()
    {
      this.prisma := prisma;
      this.bcrypt := bcrypt;
      this.jwt := jwt;
      this.usersService := new Users.UsersService(prisma, bcrypt);
      this.rolesService := new Roles.RolesService(prisma);
    }

    /**
     * Handles one request. A request its guards refuse fails with the first guard's error and
     * leaves the store as it was; a request that only reads answers from the store unchanged.
     */
    method Handle(req: Request, salt: Salt) returns (r: Result<Response>)
      requires Valid()
      modifies prisma
      ensures Valid()
      ensures RunPipeline(req).Err? ==>
        r == Err(RunPipeline(req).error) && prisma.users == old(prisma.users) && prisma.roles == old(prisma.roles)
      ensures RunPipeline(req).Ok? && IsQuery(RunPipeline(req).value) ==>
        && r == Query(old(prisma.users), old(prisma.roles), bcrypt, jwt, RunPipeline(req).value)
        && prisma.users == old(prisma.users) && prisma.roles == old(prisma.roles)
      // POST users: the hashed record under a fresh id, or the store's refusal of a repeated email or username.
      ensures RunPipeline(req).Ok? && RunPipeline(req).value.CreateUser? ==>
        var dto := RunPipeline(req).value.createUser;
        && prisma.roles == old(prisma.roles)
        && (r.Err? <==> exists j | j in old(prisma.users) ::
              old(prisma.users)[j].email == dto.email || old(prisma.users)[j].username == dto.username)
        && (r.Err? ==> r == Err(UniqueConstraintFailed) && prisma.users == old(prisma.users))
        && (r.Ok? ==> r.value.UserBody?)
        && (r.Ok? && r.value.UserBody? ==>
              var u := r.value.user;
              && u == User(u.id, dto.username, dto.email, bcrypt.hash(dto.password, SaltRounds, salt),
                           dto.name, Or(dto.status, true), dto.roleId)
              && u.id !in old(prisma.users) && prisma.users == old(prisma.users)[u.id := u])
      // PUT users/:id: refused keys first, then a NaN id, an absent record or a clash, else the record patched.
      ensures RunPipeline(req).Ok? && RunPipeline(req).value.UpdateUser? ==>
        var id := RunPipeline(req).value.id;
        var dto := RunPipeline(req).value.updateUser;
        && prisma.roles == old(prisma.roles)
        && (Users.InvalidKeys(dto) != {} ==> r == Err(InvalidFields(Users.InvalidKeys(dto))))
        && (Users.InvalidKeys(dto) == {} && id.NonInteger? ==> r == Err(InvalidArgument))
        && (Users.InvalidKeys(dto) == {} && id.Integer? && id.value !in old(prisma.users) ==> r == Err(RecordNotFound))
        && (Users.InvalidKeys(dto) == {} && id.Integer? && id.value in old(prisma.users) ==>
              var updated := Patched(old(prisma.users)[id.value], Users.UpdateData(dto, bcrypt, salt));
              if Clashes(old(prisma.users), id.value, updated) then r == Err(UniqueConstraintFailed)
              else
                && r == Ok(UpdateBody(Users.UpdateAck(id.value, Users.UpdatedMessage)))
                && prisma.users == old(prisma.users)[id.value := updated])
        && (r.Err? ==> prisma.users == old(prisma.users))
      // DELETE users/:id: exactly that record goes, and it is the answer.
      ensures RunPipeline(req).Ok? && RunPipeline(req).value.DeleteUser? ==>
        var id := RunPipeline(req).value.id;
        && prisma.roles == old(prisma.roles)
        && (r.Ok? <==> id.Integer? && id.value in old(prisma.users))
        && (r.Ok? ==> r == Ok(UserBody(old(prisma.users)[id.value])) && prisma.users == old(prisma.users) - {id.value})
        && (r.Err? ==> prisma.users == old(prisma.users))
        && (r.Err? ==> r.error == if id.Integer? then NotFound(UserNotFound) else InvalidArgument)
      // PUT users/:id/role: NotFound, then the self check, then only the target's roleId changes.
      ensures RunPipeline(req).Ok? && RunPipeline(req).value.ChangeRoleUser? ==>
        var call := RunPipeline(req).value;
        && prisma.roles == old(prisma.roles)
        && (call.id.NonInteger? ==> r == Err(InvalidArgument))
        && (call.id.Integer? && call.id.value !in old(prisma.users) ==> r == Err(NotFound(UserNotFound)))
        && (call.id.Integer? && call.id.value in old(prisma.users) && call.id.value == call.requesterId ==>
              r == Err(Forbidden(SelfRoleMessage)))
        && (call.id.Integer? && call.id.value in old(prisma.users) && call.id.value != call.requesterId ==>
              var before := old(prisma.users)[call.id.value];
              var after := before.(roleId := Or(call.roleId, before.roleId));
              r == Ok(UserBody(after)) && prisma.users == old(prisma.users)[call.id.value := after])
        && (r.Err? ==> prisma.users == old(prisma.users))
      // POST roles: the description and `status ?? true` under a fresh id.
      ensures RunPipeline(req).Ok? && RunPipeline(req).value.CreateRole? ==>
        var dto := RunPipeline(req).value.createRole;
        && prisma.users == old(prisma.users)
        && r.Ok? && r.value.RoleBody?
        && r.value.role.description == dto.description && r.value.role.status == Roles.DefaultStatus(dto.status)
        && r.value.role.id !in old(prisma.roles) && prisma.roles == old(prisma.roles)[r.value.role.id := r.value.role]
      // PUT roles/:id: the given fields written; an absent role is the store's RecordNotFound.
      ensures RunPipeline(req).Ok? && RunPipeline(req).value.UpdateRole? ==>
        var id := RunPipeline(req).value.id;
        var dto := RunPipeline(req).value.updateRole;
        && prisma.users == old(prisma.users)
        && (id.NonInteger? ==> r == Err(InvalidArgument))
        && (id.Integer? && id.value !in old(prisma.roles) ==> r == Err(RecordNotFound))
        && (id.Integer? && id.value in old(prisma.roles) ==>
              var before := old(prisma.roles)[id.value];
              var after := Role(id.value, Or(dto.description, before.description), Or(dto.status, before.status));
              r == Ok(RoleBody(after)) && prisma.roles == old(prisma.roles)[id.value := after])
        && (r.Err? ==> prisma.roles == old(prisma.roles))
      // DELETE roles/:id: exactly that role goes, and it is the answer.
      ensures RunPipeline(req).Ok? && RunPipeline(req).value.DeleteRole? ==>
        var id := RunPipeline(req).value.id;
        && prisma.users == old(prisma.users)
        && (r.Ok? <==> id.Integer? && id.value in old(prisma.roles))
        && (r.Ok? ==> r == Ok(RoleBody(old(prisma.roles)[id.value])) && prisma.roles == old(prisma.roles) - {id.value})
        && (r.Err? ==> prisma.roles == old(prisma.roles))
        && (r.Err? ==> r.error == if id.Integer? then NotFound(RoleNotFound) else InvalidArgument)
    {
      var pipeline := RunPipeline(req);
      if pipeline.Err? {
        return Err(pipeline.error);
      }
      var call := pipeline.value;
      if IsQuery(call) {
        return Query(prisma.users, prisma.roles, bcrypt, jwt, call);
      }
      match call
      case CreateUser(dto) =>
        var created := usersService.CreateUser(dto, salt);
        r := MapResult(created, u => UserBody(u));
      case UpdateUser(id, dto) =>
        var updated := usersService.UpdateUser(id, dto, salt);
        r := MapResult(updated, ack => UpdateBody(ack));
      case DeleteUser(id) =>
        var deleted := usersService.DeleteUser(id);
        r := MapResult(deleted, u => UserBody(u));
      case ChangeRoleUser(id, roleId, requesterId) =>
        var changed := usersService.ChangeRoleUser(id, roleId, requesterId);
        r := MapResult(changed, u => UserBody(u));
      case CreateRole(dto) =>
        var role := rolesService.CreateRole(dto);
        r := Ok(RoleBody(role));
      case UpdateRole(id, dto) =>
        var updated := rolesService.UpdateRole(id, dto);
        r := MapResult(updated, role => RoleBody(role));
      case DeleteRole(id) =>
        var deleted := rolesService.DeleteRole(id);
        r := MapResult(deleted, role => RoleBody(role));
    }
  }
}
