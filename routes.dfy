/**
 * The routes of UsersController, RolesController and AuthController: the ordered guard list
 * each route declares, the short-circuiting run of those guards, and the service call each
 * handler forwards to once they pass.
 */
module Routes {
  import opened Common
  import opened Js
  import Guards
  import Users
  import Roles
  import AuthController

  /** The message Passport's JWT guard raises when the request carries no valid token. */
  const JwtUnauthorized := "Unauthorized"

  /** The message Nest raises when a guard returns false. */
  const GuardRefused := "Forbidden resource"

  datatype Guard = JwtAuthGuard | RolesGuard | SelfRoleGuard

  /** A route with its path parameter and body. */
  datatype Route =
    | UsersCreate(createUser: CreateUserDto)
    | UsersFindAll
    | UsersFindOne(id: string)
    | UsersUpdate(id: string, updateUser: Users.UpdateUserDto)
    | UsersRemove(id: string)
    | UsersChangeRole(id: string, changeRole: Users.UpdateRoleDto)
    | RolesCreate(createRole: Roles.CreateRoleDto)
    | RolesFindAll
    | RolesFindOne(id: string)
    | RolesUpdate(id: string, updateRole: UpdateRoleDto)
    | RolesRemove(id: string)
    | AuthLogin(login: AuthController.LoginDto)

  /** `request.user` is present exactly when the bearer token was accepted. */
  datatype Request = Request(user: Option<Guards.AuthUser>, route: Route)

  /**
   * The @UseGuards list of each route. Only deleting a user and changing a user's role are
   * role-gated; every other users route and every roles route needs authentication only;
   * login has no guard at all. The `roles` metadata set on the delete route is never read.
   */
  function GuardsFor(route: Route): (gs: seq<Guard>)
    ensures gs == [] <==> route.AuthLogin?
    ensures gs != [] ==> gs[0] == JwtAuthGuard
    ensures RolesGuard in gs <==> route.UsersRemove? || route.UsersChangeRole?
    ensures SelfRoleGuard in gs <==> route.UsersChangeRole?
    ensures forall i, j | 0 <= i < j < |gs| :: gs[i] != gs[j]
  {
    match route
    case UsersRemove(_) => [JwtAuthGuard, RolesGuard]
    case UsersChangeRole(_, _) => [JwtAuthGuard, RolesGuard, SelfRoleGuard]
    case AuthLogin(_) => []
    case _ => [JwtAuthGuard]
  }

  /** `request.params.id`, absent on routes without one. */
  function PathId(route: Route): Option<string> {
    match route
    case UsersFindOne(id) => Some(id)
    case UsersUpdate(id, _) => Some(id)
    case UsersRemove(id) => Some(id)
    case UsersChangeRole(id, _) => Some(id)
    case RolesFindOne(id) => Some(id)
    case RolesUpdate(id, _) => Some(id)
    case RolesRemove(id) => Some(id)
    case _ => None
  }

  /** One guard's canActivate. A guard that reads `request.user` when there is none fails with a TypeError. */
  function CanActivate(g: Guard, req: Request): Result<bool> {
    match g
    case JwtAuthGuard => if req.user.Some? then Ok(true) else Err(Unauthorized(JwtUnauthorized))
    case RolesGuard => if req.user.Some? then Guards.RolesGuard(req.user.value) else Err(TypeError)
    case SelfRoleGuard =>
      if req.user.Some? then Guards.SelfRoleGuard(req.user.value, PathId(req.route)) else Err(TypeError)
  }

  /** How Nest reads a guard's answer: true lets the request on, false is Forbidden, a throw is its exception. */
  function Denial(answer: Result<bool>): Option<Error> {
    match answer
    case Ok(allowed) => if allowed then None else Some(Forbidden(GuardRefused))
    case Err(e) => Some(e)
  }

  datatype Outcome = Pass | Fail(error: Error)

  /**
   * Runs the guards in order and stops at the first denial: the request passes exactly when
   * every guard lets it on, and a failure is the denial of the first guard that refused.
   */
  function RunGuards(gs: seq<Guard>, req: Request): (r: Outcome)
    ensures r.Pass? <==> forall i | 0 <= i < |gs| :: Denial(CanActivate(gs[i], req)).None?
    ensures r.Fail? ==> exists k | 0 <= k < |gs| ::
      && (forall i | 0 <= i < k :: Denial(CanActivate(gs[i], req)).None?)
      && Denial(CanActivate(gs[k], req)) == Some(r.error)
  {
    if gs == [] then Pass
    else
      match Denial(CanActivate(gs[0], req))
      case Some(e) => Fail(e)
      case None => RunGuards(gs[1..], req)
  }

  /** The service call a handler makes. */
  datatype ServiceCall =
    | CreateUser(createUser: CreateUserDto)
    | FindAllUsers
    | FindUserById(id: JsNumber)
    | UpdateUser(id: JsNumber, updateUser: Users.UpdateUserDto)
    | DeleteUser(id: JsNumber)
    | ChangeRoleUser(id: JsNumber, roleId: Option<int>, requesterId: int)
    | CreateRole(createRole: Roles.CreateRoleDto)
    | FindAllRoles
    | FindRoleById(id: JsNumber)
    | UpdateRole(id: JsNumber, updateRole: UpdateRoleDto)
    | DeleteRole(id: JsNumber)
    | ValidateAndLogin(login: AuthController.LoginDto)

  /** The id a service call carries, if any. */
  function CallId(call: ServiceCall): Option<JsNumber> {
    match call
    case FindUserById(id) => Some(id)
    case UpdateUser(id, _) => Some(id)
    case DeleteUser(id) => Some(id)
    case ChangeRoleUser(id, _, _) => Some(id)
    case FindRoleById(id) => Some(id)
    case UpdateRole(id, _) => Some(id)
    case DeleteRole(id) => Some(id)
    case _ => None
  }

  /** The handler bodies: ids go through unary `+`, bodies are passed on as they came. */
  function Forward(route: Route, user: Option<Guards.AuthUser>): (call: ServiceCall)
    requires route.UsersChangeRole? ==> user.Some?
    ensures route.UsersCreate? ==> call == CreateUser(route.createUser)
    ensures route.UsersFindAll? ==> call == FindAllUsers
    ensures route.UsersFindOne? ==> call == FindUserById(ToNumber(route.id))
    ensures route.UsersUpdate? ==> call == UpdateUser(ToNumber(route.id), route.updateUser)
    ensures route.UsersRemove? ==> call == DeleteUser(ToNumber(route.id))
    ensures route.UsersChangeRole? ==>
      call == ChangeRoleUser(ToNumber(route.id), route.changeRole.roleId, user.value.userId)
    ensures route.RolesCreate? ==> call == CreateRole(route.createRole)
    ensures route.RolesFindAll? ==> call == FindAllRoles
    ensures route.RolesFindOne? ==> call == FindRoleById(ToNumber(route.id))
    ensures route.RolesUpdate? ==> call == UpdateRole(ToNumber(route.id), route.updateRole)
    ensures route.RolesRemove? ==> call == DeleteRole(ToNumber(route.id))
    ensures route.AuthLogin? <==> call.ValidateAndLogin?
    ensures route.AuthLogin? ==> call.login == route.login
  {
    match route
    case UsersCreate(dto) => CreateUser(dto)
    case UsersFindAll => FindAllUsers
    case UsersFindOne(id) => FindUserById(ToNumber(id))
    case UsersUpdate(id, dto) => UpdateUser(ToNumber(id), dto)
    case UsersRemove(id) => DeleteUser(ToNumber(id))
    case UsersChangeRole(id, dto) => ChangeRoleUser(ToNumber(id), dto.roleId, user.value.userId)
    case RolesCreate(dto) => CreateRole(dto)
    case RolesFindAll => FindAllRoles
    case RolesFindOne(id) => FindRoleById(ToNumber(id))
    case RolesUpdate(id, dto) => UpdateRole(ToNumber(id), dto)
    case RolesRemove(id) => DeleteRole(ToNumber(id))
    case AuthLogin(dto) => ValidateAndLogin(dto)
  }

  /**
   * A request through its route's guards and on to its handler. Only login is reachable without
   * authentication; every path id reaches the service as its unary `+`; a role change carries
   * the body's roleId and the caller's own id as the requester.
   */
  function RunPipeline(req: Request): (r: Result<ServiceCall>)
    ensures r.Ok? <==> RunGuards(GuardsFor(req.route), req).Pass?
    ensures r.Err? ==> RunGuards(GuardsFor(req.route), req) == Fail(r.error)
    ensures r.Ok? ==> req.user.Some? || req.route.AuthLogin?
    ensures r.Ok? && PathId(req.route).Some? ==> CallId(r.value) == Some(ToNumber(PathId(req.route).value))
    ensures r.Ok? && req.route.UsersChangeRole? ==>
      r.value == ChangeRoleUser(ToNumber(req.route.id), req.route.changeRole.roleId, req.user.value.userId)
  {
    var gs := GuardsFor(req.route);
    match RunGuards(gs, req)
    case Fail(e) => Err(e)
    case Pass =>
      assert gs != [] ==> Denial(CanActivate(gs[0], req)).None?;
      Ok(Forward(req.route, req.user))
  }

  /** Every route but the two role-gated ones and login: authenticated callers pass, anyone else is Unauthorized. */
  lemma AuthenticationOnlyRoutes(req: Request)
    requires !req.route.UsersRemove? && !req.route.UsersChangeRole? && !req.route.AuthLogin?
    ensures RunPipeline(req) ==
      if req.user.Some? then Ok(Forward(req.route, req.user)) else Err(Unauthorized(JwtUnauthorized))
  {
    assert GuardsFor(req.route) == [JwtAuthGuard];
  }

  /** Deleting a user: authentication, then RolesGuard; the self check does not apply. */
  lemma UsersRemoveDecision(req: Request)
    requires req.route.UsersRemove?
    ensures RunPipeline(req) ==
      if req.user.None? then Err(Unauthorized(JwtUnauthorized))
      else if !Guards.Privileged(req.user.value.roleId)
      then Err(Forbidden(Guards.RolesGuardMessage(req.user.value.roleId)))
      else Ok(DeleteUser(ToNumber(req.route.id)))
  {
    var gs := GuardsFor(req.route);
    assert gs[1..] == [RolesGuard];
  }

  /**
   * Changing a user's role: authentication, then RolesGuard, then SelfRoleGuard, so a caller
   * without a privileged role is refused by RolesGuard whatever the target id.
   */
  lemma UsersChangeRoleDecision(req: Request)
    requires req.route.UsersChangeRole?
    ensures RunPipeline(req) ==
      if req.user.None? then Err(Unauthorized(JwtUnauthorized))
      else if !Guards.Privileged(req.user.value.roleId)
      then Err(Forbidden(Guards.RolesGuardMessage(req.user.value.roleId)))
      else if ToNumber(req.route.id) == Integer(req.user.value.userId) then Err(Forbidden(SelfRoleMessage))
      else Ok(ChangeRoleUser(ToNumber(req.route.id), req.route.changeRole.roleId, req.user.value.userId))
  {
    var gs := GuardsFor(req.route);
    assert gs[1..] == [RolesGuard, SelfRoleGuard];
    assert gs[1..][1..] == [SelfRoleGuard];
  }

  /** Login has no guard: it reaches its handler with or without a token. */
  lemma LoginIsPublic(req: Request)
    requires req.route.AuthLogin?
    ensures RunPipeline(req) == Ok(ValidateAndLogin(req.route.login))
  {
  }

  /** JwtAuthGuard always runs first, so no guard ever reads a missing `request.user`. */
  lemma NoPipelineRaisesTypeError(req: Request)
    ensures RunPipeline(req) != Err(TypeError)
  {
    if req.route.UsersRemove? {
      UsersRemoveDecision(req);
    } else if req.route.UsersChangeRole? {
      UsersChangeRoleDecision(req);
    } else if !req.route.AuthLogin? {
      AuthenticationOnlyRoutes(req);
    }
  }

  /** A caller whose roleId is 3 deleting any user is refused, and the message names roleId 3. */
  lemma OrdinaryCallerCannotDeleteUsers(userId: int, target: string)
    ensures RunPipeline(Request(Some(Guards.AuthUser(userId, 3)), UsersRemove(target)))
            == Err(Forbidden(Guards.RolesGuardPrefix + "3"))
  {
    UsersRemoveDecision(Request(Some(Guards.AuthUser(userId, 3)), UsersRemove(target)));
  }

  /** A privileged caller naming their own id in a role change is refused by SelfRoleGuard. */
  lemma PrivilegedCallerCannotChangeOwnRole(caller: Guards.AuthUser, body: Users.UpdateRoleDto)
    requires Guards.Privileged(caller.roleId)
    ensures RunPipeline(Request(Some(caller), UsersChangeRole(DecimalString(caller.userId), body)))
            == Err(Forbidden(SelfRoleMessage))
  {
    UsersChangeRoleDecision(Request(Some(caller), UsersChangeRole(DecimalString(caller.userId), body)));
    ToNumberOfDecimalString(caller.userId);
  }
}
