# SecureAdmin backend: authentication and authorization core in Dafny

This project models the decision logic of the SecureAdmin NestJS backend. That logic covers:

- who may reach which route: the guard list of each route, JwtAuthGuard, RolesGuard and SelfRoleGuard;
- what the controllers forward to the services;
- what the user, role and auth services do to the record store.

The store is a class holding the user and role tables (`Store.Prisma`). The services are classes that share it. The services' lookups are functions of its tables. The guards, the guard pipeline and the controllers' forwarding are pure functions.

Modules, one per source component:

| module | file | models |
|---|---|---|
| `Common` | common.dfy | user and role records, the password-free `PublicUser`, the error kinds, the request bodies the services pass to the store unchanged |
| `Js` | js.dfy | unary `+` on a path parameter, `${n}` in a message, string truthiness |
| `Crypto` | crypto.dfy | bcrypt (`hash`, `compare`, cost 10) and `JwtService.sign`, as function values |
| `Store` | store.dfy | the Prisma tables: fresh ids, unique email and username, errors for an absent record and a non-integer id |
| `Guards` | guards.dfy | `RolesGuard.canActivate`, `SelfRoleGuard.canActivate` |
| `Users` | users_service.dfy | `UsersService` |
| `Roles` | roles_service.dfy | `RolesService` |
| `Auth` | auth_service.dfy | `AuthService` |
| `AuthController` | auth_controller.dfy | `AuthController.login` |
| `Routes` | routes.dfy | the `@UseGuards` lists of both resource controllers and of login, the guard run, the handlers' forwarding |
| `App` | app.dfy | a request through its guards into its service call |

Behaviour of the code that the model makes explicit:

- Only `DELETE users/:id` and `PUT users/:id/role` are role-gated. Every other users route and every roles route needs only a valid token, so any authenticated caller can create, update and delete roles. The same holds for users: any authenticated caller, whatever its roleId, can create a user with roleId 1 (`POST users`), and can set any user's username, email, name or password (`PUT users/:id`). The `roles` metadata on the delete route is never read.
- `PUT users/:id/role` runs JwtAuthGuard, RolesGuard, SelfRoleGuard in that order. A caller without role 1 or 2 is therefore refused by RolesGuard before the self check.
- `validateUser` looks the email up with `findByEmail`. An unknown email therefore fails with NotFound ("User not found"), not with Unauthorized. Only a wrong password reaches the `null` branch and the controller's "Credenciales incorrectas".
- `register` looks for an existing record with `findUnique({ where: { email, username } })`. That lookup matches only a record holding both values. So a conflict always cites the email, and the username conflict is never raised (`Auth.RegisterConflictOnlyOnBothFields`). A new username with an email already in use passes the check; the store's unique index then refuses the insert (`Auth.DuplicateEmailPassesConflictCheck`).
- `updateUser` builds its update field by field and hashes a new password before it inspects the body's keys. A body with any key outside `username`, `password`, `email`, `name` is refused before the store is written.
- A role change whose body has no `roleId` passes `undefined`, which the store ignores. The record then comes back unchanged.

- Path ids reach the guards and services through unary `+`, which accepts more than plain digits. So "1.0", " 1", "1e0" and "0x1" all name record 1: SelfRoleGuard refuses caller 1 on each of them, and the services act on record 1.
- The code has no password-reset flow, so none is modelled.

## Model

| member | source | states |
|---|---|---|
| `Common.WithoutPassword` | src/auth/auth.service.ts:27 | every field of the record but the password, unchanged |
| `Guards.RolesGuard` | src/auth/roles.guard.ts:8-19 | allows exactly when roleId is 1 or 2; never returns false; otherwise Forbidden with the message that names the roleId; reads only the caller's roleId |
| `Guards.RolesGuardMessageNamesRoleId` | src/auth/roles.guard.ts:15-18 | the Forbidden message is the fixed prefix followed by the roleId, which reads back exactly as the caller's roleId |
| `Guards.SelfRoleGuard` | src/auth/self-role.guard.ts:9-19 | Forbidden "You cannot modify your own role." exactly when `+params.id` equals the caller's userId; true otherwise; never false |
| `Guards.SelfRoleGuardRefusesOwnId` | src/auth/self-role.guard.ts:12-16 | a caller whose own id is the path id is refused |
| `Guards.SelfRoleGuardAllowsOtherIds` | src/auth/self-role.guard.ts:12-18 | any other integer path id is allowed |
| `Guards.SelfRoleGuardRefusesZeroFraction` | src/auth/self-role.guard.ts:12-16 | caller 1 naming "1.0" in the path is refused, because `+"1.0"` is 1 |
| `Guards.SelfRoleGuardAllowsNonNumeric` | src/auth/self-role.guard.ts:12-18 | a path id holding a character that occurs in no numeric string is NaN, so it is always allowed; white space, digits, signs, the point, hexadecimal digits, radix marks and the letters of "Infinity" do not qualify |
| `Js.ToNumber` | src/auth/self-role.guard.ts:12 | unary `+` on a string, on exact values: an integer only when every character is white space or can occur in a numeric string, so any other character gives NaN |
| `Js.ToNumberOfDigits` | src/users/users.controller.ts:175 | `+` on a non-empty string of decimal digits is its value |
| `Js.ToNumberOfDecimalString` | src/auth/self-role.guard.ts:12 | unary `+` on a printed integer gives that integer back |
| `Js.ToNumberOfZeroFraction` | src/auth/self-role.guard.ts:12 | `+"1.0"` is 1 |
| `Js.ToNumberOfFraction` | src/auth/self-role.guard.ts:12 | `+"1.5"` is not an integer |
| `Js.ToNumberOfSpacedDigit` | src/auth/self-role.guard.ts:12 | `+" 1"` is 1: white space at either end is trimmed |
| `Js.ToNumberOfHex` | src/auth/self-role.guard.ts:12 | `+"0x1"` is 1 |
| `Js.ToNumberOfExponent` | src/auth/self-role.guard.ts:12 | `+"1e0"` is 1 |
| `Js.ToNumberOfInfinity` | src/auth/self-role.guard.ts:12 | `+"Infinity"` is not an integer |
| `Js.ToNumberOfSignedHex` | src/auth/self-role.guard.ts:12 | `+"-0x1"` is NaN: a radix literal takes no sign |
| `Js.NatString` | src/auth/roles.guard.ts:17 | the printed form of a number is all digits, without leading zeros, and its value is the number |
| `Store.UserByEmailAndUsername` | src/auth/auth.service.ts:53-55 | the combined lookup finds a record exactly when one holds both the email and the username |
| `Users.FindUserById` | src/users/users.service.ts:43-49 | the record under the id when present; NotFound "User not found" when absent; a non-integer id is refused by the store |
| `Users.FindAllUsers` | src/users/users.service.ts:33-35 | exactly the stored records, password hashes included |
| `Users.FindByEmail` | src/users/users.service.ts:57-63 | a stored record holding the email exactly when one exists; NotFound "User not found" otherwise |
| `Users.UpdateDataEffect` | src/users/users.service.ts:75-93 | username, email and name change only to a non-empty body value; the password changes only to the bcrypt hash of the body's password; id, status and roleId never change |
| `Users.EmptyUpdateIsIdentity` | src/users/users.service.ts:78-93 | a body whose allowed fields are all empty or absent leaves the record as it was |
| `Users.UsersService.CreateUser` | src/users/users.service.ts:19-27 | the stored record carries the bcrypt hash of the password and the other fields as given, under a fresh id; a repeated email or username is refused and the table is unchanged |
| `Users.UsersService.UpdateUser` | src/users/users.service.ts:74-111 | keys outside the allowlist give "Invalid fields" listing them, before anything is written; otherwise the record becomes the update above and the answer is the id with "User updated successfully"; every error leaves the table unchanged |
| `Users.UsersService.DeleteUser` | src/users/users.service.ts:119-125 | NotFound when absent; otherwise removes exactly that record and returns it, all others unchanged |
| `Users.UsersService.ChangeRoleUser` | src/users/users.service.ts:135-149 | NotFound before the self check, then Forbidden when the id is the requester's; on success only the target's roleId changes |
| `Roles.DefaultStatus` | src/roles/roles.service.ts:15 | `status ?? true`: false only for an explicit false |
| `Roles.RolesService.CreateRole` | src/roles/roles.service.ts:11-18 | stores the description and the defaulted status under a fresh id; the body's roleId is ignored; other roles unchanged |
| `Roles.FindAllRoles` | src/roles/roles.service.ts:20-24 | every role, each with exactly the users whose roleId names it |
| `Roles.FindRoleById` | src/roles/roles.service.ts:26-35 | the role with its users when present; NotFound "Role not found" when absent |
| `Roles.RolesService.UpdateRole` | src/roles/roles.service.ts:37-42 | writes the given description and status; no existence check of its own, so an absent role is the store's RecordNotFound |
| `Roles.RolesService.DeleteRole` | src/roles/roles.service.ts:44-50 | NotFound when absent; otherwise removes only that role and returns it |
| `Auth.ValidateUser` | src/auth/auth.service.ts:24-31 | the user without password when the password matches the stored hash; null on a mismatch; NotFound for an unknown email |
| `Auth.Login` | src/auth/auth.service.ts:37-47 | message "Login successfully completed", a token signing exactly the user's username, id as `sub` and roleId, and the user as given |
| `Auth.Profile` | src/auth/auth.service.ts:88-90 | returns its argument unchanged |
| `Auth.RegisterConflict` | src/auth/auth.service.ts:53-64 | the conflict check raises only Conflict with the email or the username message, and only when a stored record shares the email or the username |
| `Auth.RegisterConflictOnlyOnBothFields` | src/auth/auth.service.ts:53-64 | a Conflict arises exactly when a record holds both the email and the username, and it always cites the email |
| `Auth.DuplicateEmailPassesConflictCheck` | src/auth/auth.service.ts:53-64 | a stored email under a different username raises no Conflict |
| `Auth.AuthService.Register` | src/auth/auth.service.ts:49-86 | Conflict from the check; after a passed check, UniqueConstraintFailed from the store exactly when a stored record shares the email or the username; otherwise a new record with the bcrypt hash of the password; the answer is "User successfully registered" with the record without its password |
| `AuthController.LoginRoute` | src/auth/auth.controller.ts:48-54 | succeeds exactly when a stored user has the email and the password matches, answering with that user's login response; a mismatch is Unauthorized "Credenciales incorrectas"; an unknown email is NotFound |
| `AuthController.StoredHashLogsIn` | src/auth/auth.service.ts:24-46 | given a sound bcrypt, a user stored with the hash of a password logs in with it, and the token is signed for that user's id |
| `Routes.GuardsFor` | src/users/users.controller.ts:51-208 | only user delete and role change carry RolesGuard, only role change carries SelfRoleGuard, JwtAuthGuard always comes first, and login alone has no guard |
| `Routes.RunGuards` | src/users/users.controller.ts:208 | the request passes exactly when every guard allows it; otherwise the error is that of the first guard that refused |
| `Routes.Forward` | src/users/users.controller.ts:54-212 | for each route, the service call its handler makes: a path id goes through `+`, a body is passed on as it came (create and update of users and roles), a role change forwards `+id`, the body's roleId and the caller's userId; login, and only login, forwards its body to validateUser; the roles handlers at roles.controller.ts:41-145 likewise |
| `Routes.RunPipeline` | src/users/users.controller.ts:108-212 | the request reaches its handler exactly when its guards all pass, and fails with the first refusing guard's error otherwise; only login passes without authentication; path ids reach the service through unary `+`; a role change forwards the body's roleId and the caller's userId |
| `Routes.AuthenticationOnlyRoutes` | src/roles/roles.controller.ts:39-144 | every roles route and every users route other than delete and role change passes exactly when the caller is authenticated, and forwards its arguments |
| `Routes.UsersRemoveDecision` | src/users/users.controller.ts:171-176 | delete: Unauthorized without a token, Forbidden naming the roleId for a role other than 1 or 2, else deleteUser of `+id` |
| `Routes.UsersChangeRoleDecision` | src/users/users.controller.ts:208-213 | role change: Unauthorized, then RolesGuard's Forbidden, then SelfRoleGuard's Forbidden, else changeRoleUser of `+id`, the body's roleId and the caller's userId |
| `Routes.LoginIsPublic` | src/auth/auth.controller.ts:27-54 | login reaches its handler with or without a token |
| `Routes.NoPipelineRaisesTypeError` | src/auth/roles.guard.ts:9-13 | no route's guards read a missing `request.user` |
| `Routes.OrdinaryCallerCannotDeleteUsers` | src/users/users.controller.ts:171-175 | a caller with roleId 3 deleting a user gets Forbidden whose message ends in "3" |
| `Routes.PrivilegedCallerCannotChangeOwnRole` | src/users/users.controller.ts:208-212 | a caller with role 1 or 2 naming their own id in a role change is refused by SelfRoleGuard |
| `App.Application.Handle` | src/users/users.controller.ts:51-213 | the users handlers here and the roles handlers at roles.controller.ts:39-145, each through its guards into its service: a request its guards refuse fails with that guard's error and leaves the store unchanged; a read-only call answers from the unchanged store; for each call that writes, the answer and the new tables follow from the old tables, errors included: a NaN path id is InvalidArgument on every id-taking write; an update refuses invalid keys first, then an absent record (RecordNotFound) or a clash (UniqueConstraintFailed), and otherwise patches the record; a delete is NotFound when absent, else the record goes and is the answer; a role change is NotFound, then Forbidden for the caller's own id, else alters only the target's roleId; a creation adds one record under a fresh id; each user write leaves the roles as they were, and each role write leaves the users as they were |

## Left out

- Token signing and verification: JwtAuthGuard and the JWT strategy are not part of this model. A request is authenticated when it carries `request.user` with a userId and a roleId. A missing or invalid token is Unauthorized "Unauthorized", the JWT guard's default.
- bcrypt internals and the JWT signature: both are function values (`Crypto.Bcrypt`, `Crypto.JwtService`). The random salt of each hash is a method argument. The model never assumes hashing is deterministic or injective. Only `StoredHashLogsIn` assumes that a password matches its own hash.
- Js.ToNumber: JavaScript numbers are 64-bit doubles, and the model reads numeric strings as exact values. Beyond 2^53, `+` rounds to a nearby double, and past about 1.8e308 it gives Infinity; the model keeps the exact integer. A fraction too small for a double is rounded away, so `+"1.0000000000000001"` is 1 in JavaScript (SelfRoleGuard refuses caller 1 on it) while the model reads it as no integer and allows it. A value below the smallest double underflows, so `+"1e-400"` is 0 in JavaScript and no integer in the model. Neither rounding, overflow nor underflow is modelled.
- Js.DecimalString: from 1e21 upward, `${n}` prints in exponent form ("1e+21"). The model always prints every digit. Role ids that large are not modelled.
- Values in the guards and bodies are integers and strings. A roleId or userId of another JavaScript type, and non-string values in an update body, are not modelled.
- Users.UsersService.UpdateUser: the error carries the set of rejected keys. The source's message lists them in the body's key order, joined by ", ".
- Users.UsersService.CreateUser: the source overwrites the password on the caller's body object in place. The model hashes into a copy, since nothing reads the body afterwards.
- Store.UserByEmailAndUsername: `findUnique` with both `email` and `username` in `where` relies on Prisma 5 or later. There, extra fields filter the unique lookup. Earlier Prisma versions reject that query, and the code does not pin a version. The model assumes the Prisma 5 behaviour.
- Prisma behaviour beyond the unique email and username, fresh ids, the errors for an absent record and a non-integer id, and the default `status` of a new user. Left out are `createdAt`, foreign keys (a roleId naming no role, deleting a role that users reference) and the refusal of body keys that are not columns.
- `register` is not exposed by any controller in this code. It is modelled as the service method alone, and its response is not part of `App`.
- Mail sending, bootstrap, module wiring, Swagger documentation and seeding carry no decision logic. async/await is modelled as sequential calls.
