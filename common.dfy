/** Records and error kinds shared by the services, guards and controllers. */
module Common {

  datatype Option<+T> = None | Some(value: T)

  /** The exceptions the core raises, and the failures of the record store it relies on. */
  datatype Error =
    | NotFound(message: string)          // NotFoundException (404)
    | Forbidden(message: string)         // ForbiddenException (403)
    | Unauthorized(message: string)      // UnauthorizedException (401)
    | Conflict(message: string)          // ConflictException (409)
    | InvalidFields(fields: set<string>) // the plain Error thrown by updateUser for keys outside its allowlist
    | TypeError                          // a property read on `undefined`
    | UniqueConstraintFailed             // store: an insert or update would repeat a unique email or username
    | RecordNotFound                     // store: update or delete of a record that does not exist
    | InvalidArgument                    // store: an id that is not an integer (NaN, a fraction)

  datatype Result<+T> = Ok(value: T) | Err(error: Error)

  const UserNotFound := "User not found"
  const RoleNotFound := "Role not found"
  const SelfRoleMessage := "You cannot modify your own role."

  /** A user record as the store holds it; `password` is whatever string was stored (a bcrypt hash). */
  datatype User = User(id: int, username: string, email: string, password: string,
                       name: string, status: bool, roleId: int)

  /** A user record with the password field taken out (`UserType`). */
  datatype PublicUser = PublicUser(id: int, username: string, email: string,
                                   name: string, status: bool, roleId: int)

  /** `const { password, ...result } = user`: every field but the password, unchanged. */
  function WithoutPassword(u: User): (p: PublicUser)
    ensures p.id == u.id && p.username == u.username && p.email == u.email
    ensures p.name == u.name && p.status == u.status && p.roleId == u.roleId
  {
    PublicUser(u.id, u.username, u.email, u.name, u.status, u.roleId)
  }

  datatype Role = Role(id: int, description: string, status: bool)

  /**
   * The body of a user creation, which createUser hands to the store as it came once the
   * password is hashed; an omitted `status` takes the schema default, true.
   */
  datatype CreateUserDto = CreateUserDto(username: string, email: string, password: string, name: string,
                                         status: Option<bool>, roleId: int)

  /** The body of a role update, handed to the store as it came; `None` leaves the stored value as it is. */
  datatype UpdateRoleDto = UpdateRoleDto(description: Option<string>, status: Option<bool>)
}
