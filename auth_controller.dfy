/**
 * AuthController.login: the one route without a guard. validateUser, then Unauthorized on a
 * falsy result, else the login response.
 */
module AuthController {
  import opened Common
  import opened Crypto
  import opened Store
  import opened Auth

  const BadCredentials := "Credenciales incorrectas"

  /** The login body: an email and a password, nothing else. */
  datatype LoginDto = LoginDto(email: string, password: string)

  /**
   * POST auth/login. It succeeds exactly when a stored user has the email and the password
   * matches its hash, and then answers with the login response of that user (whose token
   * carries that user's id). An unknown email is NotFound; a wrong password is Unauthorized.
   */
  function LoginRoute(users: map<int, User>, bcrypt: Bcrypt, jwt: JwtService, dto: LoginDto): (r: Result<LoginResponse>)
    requires UniqueEmails(users)
    ensures r.Ok? <==> exists i | i in users ::
      users[i].email == dto.email && bcrypt.compare(dto.password, users[i].password)
    ensures r.Ok? ==> exists i | i in users ::
      users[i].email == dto.email && r.value == Login(jwt, WithoutPassword(users[i]))
    ensures r.Err? ==>
      r.error == if exists i | i in users :: users[i].email == dto.email then Unauthorized(BadCredentials)
                 else NotFound(UserNotFound)
  {
    match ValidateUser(users, bcrypt, dto.email, dto.password)
    case Err(e) => Err(e)
    case Ok(None) => Err(Unauthorized(BadCredentials))
    case Ok(Some(user)) => Ok(Login(jwt, user))
  }

  /**
   * Registration and login agree: a stored user whose password field is the bcrypt hash of
   * `password` logs in with that email and password, and the token is signed for that user's id.
   */
  lemma StoredHashLogsIn(users: map<int, User>, bcrypt: Bcrypt, jwt: JwtService, i: int, password: string, salt: Salt)
    requires UniqueEmails(users) && Sound(bcrypt)
    requires i in users && users[i].password == bcrypt.hash(password, SaltRounds, salt)
    ensures var u := users[i];
      LoginRoute(users, bcrypt, jwt, LoginDto(u.email, password)) == Ok(Login(jwt, WithoutPassword(u)))
    ensures var u := users[i];
      LoginRoute(users, bcrypt, jwt, LoginDto(u.email, password)).value.accessToken
        == jwt.sign(Payload(u.username, u.id, u.roleId))
  {
    var u := users[i];
    assert bcrypt.compare(password, bcrypt.hash(password, SaltRounds, salt));
    var r := LoginRoute(users, bcrypt, jwt, LoginDto(u.email, password));
    assert r.Ok?;
    var j :| j in users && users[j].email == u.email && r.value == Login(jwt, WithoutPassword(users[j]));
    assert i == j;
  }
}
