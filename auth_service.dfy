/**
 * AuthService: credential check, token payload and login response, registration, profile.
 */
module Auth {
  import opened Common
  import opened Crypto
  import opened Store
  import opened Users

  const LoginMessage := "Login successfully completed"
  const RegisteredMessage := "User successfully registered"
  const EmailTaken := "Correo electrónico ya registrado"
  const UsernameTaken := "Nombre de usuario ya registrado"

  datatype RegisterDto = RegisterDto(email: string, password: string, name: string, username: string, roleId: int)

  datatype LoginResponse = LoginResponse(message: string, accessToken: string, user: PublicUser)

  datatype RegisterResponse = RegisterResponse(message: string, user: PublicUser)

  /**
   * validateUser: the record found by email, without its password, when the password matches
   * the stored hash; None on a mismatch. An unknown email is NotFound from findByEmail, not None.
   */
  function ValidateUser(users: map<int, User>, bcrypt: Bcrypt, email: string, pass: string): (r: Result<Option<PublicUser>>)
    requires UniqueEmails(users)
    ensures r.Err? <==> forall i | i in users :: users[i].email != email
    ensures r.Err? ==> r.error == NotFound(UserNotFound)
    ensures r.Ok? && r.value.Some? ==> exists i | i in users ::
      users[i].email == email && bcrypt.compare(pass, users[i].password) && r.value.value == WithoutPassword(users[i])
    ensures r.Ok? && r.value.None? ==> exists i | i in users ::
      users[i].email == email && !bcrypt.compare(pass, users[i].password)
  {
    match FindByEmail(users, email)
    case Err(e) => Err(e)
    case Ok(u) => if bcrypt.compare(pass, u.password) then Ok(Some(WithoutPassword(u))) else Ok(None)
  }

  /** login: the message, a token signing exactly the user's username, id (as `sub`) and roleId, and the user as given. */
  function Login(jwt: JwtService, user: PublicUser): (r: LoginResponse)
    ensures r.message == LoginMessage && r.user == user
    ensures r.accessToken == jwt.sign(Payload(r.user.username, r.user.id, r.user.roleId))
  {
    var payload := Payload(user.username, user.id, user.roleId);
    LoginResponse(LoginMessage, jwt.sign(payload), user)
  }

  /** profile: answers with the user it is given. */
  function Profile(user: PublicUser): (r: PublicUser)
    ensures r == user
  {
    user
  }

  /**
   * The conflict check of register, on the record that findUnique({ where: { email, username } })
   * returns: the email test comes first.
   */
  function RegisterConflict(users: map<int, User>, dto: RegisterDto): (r: Option<Error>)
    requires UniqueEmails(users)
    ensures r.Some? ==> r.value == Conflict(EmailTaken) || r.value == Conflict(UsernameTaken)
    ensures r.Some? ==> exists i | i in users :: users[i].email == dto.email || users[i].username == dto.username
  {
    match UserByEmailAndUsername(users, dto.email, dto.username)
    case None => None
    case Some(existing) =>
      if existing.email == dto.email then Some(Conflict(EmailTaken))
      else if existing.username == dto.username then Some(Conflict(UsernameTaken))
      else None
  }

  /**
   * Because the lookup matches only a record holding both the email and the username, a
   * conflict is raised exactly when such a record exists, and it always cites the email:
   * the username conflict is never raised.
   */
  lemma RegisterConflictOnlyOnBothFields(users: map<int, User>, dto: RegisterDto)
    requires UniqueEmails(users)
    ensures RegisterConflict(users, dto).Some? <==>
      exists i | i in users :: users[i].email == dto.email && users[i].username == dto.username
    ensures RegisterConflict(users, dto).Some? ==> RegisterConflict(users, dto) == Some(Conflict(EmailTaken))
    ensures RegisterConflict(users, dto) != Some(Conflict(UsernameTaken))
  {
    var found := UserByEmailAndUsername(users, dto.email, dto.username);
    if found.Some? {
      assert found.value.email == dto.email;
    }
  }

  /** A stored email under another username passes the conflict check (the store's unique index refuses it later). */
  lemma DuplicateEmailPassesConflictCheck(users: map<int, User>, dto: RegisterDto, i: int)
    requires UniqueEmails(users)
    requires i in users && users[i].email == dto.email && users[i].username != dto.username
    ensures RegisterConflict(users, dto) == None
  {
    RegisterConflictOnlyOnBothFields(users, dto);
  }

  class AuthService {
    const prisma: Prisma
    const bcrypt: Bcrypt

    constructor (prisma: Prisma, bcrypt: Bcrypt)
      ensures this.prisma == prisma && this.bcrypt == bcrypt
    {
      this.prisma := prisma;
      this.bcrypt := bcrypt;
    }

    /**
     * register: conflict check, then the hash of the password, then the insert; the answer
     * carries the new record without its password.
     */
    method Register(dto: RegisterDto, salt: Salt) returns (r: Result<RegisterResponse>)
      requires prisma.Valid()
      modifies prisma
      ensures prisma.Valid() && prisma.roles == old(prisma.roles)
      ensures RegisterConflict(old(prisma.users), dto).Some? ==>
        r == Err(RegisterConflict(old(prisma.users), dto).value)
      ensures RegisterConflict(old(prisma.users), dto).None? ==>
        (r.Err? <==> exists j | j in old(prisma.users) ::
           old(prisma.users)[j].email == dto.email || old(prisma.users)[j].username == dto.username)
      ensures RegisterConflict(old(prisma.users), dto).None? && r.Err? ==> r == Err(UniqueConstraintFailed)
      ensures r.Err? ==> prisma.users == old(prisma.users)
      ensures r.Ok? ==>
        var id := r.value.user.id;
        var stored := User(id, dto.username, dto.email, bcrypt.hash(dto.password, SaltRounds, salt),
                           dto.name, true, dto.roleId);
        && r.value == RegisterResponse(RegisteredMessage, WithoutPassword(stored))
        && id !in old(prisma.users)
        && prisma.users == old(prisma.users)[id := stored]
    {
      var conflict := RegisterConflict(prisma.users, dto);
      if conflict.Some? {
        return Err(conflict.value);
      }
      var hashedPassword := bcrypt.hash(dto.password, SaltRounds, salt);
      var created := prisma.CreateUser(CreateUserDto(dto.username, dto.email, hashedPassword, dto.name, None, dto.roleId));
      if created.Err? {
        return Err(created.error);
      }
      r := Ok(RegisterResponse(RegisteredMessage, WithoutPassword(created.value)));
    }
  }
}
