/** The session transitions of routes/auth_routes.py: register, login and logout, on POST. */
module AuthRoutes {
  import opened Wrappers
  import opened FlaskRequest
  import opened PyText
  import opened RoleModel
  import opened UserModel
  import opened FlaskSession
  import opened AuthDecorators

  const UsernameField := "username"
  const PasswordField := "password"
  const RoleIdField := "role_id"

  /** The role a login records when the user's RoleID names no role. */
  const FallbackRole := "Researcher"

  datatype RegisterOutcome =
    | Registered
    | UsernameTaken
      /** request.form['username'] or ['password'] is missing: Flask answers 400. */
    | RegisterBadRequest

  datatype LoginOutcome =
    | LoggedIn
    | InvalidCredentials
    | LoginBadRequest
      /** int() raised on the user's RoleID, after session['user_id'] was already written. */
    | RoleIdNotInteger

  /** The row a login accepts: the user exists and its PasswordHash equals the password exactly. */
  function Authenticate(rows: seq<User>, username: string, password: string): (r: Option<User>)
    ensures r.Some? <==> FindUser(rows, username).Some? && FindUser(rows, username).value.passwordHash == password
    ensures r.Some? ==> r == FindUser(rows, username) && r.value.username == username
  {
    var user := FindUser(rows, username);
    if user.Some? && user.value.passwordHash == password then user else None
  }

  /** What a login writes to session['role']; None where int() raises on the RoleID. */
  function SessionRole(u: User): (r: Option<string>)
    ensures r.None? <==> ParseInt(u.roleId).None?
    ensures r.Some? && RoleOfUser(u).Some? ==> r.value == RoleOfUser(u).value.roleName
    ensures r.Some? && RoleOfUser(u).None? ==> r.value == FallbackRole
  {
    match ParseInt(u.roleId)
    case None => None
    case Some(id) =>
      var role := GetRoleById(id);
      Some(if role.Some? then role.value.roleName else FallbackRole)
  }

  /**
   * A RoleID with an information separator in front, which a register form
   * may submit: int() raises on it, so the login stops after writing user_id
   * and the user has no role.
   */
  lemma SeparatorRoleIdRaises(u: User)
    requires u.roleId == "\U{1C}1"
    ensures SessionRole(u) == None && RoleOfUser(u) == None
  {
    ParseIntRejectsSeparator();
  }

  /**
   * A RoleID of more than MaxStrDigits digits, which a register form may
   * submit: int() raises on it, so the login stops after writing user_id and
   * the user has no role.
   */
  lemma LongRoleIdRaises(u: User)
    requires |u.roleId| > MaxStrDigits && AllDigits(u.roleId)
    ensures SessionRole(u) == None && RoleOfUser(u) == None
  {
    ParseIntRejectsLongLiteral(u.roleId);
  }

  /** A user who just registered can log in with the password given, under the default Researcher role. */
  lemma RegisteredUserLogsIn(rows: seq<User>, username: string, password: string)
    requires FindUser(rows, username).None?
    ensures var u := NewUser(rows, username, password, DefaultRoleId);
      && Authenticate(rows + [u], username, password) == Some(u)
      && SessionRole(u) == Some("Researcher")
  {
    CreateThenGet(rows, username, password, DefaultRoleId);
    ParseIntToStr(3);
  }

  /** On the seeded table, investor01 logs in as an Investor, whom admin_required then admits. */
  lemma SeededInvestorLogin()
    ensures Authenticate(SeedUsers(), "investor01", "hash456") == Some(SeedUsers()[1])
    ensures SessionRole(SeedUsers()[1]) == Some("Investor")
    ensures AdminRequired(map[UserIdKey := "investor01", RoleKey := "Investor"]) == CallView
  {
    SeedUserRoles(1);
  }

  /** auth_register (POST): create_user with the form's fields, role_id defaulting to 3. */
  method AuthRegister(users: UserFile, form: Form) returns (outcome: RegisterOutcome)
    requires users.Valid()
    modifies users
    ensures users.Valid()
    ensures outcome == RegisterBadRequest <==> UsernameField !in form || PasswordField !in form
    ensures outcome == UsernameTaken <==>
      UsernameField in form && PasswordField in form && FindUser(old(users.rows), form[UsernameField]).Some?
    ensures outcome == Registered ==>
      users.rows == old(users.rows) + [NewUser(old(users.rows), form[UsernameField], form[PasswordField], FormGet(form, RoleIdField, DefaultRoleId))]
    ensures outcome != Registered ==> users.rows == old(users.rows) && users.fileExists == old(users.fileExists)
  {
    if UsernameField !in form || PasswordField !in form {
      return RegisterBadRequest;
    }
    var created := users.CreateUser(form[UsernameField], form[PasswordField], FormGet(form, RoleIdField, DefaultRoleId));
    outcome := if created then Registered else UsernameTaken;
  }

  /**
   * auth_login (POST): on an exact password match, session['user_id'] is the
   * username and session['role'] the role name of the RoleID, or Researcher
   * when that id names no role.
   */
  method AuthLogin(users: UserFile, session: Session, form: Form) returns (outcome: LoginOutcome)
    requires users.Valid()
    modifies session
    ensures outcome == LoginBadRequest <==> UsernameField !in form || PasswordField !in form
    ensures outcome == InvalidCredentials <==>
      UsernameField in form && PasswordField in form && Authenticate(users.rows, form[UsernameField], form[PasswordField]).None?
    ensures outcome == LoggedIn || outcome == RoleIdNotInteger ==>
      && UsernameField in form && PasswordField in form
      && var user := Authenticate(users.rows, form[UsernameField], form[PasswordField]);
      && user.Some?
      && (outcome == LoggedIn <==> SessionRole(user.value).Some?)
      && session.data == if outcome == LoggedIn
                         then old(session.data)[UserIdKey := form[UsernameField]][RoleKey := SessionRole(user.value).value]
                         else old(session.data)[UserIdKey := form[UsernameField]]
    ensures outcome == LoginBadRequest || outcome == InvalidCredentials ==> session.data == old(session.data)
  {
    if UsernameField !in form || PasswordField !in form {
      return LoginBadRequest;
    }
    var username, password := form[UsernameField], form[PasswordField];
    var user := users.GetUser(username);
    if user.Some? && user.value.passwordHash == password {
      session.Set(UserIdKey, username);
      var id := ParseInt(user.value.roleId);
      if id.None? {
        return RoleIdNotInteger;
      }
      var role := GetRoleById(id.value);
      session.Set(RoleKey, if role.Some? then role.value.roleName else FallbackRole);
      return LoggedIn;
    }
    return InvalidCredentials;
  }

  /** auth_logout: the session is emptied, so login_required turns the next request away. */
  method AuthLogout(session: Session)
    modifies session
    ensures session.data == map[]
    ensures LoginRequired(session.data) == RedirectTo(LoginPath)
  {
    session.Clear();
  }
}
