/**
 * The two view decorators of auth_decorators.py. Each reads the session and
 * either calls the wrapped view or redirects to the login page; neither
 * writes the session, so each is a function of it.
 */
module AuthDecorators {
  import opened FlaskSession

  datatype Gate = CallView | RedirectTo(path: string)

  const LoginPath := "/login"

  /** login_required: the view runs exactly when the session has a user_id. */
  function LoginRequired(session: map<string, string>): (g: Gate)
    ensures g == CallView <==> UserIdKey in session
    ensures g != CallView ==> g == RedirectTo(LoginPath)
  {
    if UserIdKey !in session then RedirectTo(LoginPath) else CallView
  }

  /** admin_required: the same test as login_required; the role is never read. */
  function AdminRequired(session: map<string, string>): (g: Gate)
    ensures g == LoginRequired(session)
  {
    if UserIdKey !in session then RedirectTo(LoginPath) else CallView
  }

  /** Whatever the session says the role is, admin_required decides the same way. */
  lemma AdminIgnoresRole(session: map<string, string>, role: string)
    ensures AdminRequired(session[RoleKey := role]) == AdminRequired(session)
  {
    assert UserIdKey != RoleKey;
  }

  /** An Investor or a Researcher who is logged in passes admin_required. */
  lemma NonAdministratorsPassAdmin(username: string)
    ensures AdminRequired(map[UserIdKey := username, RoleKey := "Investor"]) == CallView
    ensures AdminRequired(map[UserIdKey := username, RoleKey := "Researcher"]) == CallView
  {
  }
}
