# Mining statistics app: user directory, role and country tables, session gate

A Dafny model of the stateful core of a small Flask application that tracks
mining-sector statistics by country. The model covers four parts:

- **The user directory** (`user_model.dfy`). `users.csv` is a file that may
  be missing. Once present it holds the header and an ordered list of rows,
  held in the class `UserFile`. The model covers the first-run seeding, the
  exact-match lookup by `Username`, append-only registration with
  `UserID = row count + 1`, and resolving a user's `RoleID` to a role.
- **The fixed tables** (`role_model.dfy`, `country_model.dfy`). These are
  the three roles and the four countries, the first-match lookups over them,
  the sentinel `"No permissions"`, an `update_country` that stores nothing
  and reports success, and the column totals with their guarded average.
- **The session gate** (`flask_session.dfy`, `auth_decorators.dfy`, `auth_routes.dfy`).
  The session is a string map with the keys `user_id` and `role`. Login
  and logout change it; registration changes only users.csv. `login_required` and `admin_required`
  decide from it whether a view runs; `admin_required` admits every
  logged-in user, whatever the role.
- **The edit-country route** (`country_routes.dfy`). This is the ordered
  validation of the edit form, the call to `update_country`, and the copy
  of the submitted values onto the displayed country object.

Shared pieces: `lookup.dfy` is the first-match search behind every lookup.
`pytext.dfy` holds the Python built-ins the code relies on: `str.strip()`,
`int()` on a string, and `str()` on an id. `wrappers.dfy` holds Option and Result, and `flask_request.dfy` the submitted form.

The code has none of the following:
- a CSV-backed country store or column-name aliasing: countries are a
  hard-coded list;
- country create or delete;
- an `update_country` that stores anything: it changes nothing;
- a `Forbidden` outcome: `admin_required` never reads the role.

The inputs a request handler cannot see become parameters:
- the form, a map from field name to string;
- whether the request is a POST;
- Python's `float()`, a partial function from string to real.

## Model

| member | source | states |
|---|---|---|
| `Lookup.FindFirst` | models/role_model.py:24-29 | The result is None exactly when no element passes the test; otherwise it is the element at the first passing index. |
| `PyText.Strip` | routes/country_routes.py:46-49 | `str.strip()` removes only whitespace from the two ends. The result is empty exactly when every character is whitespace. Otherwise it starts and ends with a non-space. |
| `PyText.ParseInt` | models/user_model.py:58 | `int()` on a string: it succeeds exactly when, with the whitespace `int()` skips removed from both ends, what remains is an optional sign and between one and 4300 decimal digits (the default `sys.int_info.default_max_str_digits`; leading zeros count). The value is that of the digits, negated after `-`. `int()` does not skip U+001C..U+001F, which `str.strip()` does. |
| `PyText.ParseIntRejectsSeparator` | models/user_model.py:58 | A RoleID of U+001C followed by `1` strips to `1`, yet `int()` raises on it. |
| `PyText.ParseIntRejects` | routes/auth_routes.py:34 | `int()` raises on `abc`, `1.5`, a bare `+` and `- 5`. |
| `PyText.ParseIntRejectsLongLiteral` | models/user_model.py:58 | `int()` raises on a string of more than 4300 digits, with or without a minus sign. |
| `PyText.ParseIntSigned` | routes/auth_routes.py:34 | `int(" -42\n")` is -42: whitespace around the literal is skipped and a minus sign negates. |
| `PyText.ParseIntToStr` | models/user_model.py:45-49 | Reading back an id that csv.writer wrote as `str(n)` gives `n`, for every id of at most 4300 digits. |
| `PyText.IntToStrInjective` | models/user_model.py:45-49 | Two different ids are never written as the same string. |
| `RoleModel.AllRoles` | models/role_model.py:9-21 | Exactly three roles, with ids 1, 2, 3 in order and pairwise distinct names. |
| `RoleModel.GetRoleById` | models/role_model.py:23-29 | Gives the role with id `i` for `i` in 1..3, and None for every other id. |
| `RoleModel.GetPermissions` | models/role_model.py:31-37 | Gives the permissions of the role whose name equals the argument exactly, and `"No permissions"` when no name does. |
| `RoleModel.PermissionsExamples` | models/role_model.py:11-37 | `"Administrator"` gets full access. `"Guest"` gets `"No permissions"`. |
| `RoleModel.PermissionsOfRoleById` | models/role_model.py:10-37 | For every known id, the permissions found by that role's name are that role's permissions. |
| `CountryModel.AllCountries` | models/country_model.py:10-25 | The same four countries on every call, ids 1..4 in order, every GDP positive and every revenue non-negative. |
| `CountryModel.GetCountryById` | models/country_model.py:27-34 | Gives the country with id `i` for `i` in 1..4, and None for every other id. |
| `CountryModel.UpdateCountry` | models/country_model.py:36-50 | Always reports success. It stores nothing: the country list is a constant. |
| `CountryModel.TotalNonNegative` | models/country_model.py:56-57 | A column total over non-negative values is non-negative. |
| `CountryModel.StatsOf` | models/country_model.py:52-64 | The count is the number of countries and the totals are the column sums. When total GDP is positive, average times GDP equals revenue times 100; otherwise the average is 0, so there is no division by zero. |
| `CountryModel.GetCountriesStats` | models/country_model.py:52-64 | On the hard-coded list: 4 countries, GDP 440, revenue 44, average 10. |
| `CountryModel.AverageNonNegative` | models/country_model.py:63 | With no negative GDP or revenue, the guarded average is non-negative. |
| `UserModel.SeedUsers` | models/user_model.py:13-16 | Three rows with UserIDs 1, 2, 3, RoleIDs 1, 2, 3 and distinct usernames. |
| `UserModel.FindUser` | models/user_model.py:21-31 | Gives the first row whose Username equals the argument exactly, or None when no row does. |
| `UserModel.CreateThenGet` | models/user_model.py:33-50 | Round trip: after a name is registered, looking it up gives the new row, which has the given password and RoleID. |
| `UserModel.CreateKeepsOtherLookups` | models/user_model.py:47-50 | Appending a row does not change the lookup of any other name. |
| `UserModel.CreateKeepsIdsSequential` | models/user_model.py:45-49 | Appending the next row keeps row i (from 1) at UserID i. |
| `UserModel.CreateKeepsUsernamesDistinct` | models/user_model.py:35-50 | Appending a name that was not found keeps usernames distinct. |
| `UserModel.SequentialIdsAreUnique` | models/user_model.py:45-49 | Sequential UserIDs are pairwise distinct. |
| `UserModel.CreateKeepsTableInvariant` | models/user_model.py:33-50 | One create_user call, accepted or refused, keeps sequential ids and distinct names. |
| `UserModel.CreatesKeepTableInvariant` | models/user_model.py:33-50 | Any sequence of create_user calls keeps sequential ids and distinct names. |
| `UserModel.SeededTableKeepsUniqueIds` | models/user_model.py:13-49 | From the seeded table, after any sequence of create_user calls, row i has UserID i and no two rows share a UserID or a Username. |
| `UserModel.RoleOfUser` | models/user_model.py:52-61 | A user's RoleID resolves to a role exactly when `int()` accepts it and the id is 1..3; the role is the table's entry for that id. |
| `UserModel.SeedUserRoles` | models/user_model.py:13-16 | Each seeded account is found by its name and resolves to the role in the same position. |
| `UserModel.AppendLineAsWritten` | models/user_model.py:47-49 | The source's write in append mode, with no header, even when the file is missing. |
| `UserModel.HeaderlessFirstRegistration` | models/user_model.py:39-50 | With users.csv missing, the write as written leaves one line that is not the header. DictReader takes that line as the header, so the new user is not among the records. |
| `UserModel.AppendLineKeepsLines` | models/user_model.py:11-16 | The corrected write keeps the file equal to the header plus one line per row, so the new row is a record. |
| `UserModel.UserFile.InitUserFile` | models/user_model.py:7-19 | A missing file becomes the header plus the three seed rows; an existing file is left unchanged. |
| `UserModel.UserFile.GetUser` | models/user_model.py:21-31 | The loop returns exactly `FindUser` of the rows, and None when the file is missing. |
| `UserModel.UserFile.CreateUser` | models/user_model.py:33-50 | Succeeds exactly when the name is absent. On success it appends one row (next UserID, given fields, username@miningapp.com); otherwise nothing changes. The default role_id is 3. Keeps the table invariant. When users.csv is missing, it writes the header before the row: this is the corrected write from "## Findings", not the source's headerless write. |
| `UserModel.UserFile.GetUserRole` | models/user_model.py:52-61 | Gives the role of the user's RoleID when the user exists and the id is known; None when the user is missing, `int()` fails, or the id is unknown. |
| `FlaskSession.Session.Clear` | routes/auth_routes.py:49 | `session.clear()` leaves the session empty. |
| `AuthDecorators.LoginRequired` | auth_decorators.py:5-12 | The view runs exactly when `user_id` is in the session; otherwise the result is a redirect to `/login`. |
| `AuthDecorators.AdminRequired` | auth_decorators.py:14-24 | Decides every session exactly as `login_required` does. |
| `AuthDecorators.AdminIgnoresRole` | auth_decorators.py:16-23 | Changing the session's role never changes the admin gate's decision. |
| `AuthDecorators.NonAdministratorsPassAdmin` | auth_decorators.py:21-23 | A logged-in Investor or Researcher passes admin_required. |
| `AuthRoutes.Authenticate` | routes/auth_routes.py:31-32 | A login is accepted exactly when the user exists and its PasswordHash equals the password exactly. |
| `AuthRoutes.SessionRole` | routes/auth_routes.py:34-35 | The session role is the name of the role the RoleID names, or `Researcher` when it names none. There is none when `int()` raises. |
| `AuthRoutes.LongRoleIdRaises` | routes/auth_routes.py:14 | A register form may submit a RoleID of more than 4300 digits. For that user, `int()` raises in login and in `get_user_role`, so there is no session role and no role. |
| `AuthRoutes.SeparatorRoleIdRaises` | routes/auth_routes.py:14 | A register form may submit a RoleID of U+001C followed by `1`. For that user, `int()` raises in login and in `get_user_role`, so there is no session role and no role. |
| `AuthRoutes.RegisteredUserLogsIn` | routes/auth_routes.py:12-35 | A newly registered user logs in with the given password and, by default, the Researcher role. |
| `AuthRoutes.SeededInvestorLogin` | routes/auth_routes.py:31-35 | `investor01`/`hash456` logs in as Investor on the seeded table, and that session passes admin_required. |
| `AuthRoutes.AuthRegister` | routes/auth_routes.py:9-20 | Missing fields lead to a 400 response. A taken name adds nothing. A new name appends the user, with role_id defaulting to 3. |
| `AuthRoutes.AuthLogin` | routes/auth_routes.py:25-43 | On success, sets `user_id` to the username and `role` to the resolved name. Failed credentials leave the session unchanged. If the RoleID is not an integer, `user_id` is already set when `int()` raises. |
| `AuthRoutes.AuthLogout` | routes/auth_routes.py:47-51 | The session is empty afterwards, so login_required redirects. |
| `CountryRoutes.ValidateEdit` | routes/country_routes.py:45-72 | Five outcomes, in order. A blank name is rejected whatever the numbers. Then a GDP that `float()` rejects, then a revenue that `float()` rejects, then a negative value. Only a form that passes all four gives the stripped name, the parsed numbers and the stripped key_projects. |
| `CountryRoutes.MissingNumbersDefaultToZero` | routes/country_routes.py:47-48 | Missing GDP and revenue fields default to `'0'` and pass. |
| `CountryRoutes.CountryView.Assign` | routes/country_routes.py:82-85 | The displayed country's four fields become the submitted values; its id stays. |
| `CountryRoutes.EditCountry` | routes/country_routes.py:36-87 | An unknown id gives not-found and no update. A GET or a rejected form shows the stored values. `update_country` is called exactly when the form validates, with the validated values, and the displayed country then holds them. |

## Findings

| source | as written | input that shows it | evidently intended | confidence | as-written member | corrected member |
|---|---|---|---|---|---|---|
| models/user_model.py:47-49 | When users.csv is missing, `create_user` creates it in append mode and writes the new row with no header. | users.csv absent; `create_user("alice", "pw")` returns True. The file's only line is alice's row, which DictReader reads as the header. `get_user("alice")` then returns None, and a second registration of alice gets UserID 1 again. | Write the header first, as `init_user_file` does, so that the new row is a record. | low, not executed: app.py:18 creates the file at startup, so this needs the file to vanish while the app runs | `UserModel.AppendLineAsWritten`, `UserModel.HeaderlessFirstRegistration` | `UserModel.AppendLine`, `UserModel.AppendLineKeepsLines`, `UserModel.UserFile.CreateUser` |

## Left out

- Flask plumbing: templates, `flash`, `redirect`, `url_for`, `jsonify`, blueprints and app bootstrap. Flask keeps flash messages in the session, under a key of its own. The model leaves them out, so the decorators read the session and never write it.
- The GET branches of register and login. They only render a page and change no state.
- CSV details: quoting, newlines, a file that exists but is unreadable, and concurrent writers to users.csv. The model reads users.csv as the header plus typed rows.
- Flask's handling of an exception raised inside a view, including whether it saves a session that was partly written. `AuthLogin` stops at `RoleIdNotInteger` with `user_id` already written, as the statements order it.
- PyText.ParseInt: does not accept the underscores between digits or the non-ASCII decimal digits that Python's `int()` also accepts. Such RoleIDs come only from a hand-edited file or a crafted form. Any other non-ASCII character that is not whitespace makes both the model and `int()` reject. The digit limit is fixed at the default of 4300: a limit changed by `sys.set_int_max_str_digits` or `PYTHONINTMAXSTRDIGITS`, and the unlimited `int()` of Python releases before the limit, are not modelled.
- CountryRoutes.ValidateEdit: `float()` is a parameter that returns a real or None. NaN and positive infinity, which `float()` accepts and which pass the sign check in Python, are not representable.
- Floating-point rounding. GDP, revenue and the average are exact reals.
- The outer `except Exception` of edit_country (routes/country_routes.py:89-91). With `print` and rendering left out, nothing in its `try` block can raise except the two `float()` calls, and those have handlers of their own.
- The `UpdateFailed` branch. It is modelled, but with `print` left out it cannot happen, because `update_country` then always returns True. In the source it returns False only when one of its own `print` calls raises.
- A successful edit is not persisted. Only the displayed object changes; `GetCountryById` keeps returning the hard-coded values.
- The unguarded contribution divisions in the other country views (routes/country_routes.py:21, 108 and 124). `CountryModel.AllCountries` proves every GDP in the list positive, so they never divide by zero.
- The login_required and admin_required wrappers on edit_country are modelled separately in `AuthDecorators`. `EditCountry` is the view body after both gates have passed.
- Debug and test routes, the health check, `print` output, and the admin, mineral, map, home and stats routes. The stats route repeats `get_countries_stats`.
