# hello_auth login decision, in Dafny

This project models the login logic of the small Flask application in
`hello_auth.py`:

- `User`, an account with an id, a name, an `active` flag and a stored bcrypt
  hash. It is a class, because its fields can be reassigned after
  construction.
- `USERS`, the table of accounts, and the two lookups over it:
  `user_from_name`, a case-insensitive linear search that returns the first
  match, and `load_user`, a lookup by id.
- `User.check_pw`, the guard chain in front of `bcrypt.checkpw`.
- The decision made by the `login_post` handler. Its rejections are tried in
  a fixed order: unknown user, then missing password, then wrong password.
  Every rejection gives the same redirect to `hello_world`. Only success
  reaches `login_user` and the redirect to the protected page.

Layout:

- `wrappers.dfy` (module `Wrappers`): `Option`, which stands for Python's
  value-or-`None`.
- `pystr.dfy` (module `PyStr`): the two string builtins the code relies on.
  `str.lower` is modelled on ASCII letters. `str.encode('utf-8')` is modelled
  in full, and its injectivity is proved.
- `hello_auth.dfy` (module `HelloAuth`): everything else.

Modelling choices:

- `bcrypt.checkpw` is a function-valued parameter `checkpw`. Nothing is
  assumed about it.
- The global `USERS` dictionary is passed as a parameter. It is a sequence of
  `(id, user)` pairs in insertion order, which is Python's dictionary
  iteration order.
- `InitUsers` builds the table the module creates at import time.
- A form field is an `Option<string>`. `None` is a field that was not sent.
- The `print` calls in the handler are I/O and are left out.

Two points about what the code does, and so what the model does:

- The code issues no session tokens of its own. Sessions are left to
  flask_login, which is not part of this model, so no token handling is
  modelled.
- A missing or empty name field crashes the handler instead of being
  rejected like every other bad login (see "## Findings").

## Model

| member | source | states |
|---|---|---|
| `HelloAuth.User.constructor` | hello_auth.py:25-36 | a user built without `active` is active; `get_id()` returns the id it was built with; name and hash are stored as given |
| `HelloAuth.User.CheckPw` | hello_auth.py:38-44 | a missing or empty hash gives `None` whatever the password; so does a missing or empty password; `True` is returned exactly when both are present and `checkpw` accepts the password, and `False` is never returned |
| `HelloAuth.FirstMatch` | hello_auth.py:54-56 | a user the search returns is in the table and its name matches the query up to case |
| `HelloAuth.UserLookup` | hello_auth.py:53-56 | `user_from_name` raises `AttributeError` exactly when the query is `None` and the table is not empty; a user it returns is in the table and matches the query up to case |
| `HelloAuth.UserFromName` | hello_auth.py:53-56 | the search loop returns what `UserLookup` defines: the first user whose lower-cased name equals the lower-cased query, `None` when there is none, and an `AttributeError` when the query is `None` and the table is not empty |
| `HelloAuth.FirstMatchIsFirst` | hello_auth.py:53-56 | a user found by name is in the table, matches the query up to case, and no earlier user in iteration order matches |
| `HelloAuth.FirstMatchNone` | hello_auth.py:53-56 | the lookup returns `None` exactly when no user's name matches the query up to case |
| `HelloAuth.FirstMatchUnique` | hello_auth.py:53-56 | when no two names agree up to case, any user whose name matches is the one returned |
| `HelloAuth.FirstMatchCaseInsensitive` | hello_auth.py:55 | two queries with the same lower-case form find the same user |
| `HelloAuth.LoadUser` | hello_auth.py:59-61 | returns a user exactly when the id is a key of the table; with unique keys, that key's user |
| `HelloAuth.LoadUserGetId` | hello_auth.py:59-61 | in a table filed by id, loading a user by its `get_id()` gives that user back |
| `HelloAuth.InitUsers` | hello_auth.py:47-50 | builds alice (id 1) and bob (id 2), active and with their stored hashes, filed under their ids; keys are distinct and names are unique up to case |
| `HelloAuth.FormPassword` | hello_auth.py:93 | the password is present exactly when the field was sent and is non-empty, and then it is the field's UTF-8 bytes |
| `HelloAuth.FormName` | hello_auth.py:94 | the name is `None` exactly when the field is missing or empty, and otherwise it is the field lower-cased |
| `HelloAuth.Decide` | hello_auth.py:96-106 | the ladder after the lookup: the exception exactly when the lookup raised; unknown user exactly when nobody was found; missing password exactly when a user was found and the password is falsy; invalid password exactly when the user's `check_pw` returns `None` on a present password; and success only for the found user, when `check_pw` returns `True` |
| `HelloAuth.Login` | hello_auth.py:93-106 | the handler raises exactly when the name field is missing or empty and the table is not empty; it logs in only a user of the table that has a stored hash, with a non-empty password whose UTF-8 bytes `checkpw` accepts |
| `HelloAuth.LoginPost` | hello_auth.py:91-106 | the handler's outcome is the decision the function `Login` defines: lookup, then the three rejections in order, then success |
| `HelloAuth.Respond` | hello_auth.py:96-106 | only a successful login redirects to the protected page; the three rejections share one redirect to `hello_world`; an exception is the only other response |
| `HelloAuth.LoginSucceedsExactly` | hello_auth.py:95-106 | login yields user `u` exactly when: the name is non-empty and finds `u` up to case; the password is non-empty; `u` has a stored hash; and `checkpw` accepts the encoded password |
| `HelloAuth.UnknownNameRejectedFirst` | hello_auth.py:95-98 | a non-empty name that matches no user is rejected as unknown, whatever the password, even a missing one |
| `HelloAuth.MissingPasswordRejectedSecond` | hello_auth.py:99-101 | a name that finds a user, with the password missing or empty, is rejected as a missing password, whatever the stored hash and `checkpw` |
| `HelloAuth.WrongPasswordRejectedThird` | hello_auth.py:102-104 | a name that finds user `u`, with a non-empty password, is rejected as an invalid password when `u` has no stored hash or `checkpw` rejects the password |
| `HelloAuth.LoginCaseInsensitive` | hello_auth.py:94-95 | two names with the same lower-case form lead to the same login outcome |
| `HelloAuth.MissingNameRaises` | hello_auth.py:94-95 | as written, a missing or empty name raises `AttributeError` on any non-empty table, and the client gets no redirect |
| `HelloAuth.LoginGuarded` | hello_auth.py:94-98 | the corrected ladder never raises and always redirects; it treats a missing or empty name as an unknown user and otherwise agrees with the code |
| `HelloAuth.LookupIgnoresCase` | test_hello.py:75-77 | on the initial table, looking up `ALICE` finds alice |
| `HelloAuth.LoadUserInitial` | hello_auth.py:50-61 | on the initial table, id 1 loads alice and an unused id loads nothing |
| `HelloAuth.LoginAliceCorrect` | test_hello.py:85-87 | `Alice` with the password her hash accepts logs alice in |
| `HelloAuth.LoginAliceWrong` | test_hello.py:89-91 | `Alice` with a password her hash rejects is an invalid password |
| `HelloAuth.LoginAliceNoPassword` | test_hello.py:93-95 | `Alice` without a password field is a missing password |
| `HelloAuth.LoginUnknownRando` | test_hello.py:97-99 | `Rando` is an unknown user, whatever the password |
| `HelloAuth.LoginNoNameRaises` | hello_auth.py:94-95 | on the initial table, a form without a name raises instead of redirecting |
| `PyStr.Lower` | hello_auth.py:55 | the result has the input's length and contains no upper-case letter |
| `PyStr.LowerFixesLowercase` | hello_auth.py:55 | a string without upper-case letters is left unchanged by lower-casing |
| `PyStr.LowerIdempotent` | hello_auth.py:94-95 | lower-casing twice equals lower-casing once, so the handler's extra `lower()` before `user_from_name` changes nothing |
| `PyStr.Utf8` | hello_auth.py:93 | the encoding of `n` characters has between `n` and `4n` bytes, so a non-empty password never encodes to empty bytes |
| `PyStr.Utf8Injective` | hello_auth.py:93 | different password strings never reach the hash check as the same bytes |
| `PyStr.AsciiBytes` | hello_auth.py:47-48 | a `b'...'` hash literal has one byte per character, equal to the character's code |

## Left out

- Session tokens: the code issues none. `login_user`, `logout_user` and the session cookie belong to flask_login, which is not part of this model. The `logout` route (hello_auth.py:109-114) is therefore not modelled.
- Flask plumbing is not modelled: routes, `redirect`/`url_for`, template rendering, the `app.config` flags (`LOGIN_DISABLED` and the others), `SECRET_KEY`, `login_required`, and the `secrets`, `hello_world` and `login` views. A redirect appears only as the `Response` constructor `Redirect(to)`, which `Respond` picks for each outcome.
- bcrypt is not modelled. Its hash comparison is the parameter `checkpw`. Its timing behaviour, and the `ValueError` it raises on a malformed hash, are library behaviour.
- PyStr.Lower: maps only `A`..`Z`; Python's `str.lower` also lower-cases non-ASCII letters and can change a string's length (for example `İ`), which this model does not capture.
- PyStr.Utf8: covers Unicode scalar values only; a lone surrogate, on which Python's `encode` raises, cannot occur in a Dafny string.
- The `print` logging at hello_auth.py:97-104 and hello_auth.py:112 is I/O only.
- `User.get_id` and `User.is_active` are plain accessors. Their contract is stated on the constructor rather than on themselves.
- The `id` of a user is an `int`, as in the table the module builds. Python accepts any hashable key. The type of the id that flask_login hands to `load_user` is not modelled.
- `USERS` is a parameter rather than a global. Python's dictionary hashing is modelled as a search over the ordered table, which gives the same result when keys are distinct.
- An uncaught exception is the outcome tag `UncaughtException`. How Flask turns it into a response (500, or re-raising in testing mode) is not modelled.

## Findings

| source | as written | input that shows it | evidently intended | confidence | as-written member | corrected member |
|---|---|---|---|---|---|---|
| hello_auth.py:94-95 | a missing or empty `name` field becomes `None` and is passed to `user_from_name`, whose first loop iteration evaluates `None.lower()` and raises `AttributeError` (hello_auth.py:55) | a login form with `pw=diffie_rulz` and no `name` field (or `name=""`), against the table of alice and bob | reject it like every other failed login: the handler answers an unknown user, a missing password and a wrong password with the same redirect to `hello_world` (hello_auth.py:96-104) | high; not executed | `HelloAuth.MissingNameRaises` | `HelloAuth.LoginGuarded` |
