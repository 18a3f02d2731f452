/**
 * The login decision procedure of hello_auth.py: the `User` record, the
 * `USERS` table, the case-insensitive name lookup, the id lookup used to
 * reload a session's user, and the rejection ladder of the login form.
 *
 * `bcrypt.checkpw` is not modelled: every operation that needs it takes it
 * as the parameter `checkpw`, about which nothing is assumed.
 */
module HelloAuth {
  import opened Wrappers
  import opened PyStr

  // ---------------------------------------------------------------------------
  // Users
  // ---------------------------------------------------------------------------

  /** Python's truthiness of a `bytes`-or-`None` value. */
  predicate Truthy(b: Option<seq<byte>>) {
    b.Some? && |b.value| > 0
  }

  /** What `check_pw` returns: `None` or `True` (it never returns `False`). */
  datatype PwCheck = ReturnedNone | ReturnedTrue

  /** An account. Its fields stay assignable after construction. */
  class User {
    var id: int
    var name: string
    var active: bool
    var passhash: Option<seq<byte>>

    constructor (name: string, id: int, active: bool := true,
                 passhash: Option<seq<byte>> := None)
      ensures this.name == name && this.passhash == passhash
      ensures GetId() == id && IsActive() == active
    {
      this.id := id;
      this.name := name;
      this.active := active;
      this.passhash := passhash;
    }

    function GetId(): int
      reads this
    {
      id
    }

    predicate IsActive()
      reads this
    {
      active
    }

    /**
     * A missing or empty stored hash, then a missing or empty password, give
     * `None`; otherwise `True` exactly when `checkpw` accepts the password.
     */
    function CheckPw(password: Option<seq<byte>>,
                     checkpw: (seq<byte>, seq<byte>) -> bool): (r: PwCheck)
      reads this
      ensures !Truthy(passhash) ==> r == ReturnedNone
      ensures !Truthy(password) ==> r == ReturnedNone
      ensures r == ReturnedTrue <==>
                Truthy(passhash) && Truthy(password) &&
                checkpw(password.value, passhash.value)
    {
      if !Truthy(passhash) then ReturnedNone
      else if !Truthy(password) then ReturnedNone
      else if checkpw(password.value, passhash.value) then ReturnedTrue
      else ReturnedNone
    }
  }

  /** The `USERS` dictionary: id keys to users, in insertion order. */
  type Table = seq<(int, User)>

  /** The users a table refers to. */
  function Accounts(t: Table): set<User> {
    set e | e in t :: e.1
  }

  /** Dictionary keys are unique. */
  predicate DistinctKeys(t: Table) {
    forall i, j :: 0 <= i < j < |t| ==> t[i].0 != t[j].0
  }

  /** Every user is filed under its own id, as in `USERS = {1: alice, 2: bob}`. */
  predicate KeyedById(t: Table)
    reads Accounts(t)
  {
    forall i :: 0 <= i < |t| ==> t[i].0 == t[i].1.id
  }

  /** No two users share a name up to case. */
  predicate UniqueNames(t: Table)
    reads Accounts(t)
  {
    forall i, j :: 0 <= i < j < |t| ==> Lower(t[i].1.name) != Lower(t[j].1.name)
  }

  /** The test `user.name.lower() == search_name.lower()`. */
  predicate NameMatches(u: User, q: string)
    reads u
  {
    Lower(u.name) == Lower(q)
  }

  /** The first user of the table whose name matches `q` up to case. */
  function FirstMatch(t: Table, q: string): (r: Option<User>)
    reads Accounts(t)
    ensures r.Some? ==> r.value in Accounts(t) && NameMatches(r.value, q)
  {
    if t == [] then None
    else if NameMatches(t[0].1, q) then Some(t[0].1)
    else FirstMatch(t[1..], q)
  }

  /** Every outcome of a call to `user_from_name`. */
  datatype Lookup = Found(user: User) | NotFound | RaisedAttributeError

  /**
   * `user_from_name(search_name)`: with `search_name` `None`, the first loop
   * iteration evaluates `None.lower()` and raises; an empty table never
   * reaches it and returns `None`.
   */
  function UserLookup(t: Table, searchName: Option<string>): (r: Lookup)
    reads Accounts(t)
    ensures r == RaisedAttributeError <==> searchName.None? && t != []
    ensures r.Found? ==> searchName.Some? && r.user in Accounts(t) &&
                         NameMatches(r.user, searchName.value)
  {
    if searchName.None? then
      if t == [] then NotFound else RaisedAttributeError
    else
      match FirstMatch(t, searchName.value)
      case Some(u) => Found(u)
      case None => NotFound
  }

  /** `user_from_name`: an early-return search over the table. */
  method UserFromName(t: Table, searchName: Option<string>) returns (r: Lookup)
    ensures r == UserLookup(t, searchName)
  {
    var i := 0;
    while i < |t|
      invariant 0 <= i <= |t|
      invariant searchName.None? ==> i == 0
      invariant searchName.Some? ==>
                  FirstMatch(t, searchName.value) == FirstMatch(t[i..], searchName.value)
    {
      var user := t[i].1;
      if searchName.None? {
        return RaisedAttributeError;
      }
      if Lower(user.name) == Lower(searchName.value) {
        return Found(user);
      }
      assert t[i..][1..] == t[i + 1..];
      i := i + 1;
    }
    return NotFound;
  }

  /**
   * A user found by name is in the table, matches the query up to case and
   * is the first that does.
   */
  lemma {:induction false} FirstMatchIsFirst(t: Table, q: string, u: User)
    requires FirstMatch(t, q) == Some(u)
    ensures exists i :: 0 <= i < |t| && t[i].1 == u && NameMatches(u, q) &&
                        forall j :: 0 <= j < i ==> !NameMatches(t[j].1, q)
  {
    if NameMatches(t[0].1, q) {
      assert t[0].1 == u;
    } else {
      FirstMatchIsFirst(t[1..], q, u);
      var i :| 0 <= i < |t[1..]| && t[1..][i].1 == u && NameMatches(u, q) &&
               forall j :: 0 <= j < i ==> !NameMatches(t[1..][j].1, q);
      assert t[i + 1].1 == u;
      assert forall j :: 1 <= j < i + 1 ==> t[j] == t[1..][j - 1];
    }
  }

  /** The lookup finds nobody exactly when no user's name matches. */
  lemma {:induction false} FirstMatchNone(t: Table, q: string)
    ensures FirstMatch(t, q) == None <==>
              forall i :: 0 <= i < |t| ==> !NameMatches(t[i].1, q)
  {
    if t != [] {
      FirstMatchNone(t[1..], q);
      assert forall i :: 1 <= i < |t| ==> t[i] == t[1..][i - 1];
    }
  }

  /** When names are unique up to case, any matching user is the one found. */
  lemma {:induction false} FirstMatchUnique(t: Table, q: string, i: nat)
    requires UniqueNames(t)
    requires i < |t| && NameMatches(t[i].1, q)
    ensures FirstMatch(t, q) == Some(t[i].1)
  {
    if i > 0 {
      assert !NameMatches(t[0].1, q) by {
        assert Lower(t[0].1.name) != Lower(t[i].1.name);
      }
      assert UniqueNames(t[1..]) by {
        forall a, b | 0 <= a < b < |t[1..]|
          ensures Lower(t[1..][a].1.name) != Lower(t[1..][b].1.name)
        {
          assert t[1..][a] == t[a + 1] && t[1..][b] == t[b + 1];
        }
      }
      FirstMatchUnique(t[1..], q, i - 1);
    }
  }

  /** The lookup sees its query only through its lower-case form. */
  lemma {:induction false} FirstMatchCaseInsensitive(t: Table, a: string, b: string)
    requires Lower(a) == Lower(b)
    ensures FirstMatch(t, a) == FirstMatch(t, b)
  {
    if t != [] {
      FirstMatchCaseInsensitive(t[1..], a, b);
    }
  }

  /** `load_user(user_id)`: `USERS.get(user_id)`. */
  function LoadUser(t: Table, userId: int): (r: Option<User>)
    ensures r.Some? <==> exists i :: 0 <= i < |t| && t[i].0 == userId
    ensures DistinctKeys(t) ==>
              forall i :: 0 <= i < |t| && t[i].0 == userId ==> r == Some(t[i].1)
  {
    if t == [] then None
    else if t[0].0 == userId then Some(t[0].1)
    else
      var r := LoadUser(t[1..], userId);
      assert forall i :: 1 <= i < |t| ==> t[i] == t[1..][i - 1];
      r
  }

  /** Reloading a user by the id `get_id` reports gives the same user back. */
  lemma LoadUserGetId(t: Table, i: nat)
    requires DistinctKeys(t) && KeyedById(t) && i < |t|
    ensures LoadUser(t, t[i].1.GetId()) == Some(t[i].1)
  {
  }

  // ---------------------------------------------------------------------------
  // The fixed table
  // ---------------------------------------------------------------------------

  /** The stored hash of alice's password `diffie_rulz`. */
  const AliceHash: seq<byte> := AsciiBytes("$2b$12$6UcECs.N2rNgOJGMgK3L8O5woOSOEAyuxdCvblrVatJNRVPHTnsx6")

  /** The stored hash of bob's password `prng_nonce`. */
  const BobHash: seq<byte> := AsciiBytes("$2b$12$UmgXcHWoxlIsrEoT54LMHeb82OVkkLzPzxVni5.GyaN17JmabRSXO")

  /** The shape of `USERS = {1: alice, 2: bob}`. */
  predicate IsInitialTable(t: Table)
    reads Accounts(t)
  {
    |t| == 2 && t[0].0 == 1 && t[1].0 == 2 &&
    t[0].1.name == "Alice" && t[0].1.id == 1 && t[0].1.active &&
    t[0].1.passhash == Some(AliceHash) &&
    t[1].1.name == "Bob" && t[1].1.id == 2 && t[1].1.active &&
    t[1].1.passhash == Some(BobHash)
  }

  /** Builds alice and bob and files them under their ids. */
  method InitUsers() returns (t: Table)
    ensures IsInitialTable(t) && fresh(t[0].1) && fresh(t[1].1) && t[0].1 != t[1].1
    ensures DistinctKeys(t) && KeyedById(t) && UniqueNames(t)
  {
    var alice := new User("Alice", 1, passhash := Some(AliceHash));
    var bob := new User("Bob", 2, passhash := Some(BobHash));
    t := [(1, alice), (2, bob)];
  }

  // The initial table, driven through the branches the tests exercise.

  lemma LookupIgnoresCase(t: Table)
    requires IsInitialTable(t)
    ensures FirstMatch(t, "ALICE") == Some(t[0].1)
  {
    assert Lower("ALICE") == "alice" == Lower("Alice");
  }

  lemma LoadUserInitial(t: Table)
    requires IsInitialTable(t)
    ensures LoadUser(t, 1) == Some(t[0].1) && LoadUser(t, 3) == None
  {
  }

  lemma LoginAliceCorrect(t: Table, checkpw: (seq<byte>, seq<byte>) -> bool)
    requires IsInitialTable(t)
    ensures checkpw(Utf8("diffie_rulz"), AliceHash) ==>
              Login(t, Form(Some("Alice"), Some("diffie_rulz")), checkpw) == LoggedIn(t[0].1)
  {
  }

  lemma LoginAliceWrong(t: Table, checkpw: (seq<byte>, seq<byte>) -> bool)
    requires IsInitialTable(t)
    ensures !checkpw(Utf8("diffie_rulz_wrong"), AliceHash) ==>
              Login(t, Form(Some("Alice"), Some("diffie_rulz_wrong")), checkpw) == InvalidPassword
  {
  }

  lemma LoginAliceNoPassword(t: Table, checkpw: (seq<byte>, seq<byte>) -> bool)
    requires IsInitialTable(t)
    ensures Login(t, Form(Some("Alice"), None), checkpw) == MissingPassword
  {
  }

  lemma LoginUnknownRando(t: Table, pw: Option<string>,
                          checkpw: (seq<byte>, seq<byte>) -> bool)
    requires IsInitialTable(t)
    ensures Login(t, Form(Some("Rando"), pw), checkpw) == UnknownUser
  {
    assert Lower("Rando")[0] == 'r' && Lower("Alice")[0] == 'a';
    assert |Lower("Bob")| == 3 && |Lower("Rando")| == 5;
    UnknownNameRejectedFirst(t, Form(Some("Rando"), pw), checkpw);
  }

  lemma LoginNoNameRaises(t: Table, checkpw: (seq<byte>, seq<byte>) -> bool)
    requires IsInitialTable(t)
    ensures Login(t, Form(None, Some("diffie_rulz")), checkpw) == AttributeErrorRaised
  {
  }

  // ---------------------------------------------------------------------------
  // The login form
  // ---------------------------------------------------------------------------

  /** The form fields `request.form.get('name')` and `request.form.get('pw')`. */
  datatype Form = Form(name: Option<string>, pw: Option<string>)

  /** Where `login_post` ends. */
  datatype Outcome =
    | AttributeErrorRaised
    | UnknownUser
    | MissingPassword
    | InvalidPassword
    | LoggedIn(user: User)

  datatype Endpoint = HelloWorld | Secrets

  /** What the client sees: a redirect, or the uncaught exception. */
  datatype Response = Redirect(to: Endpoint) | UncaughtException

  /** The password as `login_post` sees it: a missing or empty field is `None`. */
  function FormPassword(pw: Option<string>): (r: Option<seq<byte>>)
    ensures Truthy(r) <==> pw.Some? && pw.value != []
    ensures r.None? <==> pw.None? || pw.value == []
    ensures r.Some? ==> pw.Some? && r.value == Utf8(pw.value)
  {
    if pw.Some? && pw.value != [] then Some(Utf8(pw.value)) else None
  }

  /** The name as `login_post` sees it: lower-cased, a missing or empty field is `None`. */
  function FormName(name: Option<string>): (r: Option<string>)
    ensures r.None? <==> name.None? || name.value == []
    ensures r.Some? ==> r.value == Lower(name.value)
  {
    if name.Some? && name.value != [] then Some(Lower(name.value)) else None
  }

  /** The rejection ladder after the lookup: no user, no password, wrong password. */
  function Decide(lookup: Lookup, password: Option<seq<byte>>,
                  checkpw: (seq<byte>, seq<byte>) -> bool): (o: Outcome)
    reads if lookup.Found? then {lookup.user} else {}
    ensures o == AttributeErrorRaised <==> lookup == RaisedAttributeError
    ensures o == UnknownUser <==> lookup == NotFound
    ensures o == MissingPassword <==> lookup.Found? && !Truthy(password)
    ensures o == InvalidPassword <==>
              lookup.Found? && Truthy(password) &&
              lookup.user.CheckPw(password, checkpw) == ReturnedNone
    ensures o.LoggedIn? ==>
              lookup == Found(o.user) &&
              o.user.CheckPw(password, checkpw) == ReturnedTrue
  {
    match lookup
    case RaisedAttributeError => AttributeErrorRaised
    case NotFound => UnknownUser
    case Found(u) =>
      if !Truthy(password) then MissingPassword
      else if u.CheckPw(password, checkpw) == ReturnedNone then InvalidPassword
      else LoggedIn(u)
  }

  /** The whole of `login_post`'s decision, as written. */
  function Login(t: Table, form: Form, checkpw: (seq<byte>, seq<byte>) -> bool): (o: Outcome)
    reads Accounts(t)
    ensures o == AttributeErrorRaised <==> FormName(form.name).None? && t != []
    ensures o.LoggedIn? ==>
              o.user in Accounts(t) && Truthy(o.user.passhash) &&
              form.pw.Some? && form.pw.value != [] &&
              checkpw(Utf8(form.pw.value), o.user.passhash.value)
  {
    Decide(UserLookup(t, FormName(form.name)), FormPassword(form.pw), checkpw)
  }

  /** `login_post`: read the form, look the user up, apply the ladder. */
  method LoginPost(t: Table, form: Form, checkpw: (seq<byte>, seq<byte>) -> bool)
    returns (o: Outcome)
    ensures o == Login(t, form, checkpw)
  {
    var password := FormPassword(form.pw);
    var name := FormName(form.name);
    var user := UserFromName(t, name);
    o := Decide(user, password, checkpw);
  }

  /** The response each outcome produces. */
  function Respond(o: Outcome): (r: Response)
    ensures r == Redirect(Secrets) <==> o.LoggedIn?
    ensures r == UncaughtException <==> o == AttributeErrorRaised
    ensures r == Redirect(HelloWorld) <==>
              o in {UnknownUser, MissingPassword, InvalidPassword}
  {
    match o
    case AttributeErrorRaised => UncaughtException
    case LoggedIn(_) => Redirect(Secrets)
    case _ => Redirect(HelloWorld)
  }

  /**
   * Login succeeds for `u` exactly when the name is given and finds `u` up to
   * case, the password is given, `u` has a stored hash and `checkpw` accepts
   * the encoded password.
   */
  lemma LoginSucceedsExactly(t: Table, form: Form,
                             checkpw: (seq<byte>, seq<byte>) -> bool, u: User)
    ensures Login(t, form, checkpw) == LoggedIn(u) <==>
              form.name.Some? && form.name.value != [] &&
              FirstMatch(t, form.name.value) == Some(u) &&
              form.pw.Some? && form.pw.value != [] &&
              Truthy(u.passhash) && checkpw(Utf8(form.pw.value), u.passhash.value)
  {
    if form.name.Some? && form.name.value != [] {
      LowerIdempotent(form.name.value);
      FirstMatchCaseInsensitive(t, Lower(form.name.value), form.name.value);
    }
  }

  /** The lookup comes first: an unknown name is rejected whatever the password. */
  lemma UnknownNameRejectedFirst(t: Table, form: Form,
                                 checkpw: (seq<byte>, seq<byte>) -> bool)
    requires form.name.Some? && form.name.value != []
    requires forall i :: 0 <= i < |t| ==> !NameMatches(t[i].1, form.name.value)
    ensures Login(t, form, checkpw) == UnknownUser
  {
    LowerIdempotent(form.name.value);
    FirstMatchCaseInsensitive(t, Lower(form.name.value), form.name.value);
    FirstMatchNone(t, form.name.value);
  }

  /**
   * The password's presence comes second: a known name without a password is
   * rejected whatever the stored hash and `checkpw` say.
   */
  lemma MissingPasswordRejectedSecond(t: Table, form: Form,
                                      checkpw: (seq<byte>, seq<byte>) -> bool, i: nat)
    requires form.name.Some? && form.name.value != []
    requires i < |t| && NameMatches(t[i].1, form.name.value)
    requires form.pw.None? || form.pw.value == []
    ensures Login(t, form, checkpw) == MissingPassword
  {
    LowerIdempotent(form.name.value);
    FirstMatchCaseInsensitive(t, Lower(form.name.value), form.name.value);
    FirstMatchNone(t, form.name.value);
  }

  /**
   * The hash check comes last: a known name with a password that `u` has no
   * hash for, or that `checkpw` rejects, is an invalid password.
   */
  lemma WrongPasswordRejectedThird(t: Table, form: Form,
                                   checkpw: (seq<byte>, seq<byte>) -> bool, u: User)
    requires form.name.Some? && form.name.value != []
    requires FirstMatch(t, form.name.value) == Some(u)
    requires form.pw.Some? && form.pw.value != []
    requires !(Truthy(u.passhash) && checkpw(Utf8(form.pw.value), u.passhash.value))
    ensures Login(t, form, checkpw) == InvalidPassword
  {
    LowerIdempotent(form.name.value);
    FirstMatchCaseInsensitive(t, Lower(form.name.value), form.name.value);
  }

  /** Two spellings of a name that agree up to case lead to the same outcome. */
  lemma LoginCaseInsensitive(t: Table, a: string, b: string, pw: Option<string>,
                             checkpw: (seq<byte>, seq<byte>) -> bool)
    requires Lower(a) == Lower(b)
    ensures Login(t, Form(Some(a), pw), checkpw) == Login(t, Form(Some(b), pw), checkpw)
  {
  }

  /**
   * As written, a missing or empty name reaches `user_from_name(None)`, which
   * raises on any non-empty table instead of redirecting.
   */
  lemma MissingNameRaises(t: Table, form: Form,
                          checkpw: (seq<byte>, seq<byte>) -> bool)
    requires form.name.None? || form.name.value == []
    ensures Login(t, form, checkpw) == (if t == [] then UnknownUser else AttributeErrorRaised)
    ensures t != [] ==> Respond(Login(t, form, checkpw)) == UncaughtException
  {
  }

  /**
   * The evidently intended ladder: a missing or empty name is an unknown user,
   * so `user_from_name` is never called with `None`.
   */
  function LoginGuarded(t: Table, form: Form,
                        checkpw: (seq<byte>, seq<byte>) -> bool): (o: Outcome)
    reads Accounts(t)
    ensures o != AttributeErrorRaised
    ensures Respond(o).Redirect?
    ensures form.name.Some? && form.name.value != [] ==> o == Login(t, form, checkpw)
    ensures form.name.None? || form.name.value == [] ==> o == UnknownUser
  {
    if FormName(form.name).None? then UnknownUser else Login(t, form, checkpw)
  }
}
