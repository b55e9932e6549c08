/** The local user registry (`auth_service.py`): a list of user records in
    one file, with registration, password change, login and the admin
    bootstrap. Password hashing and checking are abstract: a fresh hash is
    a parameter (bcrypt salts it), checking is a given predicate `verify`,
    and an access token is modelled by its claims. The clock is a
    parameter; whether the file write succeeds is a parameter too. */
module Auth {
  import opened Wrappers

  /** One registered user. `role` may be missing in a hand-edited file. */
  datatype User = User(username: string, hashedPassword: string, role: Option<string>, createdAt: string)

  /** The users file: a parsed list, or a file that cannot be read or
      parsed. */
  datatype UserFile = Unreadable | Users(users: seq<User>)

  /** The claims of an access token: subject and role (the expiry, which
      depends on the clock, is not modelled). */
  datatype Token = Token(sub: string, role: string)

  const Admin: string := "admin"
  const DefaultRole: string := "analyst"

  /** `_load_users`: a file that cannot be read yields no users. */
  function Load(f: UserFile): seq<User> {
    if f.Users? then f.users else []
  }

  /** `_save_users`: a failed write is swallowed and leaves the file. */
  function Save(f: UserFile, users: seq<User>, saveOk: bool): (r: UserFile)
    ensures saveOk ==> Load(r) == users
    ensures !saveOk ==> r == f
  {
    if saveOk then Users(users) else f
  }

  /** The position of the first user called `name`. */
  function FindUser(users: seq<User>, name: string): (r: Option<nat>)
    ensures r.Some? ==> r.value < |users| && users[r.value].username == name
                        && forall j :: 0 <= j < r.value ==> users[j].username != name
    ensures r.None? ==> forall j :: 0 <= j < |users| ==> users[j].username != name
  {
    if |users| == 0 then None
    else if users[0].username == name then Some(0)
    else match FindUser(users[1..], name)
      case Some(i) => Some(i + 1)
      case None => None
  }

  /** No two users share a username. */
  predicate UniqueNames(users: seq<User>) {
    forall i, j :: 0 <= i < j < |users| ==> users[i].username != users[j].username
  }

  /** `create_user`: refused (false, no write) when the name is taken;
      otherwise one record is appended and written, and the answer is true
      even if the write failed. */
  function CreateUser(f: UserFile, username: string, hashed: string, role: string, now: string, saveOk: bool)
    : (r: (bool, UserFile))
    ensures r.0 <==> FindUser(Load(f), username).None?
    ensures !r.0 ==> r.1 == f
    ensures r.0 && saveOk ==> Load(r.1) == Load(f) + [User(username, hashed, Some(role), now)]
    ensures r.0 && !saveOk ==> r.1 == f
  {
    var users := Load(f);
    if FindUser(users, username).Some? then (false, f)
    else (true, Save(f, users + [User(username, hashed, Some(role), now)], saveOk))
  }

  /** Registration never introduces a second user with the same name. */
  lemma CreateKeepsNamesUnique(f: UserFile, username: string, hashed: string, role: string, now: string, saveOk: bool)
    requires UniqueNames(Load(f))
    ensures UniqueNames(Load(CreateUser(f, username, hashed, role, now, saveOk).1))
  {
  }

  /** `change_password`: false and no write when the user is missing or the
      old password does not check; otherwise only that user's hash is
      replaced, and the answer is true even if the write failed. */
  function ChangePassword(f: UserFile, username: string, oldPassword: string, newHash: string,
                          verify: (string, string) -> bool, saveOk: bool): (r: (bool, UserFile))
    ensures var users := Load(f);
            var idx := FindUser(users, username);
            && (r.0 <==> idx.Some? && verify(oldPassword, users[idx.value].hashedPassword))
            && (!r.0 ==> r.1 == f)
            && (r.0 && saveOk ==>
                  && |Load(r.1)| == |users|
                  && Load(r.1)[idx.value] == users[idx.value].(hashedPassword := newHash)
                  && forall j :: 0 <= j < |users| && j != idx.value ==> Load(r.1)[j] == users[j])
            && (r.0 && !saveOk ==> r.1 == f)
  {
    var users := Load(f);
    match FindUser(users, username)
    case None => (false, f)
    case Some(i) =>
      if !verify(oldPassword, users[i].hashedPassword) then (false, f)
      else (true, Save(f, users[i := users[i].(hashedPassword := newHash)], saveOk))
  }

  /** `authenticate_user`: the token of a known user whose password checks
      (role 'analyst' when the record has none); None for a wrong password
      or an unknown user, except that an unknown "admin" logging in with
      password "admin" is registered as an admin (with the fresh hash
      `adminHash`) and let in. */
  function Authenticate(f: UserFile, username: string, password: string, verify: (string, string) -> bool,
                        adminHash: string, now: string, saveOk: bool): (r: (Option<Token>, UserFile))
    ensures var users := Load(f);
            var idx := FindUser(users, username);
            && (idx.None? && !(username == Admin && password == Admin) ==> r == (None, f))
            && (idx.None? && username == Admin && password == Admin ==>
                  && r.0 == Some(Token(Admin, Admin))
                  && r.1 == CreateUser(f, Admin, adminHash, Admin, now, saveOk).1)
            && (idx.Some? ==> r.1 == f)
            && (idx.Some? ==>
                  (r.0.Some? <==> verify(password, users[idx.value].hashedPassword)))
            && (idx.Some? && r.0.Some? ==>
                  r.0.value == Token(username, users[idx.value].role.GetOr(DefaultRole)))
  {
    var users := Load(f);
    match FindUser(users, username)
    case None =>
      if username == Admin && password == Admin then
        (Some(Token(Admin, Admin)), CreateUser(f, Admin, adminHash, Admin, now, saveOk).1)
      else (None, f)
    case Some(i) =>
      if !verify(password, users[i].hashedPassword) then (None, f)
      else (Some(Token(username, users[i].role.GetOr(DefaultRole))), f)
  }

  /** `ensure_admin_user`: registers the default admin when no user is
      called "admin". */
  function EnsureAdmin(f: UserFile, adminHash: string, now: string, saveOk: bool): (r: UserFile)
    ensures FindUser(Load(f), Admin).Some? ==> r == f
    ensures FindUser(Load(f), Admin).None? && saveOk ==>
              Load(r) == Load(f) + [User(Admin, adminHash, Some(Admin), now)]
    ensures !saveOk ==> r == f
  {
    if FindUser(Load(f), Admin).None? then CreateUser(f, Admin, adminHash, Admin, now, saveOk).1 else f
  }

  /** After a written bootstrap the admin exists, and bootstrapping again
      changes nothing, whatever its hash, clock and write outcome. */
  lemma EnsureAdminIdempotent(f: UserFile, h1: string, now1: string, h2: string, now2: string, saveOk2: bool)
    ensures FindUser(Load(EnsureAdmin(f, h1, now1, true)), Admin).Some?
    ensures EnsureAdmin(EnsureAdmin(f, h1, now1, true), h2, now2, saveOk2) == EnsureAdmin(f, h1, now1, true)
  {
    var users := Load(f);
    if FindUser(users, Admin).None? {
      var users' := users + [User(Admin, h1, Some(Admin), now1)];
      assert users'[|users|].username == Admin;
    }
  }

  /** A registered user can log in with a password that checks against the
      hash stored for them, and gets the role they were registered with. */
  lemma CreateThenAuthenticate(f: UserFile, username: string, password: string, hashed: string, role: string,
                               now: string, verify: (string, string) -> bool,
                               adminHash: string, now2: string, saveOk2: bool)
    requires FindUser(Load(f), username).None?
    requires verify(password, hashed)
    ensures var f' := CreateUser(f, username, hashed, role, now, true).1;
            Authenticate(f', username, password, verify, adminHash, now2, saveOk2).0 == Some(Token(username, role))
  {
    var users' := Load(f) + [User(username, hashed, Some(role), now)];
    assert users'[|Load(f)|].username == username;
    assert forall j :: 0 <= j < |Load(f)| ==> users'[j] == Load(f)[j];
    assert FindUser(users', username) == Some(|Load(f)|);
  }

  /** After a written password change the user logs in with a password that
      checks against the new hash, keeping their role. */
  lemma ChangeThenAuthenticate(f: UserFile, username: string, oldPassword: string, newPassword: string,
                               newHash: string, verify: (string, string) -> bool,
                               adminHash: string, now: string, saveOk2: bool)
    requires ChangePassword(f, username, oldPassword, newHash, verify, true).0
    requires verify(newPassword, newHash)
    ensures var f' := ChangePassword(f, username, oldPassword, newHash, verify, true).1;
            var i := FindUser(Load(f), username).value;
            Authenticate(f', username, newPassword, verify, adminHash, now, saveOk2).0
              == Some(Token(username, Load(f)[i].role.GetOr(DefaultRole)))
  {
    var users := Load(f);
    var i := FindUser(users, username).value;
    var users' := users[i := users[i].(hashedPassword := newHash)];
    assert forall j :: 0 <= j < i ==> users'[j].username != username;
    assert FindUser(users', username) == Some(i);
  }
}
