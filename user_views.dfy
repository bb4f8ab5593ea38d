/** Accounts and sessions: registration, login, logout, the logged-in check
    and the post-login redirect.

    The session store keeps two entries per session key: the `user_id` entry
    the views write and read, and the authentication id that Django's
    `login()` writes; a session without an entry is absent from that map.
    The list of overall-admin webmails and the email validator are
    configuration and a library call that are not part of this model; they
    are parameters. Passwords are compared as stored: `authenticate` accepts
    exactly the password the account was registered with. */
module UserViews {
  import opened Common
  import opened Models

  const Webmail: string := "@nitt.edu"
  const NotWebmail: string := "Please use webmail"
  const InvalidDetails: string := "Invalid user details"
  const AccountExists: string := "An account already exists under the webmail address"
  const Registered: string := "Registration Successful!"
  const UserMissing: string := "User does not exist"
  const WrongPassword: string := "User password incorrect"
  const LogoutDone: string := "Logged out successfully!"
  const LogoutFailed: string := "Logout error!"

  const Home: string := "/"
  const TechnicalCouncil: string := "/admin/technicalcouncil"
  const ClubHeads: string := "/admin/clubheads"

  type SessionKey = string

  /** One entry of every session that has it: the `user_id` entry, or the
      authentication id `login()` stores. */
  type Sessions = map<SessionKey, UserId>

  /** The login response. */
  datatype Profile = Profile(email: string, name: string)

  /** The logged-in check's answer; `Stale` is the session whose user is gone
      ("User does not exist."). */
  datatype LoginStatus = NotLoggedIn | Stale | LoggedIn(isAdmin: bool, email: string, name: string)

  function UserById(users: seq<User>, id: UserId): Option<nat>
  {
    Find(users, (u: User) => u.id == id)
  }

  // ---------------------------------------------------------------------
  // Register
  // ---------------------------------------------------------------------

  /** The details check: a valid email, a password of at least 8 characters, a name. */
  predicate ValidDetails(validateEmail: string -> bool, email: string, password: string, name: Option<string>)
  {
    validateEmail(email) && |password| >= 8 && name.Some?
  }

  /** RegisterFormView, after the profile picture upload. */
  function RegisterOf(s: Db, email: string, password: string, name: Option<string>, image: string,
                      validateEmail: string -> bool, adminMail: set<string>): (out: (Db, Response<string>))
    ensures !Contains(email, Webmail) ==> out == (s, Err(NotWebmail))
    ensures Contains(email, Webmail) && !ValidDetails(validateEmail, email, password, name) ==>
              out == (s, Err(InvalidDetails))
    ensures (Contains(email, Webmail) && ValidDetails(validateEmail, email, password, name) &&
             UserByEmail(s.users, email).Some?) ==> out == (s, Err(AccountExists))
    ensures out.1.Ok? <==> Contains(email, Webmail) && ValidDetails(validateEmail, email, password, name) &&
                           UserByEmail(s.users, email).None?
    ensures out.1.Ok? ==> out.1.payload == Registered
    ensures out.1.Ok? ==>
              && out.0 == s.(users := out.0.users) && |out.0.users| == |s.users| + 1
              && out.0.users[..|s.users|] == s.users
              && var u := out.0.users[|s.users|];
                 u.email == email && u.name == name.value && u.password == password &&
                 u.isAdmin == (email in adminMail) && u.id == |s.users| + 1
  {
    if !Contains(email, Webmail) then (s, Err(NotWebmail))
    else if !ValidDetails(validateEmail, email, password, name) then (s, Err(InvalidDetails))
    else if UserByEmail(s.users, email).Some? then (s, Err(AccountExists))
    else
      var user := User(|s.users| + 1, email, name.value, password, image, email in adminMail);
      (s.(users := s.users + [user]), Ok(Registered))
  }

  /** Registration keeps ids positional and emails unique. */
  lemma RegisterKeepsValid(s: Db, email: string, password: string, name: Option<string>, image: string,
                           validateEmail: string -> bool, adminMail: set<string>)
    requires Valid(s)
    ensures Valid(RegisterOf(s, email, password, name, image, validateEmail, adminMail).0)
  {
    var after := RegisterOf(s, email, password, name, image, validateEmail, adminMail).0;
    if after != s {
      assert forall i :: 0 <= i < |s.users| ==> after.users[i] == s.users[i];
    }
  }

  // ---------------------------------------------------------------------
  // Login and logout
  // ---------------------------------------------------------------------

  /** The sessions remove_existing_sessions ends: those whose `user_id` is `user`. */
  function SessionsOf(sessions: Sessions, user: UserId): set<SessionKey>
  {
    set k | k in sessions && sessions[k] == user
  }

  /** `login()` flushes a session that carries another user's authentication
      id, and with it the `user_id` entry the view has just written. */
  predicate Flushes(auth: Sessions, key: SessionKey, user: UserId)
  {
    key in auth && auth[key] != user
  }

  /** LoginFormView on the session `key`: the new `user_id` entries, the new
      authentication ids and the response. */
  function LoginOf(s: Db, sessions: Sessions, auth: Sessions, key: SessionKey, email: string, password: string)
    : (out: (Sessions, Sessions, Response<Profile>))
    ensures UserByEmail(s.users, email).None? ==> out == (sessions, auth, Err(UserMissing))
    ensures UserByEmail(s.users, email).Some? && s.users[UserByEmail(s.users, email).value].password != password ==>
              out == (sessions, auth, Err(WrongPassword))
    ensures out.2.Ok? <==> UserByEmail(s.users, email).Some? &&
                           s.users[UserByEmail(s.users, email).value].password == password
    ensures out.2.Ok? ==>
              var u := s.users[UserByEmail(s.users, email).value];
              && out.2.payload == Profile(u.email, u.name)
              && (key in out.0 <==> !Flushes(auth, key, u.id))
              && (key in out.0 ==> out.0[key] == u.id)
              && (forall k :: k in out.0 && out.0[k] == u.id ==> k == key)
              && (forall k :: k != key ==> (k in out.0 <==> k in sessions && sessions[k] != u.id))
              && (forall k :: k in out.0 && k != key ==> out.0[k] == sessions[k])
              && key in out.1 && out.1[key] == u.id
              && (forall k :: k != key ==> (k in out.1 <==> k in auth && !(k in sessions && sessions[k] == u.id)))
              && (forall k :: k in out.1 && k != key ==> out.1[k] == auth[k])
  {
    match UserByEmail(s.users, email)
    case None => (sessions, auth, Err(UserMissing))
    case Some(i) =>
      var u := s.users[i];
      if u.password != password then (sessions, auth, Err(WrongPassword))
      else
        var ended := SessionsOf(sessions, u.id);
        var ids := if Flushes(auth, key, u.id) then sessions - ended - {key} else (sessions - ended)[key := u.id];
        (ids, (auth - ended)[key := u.id], Ok(Profile(u.email, u.name)))
  }

  /** LogoutView on the session `key`. */
  function LogoutOf(sessions: Sessions, key: SessionKey): (out: (Sessions, Response<string>))
    ensures key !in out.0
    ensures out.1.Ok? <==> key in sessions
    ensures forall k :: k != key ==> (k in out.0 <==> k in sessions)
    ensures forall k :: k in out.0 ==> out.0[k] == sessions[k]
    ensures out.1 == (if key in sessions then Ok(LogoutDone) else Err(LogoutFailed))
  {
    if key in sessions then (sessions - {key}, Ok(LogoutDone)) else (sessions, Err(LogoutFailed))
  }

  // ---------------------------------------------------------------------
  // Logged-in check and redirect
  // ---------------------------------------------------------------------

  /** The session carries a truthy `user_id`. */
  predicate HasUser(sessions: Sessions, key: SessionKey)
  {
    key in sessions && sessions[key] != 0
  }

  /** IsLoggedInView on the session `key`: a stale `user_id` is popped. */
  function IsLoggedInOf(s: Db, sessions: Sessions, key: SessionKey, adminMail: set<string>)
    : (out: (Sessions, LoginStatus))
    ensures !HasUser(sessions, key) ==> out == (sessions, NotLoggedIn)
    ensures HasUser(sessions, key) && UserById(s.users, sessions[key]).None? ==>
              out == (sessions - {key}, Stale)
    ensures out.1.LoggedIn? <==> HasUser(sessions, key) && UserById(s.users, sessions[key]).Some?
    ensures out.1.LoggedIn? ==>
              && out.0 == sessions
              && exists u :: u in s.users && u.id == sessions[key] &&
                             out.1 == LoggedIn(u.email in adminMail, u.email, u.name)
  {
    if !HasUser(sessions, key) then (sessions, NotLoggedIn)
    else match UserById(s.users, sessions[key])
      case None => (sessions - {key}, Stale)
      case Some(i) =>
        var u := s.users[i];
        assert u in s.users;
        (sessions, LoggedIn(u.email in adminMail, u.email, u.name))
  }

  /** UserRedirectView on the session `key`. */
  function RedirectOf(s: Db, sessions: Sessions, key: SessionKey, adminMail: set<string>)
    : (out: (Sessions, string))
    ensures !HasUser(sessions, key) ==> out == (sessions, Home)
    ensures HasUser(sessions, key) && UserById(s.users, sessions[key]).None? ==> out == (sessions - {key}, Home)
    ensures out.1 == TechnicalCouncil <==>
              exists u :: u in s.users && HasUser(sessions, key) && UserById(s.users, sessions[key]).Some? &&
                          u == s.users[UserById(s.users, sessions[key]).value] && u.email in adminMail
  {
    if !HasUser(sessions, key) then (sessions, Home)
    else match UserById(s.users, sessions[key])
      case None => (sessions - {key}, Home)
      case Some(i) => (sessions, if s.users[i].email in adminMail then TechnicalCouncil else ClubHeads)
  }

  /** The redirect agrees with the logged-in check: home unless logged in, the
      technical council page for overall admins, the club heads page otherwise,
      and the same effect on the session. */
  lemma RedirectAgreesWithStatus(s: Db, sessions: Sessions, key: SessionKey, adminMail: set<string>)
    ensures var status := IsLoggedInOf(s, sessions, key, adminMail);
            var target := RedirectOf(s, sessions, key, adminMail);
            && target.0 == status.0
            && (target.1 == Home <==> !status.1.LoggedIn?)
            && (target.1 == TechnicalCouncil <==> status.1.LoggedIn? && status.1.isAdmin)
            && (target.1 == ClubHeads <==> status.1.LoggedIn? && !status.1.isAdmin)
  {
    assert Home != TechnicalCouncil && Home != ClubHeads && TechnicalCouncil != ClubHeads by {
      assert |Home| == 1 && |TechnicalCouncil| != |ClubHeads|;
    }
  }

  // ---------------------------------------------------------------------
  // Round trips
  // ---------------------------------------------------------------------

  /** In a consistent database a user is found by its own id. */
  lemma UserByIdFinds(users: seq<User>, i: nat)
    requires UsersIndexed(users) && i < |users|
    ensures UserById(users, users[i].id) == Some(i)
  {
  }

  /** A newly registered account can log in with the registered password,
      and the session then belongs to it unless it carries another user's
      authentication id. */
  lemma RegisterThenLogin(s: Db, sessions: Sessions, auth: Sessions, key: SessionKey, email: string,
                          password: string, name: Option<string>, image: string, validateEmail: string -> bool,
                          adminMail: set<string>)
    requires Valid(s)
    requires RegisterOf(s, email, password, name, image, validateEmail, adminMail).1.Ok?
    ensures var after := RegisterOf(s, email, password, name, image, validateEmail, adminMail).0;
            var out := LoginOf(after, sessions, auth, key, email, password);
            && out.2 == Ok(Profile(email, name.value))
            && (key in out.0 <==> !Flushes(auth, key, |s.users| + 1))
            && (key in out.0 ==> out.0[key] == |s.users| + 1)
  {
    var after := RegisterOf(s, email, password, name, image, validateEmail, adminMail).0;
    assert forall j :: 0 <= j < |s.users| ==> after.users[j] == s.users[j];
    assert UserByEmail(after.users, email) == Some(|s.users|);
  }

  /** After a successful login the session reports the user as logged in,
      admin exactly when its webmail is an overall-admin webmail, unless
      `login()` flushed it; then it is not logged in at all. */
  lemma LoginThenIsLoggedIn(s: Db, sessions: Sessions, auth: Sessions, key: SessionKey, email: string,
                            password: string, adminMail: set<string>)
    requires Valid(s)
    requires LoginOf(s, sessions, auth, key, email, password).2.Ok?
    ensures var u := s.users[UserByEmail(s.users, email).value];
            var after := LoginOf(s, sessions, auth, key, email, password).0;
            IsLoggedInOf(s, after, key, adminMail) ==
              (after, if Flushes(auth, key, u.id) then NotLoggedIn else LoggedIn(email in adminMail, email, u.name))
  {
    var i := UserByEmail(s.users, email).value;
    UserByIdFinds(s.users, i);
  }

  /** Logout removes only `user_id` and leaves the authentication id, so when
      another account then logs in on the same browser, `login()` flushes the
      session: the login answers with the profile, yet the session is not
      logged in. */
  lemma SwitchUserLosesLogin(s: Db, sessions: Sessions, auth: Sessions, key: SessionKey,
                             first: string, firstPassword: string, second: string, secondPassword: string,
                             adminMail: set<string>)
    requires Valid(s) && first != second
    requires LoginOf(s, sessions, auth, key, first, firstPassword).2.Ok?
    requires LoginOf(s, sessions, auth, key, second, secondPassword).2.Ok?
    ensures var one := LoginOf(s, sessions, auth, key, first, firstPassword);
            var out := LogoutOf(one.0, key).0;
            var two := LoginOf(s, out, one.1, key, second, secondPassword);
            && two.2.Ok?
            && IsLoggedInOf(s, two.0, key, adminMail) == (two.0, NotLoggedIn)
  {
    var i := UserByEmail(s.users, first).value;
    var j := UserByEmail(s.users, second).value;
    assert s.users[i].id == i + 1 && s.users[j].id == j + 1;
  }

  /** After a logout the session is no longer logged in, and a second logout fails. */
  lemma LogoutThenIsLoggedIn(s: Db, sessions: Sessions, key: SessionKey, adminMail: set<string>)
    ensures var after := LogoutOf(sessions, key).0;
            && IsLoggedInOf(s, after, key, adminMail) == (after, NotLoggedIn)
            && LogoutOf(after, key) == (after, Err(LogoutFailed))
  {
  }

  /** The admin flag stored at registration agrees with what the logged-in
      check reports for that account, as long as the admin list is unchanged. */
  lemma RegisteredAdminFlag(s: Db, sessions: Sessions, auth: Sessions, key: SessionKey, email: string,
                            password: string, name: Option<string>, image: string, validateEmail: string -> bool,
                            adminMail: set<string>)
    requires Valid(s)
    requires RegisterOf(s, email, password, name, image, validateEmail, adminMail).1.Ok?
    ensures var after := RegisterOf(s, email, password, name, image, validateEmail, adminMail).0;
            var login := LoginOf(after, sessions, auth, key, email, password).0;
            !Flushes(auth, key, |s.users| + 1) ==>
              && IsLoggedInOf(after, login, key, adminMail).1.LoggedIn?
              && IsLoggedInOf(after, login, key, adminMail).1.isAdmin == after.users[|s.users|].isAdmin
  {
    RegisterThenLogin(s, sessions, auth, key, email, password, name, image, validateEmail, adminMail);
    RegisterKeepsValid(s, email, password, name, image, validateEmail, adminMail);
    LoginThenIsLoggedIn(RegisterOf(s, email, password, name, image, validateEmail, adminMail).0,
                        sessions, auth, key, email, password, adminMail);
  }

  // ---------------------------------------------------------------------
  // Handlers on the database and the session store
  // ---------------------------------------------------------------------

  /** The sessions of all browsers. */
  class SessionStore {
    var sessions: Sessions
    var authIds: Sessions

    constructor ()
      ensures sessions == map[] && authIds == map[]
    {
      sessions := map[];
      authIds := map[];
    }
  }

  method Register(db: Database, email: string, password: string, name: Option<string>, image: string,
                  validateEmail: string -> bool, adminMail: set<string>) returns (r: Response<string>)
    modifies db
    ensures (db.State(), r) == RegisterOf(old(db.State()), email, password, name, image, validateEmail, adminMail)
  {
    if !Contains(email, Webmail) { return Err(NotWebmail); }
    if !(validateEmail(email) && |password| >= 8 && name.Some?) { return Err(InvalidDetails); }
    var isAdmin := false;
    if email in adminMail {
      isAdmin := true;
    }
    if UserByEmail(db.users, email).Some? { return Err(AccountExists); }
    db.users := db.users + [User(|db.users| + 1, email, name.value, password, image, isAdmin)];
    r := Ok(Registered);
  }

  method Login(db: Database, store: SessionStore, key: SessionKey, email: string, password: string)
    returns (r: Response<Profile>)
    modifies store
    ensures (store.sessions, store.authIds, r) ==
              LoginOf(db.State(), old(store.sessions), old(store.authIds), key, email, password)
  {
    var i := UserByEmail(db.users, email);
    if i.None? { return Err(UserMissing); }
    var user := db.users[i.value];
    if user.password != password { return Err(WrongPassword); }
    WriteLogin(store, key, user.id);
    r := Ok(Profile(user.email, user.name));
  }

  /** The session writes of a successful login: remove_existing_sessions,
      the `user_id` entry, then `login()` with its flush. */
  method WriteLogin(store: SessionStore, key: SessionKey, user: UserId)
    modifies store
    ensures var ended := SessionsOf(old(store.sessions), user);
            && store.sessions == (if Flushes(old(store.authIds), key, user) then old(store.sessions) - ended - {key}
                                  else (old(store.sessions) - ended)[key := user])
            && store.authIds == (old(store.authIds) - ended)[key := user]
  {
    var ended := SessionsOf(store.sessions, user);
    var flush := key in store.authIds && store.authIds[key] != user;
    store.sessions := store.sessions - ended;
    store.authIds := store.authIds - ended;
    store.sessions := store.sessions[key := user];
    if flush {
      store.sessions := store.sessions - {key};
    }
    store.authIds := store.authIds[key := user];
  }

  method Logout(store: SessionStore, key: SessionKey) returns (r: Response<string>)
    modifies store
    ensures (store.sessions, r) == LogoutOf(old(store.sessions), key)
    ensures store.authIds == old(store.authIds)
  {
    if key in store.sessions {
      store.sessions := store.sessions - {key};
      return Ok(LogoutDone);
    }
    r := Err(LogoutFailed);
  }

  method IsLoggedIn(db: Database, store: SessionStore, key: SessionKey, adminMail: set<string>)
    returns (r: LoginStatus)
    modifies store
    ensures (store.sessions, r) == IsLoggedInOf(db.State(), old(store.sessions), key, adminMail)
    ensures store.authIds == old(store.authIds)
  {
    if !HasUser(store.sessions, key) { return NotLoggedIn; }
    var i := UserById(db.users, store.sessions[key]);
    if i.None? {
      store.sessions := store.sessions - {key};
      return Stale;
    }
    var user := db.users[i.value];
    r := LoggedIn(user.email in adminMail, user.email, user.name);
  }

  method UserRedirect(db: Database, store: SessionStore, key: SessionKey, adminMail: set<string>)
    returns (target: string)
    modifies store
    ensures (store.sessions, target) == RedirectOf(db.State(), old(store.sessions), key, adminMail)
    ensures store.authIds == old(store.authIds)
  {
    if !HasUser(store.sessions, key) { return Home; }
    var i := UserById(db.users, store.sessions[key]);
    if i.None? {
      store.sessions := store.sessions - {key};
      return Home;
    }
    target := if db.users[i.value].email in adminMail then TechnicalCouncil else ClubHeads;
  }
}
