/**
 * The account directory and the client session of the visitor-log application
 * (class `Auth`). The remote `users` collection is a map from username to a
 * user record; local storage's `currentUser` slot is a field of the class.
 */
module Authentication {
  import opened Common

  /** A user record: a JSON object whose fields all hold strings. */
  type UserRecord = map<string, string>

  /** The remote `users` collection, keyed by username. */
  type Directory = map<string, UserRecord>

  /** Why an operation of `Auth` rejects; each comment gives the message it rejects with. */
  datatype AuthError =
    | MissingRequiredFields  // "Please fill in all required fields"
    | PasswordTooShort       // "Password must be at least 6 characters long"
    | UsernameExists         // "Username already exists"
    | InvalidCredentials     // "Invalid username or password"
    | AccountDeactivated     // "Account is deactivated"
    | NotLoggedIn            // "No user logged in"
    | NotAdministrator       // "Only administrators can update users"
    | RemoteUnavailable      // whatever the database client throws

  /** An operation that resolves to `true` or rejects. */
  datatype Outcome = Done | Failed(error: AuthError)

  /** An operation that resolves to a value or rejects. */
  datatype Result<T> = Ok(value: T) | Err(error: AuthError)

  const MinPasswordLength := 6
  const AdminUsername := "admin"
  const AdminPassword := "admin123"

  /** The fields a profile update may send to the directory. */
  const ProfileFields: set<string> := {"fullName", "email", "password"}

  /** `r.name` read as a string: a missing field reads as "" (both are falsy). */
  function Field(r: UserRecord, name: string): string
  {
    if name in r then r[name] else ""
  }

  /** JavaScript truthiness of `r.name`. */
  predicate Truthy(r: UserRecord, name: string)
  {
    name in r && r[name] != ""
  }

  /** `const { password, ...rest } = u`: the record without its password. */
  function WithoutPassword(u: UserRecord): (r: UserRecord)
    ensures "password" !in r
    ensures r.Keys == u.Keys - {"password"}
    ensures forall k :: k in r ==> r[k] == u[k]
  {
    u - {"password"}
  }

  // ---------------------------------------------------------------------
  // Default administrator

  /** The record `initializeDefaultAdmin` writes under `admin`. */
  function DefaultAdmin(now: string): (r: UserRecord)
    ensures r.Keys == {"username", "password", "fullName", "email", "role", "status", "createdAt"}
    ensures r["username"] == AdminUsername && PasswordMatches(r, AdminPassword)
    ensures IsActive(r) && HasAdminRole(Some(r)) && r["createdAt"] == now
  {
    map["username" := AdminUsername, "password" := AdminPassword,
        "fullName" := "System Administrator", "email" := "admin@visitorlog.com",
        "role" := "admin", "status" := "active", "createdAt" := now]
  }

  /** The database drops empty objects, so no stored user record is empty. */
  predicate NoEmptyRecords(users: Directory)
  {
    forall k :: k in users ==> users[k] != map[]
  }

  /** Usernames whose record has role "admin". */
  function Admins(users: Directory): set<string>
  {
    set k | k in users && Field(users[k], "role") == "admin"
  }

  /**
   * The directory after `initializeDefaultAdmin`: the admin record is written
   * only into an empty collection, and a remote failure is swallowed.
   */
  function Bootstrapped(users: Directory, online: bool, now: string): (r: Directory)
    ensures users != map[] || !online ==> r == users
    ensures NoEmptyRecords(users) ==> NoEmptyRecords(r)
    ensures users == map[] && online ==>
      r.Keys == {AdminUsername} && PasswordMatches(r[AdminUsername], AdminPassword)
      && IsActive(r[AdminUsername]) && Admins(r) == {AdminUsername}
  {
    if online && users == map[] then
      var r := map[AdminUsername := DefaultAdmin(now)];
      assert Admins(r) == {AdminUsername};
      r
    else users
  }

  /** Once the directory holds anything, bootstrapping again changes nothing. */
  lemma BootstrapIdempotent(users: Directory, online1: bool, online2: bool, t1: string, t2: string)
    requires Bootstrapped(users, online1, t1) != map[]
    ensures Bootstrapped(Bootstrapped(users, online1, t1), online2, t2) == Bootstrapped(users, online1, t1)
  {
  }

  /** Bootstrapping an empty directory twice leaves exactly one administrator. */
  lemma BootstrapTwiceOneAdmin(online2: bool, t1: string, t2: string)
    ensures var r := Bootstrapped(Bootstrapped(map[], true, t1), online2, t2);
      |Admins(r)| == 1 && r.Keys == {AdminUsername}
  {
    var once := Bootstrapped(map[], true, t1);
    BootstrapIdempotent(map[], true, online2, t1, t2);
    assert Admins(once) == {AdminUsername};
  }

  // ---------------------------------------------------------------------
  // Registration

  predicate HasRequiredFields(userData: UserRecord)
  {
    Truthy(userData, "username") && Truthy(userData, "password") && Truthy(userData, "fullName")
  }

  /** The input checks of `register`, in the order `register` makes them. */
  function CheckRegistration(userData: UserRecord): (e: Option<AuthError>)
    ensures e == Some(MissingRequiredFields) <==> !HasRequiredFields(userData)
    ensures e == Some(PasswordTooShort) <==>
      HasRequiredFields(userData) && |userData["password"]| < MinPasswordLength
    ensures e == None <==>
      HasRequiredFields(userData) && |userData["password"]| >= MinPasswordLength
  {
    if !HasRequiredFields(userData) then Some(MissingRequiredFields)
    else if |userData["password"]| < MinPasswordLength then Some(PasswordTooShort)
    else None
  }

  /** A password of five characters is refused and one of six accepted. */
  lemma PasswordLengthBoundary(userData: UserRecord)
    requires HasRequiredFields(userData)
    ensures |userData["password"]| == 5 ==> CheckRegistration(userData) == Some(PasswordTooShort)
    ensures |userData["password"]| == 6 ==> CheckRegistration(userData) == None
  {
  }

  /** The record `register` stores for a new user. */
  function NewUser(userData: UserRecord, now: string): (r: UserRecord)
    ensures r.Keys == {"username", "password", "fullName", "email", "role", "status", "createdAt"}
    ensures forall f :: f in {"username", "password", "fullName", "email"} ==> r[f] == Field(userData, f)
    ensures r["email"] == (if Truthy(userData, "email") then userData["email"] else "")
    ensures IsActive(r) && !HasAdminRole(Some(r)) && r["createdAt"] == now
  {
    map["username" := Field(userData, "username"), "password" := Field(userData, "password"),
        "fullName" := Field(userData, "fullName"), "email" := Field(userData, "email"),
        "role" := "user", "status" := "active", "createdAt" := now]
  }

  /**
   * `register`: its outcome and the directory afterwards. Input checks come
   * before any remote call; a failure writes nothing; success adds exactly
   * one record under the new username and touches no other.
   */
  function Registered(users: Directory, userData: UserRecord, online: bool, now: string): (r: (Outcome, Directory))
    ensures r.0 != Done ==> r.1 == users
    ensures r.0 == Failed(MissingRequiredFields) <==> !HasRequiredFields(userData)
    ensures r.0 == Failed(PasswordTooShort) <==>
      HasRequiredFields(userData) && |userData["password"]| < MinPasswordLength
    ensures r.0 == Failed(RemoteUnavailable) <==> CheckRegistration(userData) == None && !online
    ensures r.0 == Failed(UsernameExists) <==>
      CheckRegistration(userData) == None && online && userData["username"] in users
    ensures r.0 == Done <==>
      CheckRegistration(userData) == None && online && userData["username"] !in users
    ensures r.0 == Done ==>
      var name := userData["username"];
      && r.1.Keys == users.Keys + {name}
      && (forall k :: k in users ==> r.1[k] == users[k])
      && r.1[name].Keys == {"username", "password", "fullName", "email", "role", "status", "createdAt"}
      && r.1[name]["username"] == name
      && r.1[name]["password"] == userData["password"]
      && r.1[name]["fullName"] == userData["fullName"]
      && r.1[name]["email"] == (if Truthy(userData, "email") then userData["email"] else "")
      && r.1[name]["role"] == "user" && r.1[name]["status"] == "active"
    ensures NoEmptyRecords(users) ==> NoEmptyRecords(r.1)
  {
    match CheckRegistration(userData)
    case Some(e) => (Failed(e), users)
    case None =>
      if !online then (Failed(RemoteUnavailable), users)
      else if userData["username"] in users then (Failed(UsernameExists), users)
      else (Done, users[userData["username"] := NewUser(userData, now)])
  }

  // ---------------------------------------------------------------------
  // Login

  /** `user.password === password`; a record without a password matches nothing. */
  predicate PasswordMatches(u: UserRecord, password: string)
  {
    "password" in u && u["password"] == password
  }

  /** `user.status === 'active'`. */
  predicate IsActive(u: UserRecord)
  {
    Field(u, "status") == "active"
  }

  /**
   * The checks of `login`: unknown user and wrong password give the same
   * error, and the status is looked at only once the password matched.
   */
  function Authenticate(users: Directory, username: string, password: string, online: bool): (r: Result<UserRecord>)
    ensures r == Err(RemoteUnavailable) <==> !online
    ensures r == Err(InvalidCredentials) <==>
      online && (username !in users || !PasswordMatches(users[username], password))
    ensures r == Err(AccountDeactivated) <==>
      online && username in users && PasswordMatches(users[username], password) && !IsActive(users[username])
    ensures r.Ok? <==>
      online && username in users && PasswordMatches(users[username], password) && IsActive(users[username])
    ensures r.Ok? ==> "password" !in r.value && r.value == WithoutPassword(users[username])
  {
    if !online then Err(RemoteUnavailable)
    else if username !in users then Err(InvalidCredentials)
    else
      var user := users[username];
      if !PasswordMatches(user, password) then Err(InvalidCredentials)
      else if !IsActive(user) then Err(AccountDeactivated)
      else Ok(WithoutPassword(user))
  }

  /** A wrong password gets the same answer whether or not the username exists. */
  lemma WrongPasswordRevealsNothing(users: Directory, username: string, password: string)
    requires username in users && !PasswordMatches(users[username], password)
    ensures Authenticate(users, username, password, true) == Authenticate(users - {username}, username, password, true)
    ensures Authenticate(users, username, password, true) == Err(InvalidCredentials)
  {
  }

  /** A user who has just registered can log in, and is an ordinary user. */
  lemma RegisterThenLogin(users: Directory, userData: UserRecord, now: string)
    requires Registered(users, userData, true, now).0 == Done
    ensures var after := Registered(users, userData, true, now).1;
      var r := Authenticate(after, userData["username"], userData["password"], true);
      r.Ok? && r.value["role"] == "user" && r.value["username"] == userData["username"]
      && !HasAdminRole(Some(r.value))
  {
  }

  /** `isAdmin()` of a session: null and a record without a role are both not administrators. */
  predicate HasAdminRole(session: Option<UserRecord>)
    ensures session.None? ==> !HasAdminRole(session)
    ensures HasAdminRole(session) <==>
      session.Some? && "role" in session.value && session.value["role"] == "admin"
  {
    session.Some? && Field(session.value, "role") == "admin"
  }

  /** Removing the password keeps the role, so a fresh session is admin iff the stored record is. */
  lemma LoginAdminIffStoredAdmin(users: Directory, username: string, password: string)
    requires Authenticate(users, username, password, true).Ok?
    ensures HasAdminRole(Some(Authenticate(users, username, password, true).value))
        <==> Field(users[username], "role") == "admin"
  {
  }

  // ---------------------------------------------------------------------
  // Updates

  /**
   * A Firebase `update(patch)` on `users/key`: the patch's fields overwrite,
   * the others stay; a missing record is created; an empty patch writes nothing.
   */
  function ApplyUpdate(users: Directory, key: string, patch: UserRecord): (r: Directory)
    ensures forall k :: k != key ==> (k in r <==> k in users)
    ensures forall k :: k != key && k in r ==> r[k] == users[k]
    ensures key in r <==> key in users || patch != map[]
    ensures key in r ==> r[key].Keys == (if key in users then users[key].Keys else {}) + patch.Keys
    ensures key in r ==> forall f :: f in patch ==> r[key][f] == patch[f]
    ensures key in users ==> forall f :: f in users[key] && f !in patch ==> r[key][f] == users[key][f]
    ensures NoEmptyRecords(users) ==> NoEmptyRecords(r)
  {
    if patch == map[] then users
    else users[key := (if key in users then users[key] else map[]) + patch]
  }

  /** `updates` in `updateProfile`: only truthy name, email and password go to the directory. */
  function ProfileUpdates(updateData: UserRecord): (r: UserRecord)
    ensures r.Keys <= ProfileFields
    ensures forall k :: k in ProfileFields ==> (k in r <==> Truthy(updateData, k))
    ensures forall k :: k in r ==> k in updateData && r[k] == updateData[k] && r[k] != ""
  {
    map k | k in ProfileFields && Truthy(updateData, k) :: updateData[k]
  }

  /**
   * `currentUser` after `Object.assign(currentUser, updateData)` and the
   * deletion of a truthy password. Every supplied field is copied, falsy ones
   * too; a password survives only when the update held an empty one or the
   * session already had one.
   */
  function SessionAfterUpdate(session: UserRecord, updateData: UserRecord): (r: UserRecord)
    ensures forall k :: k != "password" ==> (k in r <==> k in session || k in updateData)
    ensures forall k :: k != "password" && k in r ==>
      r[k] == if k in updateData then updateData[k] else session[k]
    ensures "password" in r <==>
      !Truthy(updateData, "password") && ("password" in updateData || "password" in session)
    ensures "password" in r && "password" !in session ==> r["password"] == ""
    ensures "password" in r ==>
      r["password"] == if "password" in updateData then updateData["password"] else session["password"]
    ensures "username" !in updateData ==> Field(r, "username") == Field(session, "username")
  {
    var merged := session + updateData;
    if Truthy(updateData, "password") then merged - {"password"} else merged
  }

  /**
   * A session that holds no password (the state `login` leaves) still holds
   * none after any profile update: a truthy password is deleted, and an
   * empty one stays empty.
   */
  lemma SessionNeverGainsPassword(session: UserRecord, updateData: UserRecord)
    requires Field(session, "password") == ""
    ensures Field(SessionAfterUpdate(session, updateData), "password") == ""
  {
  }

  /**
   * A profile update that carries `role: "admin"` writes nothing to the
   * directory, yet makes the session an administrator.
   */
  lemma RoleThroughProfile(session: UserRecord)
    ensures ProfileUpdates(map["role" := "admin"]) == map[]
    ensures HasAdminRole(Some(SessionAfterUpdate(session, map["role" := "admin"])))
  {
    var d := map["role" := "admin"];
    assert forall k :: k in ProfileFields ==> !Truthy(d, k);
  }

  /** The directory key `'users/' + currentUser.username` (an absent username prints as "undefined"). */
  function SessionKey(session: UserRecord): (key: string)
    ensures "username" in session ==> key == session["username"]
    ensures "username" !in session ==> key == "undefined"
  {
    if "username" in session then session["username"] else "undefined"
  }

  // ---------------------------------------------------------------------
  // The client object

  class Auth {
    /** The remote `users` collection. */
    var users: Directory
    /** `currentUser`: the signed-in user's record, or null. */
    var currentUser: Option<UserRecord>
    /** The `currentUser` slot of local storage, or absent. */
    var savedSession: Option<UserRecord>

    /** The saved session is always a copy of `currentUser`, and no stored record is empty. */
    ghost predicate Valid()
      reads this
    {
      savedSession == currentUser && NoEmptyRecords(users)
    }

    /** `new Auth()`: bootstrap the directory and restore a saved session. */
    constructor (directory: Directory, saved: Option<UserRecord>, online: bool, now: string)
      requires NoEmptyRecords(directory)
      ensures Valid()
      ensures users == Bootstrapped(directory, online, now)
      ensures currentUser == saved && savedSession == saved
    {
      users := directory;
      currentUser := None;
      savedSession := saved;
      new;
      Init(online, now);
    }

    /** `init()`: bootstrap, then adopt the saved session if there is one. */
    method Init(online: bool, now: string)
      modifies this`users, this`currentUser
      ensures users == Bootstrapped(old(users), online, now)
      ensures NoEmptyRecords(old(users)) ==> NoEmptyRecords(users)
      ensures currentUser == if savedSession.Some? then savedSession else old(currentUser)
      ensures savedSession == old(savedSession)
    {
      InitializeDefaultAdmin(online, now);
      if savedSession.Some? {
        currentUser := savedSession;
      }
    }

    method InitializeDefaultAdmin(online: bool, now: string)
      modifies this`users
      ensures users == Bootstrapped(old(users), online, now)
    {
      if !online {
        return;
      }
      if users == map[] {
        users := users[AdminUsername := DefaultAdmin(now)];
      }
    }

    method Register(userData: UserRecord, online: bool, now: string) returns (outcome: Outcome)
      requires Valid()
      modifies this`users
      ensures Valid()
      ensures (outcome, users) == Registered(old(users), userData, online, now)
    {
      var username, password, fullName := Field(userData, "username"), Field(userData, "password"), Field(userData, "fullName");
      if username == "" || password == "" || fullName == "" {
        return Failed(MissingRequiredFields);
      }
      if |password| < MinPasswordLength {
        return Failed(PasswordTooShort);
      }
      if !online {
        return Failed(RemoteUnavailable);
      }
      if username in users {
        return Failed(UsernameExists);
      }
      users := users[username := NewUser(userData, now)];
      outcome := Done;
    }

    method Login(username: string, password: string, online: bool) returns (outcome: Outcome)
      requires Valid()
      modifies this`currentUser, this`savedSession
      ensures Valid()
      ensures match Authenticate(users, username, password, online)
        case Ok(u) => outcome == Done && currentUser == Some(u) && "password" !in u
        case Err(e) => outcome == Failed(e) && currentUser == old(currentUser)
    {
      if !online {
        return Failed(RemoteUnavailable);
      }
      if username !in users {
        return Failed(InvalidCredentials);
      }
      var user := users[username];
      if !("password" in user && user["password"] == password) {
        return Failed(InvalidCredentials);
      }
      if Field(user, "status") != "active" {
        return Failed(AccountDeactivated);
      }
      currentUser := Some(user - {"password"});
      savedSession := currentUser;
      outcome := Done;
    }

    method Logout()
      requires Valid()
      modifies this`currentUser, this`savedSession
      ensures Valid() && currentUser == None && !IsAdmin()
    {
      currentUser := None;
      savedSession := None;
    }

    predicate IsAdmin()
      reads this
      ensures IsAdmin() <==>
        currentUser.Some? && "role" in currentUser.value && currentUser.value["role"] == "admin"
    {
      HasAdminRole(currentUser)
    }

    method UpdateProfile(updateData: UserRecord, online: bool) returns (outcome: Outcome)
      requires Valid()
      modifies this`users, this`currentUser, this`savedSession
      ensures Valid()
      ensures old(currentUser).None? ==> outcome == Failed(NotLoggedIn) && unchanged(this)
      ensures old(currentUser).Some? && !online ==> outcome == Failed(RemoteUnavailable) && unchanged(this)
      ensures old(currentUser).Some? && online ==>
        && outcome == Done
        && users == ApplyUpdate(old(users), SessionKey(old(currentUser).value), ProfileUpdates(updateData))
        && currentUser == Some(SessionAfterUpdate(old(currentUser).value, updateData))
      ensures old(currentUser).Some? && Field(old(currentUser).value, "password") == "" ==>
        Field(currentUser.value, "password") == ""
    {
      if currentUser.None? {
        return Failed(NotLoggedIn);
      }
      var updates := ProfileUpdates(updateData);
      if !online {
        return Failed(RemoteUnavailable);
      }
      users := ApplyUpdate(users, SessionKey(currentUser.value), updates);
      var session := currentUser.value + updateData;
      if Truthy(updateData, "password") {
        session := session - {"password"};
      }
      currentUser := Some(session);
      savedSession := currentUser;
      outcome := Done;
    }

    /**
     * `getAllUsers()`: one password-free record per stored user. `order` is
     * the order in which the snapshot visited the usernames.
     */
    method GetAllUsers(online: bool) returns (r: Result<seq<UserRecord>>, ghost order: seq<string>)
      ensures r.Ok? <==> online
      ensures !online ==> r == Err(RemoteUnavailable)
      ensures online ==>
        && |r.value| == |order| == |users|
        && (forall k :: k in users <==> k in order)
        && (forall i, j :: 0 <= i < j < |order| ==> order[i] != order[j])
        && (forall i :: 0 <= i < |order| ==> order[i] in users && r.value[i] == WithoutPassword(users[order[i]]))
        && (forall i :: 0 <= i < |order| ==> "password" !in r.value[i])
    {
      order := [];
      if !online {
        return Err(RemoteUnavailable), order;
      }
      if users == map[] {
        return Ok([]), order;
      }
      var list: seq<UserRecord> := [];
      var remaining := users.Keys;
      while remaining != {}
        invariant remaining <= users.Keys
        invariant |list| == |order| && |order| + |remaining| == |users.Keys|
        invariant forall i :: 0 <= i < |order| ==>
          order[i] in users && order[i] !in remaining && list[i] == WithoutPassword(users[order[i]])
        invariant forall i, j :: 0 <= i < j < |order| ==> order[i] != order[j]
        invariant forall k :: k in users && k !in remaining ==> k in order
        decreases remaining
      {
        var name :| name in remaining;
        list := list + [WithoutPassword(users[name])];
        order := order + [name];
        remaining := remaining - {name};
      }
      r := Ok(list);
    }

    method UpdateUser(username: string, updateData: UserRecord, online: bool) returns (outcome: Outcome)
      requires Valid()
      modifies this`users
      ensures Valid()
      ensures !IsAdmin() ==> outcome == Failed(NotAdministrator) && users == old(users)
      ensures IsAdmin() && !online ==> outcome == Failed(RemoteUnavailable) && users == old(users)
      ensures IsAdmin() && online ==> outcome == Done && users == ApplyUpdate(old(users), username, updateData)
    {
      if !IsAdmin() {
        return Failed(NotAdministrator);
      }
      if !online {
        return Failed(RemoteUnavailable);
      }
      users := ApplyUpdate(users, username, updateData);
      outcome := Done;
    }
  }
}
