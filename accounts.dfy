/**
 * The server's account registry (server/src/controllers/authController.ts):
 * the module-level `users` array that `register` appends to, and the lookups
 * `login`, `getCurrentUser`, `getManagers` and `refreshToken` over it.
 * Password hashing and token signing are oracles passed in by the caller.
 */
module Accounts {
  import opened Js
  import opened Http

  /** One entry of `users` (server/src/models/User.ts); `password` holds the bcrypt hash. */
  datatype User = User(
    id: int,
    email: string,
    password: string,
    firstName: Option<string>,
    lastName: Option<string>,
    isManager: bool,
    managerId: Option<int>,
    managerName: Option<string>,
    role: Option<string>,
    isPrototype: Option<bool>)

  /** The registration body, minus the clear-text password (only its hash reaches the registry). */
  datatype RegisterForm = RegisterForm(
    email: string,
    firstName: Option<string>,
    lastName: Option<string>,
    isManager: Option<bool>,
    managerId: Option<int>,
    role: Option<string>)

  /** The user projection sent back to the client; fields a handler leaves out are None. */
  datatype Profile = Profile(
    id: int,
    email: string,
    firstName: Option<string>,
    lastName: Option<string>,
    isManager: bool,
    managerId: Option<int>,
    managerName: Option<string>,
    role: Option<string>,
    isPrototype: Option<bool>)

  datatype RegisterBody = RegisterBody(token: string, user: Profile)

  /** The login reply: the access token in the body and the refresh token in the `refreshToken` cookie. */
  datatype LoginBody = LoginBody(accessToken: string, refreshCookie: string, user: Profile)

  datatype ManagerEntry = ManagerEntry(id: int, name: string, email: string)

  /** The account `initRootUser` seeds an empty registry with. */
  function RootUser(hashed: string): User {
    User(1, "admin_prototype@employee.com", hashed, Some("prototype"), Some("admin"),
         true, None, None, Some("prototype admin"), Some(true))
  }

  function Ids(users: seq<User>): (ids: seq<int>)
    ensures |ids| == |users| && forall i :: 0 <= i < |users| ==> ids[i] == users[i].id
  {
    seq(|users|, i requires 0 <= i < |users| => users[i].id)
  }

  /** `users.find(u => u.id === id)`, as an index: the first account with the id. */
  function IndexOfId(users: seq<User>, id: int): (k: Option<nat>)
    ensures k.Some? ==> k.value < |users| && users[k.value].id == id
    ensures k.Some? ==> forall j :: 0 <= j < k.value ==> users[j].id != id
    ensures k.None? <==> forall j :: 0 <= j < |users| ==> users[j].id != id
  {
    FindIndex(users, (u: User) => u.id == id)
  }

  /** `users.find(u => u.email === email)`, as an index: the first account with the email. */
  function IndexOfEmail(users: seq<User>, email: string): (k: Option<nat>)
    ensures k.Some? ==> k.value < |users| && users[k.value].email == email
    ensures k.Some? ==> forall j :: 0 <= j < k.value ==> users[j].email != email
    ensures k.None? <==> forall j :: 0 <= j < |users| ==> users[j].email != email
  {
    FindIndex(users, (u: User) => u.email == email)
  }

  ghost predicate EmailsUnique(users: seq<User>) {
    forall i, j :: 0 <= i < j < |users| ==> users[i].email != users[j].email
  }

  ghost predicate IdsUnique(users: seq<User>) {
    forall i, j :: 0 <= i < j < |users| ==> users[i].id != users[j].id
  }

  /** Every assigned manager is an account of the registry flagged `isManager`. */
  ghost predicate ManagersExist(users: seq<User>) {
    forall i :: 0 <= i < |users| && users[i].managerId.Some? ==>
      exists j :: 0 <= j < |users| && users[j].id == users[i].managerId.value && users[j].isManager
  }

  ghost predicate RegistryInvariant(users: seq<User>) {
    EmailsUnique(users) && IdsUnique(users) && ManagersExist(users)
  }

  /**
   * The validation chain of `register`, in its order: duplicate email, then a
   * falsy managerId, then an unknown managerId, then a non-manager. On success
   * it yields the index of the manager account.
   */
  function ValidateRegistration(users: seq<User>, email: string, managerId: Option<int>): (r: Result<nat, string>)
    ensures r.Ok? ==> r.value < |users| && users[r.value].isManager
    ensures r.Ok? ==> managerId.Some? && users[r.value].id == managerId.value && managerId.value != 0
    ensures r.Ok? ==> forall i :: 0 <= i < |users| ==> users[i].email != email
    ensures (exists i :: 0 <= i < |users| && users[i].email == email) ==> r == Err("User already exists")
    ensures (forall i :: 0 <= i < |users| ==> users[i].email != email) && !TruthyId(managerId) ==>
      r == Err("Manager ID is required")
    ensures ((forall i :: 0 <= i < |users| ==> users[i].email != email) && TruthyId(managerId) &&
             (forall i :: 0 <= i < |users| ==> users[i].id != managerId.value)) ==>
            r == Err("Invalid manager ID")
    ensures r.Ok? ==> IndexOfId(users, managerId.value) == Some(r.value)
    ensures ((forall i :: 0 <= i < |users| ==> users[i].email != email) && TruthyId(managerId) &&
             IndexOfId(users, managerId.value).Some? && !users[IndexOfId(users, managerId.value).value].isManager) ==>
            r == Err("Selected user is not a manager")
    ensures ((forall i :: 0 <= i < |users| ==> users[i].email != email) && TruthyId(managerId) &&
             IndexOfId(users, managerId.value).Some? && users[IndexOfId(users, managerId.value).value].isManager) ==>
            r.Ok?
  {
    if IndexOfEmail(users, email).Some? then Err("User already exists")
    else if !TruthyId(managerId) then Err("Manager ID is required")
    else match IndexOfId(users, managerId.value)
      case None => Err("Invalid manager ID")
      case Some(k) => if !users[k].isManager then Err("Selected user is not a manager") else Ok(k)
  }

  /** The account `register` pushes once validation has passed. */
  function NewAccount(users: seq<User>, form: RegisterForm, hashed: string, manager: User): (u: User)
    ensures u.id == NextId(Ids(users))
    ensures forall i :: 0 <= i < |users| ==> users[i].id < u.id
    ensures u.email == form.email && u.password == hashed && u.managerId == form.managerId
    ensures u.firstName == form.firstName && u.lastName == form.lastName && u.role == form.role
    ensures u.isPrototype == None
    ensures u.isManager <==> form.isManager == Some(true)
    ensures u.managerName == Some(Interpolate(manager.firstName) + " " + Interpolate(manager.lastName))
  {
    User(NextId(Ids(users)), form.email, hashed, form.firstName, form.lastName,
         form.isManager == Some(true), form.managerId,
         Some(Interpolate(manager.firstName) + " " + Interpolate(manager.lastName)),
         form.role, None)
  }

  function RegisterView(u: User): Profile {
    Profile(u.id, u.email, u.firstName, u.lastName, u.isManager, u.managerId, u.managerName, u.role, None)
  }

  function LoginView(u: User): Profile {
    Profile(u.id, u.email, u.firstName, u.lastName, u.isManager, u.managerId, u.managerName, None, None)
  }

  function CurrentUserView(u: User): Profile {
    Profile(u.id, u.email, u.firstName, u.lastName, u.isManager, u.managerId, u.managerName, u.role, u.isPrototype)
  }

  /** A successful registration keeps emails unique, ids unique and every manager reference valid. */
  lemma RegisterKeepsInvariant(users: seq<User>, form: RegisterForm, hashed: string)
    requires RegistryInvariant(users)
    requires ValidateRegistration(users, form.email, form.managerId).Ok?
    ensures RegistryInvariant(users + [NewAccount(users, form, hashed,
      users[ValidateRegistration(users, form.email, form.managerId).value])])
  {
    var k := ValidateRegistration(users, form.email, form.managerId).value;
    var u := NewAccount(users, form, hashed, users[k]);
    var s := users + [u];
    forall i | 0 <= i < |s| && s[i].managerId.Some?
      ensures exists j :: 0 <= j < |s| && s[j].id == s[i].managerId.value && s[j].isManager
    {
      if i < |users| {
        var j :| 0 <= j < |users| && users[j].id == users[i].managerId.value && users[j].isManager;
        assert s[j] == users[j];
      } else {
        assert s[k] == users[k];
      }
    }
  }

  /** The registry of accounts; `users` is the module-level array of authController.ts. */
  class Registry {
    var users: seq<User>

    ghost predicate Valid()
      reads this
    {
      RegistryInvariant(users)
    }

    /** The registry once `initRootUser` has seeded it. */
    constructor (rootHash: string)
      ensures Valid()
      ensures users == [RootUser(rootHash)]
    {
      users := [RootUser(rootHash)];
    }

    /**
     * `register`: `hashed` is bcrypt's hash of the submitted password and `sign`
     * the access-token signer.
     */
    method Register(form: RegisterForm, hashed: string, sign: Claims -> string) returns (r: Reply<RegisterBody>)
      requires Valid()
      modifies this
      ensures Valid()
      ensures var v := ValidateRegistration(old(users), form.email, form.managerId);
        v.Err? ==> r == Failure(400, v.error) && users == old(users)
      ensures var v := ValidateRegistration(old(users), form.email, form.managerId);
        v.Ok? ==>
          var u := NewAccount(old(users), form, hashed, old(users)[v.value]);
          users == old(users) + [u] &&
          r == Success(201, RegisterBody(sign(Claims(u.id, u.email)), RegisterView(u)))
    {
      var v := ValidateRegistration(users, form.email, form.managerId);
      if v.Err? {
        return Failure(400, v.error);
      }
      var u := NewAccount(users, form, hashed, users[v.value]);
      RegisterKeepsInvariant(users, form, hashed);
      users := users + [u];
      r := Success(201, RegisterBody(sign(Claims(u.id, u.email)), RegisterView(u)));
    }
  }

  /**
   * `login`: `matches(password, hash)` is bcrypt's compare. Unknown email and
   * wrong password give the same answer; only the first account with the email is tried.
   */
  function Login(users: seq<User>, email: string, password: string, matches: (string, string) -> bool,
                 signAccess: Claims -> string, signRefresh: Claims -> string): (r: Reply<LoginBody>)
    ensures r.Failure? ==> r == Failure(400, "Invalid credentials")
    ensures r.Success? <==>
      exists i :: 0 <= i < |users| && users[i].email == email && matches(password, users[i].password) &&
        forall j :: 0 <= j < i ==> users[j].email != email
    ensures r.Success? ==>
              (r.status == 200 &&
               exists i :: 0 <= i < |users| && users[i].email == email && matches(password, users[i].password) &&
                 (forall j :: 0 <= j < i ==> users[j].email != email) &&
                 r.body == LoginBody(signAccess(Claims(users[i].id, email)), signRefresh(Claims(users[i].id, email)), LoginView(users[i])))
  {
    match IndexOfEmail(users, email)
    case None => Failure(400, "Invalid credentials")
    case Some(k) =>
      var u := users[k];
      if !matches(password, u.password) then Failure(400, "Invalid credentials")
      else Success(200, LoginBody(signAccess(Claims(u.id, u.email)), signRefresh(Claims(u.id, u.email)), LoginView(u)))
  }

  /** `getCurrentUser`: 404 exactly when no account has the caller's id, else the first account with it. */
  function GetCurrentUser(users: seq<User>, id: int): (r: Reply<Profile>)
    ensures r.Failure? <==> forall i :: 0 <= i < |users| ==> users[i].id != id
    ensures r.Failure? ==> r == Failure(404, "User not found")
    ensures r.Success? ==>
              (r.status == 200 && r.body.id == id &&
               exists i :: 0 <= i < |users| && users[i].id == id && r.body == CurrentUserView(users[i]))
    ensures r.Success? ==> IndexOfId(users, id).Some? && r.body == CurrentUserView(users[IndexOfId(users, id).value])
  {
    match IndexOfId(users, id)
    case None => Failure(404, "User not found")
    case Some(k) => Success(200, CurrentUserView(users[k]))
  }

  /** A freshly registered account can log in with its password and can be looked up by its id. */
  lemma RegisterThenLogin(users: seq<User>, form: RegisterForm, hashed: string, password: string,
                          matches: (string, string) -> bool, signAccess: Claims -> string, signRefresh: Claims -> string)
    requires ValidateRegistration(users, form.email, form.managerId).Ok?
    ensures var u := NewAccount(users, form, hashed, users[ValidateRegistration(users, form.email, form.managerId).value]);
      var r := Login(users + [u], form.email, password, matches, signAccess, signRefresh);
      (r.Success? <==> matches(password, hashed)) &&
      (r.Success? ==> r.body.user == LoginView(u)) &&
      GetCurrentUser(users + [u], u.id) == Success(200, CurrentUserView(u))
  {
    var u := NewAccount(users, form, hashed, users[ValidateRegistration(users, form.email, form.managerId).value]);
    NewestAccountFound(users, u);
  }

  /** An account appended with a new email and an id above all others is the one both lookups find. */
  lemma NewestAccountFound(users: seq<User>, u: User)
    requires forall j :: 0 <= j < |users| ==> users[j].email != u.email && users[j].id < u.id
    ensures IndexOfEmail(users + [u], u.email) == Some(|users|)
    ensures IndexOfId(users + [u], u.id) == Some(|users|)
  {
    var s := users + [u];
    assert s[|users|] == u;
    assert forall j :: 0 <= j < |users| ==> s[j] == users[j];
  }

  predicate IsManagerAccount(u: User) {
    u.isManager
  }

  /** The display name `getManagers` gives: the trimmed "first last", or the email when that is empty. */
  function ManagerEntryOf(u: User): (e: ManagerEntry)
    ensures e.id == u.id && e.email == u.email
    ensures e.name == u.email || (e.name != "" && !IsSpace(e.name[0]) && !IsSpace(e.name[|e.name| - 1]))
    ensures var full := Trim(Or(u.firstName, "") + " " + Or(u.lastName, ""));
      e.name == if full != "" then full else u.email
  {
    var name := Trim(Or(u.firstName, "") + " " + Or(u.lastName, ""));
    if name != "" then
      assert !IsSpace(name[0]) && !IsSpace(name[|name| - 1]);
      ManagerEntry(u.id, name, u.email)
    else
      ManagerEntry(u.id, u.email, u.email)
  }

  /** `getManagers`: the accounts flagged `isManager`, in registry order, each as a ManagerEntry. */
  function GetManagers(users: seq<User>): (r: seq<ManagerEntry>)
    ensures |r| <= |users|
    ensures r == [] <==> forall j :: 0 <= j < |users| ==> !users[j].isManager
  {
    var ms := Filter(users, IsManagerAccount);
    NoManagersIffEmpty(users);
    seq(|ms|, i requires 0 <= i < |ms| => ManagerEntryOf(ms[i]))
  }

  /** The manager accounts are none exactly when the registry has no account flagged `isManager`. */
  lemma NoManagersIffEmpty(users: seq<User>)
    ensures Filter(users, IsManagerAccount) == [] <==> forall j :: 0 <= j < |users| ==> !users[j].isManager
  {
    var ms := Filter(users, IsManagerAccount);
    if ms != [] {
      assert ms[0] in ms;
      var j :| 0 <= j < |users| && users[j] == ms[0];
      assert IsManagerAccount(users[j]);
    } else {
      forall j | 0 <= j < |users| ensures !users[j].isManager {
        assert users[j] in users;
        assert users[j] !in ms;
      }
    }
  }

  /**
   * `getManagers` lists exactly the manager accounts (one entry per account,
   * in registry order, nothing else), each named by its trimmed full name or
   * else its email.
   */
  lemma {:induction false} GetManagersExact(users: seq<User>)
    ensures |GetManagers(users)| == |Filter(users, IsManagerAccount)|
    ensures forall i :: 0 <= i < |GetManagers(users)| ==>
      GetManagers(users)[i] == ManagerEntryOf(Filter(users, IsManagerAccount)[i])
    ensures forall e :: e in GetManagers(users) ==>
      exists j :: 0 <= j < |users| && users[j].isManager && e.id == users[j].id && e.email == users[j].email
    ensures forall j :: 0 <= j < |users| && users[j].isManager ==>
      exists e :: e in GetManagers(users) && e.id == users[j].id
    ensures forall e :: e in GetManagers(users) ==>
      e.name == e.email || (e.name != "" && !IsSpace(e.name[0]) && !IsSpace(e.name[|e.name| - 1]))
  {
    EntriesComeFromManagers(users);
    ManagersAreListed(users);
  }

  /** Every entry of `getManagers` is built from a manager account. */
  lemma {:induction false} EntriesComeFromManagers(users: seq<User>)
    ensures forall e :: e in GetManagers(users) ==>
      exists j :: 0 <= j < |users| && users[j].isManager && e.id == users[j].id && e.email == users[j].email
    ensures forall e :: e in GetManagers(users) ==>
      e.name == e.email || (e.name != "" && !IsSpace(e.name[0]) && !IsSpace(e.name[|e.name| - 1]))
  {
    var r := GetManagers(users);
    forall e | e in r
      ensures exists j :: 0 <= j < |users| && users[j].isManager && e.id == users[j].id && e.email == users[j].email
      ensures e.name == e.email || (e.name != "" && !IsSpace(e.name[0]) && !IsSpace(e.name[|e.name| - 1]))
    {
      var i :| 0 <= i < |r| && r[i] == e;
      EntryFromManager(users, i);
    }
  }

  /** The entry at position i of `getManagers` comes from a manager account. */
  lemma EntryFromManager(users: seq<User>, i: int)
    requires 0 <= i < |GetManagers(users)|
    ensures var e := GetManagers(users)[i];
      (exists j :: 0 <= j < |users| && users[j].isManager && e.id == users[j].id && e.email == users[j].email) &&
      (e.name == e.email || (e.name != "" && !IsSpace(e.name[0]) && !IsSpace(e.name[|e.name| - 1])))
  {
    var ms := Filter(users, IsManagerAccount);
    assert ms[i] in ms;
    var j :| 0 <= j < |users| && users[j] == ms[i];
    assert IsManagerAccount(users[j]);
  }

  /** Every manager account has an entry in `getManagers`. */
  lemma {:induction false} ManagersAreListed(users: seq<User>)
    ensures forall j :: 0 <= j < |users| && users[j].isManager ==>
      exists e :: e in GetManagers(users) && e.id == users[j].id
  {
    var ms := Filter(users, IsManagerAccount);
    var r := GetManagers(users);
    forall j | 0 <= j < |users| && users[j].isManager
      ensures exists e :: e in r && e.id == users[j].id
    {
      assert IsManagerAccount(users[j]) && users[j] in users;
      assert users[j] in ms;
      var i :| 0 <= i < |ms| && ms[i] == users[j];
      assert r[i] == ManagerEntryOf(ms[i]);
      assert r[i] in r;
    }
  }

  /**
   * `refreshToken`: 401 without the cookie, 403 when `verify` (jwt.verify with
   * the refresh secret) rejects it, 404 when its account is gone; otherwise a new
   * access token for that account.
   */
  function RefreshToken(users: seq<User>, cookie: Option<string>, verify: string -> Option<Claims>,
                        signAccess: Claims -> string): (r: Reply<string>)
    ensures !Truthy(cookie) ==> r == Failure(401, "Missing refresh token")
    ensures Truthy(cookie) && verify(cookie.value).None? ==> r == Failure(403, "Invalid or expired refresh token")
    ensures (Truthy(cookie) && verify(cookie.value).Some? &&
             (forall i :: 0 <= i < |users| ==> users[i].id != verify(cookie.value).value.id)) ==>
            r == Failure(404, "User not found")
    ensures r.Success? ==>
              (Truthy(cookie) && verify(cookie.value).Some? && r.status == 200 &&
               exists i :: 0 <= i < |users| && users[i].id == verify(cookie.value).value.id &&
                 r.body == signAccess(Claims(users[i].id, users[i].email)))
    ensures (Truthy(cookie) && verify(cookie.value).Some? &&
             (exists i :: 0 <= i < |users| && users[i].id == verify(cookie.value).value.id)) ==>
            r.Success?
    ensures r.Success? ==>
              (Truthy(cookie) && verify(cookie.value).Some? && IndexOfId(users, verify(cookie.value).value.id).Some? &&
               var k := IndexOfId(users, verify(cookie.value).value.id).value;
               r.body == signAccess(Claims(users[k].id, users[k].email)))
  {
    if !Truthy(cookie) then Failure(401, "Missing refresh token")
    else match verify(cookie.value)
      case None => Failure(403, "Invalid or expired refresh token")
      case Some(claims) =>
        match IndexOfId(users, claims.id)
        case None => Failure(404, "User not found")
        case Some(k) => Success(200, signAccess(Claims(users[k].id, users[k].email)))
  }
}
