/** The credential registry: a stored list of users with unique usernames and a
    "current user" entry set by logging in and cleared by logging out. */
module Auth {
  import opened Wrappers
  import opened Models
  import opened Storage
  import ArrayOps

  /** The stored user list; empty when nothing is stored under the users key. */
  function GetUsers(st: Store): (r: seq<User>)
    ensures st.users.None? ==> r == []
    ensures st.users.Some? ==> r == st.users.value
  {
    match st.users
    case None => []
    case Some(us) => us
  }

  /** The record saved by the last successful login, or nothing when the
      current-user key is unset. */
  function GetCurrentUser(st: Store): (r: Option<User>)
    ensures st.currentUser.None? ==> r == None
    ensures st.currentUser.Some? ==> r == st.currentUser
  {
    st.currentUser
  }

  /** What `register` and `login` leave behind: the new store and the boolean they return. */
  datatype Attempt = Attempt(store: Store, ok: bool)

  /** No two stored users share a username. */
  ghost predicate UniqueUsernames(us: seq<User>) {
    forall i, j :: 0 <= i < |us| && 0 <= j < |us| && us[i].username == us[j].username ==> i == j
  }

  /** The predicate `register` searches the list with. */
  function NamedAs(name: string): User -> bool {
    (u: User) => u.username == name
  }

  /** The predicate `login` searches the list with. */
  function HasCredentials(name: string, password: string): User -> bool {
    (u: User) => u.username == name && u.password == password
  }

  /** Registration succeeds exactly when the username is not taken; a success
      appends the record at the end and touches nothing else, a failure changes nothing. */
  function Register(st: Store, u: User): (r: Attempt)
    ensures r.ok <==> forall v :: v in GetUsers(st) ==> v.username != u.username
    ensures !r.ok ==> r.store == st
    ensures r.ok ==> GetUsers(r.store) == GetUsers(st) + [u]
    ensures r.store.currentUser == st.currentUser && r.store.sessions == st.sessions
  {
    var users := GetUsers(st);
    if ArrayOps.Any(users, NamedAs(u.username)) then Attempt(st, false)
    else Attempt(st.(users := Some(users + [u])), true)
  }

  /** Login succeeds exactly when some stored record carries both the username and
      the password; the first such record becomes the current user. A failed login
      changes nothing, and no login changes the user list or the sessions. */
  function Login(st: Store, name: string, password: string): (r: Attempt)
    ensures r.ok <==> exists i :: 0 <= i < |GetUsers(st)|
                         && GetUsers(st)[i].username == name && GetUsers(st)[i].password == password
    ensures forall i :: ArrayOps.IsFirst(GetUsers(st), HasCredentials(name, password), i) ==>
              r.store == st.(currentUser := Some(GetUsers(st)[i]))
    ensures !r.ok ==> r.store == st
    ensures r.store.users == st.users && r.store.sessions == st.sessions
  {
    var users := GetUsers(st);
    match ArrayOps.FindIndex(users, HasCredentials(name, password))
    case Some(i) => Attempt(st.(currentUser := Some(users[i])), true)
    case None => Attempt(st, false)
  }

  /** Logging out removes the current-user entry and nothing else. */
  function Logout(st: Store): (r: Store)
    ensures GetCurrentUser(r) == None
    ensures r.users == st.users && r.sessions == st.sessions
  {
    st.(currentUser := None)
  }

  /** Registration keeps stored usernames pairwise distinct. */
  lemma RegisterPreservesUnique(st: Store, u: User)
    requires UniqueUsernames(GetUsers(st))
    ensures UniqueUsernames(GetUsers(Register(st, u).store))
  {
  }

  /** A username registered once cannot be registered again, whatever the password. */
  lemma RegisterTwiceFails(st: Store, u: User, u': User)
    requires u'.username == u.username
    ensures !Register(Register(st, u).store, u').ok
  {
  }

  /** After a successful registration the same credentials log in, and the
      current user becomes exactly the registered record. */
  lemma RegisterThenLogin(st: Store, u: User)
    requires Register(st, u).ok
    ensures var st1 := Register(st, u).store;
            Login(st1, u.username, u.password) == Attempt(st1.(currentUser := Some(u)), true)
  {
    var st1 := Register(st, u).store;
    var users := GetUsers(st);
    var users1 := GetUsers(st1);
    var p := HasCredentials(u.username, u.password);
    forall j | 0 <= j < |users|
      ensures !p(users1[j])
    {
      assert users1[j] == users[j];
      assert users[j] in users;
    }
    assert ArrayOps.IsFirst(users1, p, |users|);
  }

  /** After a login attempt `getCurrentUser` reports the first record with both
      credentials when there is one, and otherwise what it reported before. */
  lemma LoginThenGetCurrentUser(st: Store, name: string, password: string)
    ensures forall i :: ArrayOps.IsFirst(GetUsers(st), HasCredentials(name, password), i) ==>
              GetCurrentUser(Login(st, name, password).store) == Some(GetUsers(st)[i])
    ensures Login(st, name, password).ok ==>
              var u := GetCurrentUser(Login(st, name, password).store);
              u.Some? && u.value.username == name && u.value.password == password
    ensures !Login(st, name, password).ok ==>
              GetCurrentUser(Login(st, name, password).store) == GetCurrentUser(st)
  {
  }
}
